/** The `BiometricPrompt` object: the closed result type handed to the
    listener, the capability check, and the translation of the platform
    prompt's callbacks into results.  The platform's capability statuses,
    error codes and SDK level are plain integer inputs carrying the values
    of the androidx.biometric and android.os constants. */
module BiometricPrompt {

  /** `BiometricPrompt.Result`: the five outcomes a listener can receive. */
  datatype Result =
    | Success
    | UnsupportedAPILevel
    | UnsupportedHardware
    | NotHasBiometricsOnHardware
    | Cancel

  // Statuses returned by BiometricManager.canAuthenticate().
  const BIOMETRIC_SUCCESS: int := 0
  const BIOMETRIC_ERROR_HW_UNAVAILABLE: int := 1
  const BIOMETRIC_ERROR_NONE_ENROLLED: int := 11
  const BIOMETRIC_ERROR_NO_HARDWARE: int := 12

  // Error codes passed to AuthenticationCallback.onAuthenticationError.
  const ERROR_HW_UNAVAILABLE: int := 1
  const ERROR_CANCELED: int := 5
  const ERROR_USER_CANCELED: int := 10
  const ERROR_NO_BIOMETRICS: int := 11
  const ERROR_HW_NOT_PRESENT: int := 12
  const ERROR_NEGATIVE_BUTTON: int := 13

  /** Build.VERSION_CODES.M: below this SDK level no prompt is built. */
  const VERSION_CODES_M: int := 23

  /** `available`: only the "ready" status counts as available; the
      function does not look at the SDK level. */
  function Available(status: int): (r: bool)
    ensures r <==> status == BIOMETRIC_SUCCESS
    ensures (|| status == BIOMETRIC_ERROR_HW_UNAVAILABLE
             || status == BIOMETRIC_ERROR_NONE_ENROLLED
             || status == BIOMETRIC_ERROR_NO_HARDWARE) ==> !r
  {
    if status == BIOMETRIC_SUCCESS then true else false
  }

  /** One call of the platform's authentication callback. */
  datatype Signal =
    | AuthenticationSucceeded
    | AuthenticationError(errorCode: int)
    | AuthenticationFailed

  /** The `when (errorCode)` of `onAuthenticationError`: total over all
      codes; an error never reports success or an API-level problem. */
  function OnAuthenticationError(errorCode: int): (r: Result)
    ensures r.UnsupportedHardware? <==> errorCode == ERROR_HW_NOT_PRESENT || errorCode == ERROR_HW_UNAVAILABLE
    ensures r.NotHasBiometricsOnHardware? <==> errorCode == ERROR_NO_BIOMETRICS
    ensures r.Cancel? <==> (&& errorCode != ERROR_HW_NOT_PRESENT
                            && errorCode != ERROR_HW_UNAVAILABLE
                            && errorCode != ERROR_NO_BIOMETRICS)
  {
    if errorCode == ERROR_HW_NOT_PRESENT || errorCode == ERROR_HW_UNAVAILABLE then UnsupportedHardware
    else if errorCode == ERROR_NO_BIOMETRICS then NotHasBiometricsOnHardware
    else Cancel
  }

  /** What the listener receives for one callback.  A non-terminal failed
      attempt is reported as `Cancel`, like an unknown error code. */
  function Translate(s: Signal): (r: Result)
    ensures r != UnsupportedAPILevel
    ensures r.Success? <==> s.AuthenticationSucceeded?
    ensures s.AuthenticationError? ==> r == OnAuthenticationError(s.errorCode)
    ensures s.AuthenticationFailed? ==> r == Cancel
  {
    match s
    case AuthenticationSucceeded => Success
    case AuthenticationError(code) => OnAuthenticationError(code)
    case AuthenticationFailed => Cancel
  }

  /** The listener calls made for a sequence of callbacks, in order.  The
      platform may call back more than once (a failed attempt does not end
      the prompt), so a prompt yields a sequence of results. */
  function Deliver(signals: seq<Signal>): (r: seq<Result>)
    ensures |r| == |signals|
    ensures forall k :: 0 <= k < |r| ==> r[k] == Translate(signals[k])
  {
    if signals == [] then [] else [Translate(signals[0])] + Deliver(signals[1..])
  }

  /** `auth`: below SDK level M the listener gets `UnsupportedAPILevel`
      once and no prompt is built; otherwise every callback is translated. */
  function Auth(sdkInt: int, signals: seq<Signal>): (r: seq<Result>)
    ensures sdkInt < VERSION_CODES_M ==> r == [UnsupportedAPILevel]
    ensures sdkInt >= VERSION_CODES_M ==>
      |r| == |signals| && forall k :: 0 <= k < |r| ==> r[k] == Translate(signals[k])
  {
    if sdkInt < VERSION_CODES_M then [UnsupportedAPILevel] else Deliver(signals)
  }

  /** `UnsupportedAPILevel` is reported exactly when the SDK level is below M. */
  lemma ApiLevelReportedIff(sdkInt: int, signals: seq<Signal>)
    ensures UnsupportedAPILevel in Auth(sdkInt, signals) <==> sdkInt < VERSION_CODES_M
  {
  }

  /** `Success` is reported exactly when a prompt was built and the
      platform called `onAuthenticationSucceeded`. */
  lemma SuccessReportedIff(sdkInt: int, signals: seq<Signal>)
    ensures Success in Auth(sdkInt, signals)
            <==> sdkInt >= VERSION_CODES_M && AuthenticationSucceeded in signals
  {
    if sdkInt >= VERSION_CODES_M {
      var r := Deliver(signals);
      if AuthenticationSucceeded in signals {
        var k :| 0 <= k < |signals| && signals[k] == AuthenticationSucceeded;
        assert r[k] == Success;
      }
      if Success in r {
        var k :| 0 <= k < |r| && r[k] == Success;
        assert signals[k] == AuthenticationSucceeded;
      }
    }
  }

  /** The user cancelling, pressing the negative button ("authenticate with
      the PIN"), or the platform cancelling all report `Cancel`. */
  lemma CancellationsReportCancel()
    ensures OnAuthenticationError(ERROR_USER_CANCELED) == Cancel
    ensures OnAuthenticationError(ERROR_NEGATIVE_BUTTON) == Cancel
    ensures OnAuthenticationError(ERROR_CANCELED) == Cancel
    ensures Translate(AuthenticationFailed) == Cancel
  {
  }
}
