/** The authentication screen: the reaction to the biometric prompt's result,
    and the PIN pad as an object whose methods follow the activity's private
    methods and update its state in place.  Each method is proved to do what
    the matching function of module PinEntry says, so the lemmas proved there
    describe the object too. */
module AuthActivity {
  import opened Wrappers
  import opened PinEntry
  import BiometricPrompt

  /** The string resources the snackbar can show. */
  datatype Message =
    | AuthBiometricUnsupportedHardware
    | AuthBiometricNotHasBiometricsOnHardware
    | AuthBiometricCancel
    | AuthBiometricFailure

  /** What the screen does with one biometric result. */
  datatype Reaction = Authenticated | ShowSnackbar(message: Message)

  /** The `when` in `startBiometricPrompt`: success authenticates; the three
      named failures get their own message; anything else (the unsupported
      API level) gets the generic failure message. */
  function React(r: BiometricPrompt.Result): (x: Reaction)
    ensures x.Authenticated? <==> r.Success?
    ensures x == ShowSnackbar(AuthBiometricFailure) <==> r.UnsupportedAPILevel?
    ensures r.UnsupportedHardware? ==> x == ShowSnackbar(AuthBiometricUnsupportedHardware)
    ensures r.NotHasBiometricsOnHardware? ==> x == ShowSnackbar(AuthBiometricNotHasBiometricsOnHardware)
    ensures r.Cancel? ==> x == ShowSnackbar(AuthBiometricCancel)
  {
    match r
    case Success => Authenticated
    case UnsupportedHardware => ShowSnackbar(AuthBiometricUnsupportedHardware)
    case NotHasBiometricsOnHardware => ShowSnackbar(AuthBiometricNotHasBiometricsOnHardware)
    case Cancel => ShowSnackbar(AuthBiometricCancel)
    case _ => ShowSnackbar(AuthBiometricFailure)
  }

  /** Different results never produce the same reaction. */
  lemma ReactIsInjective(a: BiometricPrompt.Result, b: BiometricPrompt.Result)
    ensures React(a) == React(b) ==> a == b
  {
  }

  /** The messages a prompt can lead to: a device below SDK level M sees
      only the generic failure message, and a prompt on a newer device never
      shows it. */
  lemma PromptMessages(sdkInt: int, signals: seq<BiometricPrompt.Signal>, k: nat)
    requires k < |BiometricPrompt.Auth(sdkInt, signals)|
    ensures var x := React(BiometricPrompt.Auth(sdkInt, signals)[k]);
      x == ShowSnackbar(AuthBiometricFailure) <==> sdkInt < BiometricPrompt.VERSION_CODES_M
  {
  }

  class PinPad {
    var texts: seq<string>
    var emitted: seq<Option<string>>
    var focus: Slot
    var errorVisible: bool
    var outcome: Outcome
    /** `startBiometricPrompt` was called when the screen was set up. */
    var promptStarted: bool

    /** The shape every method keeps, also between the steps of a cascade. */
    predicate Shaped()
      reads this
    {
      |texts| == 4 && |emitted| == 4
    }

    /** The object invariant between events: each slot's last emission is
        its current text, filtered. */
    predicate Valid()
      reads this
    {
      Shaped() && Consistent(Snapshot())
    }

    /** The pad as a value. */
    function Snapshot(): (p: Pad)
      reads this
      ensures Shaped() ==> WellFormed(p)
    {
      Pad(texts, emitted, focus, errorVisible, outcome)
    }

    /** `initView`: the biometric prompt is started only when the capability
        check says it is available; the PIN entry is set up in every case. */
    constructor (capabilityStatus: int)
      ensures Valid() && Snapshot() == Initial
      ensures promptStarted <==> capabilityStatus == BiometricPrompt.BIOMETRIC_SUCCESS
    {
      texts := ["", "", "", ""];
      emitted := [None, None, None, None];
      focus := 1;
      errorVisible := false;
      outcome := NoResult;
      promptStarted := BiometricPrompt.Available(capabilityStatus);
    }

    /** The listener passed to `BiometricPrompt.auth`: success sets RESULT_OK
        and finishes; any other result is shown in a snackbar. */
    method OnBiometricResult(r: BiometricPrompt.Result) returns (snackbar: Option<Message>)
      requires Valid() && promptStarted
      modifies this
      ensures Valid() && promptStarted
      ensures snackbar == (if r.Success? then None else Some(React(r).message))
      ensures Snapshot() == if r.Success? then old(Snapshot()).(outcome := ResultOk) else old(Snapshot())
    {
      match React(r)
      case Authenticated =>
        OnSuccessAuth();
        snackbar := None;
      case ShowSnackbar(m) =>
        snackbar := Some(m);
    }

    /** The user edits slot i so that its text becomes `text`.  The whole
        cascade it sets off ends as the flat reference says. */
    method OnTextChanged(i: Slot, text: string)
      requires Valid()
      modifies this
      ensures Valid() && promptStarted == old(promptStarted)
      ensures Snapshot() == Edit(old(Snapshot()), i, text)
      ensures Snapshot() == EditReference(old(Snapshot()), i, text)
    {
      EditMatchesReference(Snapshot(), i, text);
      EditKeepsConsistent(Snapshot(), i, text);
      texts := texts[i - 1 := text];
      Emit(i);
    }

    /** The key listener of slot i (only slots 2 to 4 have one). */
    method OnKey(i: Slot, action: KeyAction, keyCode: int) returns (consumed: bool)
      requires Valid()
      modifies this
      ensures Valid() && promptStarted == old(promptStarted)
      ensures !consumed
      ensures Snapshot() == PinEntry.OnKey(old(Snapshot()), i, action, keyCode).pad
    {
      if i > 1 && action == ActionDown && keyCode == KEYCODE_DEL && texts[i - 1] == "" {
        focus := i - 1;
      }
      consumed := false;
    }

    /** Slot i's stream emits its current text. */
    method Emit(i: Slot)
      requires Shaped()
      modifies this
      ensures Shaped() && promptStarted == old(promptStarted)
      ensures Snapshot() == PinEntry.Emit(old(Snapshot()), i)
      decreases NonEmptyCount(texts), 3
    {
      var v := GetPinWithFocus(texts[i - 1], i);
      emitted := emitted[i - 1 := Some(v)];
      var c := Combine(emitted);
      if c.Some? && |c.value| == 4 {
        AuthPinCode(c.value);
      }
    }

    /** `getPinWithFocus`: a valid value moves the focus on and hides the
        error; the filtered value is returned. */
    method GetPinWithFocus(currentText: string, i: Slot) returns (v: string)
      modifies this
      ensures v == FilterPin(currentText)
      ensures Snapshot() == AfterFilter(old(Snapshot()), i, v)
      ensures texts == old(texts) && emitted == old(emitted) && promptStarted == old(promptStarted)
    {
      v := FilterPin(currentText);
      if v != "" {
        if i < 4 {
          focus := i + 1;
        }
        errorVisible := false;
      }
    }

    method AuthPinCode(inputPin: string)
      requires Shaped()
      modifies this
      ensures Shaped() && promptStarted == old(promptStarted)
      ensures Snapshot() == PinEntry.AuthPinCode(old(Snapshot()), inputPin)
      decreases NonEmptyCount(texts), 2
    {
      if inputPin == ExpectedPin {
        OnSuccessAuth();
      } else {
        OnFailureAuthWithPinCode();
      }
    }

    method OnSuccessAuth()
      modifies this
      ensures Snapshot() == PinEntry.OnSuccessAuth(old(Snapshot()))
      ensures texts == old(texts) && emitted == old(emitted) && promptStarted == old(promptStarted)
    {
      outcome := ResultOk;
    }

    method OnFailureAuthWithPinCode()
      requires Shaped()
      modifies this
      ensures Shaped() && promptStarted == old(promptStarted)
      ensures Snapshot() == PinEntry.OnFailureAuthWithPinCode(old(Snapshot()))
      decreases NonEmptyCount(texts), 1
    {
      errorVisible := true;
      ClearText(1);
      ClearText(2);
      ClearText(3);
      ClearText(4);
      focus := 1;
    }

    /** `pinCodeK.text.clear()`. */
    method ClearText(k: Slot)
      requires Shaped()
      modifies this
      ensures Shaped() && promptStarted == old(promptStarted)
      ensures Snapshot() == PinEntry.ClearText(old(Snapshot()), k)
      decreases NonEmptyCount(texts), 0
    {
      if texts[k - 1] != "" {
        texts := texts[k - 1 := ""];
        Emit(k);
      }
    }
  }
}
