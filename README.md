# Biometric prompt sample: authentication screen and result translation

This project models the decision logic of an Android sample app. The app
asks for biometric authentication and falls back to a four-digit PIN. Two
parts of the app are modelled:

- **`BiometricPrompt`** (`BiometricPrompt.dfy`) is the wrapper object around
  the platform prompt. It holds the closed `Result` type (`Success`,
  `UnsupportedAPILevel`, `UnsupportedHardware`, `NotHasBiometricsOnHardware`,
  `Cancel`) and the capability check `available`. It also holds `auth`, which
  turns the SDK level and the prompt's callbacks into results. These are pure
  total functions over the platform's integer codes. The codes carry the
  values of the androidx.biometric and android.os constants.
- **The authentication screen** (`AuthActivity`) reacts to a biometric result
  and runs the PIN pad. The pad has four text slots, `pinCode1` to
  `pinCode4`. For each slot it keeps the last filtered value that the slot's
  `textChanges().skip(1)` stream emitted, as an `Option`. It also keeps the
  focused slot, the error message's visibility and the activity's result.
  - `PinEntry.dfy` states the pad as values. Its functions follow the
    activity's private methods. That includes the text-change notifications
    that `text.clear()` raises while a wrong PIN is being handled. Such a
    notification can produce another join of length 4, which is checked
    again. The model runs that check at once, inside the clear. The check
    sees the same wrong string and fails again, and this is proved, so the
    failure handling ends in the same state whenever the check runs.
  - `AuthActivity.dfy` holds the class `PinPad`. It updates those fields in
    place, one method per private method of the activity. Each method is
    proved equal to the matching function. `Valid()` is the object
    invariant: every slot's last emission is its current text, filtered.

The central results are these:

- `FailureResetsPad`: a wrong PIN always ends in the same state. All slots
  are empty, each has emitted `""`, the error is shown and slot 1 has the
  focus. There is no counter and no lockout.
- `EditMatchesReference`: one edit, with its whole cascade, equals a flat
  reference definition. A join of length 4 is checked against
  `pinCode.toString()`, which is `"3685"`.
- `SilentSlotBlocksCheck`: nothing is checked while some slot has not
  emitted.

The model follows the code:

- There is no `Error` result. Unknown error codes and `onAuthenticationFailed`
  both give `Cancel`.
- `available` does not look at the OS version. Only `auth` checks it.
- The listener can be called more than once, because a failed attempt does
  not end the prompt. So `auth` yields a sequence of results.
- A slot's text is any string. The length-4 test applies to the joined
  string, not to each slot.

## Model

| member | source | states |
|---|---|---|
| `BiometricPrompt.Available` | app/src/main/java/jp/hotdrop/biometricpromptsample/BiometricPrompt.kt:22-27 | available exactly when the capability status is BIOMETRIC_SUCCESS; hardware unavailable, none enrolled and no hardware all give false; no SDK check |
| `BiometricPrompt.OnAuthenticationError` | app/src/main/java/jp/hotdrop/biometricpromptsample/BiometricPrompt.kt:51-68 | total over all codes: UnsupportedHardware exactly for HW_NOT_PRESENT and HW_UNAVAILABLE, NotHasBiometricsOnHardware exactly for NO_BIOMETRICS, Cancel for every other code |
| `BiometricPrompt.Translate` | app/src/main/java/jp/hotdrop/biometricpromptsample/BiometricPrompt.kt:45-75 | a callback reports Success exactly when it is onAuthenticationSucceeded, never reports UnsupportedAPILevel; an error callback reports what `OnAuthenticationError` gives for its code, and a failed attempt reports Cancel |
| `BiometricPrompt.Deliver` | app/src/main/java/jp/hotdrop/biometricpromptsample/BiometricPrompt.kt:45-75 | one listener call per callback, in order, each the callback's translation |
| `BiometricPrompt.Auth` | app/src/main/java/jp/hotdrop/biometricpromptsample/BiometricPrompt.kt:29-76 | below SDK level M the listener gets UnsupportedAPILevel once and nothing else; from M on, one translated result per callback |
| `BiometricPrompt.ApiLevelReportedIff` | app/src/main/java/jp/hotdrop/biometricpromptsample/BiometricPrompt.kt:31-35 | UnsupportedAPILevel is reported exactly when the SDK level is below M |
| `BiometricPrompt.SuccessReportedIff` | app/src/main/java/jp/hotdrop/biometricpromptsample/BiometricPrompt.kt:29-49 | Success is reported exactly when the SDK level is at least M and the platform called onAuthenticationSucceeded |
| `BiometricPrompt.CancellationsReportCancel` | app/src/main/java/jp/hotdrop/biometricpromptsample/BiometricPrompt.kt:63-74 | user cancel, the negative button, platform cancel and a failed attempt all report Cancel |
| `PinEntry.DecimalString` | app/src/main/java/jp/hotdrop/biometricpromptsample/AuthActivity.kt:147 | `toString` of the PIN constant is a non-empty digit string with no leading zero |
| `PinEntry.DecimalStringRoundTrip` | app/src/main/java/jp/hotdrop/biometricpromptsample/AuthActivity.kt:147 | reading the decimal string back gives the number |
| `PinEntry.ExpectedPinIsPinCode` | app/src/main/java/jp/hotdrop/biometricpromptsample/AuthActivity.kt:108 | the string an entered PIN is compared with, "3685", is `pinCode.toString()` |
| `PinEntry.FilterPin` | app/src/main/java/jp/hotdrop/biometricpromptsample/AuthActivity.kt:97-105 | a slot contributes its own text or ""; it contributes something exactly when the text is non-empty and digits only |
| `PinEntry.Joined` | app/src/main/java/jp/hotdrop/biometricpromptsample/AuthActivity.kt:86 | the join is as long as the four values together, starts with slot 1's value and ends with slot 4's |
| `PinEntry.JoinedInOrder` | app/src/main/java/jp/hotdrop/biometricpromptsample/AuthActivity.kt:86 | the join holds slot 1's, slot 2's, slot 3's and slot 4's values one after the other, in that order |
| `PinEntry.Combine` | app/src/main/java/jp/hotdrop/biometricpromptsample/AuthActivity.kt:80-87 | nothing is combined while some slot has not emitted; once all have, the result is their join |
| `PinEntry.AfterFilter` | app/src/main/java/jp/hotdrop/biometricpromptsample/AuthActivity.kt:98-100 | a value moves the focus to the next slot (slot 4 keeps it) and hides the error; "" changes nothing; texts, emissions and result are untouched |
| `PinEntry.Emit` | app/src/main/java/jp/hotdrop/biometricpromptsample/AuthActivity.kt:72-94 | for any pad, one emission leaves the texts as they were or all four empty, never adds a non-empty slot, and keeps a shown error when the value is "" |
| `PinEntry.AuthPinCode` | app/src/main/java/jp/hotdrop/biometricpromptsample/AuthActivity.kt:107-113 | for any pad, the expected PIN sets RESULT_OK and changes nothing else; a wrong PIN leaves all slots empty, the error shown and slot 1 focused; a check never adds text or hides the error |
| `PinEntry.OnSuccessAuth` | app/src/main/java/jp/hotdrop/biometricpromptsample/AuthActivity.kt:115-118 | sets RESULT_OK and changes nothing else |
| `PinEntry.OnFailureAuthWithPinCode` | app/src/main/java/jp/hotdrop/biometricpromptsample/AuthActivity.kt:120-127 | for any pad, with all nested notifications, the failure handling ends with all four slots empty, the error shown and slot 1 focused |
| `PinEntry.ClearText` | app/src/main/java/jp/hotdrop/biometricpromptsample/AuthActivity.kt:122-125 | for any pad, a clear empties its slot and leaves the others as they were, or empties all four; a shown error stays shown |
| `PinEntry.Edit` | app/src/main/java/jp/hotdrop/biometricpromptsample/AuthActivity.kt:72-75 | for any pad, after a user edit slot i holds the new text and the others are unchanged, unless a wrong PIN emptied all four |
| `PinEntry.ClearTextCases` | app/src/main/java/jp/hotdrop/biometricpromptsample/AuthActivity.kt:120-127 | during a wrong-PIN handling, one clear does nothing (empty slot), records "" for the slot, or, when the re-check of an unchanged join fires, resets the pad |
| `PinEntry.ClearTextKeepsSettled` | app/src/main/java/jp/hotdrop/biometricpromptsample/AuthActivity.kt:120-127 | each clear keeps the join at most 4 long and not the PIN, keeps the error shown and the result unchanged, and empties the slots up to this one |
| `PinEntry.FailureResetsPad` | app/src/main/java/jp/hotdrop/biometricpromptsample/AuthActivity.kt:120-127 | a wrong PIN always ends with all slots empty, each having emitted "", the error visible, focus on slot 1 and the result unchanged: no counter, no lockout |
| `PinEntry.EditMatchesReference` | app/src/main/java/jp/hotdrop/biometricpromptsample/AuthActivity.kt:72-105 | an edit with its whole cascade equals the flat reference: emit the filtered value, move focus and hide the error on a value, check only a join of length 4, succeed on the PIN and reset otherwise |
| `PinEntry.EditSucceedsIff` | app/src/main/java/jp/hotdrop/biometricpromptsample/AuthActivity.kt:107-118 | an edit sets RESULT_OK exactly when the four latest values join to "3685" |
| `PinEntry.WrongPinClearsPad` | app/src/main/java/jp/hotdrop/biometricpromptsample/AuthActivity.kt:120-127 | a wrong join of length 4 clears all four slots, shows the error and focuses slot 1 |
| `PinEntry.EntryWithoutCheck` | app/src/main/java/jp/hotdrop/biometricpromptsample/AuthActivity.kt:72-105 | without a length-4 join nothing is checked; a digit entry moves focus to slot i+1 (slot 4 keeps it) and hides the error; other entries change neither |
| `PinEntry.EditKeepsConsistent` | app/src/main/java/jp/hotdrop/biometricpromptsample/AuthActivity.kt:72-75 | after an edit every slot's last emission is still its text, filtered |
| `PinEntry.OnKey` | app/src/main/java/jp/hotdrop/biometricpromptsample/AuthActivity.kt:60-66 | the key event is never consumed; delete pressed down in an empty slot 2 to 4 moves the focus to the previous slot; every other event (slot 1, key up, another key, a non-empty slot) leaves the pad unchanged |
| `PinEntry.DeleteReturnsFocus` | app/src/main/java/jp/hotdrop/biometricpromptsample/AuthActivity.kt:60-66 | delete in the empty next slot undoes the forward move of a digit entry |
| `PinEntry.RunKeepsConsistent` | app/src/main/java/jp/hotdrop/biometricpromptsample/AuthActivity.kt:70-95 | any sequence of edits and key events keeps each slot's last emission equal to its filtered text |
| `PinEntry.SilentSlotBlocksCheck` | app/src/main/java/jp/hotdrop/biometricpromptsample/AuthActivity.kt:72-87 | while a slot has not emitted and is not edited, no PIN is checked: the result is unchanged and the error never appears |
| `PinEntry.RunMatchesReference` | app/src/main/java/jp/hotdrop/biometricpromptsample/AuthActivity.kt:70-105 | from a consistent pad, any sequence of edits and key events ends where the flat reference (each edit checked at most once, no nested notifications) ends |
| `PinEntry.DigitEntered` | app/src/main/java/jp/hotdrop/biometricpromptsample/AuthActivity.kt:72-92 | a digit typed into slot 1, 2 or 3 while slot 4 is empty and every slot holds at most one character is recorded and checks nothing |
| `PinEntry.LastDigitChecked` | app/src/main/java/jp/hotdrop/biometricpromptsample/AuthActivity.kt:85-127 | with three digits in slots 1 to 3, a fourth digit in slot 4 is checked: the expected PIN sets RESULT_OK, other digits clear the pad |
| `PinEntry.FourDigitsChecked` | app/src/main/java/jp/hotdrop/biometricpromptsample/AuthActivity.kt:72-127 | four digits typed in order into four empty slots end with RESULT_OK and the digits in the slots exactly when they spell the PIN, and otherwise in the cleared pad with the error shown |
| `PinEntry.FirstAttemptSucceeds` | app/src/main/java/jp/hotdrop/biometricpromptsample/AuthActivity.kt:80-118 | typing 3, 6, 8, 5 into a fresh screen sets RESULT_OK |
| `PinEntry.WrongLastDigitClears` | app/src/main/java/jp/hotdrop/biometricpromptsample/AuthActivity.kt:80-127 | typing 3, 6, 8, 4 into a fresh screen ends in the cleared pad with the error shown |
| `PinEntry.NoLockout` | app/src/main/java/jp/hotdrop/biometricpromptsample/AuthActivity.kt:77-79 | after any number of wrong PINs, typing the right one still succeeds |
| `AuthActivity.React` | app/src/main/java/jp/hotdrop/biometricpromptsample/AuthActivity.kt:40-46 | only Success authenticates; UnsupportedHardware, NotHasBiometricsOnHardware and Cancel each get their own message, and only UnsupportedAPILevel gets the generic failure message |
| `AuthActivity.ReactIsInjective` | app/src/main/java/jp/hotdrop/biometricpromptsample/AuthActivity.kt:40-46 | different results give different reactions |
| `AuthActivity.PromptMessages` | app/src/main/java/jp/hotdrop/biometricpromptsample/AuthActivity.kt:38-48 | the generic failure message appears exactly on devices below SDK level M |
| `AuthActivity.PinPad.constructor` | app/src/main/java/jp/hotdrop/biometricpromptsample/AuthActivity.kt:31-36 | the prompt starts exactly when the capability status is BIOMETRIC_SUCCESS; the PIN pad is set up either way |
| `AuthActivity.PinPad.OnBiometricResult` | app/src/main/java/jp/hotdrop/biometricpromptsample/AuthActivity.kt:38-48 | Success sets RESULT_OK and shows nothing; every other result leaves the pad alone and shows its message |
| `AuthActivity.PinPad.OnTextChanged` | app/src/main/java/jp/hotdrop/biometricpromptsample/AuthActivity.kt:72-95 | an edit in place does what the flat reference says and keeps the object invariant |
| `AuthActivity.PinPad.OnKey` | app/src/main/java/jp/hotdrop/biometricpromptsample/AuthActivity.kt:60-66 | the listener in place: returns false and changes at most the focus, as `PinEntry.OnKey` |
| `AuthActivity.PinPad.Emit` | app/src/main/java/jp/hotdrop/biometricpromptsample/AuthActivity.kt:72-94 | one emission in place equals `PinEntry.Emit` |
| `AuthActivity.PinPad.GetPinWithFocus` | app/src/main/java/jp/hotdrop/biometricpromptsample/AuthActivity.kt:97-105 | returns the filtered text; a value moves focus to the next slot and hides the error |
| `AuthActivity.PinPad.AuthPinCode` | app/src/main/java/jp/hotdrop/biometricpromptsample/AuthActivity.kt:107-113 | the check in place equals `PinEntry.AuthPinCode` |
| `AuthActivity.PinPad.OnSuccessAuth` | app/src/main/java/jp/hotdrop/biometricpromptsample/AuthActivity.kt:115-118 | sets RESULT_OK (and finishes) and changes nothing else |
| `AuthActivity.PinPad.OnFailureAuthWithPinCode` | app/src/main/java/jp/hotdrop/biometricpromptsample/AuthActivity.kt:120-127 | the failure handling in place, with its nested emissions, equals `PinEntry.OnFailureAuthWithPinCode` |
| `AuthActivity.PinPad.ClearText` | app/src/main/java/jp/hotdrop/biometricpromptsample/AuthActivity.kt:122-125 | one clear in place equals `PinEntry.ClearText` |

## Left out

- Android views, layout, focus rendering, Snackbar display and styling, and string resources. Focus and error visibility are fields, and messages are keys.
- The Rx lifecycle (`CompositeDisposable`, `onDestroy`). Streams are modelled only through each slot's last emitted value.
- The platform biometric stack, the prompt dialog and its `PromptInfo` texts, and the executor thread. Capability statuses, error codes and the SDK level are inputs. Callbacks are taken one at a time.
- Timber logging.
- `MainActivity` and `ResultActivity`: screen navigation only.
- Digits are ASCII '0' to '9'. `isDigitsOnly` also accepts other Unicode decimal digits, which never match the PIN but would count towards the length. Kotlin's `length` counts UTF-16 units; it equals the model's length for ASCII digits.
- A slot's maximum length is set in the layout, which is not part of this model. Slot texts are arbitrary strings.
- The initial screen (empty slots, error hidden, focus on slot 1) is assumed, because the layout is not part of this model.
- `PinEntry.ClearText` and `PinEntry.Emit`: RxJava 2's `combineLatest` does not re-enter. A join emitted while the failure handling is running is queued, and it is checked only after `onFailureAuthWithPinCode` returns. The model checks it at once, inside the clear, so its states in the middle of the failure handling differ from the program's. The end states agree: the queued check sees the same wrong join and clears nothing more (`FailureResetsPad`).
- Two platform behaviours are assumed. Clearing an already-empty text notifies no watcher. Every user edit notifies the slot's stream.
- Focus moved by touching a slot is not modelled; only the app's own `requestFocus` calls change the focus. Edits and key events may arrive at any slot.
