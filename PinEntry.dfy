/** The PIN entry of the authentication screen, as values: four text slots
    (pinCode1 … pinCode4), the last filtered value each slot's text stream
    emitted, the focused slot, the error message's visibility and the
    activity's result.  The functions follow the activity's private methods
    one by one, including the text-change notifications that clearing a slot
    raises while a failed PIN is being handled; the lemmas then state what one
    edit does without those nested notifications. */
module PinEntry {
  import opened Wrappers

  /** A slot number: 1 is pinCode1, …, 4 is pinCode4. */
  type Slot = i: int | 1 <= i <= 4 witness 1

  /** `pinCode`, the fixed expected PIN. */
  const PinCode: nat := 3685

  predicate IsDigit(c: char) {
    '0' <= c <= '9'
  }

  /** `isDigitsOnly` (true of the empty text). */
  predicate IsDigitsOnly(text: string) {
    forall k :: 0 <= k < |text| ==> IsDigit(text[k])
  }

  function DigitChar(d: nat): (c: char)
    requires d < 10
    ensures IsDigit(c) && c as int - '0' as int == d
  {
    ('0' as int + d) as char
  }

  /** `Int.toString` for a non-negative number: its decimal digits, most
      significant first, with no leading zero. */
  function DecimalString(n: nat): (s: string)
    ensures |s| >= 1 && IsDigitsOnly(s)
    ensures |s| > 1 ==> s[0] != '0'
  {
    if n < 10 then [DigitChar(n)] else DecimalString(n / 10) + [DigitChar(n % 10)]
  }

  /** The number a string of decimal digits denotes. */
  function DecimalValue(s: string): nat
    requires IsDigitsOnly(s)
  {
    if s == [] then 0 else 10 * DecimalValue(s[..|s| - 1]) + (s[|s| - 1] as int - '0' as int)
  }

  /** Reading back the decimal string gives the number. */
  lemma {:induction false} DecimalStringRoundTrip(n: nat)
    ensures DecimalValue(DecimalString(n)) == n
  {
    var s := DecimalString(n);
    if n >= 10 {
      DecimalStringRoundTrip(n / 10);
      assert s[..|s| - 1] == DecimalString(n / 10);
    } else {
      assert s[..|s| - 1] == [];
    }
  }

  /** The string an entered PIN is compared with, written out. */
  const ExpectedPin: string := "3685"

  /** It is `pinCode.toString()`. */
  lemma ExpectedPinIsPinCode()
    ensures ExpectedPin == DecimalString(PinCode)
  {
  }

  /** The value `getPinWithFocus` passes on for a slot's text: the text
      itself when it is non-empty and all digits, and "" otherwise. */
  function FilterPin(text: string): (v: string)
    ensures v == text || v == ""
    ensures v != "" <==> text != "" && IsDigitsOnly(text)
  {
    if text != "" && IsDigitsOnly(text) then text else ""
  }

  /** The activity's result: nothing yet, or RESULT_OK set and finish() called. */
  datatype Outcome = NoResult | ResultOk

  datatype Pad = Pad(
    texts: seq<string>,              // the text of each slot
    emitted: seq<Option<string>>,    // the last filtered value each slot's stream emitted
    focus: Slot,                     // the slot that holds the focus
    errorVisible: bool,              // errorMessage is VISIBLE (otherwise GONE)
    outcome: Outcome)

  predicate WellFormed(p: Pad) {
    |p.texts| == 4 && |p.emitted| == 4
  }

  /** The screen as it is set up: empty slots, no emission past the skipped
      initial one, focus on the first slot, no error shown. */
  const Initial: Pad := Pad(["", "", "", ""], [None, None, None, None], 1, false, NoResult)

  /** The pad after a wrong PIN has been handled. */
  function ClearedPad(outcome: Outcome): Pad {
    Pad(["", "", "", ""], [Some(""), Some(""), Some(""), Some("")], 1, true, outcome)
  }

  predicate AllEmitted(e: seq<Option<string>>)
    requires |e| == 4
  {
    e[0].Some? && e[1].Some? && e[2].Some? && e[3].Some?
  }

  /** `String.format("%s%s%s%s", …)` over the four latest values. */
  function Joined(e: seq<Option<string>>): (s: string)
    requires |e| == 4 && AllEmitted(e)
    ensures |s| == |e[0].value| + |e[1].value| + |e[2].value| + |e[3].value|
    ensures s[..|e[0].value|] == e[0].value && s[|s| - |e[3].value|..] == e[3].value
  {
    e[0].value + e[1].value + e[2].value + e[3].value
  }

  /** The join holds the four values one after the other, in slot order. */
  lemma JoinedInOrder(e: seq<Option<string>>)
    requires |e| == 4 && AllEmitted(e)
    ensures var s, n0, n1 := Joined(e), |e[0].value|, |e[1].value|;
      && s[..n0] == e[0].value
      && s[n0..n0 + n1] == e[1].value
      && s[n0 + n1..|s| - |e[3].value|] == e[2].value
      && s[|s| - |e[3].value|..] == e[3].value
  {
    var a, b, c, d := e[0].value, e[1].value, e[2].value, e[3].value;
    assert Joined(e) == a + b + c + d;
    assert (a + b + c + d)[|a|..|a| + |b|] == b;
    assert (a + b + c + d)[|a| + |b|..|a| + |b| + |c|] == c;
  }

  /** `combineLatest`: nothing until every slot has emitted, then the join. */
  function Combine(e: seq<Option<string>>): (c: Option<string>)
    requires |e| == 4
    ensures c.None? <==> e[0].None? || e[1].None? || e[2].None? || e[3].None?
    ensures c.Some? ==> AllEmitted(e) && c.value == Joined(e)
  {
    if AllEmitted(e) then Some(Joined(e)) else None
  }

  /** The number of non-empty slots; it bounds the clearing cascade. */
  function NonEmptyCount(texts: seq<string>): nat
    requires |texts| == 4
  {
    (if texts[0] != "" then 1 else 0) + (if texts[1] != "" then 1 else 0)
    + (if texts[2] != "" then 1 else 0) + (if texts[3] != "" then 1 else 0)
  }

  /** The effect of `getPinWithFocus` for slot i given its filtered value v:
      a value moves the focus to the next slot (none after slot 4) and hides
      the error message. */
  function AfterFilter(p: Pad, i: Slot, v: string): (r: Pad)
    ensures r.texts == p.texts && r.emitted == p.emitted && r.outcome == p.outcome
    ensures v == "" ==> r == p
    ensures v != "" ==> !r.errorVisible && r.focus == (if i < 4 then i + 1 else p.focus)
  {
    if v != "" then p.(focus := if i < 4 then i + 1 else p.focus, errorVisible := false) else p
  }

  /** Slot i's text stream emits its (already changed) text: the value is
      filtered, the latest values are combined, and a combined string of
      length 4 is checked. */
  function Emit(p: Pad, i: Slot): (r: Pad)
    requires WellFormed(p)
    ensures WellFormed(r)
    ensures NonEmptyCount(r.texts) <= NonEmptyCount(p.texts)
    ensures r.texts == p.texts || r.texts == ["", "", "", ""]
    ensures FilterPin(p.texts[i - 1]) == "" && p.errorVisible ==> r.errorVisible
    decreases NonEmptyCount(p.texts), 3
  {
    var v := FilterPin(p.texts[i - 1]);
    var p1 := AfterFilter(p, i, v).(emitted := p.emitted[i - 1 := Some(v)]);
    var c := Combine(p1.emitted);
    if c.Some? && |c.value| == 4 then AuthPinCode(p1, c.value) else p1
  }

  /** `authPinCode`. */
  function AuthPinCode(p: Pad, inputPin: string): (r: Pad)
    requires WellFormed(p)
    ensures WellFormed(r)
    ensures NonEmptyCount(r.texts) <= NonEmptyCount(p.texts)
    ensures r.texts == p.texts || r.texts == ["", "", "", ""]
    ensures p.errorVisible ==> r.errorVisible
    ensures inputPin == ExpectedPin ==> r == OnSuccessAuth(p)
    ensures inputPin != ExpectedPin ==> r.texts == ["", "", "", ""] && r.errorVisible && r.focus == 1
    decreases NonEmptyCount(p.texts), 2
  {
    if inputPin == ExpectedPin then OnSuccessAuth(p) else OnFailureAuthWithPinCode(p)
  }

  /** `onSuccessAuth`: RESULT_OK is set and the activity finishes. */
  function OnSuccessAuth(p: Pad): (r: Pad)
    ensures r.outcome == ResultOk && r.(outcome := p.outcome) == p
  {
    p.(outcome := ResultOk)
  }

  /** `onFailureAuthWithPinCode`: show the error, clear the four slots in
      order (each clear may notify its stream), then focus the first slot. */
  function OnFailureAuthWithPinCode(p: Pad): (r: Pad)
    requires WellFormed(p)
    ensures WellFormed(r)
    ensures NonEmptyCount(r.texts) <= NonEmptyCount(p.texts)
    ensures r.texts == ["", "", "", ""] && r.errorVisible && r.focus == 1
    decreases NonEmptyCount(p.texts), 1
  {
    var p1 := ClearText(p.(errorVisible := true), 1);
    var p2 := ClearText(p1, 2);
    var p3 := ClearText(p2, 3);
    var p4 := ClearText(p3, 4);
    p4.(focus := 1)
  }

  /** `pinCodeK.text.clear()`: clearing a non-empty text notifies the slot's
      stream; clearing an empty text changes nothing and notifies nobody.  A
      join of length 4 that the notification produces is checked here at
      once, where `combineLatest` would queue it until the failure handling
      returns; the end state is the same (`FailureResetsPad`). */
  function ClearText(p: Pad, k: Slot): (r: Pad)
    requires WellFormed(p)
    ensures WellFormed(r)
    ensures NonEmptyCount(r.texts) <= NonEmptyCount(p.texts)
    ensures r.texts == p.texts[k - 1 := ""] || r.texts == ["", "", "", ""]
    ensures p.errorVisible ==> r.errorVisible
    decreases NonEmptyCount(p.texts), 0
  {
    if p.texts[k - 1] == "" then p else Emit(p.(texts := p.texts[k - 1 := ""]), k)
  }

  /** The user edits slot i so that its text becomes `text`; the edit
      notifies the slot's stream. */
  function Edit(p: Pad, i: Slot, text: string): (r: Pad)
    requires WellFormed(p)
    ensures WellFormed(r)
    ensures r.texts == p.texts[i - 1 := text] || r.texts == ["", "", "", ""]
  {
    Emit(p.(texts := p.texts[i - 1 := text]), i)
  }

  /** Every slot's latest emission is its current text, filtered; a slot that
      has not emitted still holds its initial empty text. */
  predicate Consistent(p: Pad)
    requires WellFormed(p)
  {
    forall j :: 0 <= j < 4 ==>
      p.emitted[j] == Some(FilterPin(p.texts[j])) || (p.emitted[j] == None && p.texts[j] == "")
  }

  /** The state in which a wrong PIN is handled, and which every step of the
      clearing cascade keeps: all slots have emitted, and their join is at
      most four characters long and is not the expected PIN. */
  predicate Settled(p: Pad) {
    && WellFormed(p)
    && Consistent(p)
    && AllEmitted(p.emitted)
    && |Joined(p.emitted)| <= 4
    && Joined(p.emitted) != ExpectedPin
  }

  /** Clearing one slot while a wrong PIN is handled ends in one of three
      states: nothing happens (the slot was empty), the slot is cleared and
      emits "", or the pad is reset.  The reset happens when the slot had
      emitted "" (its text was not digits): the join is then unchanged, is
      checked again, and fails again. */
  lemma {:induction false} ClearTextCases(p: Pad, k: Slot)
    requires Settled(p) && p.errorVisible
    ensures p.texts[k - 1] == "" ==> ClearText(p, k) == p
    ensures p.texts[k - 1] != "" ==>
      ClearText(p, k) == ClearedSlot(p, k) || ClearText(p, k) == ClearedPad(p.outcome)
    decreases NonEmptyCount(p.texts), 0
  {
    if p.texts[k - 1] != "" {
      var q1 := ClearedSlot(p, k);
      ClearTextUnfolds(p, k);
      ClearedSlotSettled(p, k);
      if |Joined(q1.emitted)| == 4 {
        WrongJoinFails(q1);
        ClearedSlotShrinks(p, k);
        FailureResetsPad(q1);
      }
    }
  }

  /** A settled pad's join is not the PIN, so checking it fails. */
  lemma WrongJoinFails(p: Pad)
    requires Settled(p)
    ensures AuthPinCode(p, Joined(p.emitted)) == OnFailureAuthWithPinCode(p)
  {
  }

  /** Clearing a non-empty slot leaves one non-empty slot fewer. */
  lemma ClearedSlotShrinks(p: Pad, k: Slot)
    requires WellFormed(p) && p.texts[k - 1] != ""
    ensures NonEmptyCount(ClearedSlot(p, k).texts) < NonEmptyCount(p.texts)
  {
  }

  /** Hence clearing keeps the pad settled, empties the slot, refills no
      empty slot and leaves the error shown and the result alone. */
  lemma ClearTextKeepsSettled(p: Pad, k: Slot)
    requires Settled(p) && p.errorVisible && EmptyBelow(p, k - 1)
    ensures var r := ClearText(p, k);
      Settled(r) && r.errorVisible && r.outcome == p.outcome && EmptyBelow(r, k)
    decreases NonEmptyCount(p.texts), 1
  {
    ClearTextCases(p, k);
    var r := ClearText(p, k);
    if p.texts[k - 1] == "" {
      EmptyBelowExtends(p, k);
    } else if r == ClearedPad(p.outcome) {
      ClearedPadSettled(p.outcome, k);
    } else {
      assert r == ClearedSlot(p, k);
      ClearedSlotSettled(p, k);
      ClearedSlotEmptyBelow(p, k);
    }
  }

  lemma ClearedPadSettled(outcome: Outcome, n: nat)
    requires n <= 4
    ensures Settled(ClearedPad(outcome)) && ClearedPad(outcome).errorVisible
    ensures EmptyBelow(ClearedPad(outcome), n)
  {
    assert FilterPin("") == "";
  }

  /** The first n slots are empty. */
  predicate EmptyBelow(p: Pad, n: nat)
    requires WellFormed(p) && n <= 4
  {
    forall j :: 0 <= j < n ==> p.texts[j] == ""
  }

  lemma ClearedSlotEmptyBelow(p: Pad, k: Slot)
    requires WellFormed(p) && EmptyBelow(p, k - 1)
    ensures EmptyBelow(ClearedSlot(p, k), k)
  {
  }

  lemma EmptyBelowExtends(p: Pad, k: Slot)
    requires WellFormed(p) && EmptyBelow(p, k - 1) && p.texts[k - 1] == ""
    ensures EmptyBelow(p, k)
  {
  }

  /** Slot k with its text cleared and its "" emission recorded. */
  function ClearedSlot(p: Pad, k: Slot): (q: Pad)
    requires WellFormed(p)
  {
    p.(texts := p.texts[k - 1 := ""], emitted := p.emitted[k - 1 := Some("")])
  }

  /** Recording a cleared slot keeps the pad settled; the join keeps its
      length only if the slot had emitted "", and is then unchanged. */
  lemma ClearedSlotSettled(p: Pad, k: Slot)
    requires Settled(p)
    ensures var q1 := ClearedSlot(p, k);
      && Settled(q1)
      && (|Joined(q1.emitted)| == 4 ==> q1.emitted == p.emitted)
  {
    var q1 := ClearedSlot(p, k);
    ClearedSlotJoin(p, k);
    ClearedSlotConsistent(p, k);
    if |Joined(q1.emitted)| == 4 {
      assert p.emitted[k - 1] == Some("");
      assert q1.emitted == p.emitted;
    }
  }

  /** Clearing slot k takes its value's length off the join. */
  lemma ClearedSlotJoin(p: Pad, k: Slot)
    requires WellFormed(p) && AllEmitted(p.emitted)
    ensures var e := ClearedSlot(p, k).emitted;
      AllEmitted(e) && |Joined(e)| + |p.emitted[k - 1].value| == |Joined(p.emitted)|
  {
  }

  lemma ClearedSlotConsistent(p: Pad, k: Slot)
    requires WellFormed(p) && Consistent(p)
    ensures Consistent(ClearedSlot(p, k))
  {
    assert FilterPin("") == "";
  }

  /** Clearing a non-empty slot once all slots have emitted: the slot emits
      "", which moves no focus, and the join is checked if it is 4 long. */
  lemma ClearTextUnfolds(p: Pad, k: Slot)
    requires WellFormed(p) && AllEmitted(p.emitted) && p.texts[k - 1] != ""
    ensures var q1 := ClearedSlot(p, k);
      && AllEmitted(q1.emitted)
      && ClearText(p, k) == if |Joined(q1.emitted)| == 4 then AuthPinCode(q1, Joined(q1.emitted)) else q1
  {
    var q := p.(texts := p.texts[k - 1 := ""]);
    assert FilterPin("") == "";
    assert AfterFilter(q, k, "") == q;
  }

  /** A wrong PIN leaves the pad in one fixed state whatever the slots held
      and however many wrong PINs came before: all slots empty, each having
      emitted "", the error shown, the focus on slot 1, the result unchanged.
      There is no attempt counter and no lockout. */
  lemma {:induction false} FailureResetsPad(p: Pad)
    requires Settled(p)
    ensures OnFailureAuthWithPinCode(p) == ClearedPad(p.outcome)
    decreases NonEmptyCount(p.texts), 3
  {
    var p0 := p.(errorVisible := true);
    var p4 := ClearText(ClearText(ClearText(ClearText(p0, 1), 2), 3), 4);
    assert OnFailureAuthWithPinCode(p) == p4.(focus := 1);
    ClearAllKeepsSettled(p0);
    EmptySettledIsCleared(p4);
  }

  /** The four clears in a row leave a settled pad with every slot empty. */
  lemma ClearAllKeepsSettled(p: Pad)
    requires Settled(p) && p.errorVisible
    ensures var r := ClearText(ClearText(ClearText(ClearText(p, 1), 2), 3), 4);
      Settled(r) && r.errorVisible && r.outcome == p.outcome && EmptyBelow(r, 4)
    decreases NonEmptyCount(p.texts), 2
  {
    var p1 := ClearText(p, 1);
    var p2 := ClearText(p1, 2);
    var p3 := ClearText(p2, 3);
    ClearTextKeepsSettled(p, 1);
    ClearTextKeepsSettled(p1, 2);
    ClearTextKeepsSettled(p2, 3);
    ClearTextKeepsSettled(p3, 4);
  }

  /** A settled pad whose slots are all empty has had every slot emit "". */
  lemma EmptySettledIsCleared(p: Pad)
    requires Settled(p) && p.errorVisible && EmptyBelow(p, 4)
    ensures p.(focus := 1) == ClearedPad(p.outcome)
  {
    assert FilterPin("") == "";
    assert p.texts == ["", "", "", ""];
    assert p.emitted == [Some(""), Some(""), Some(""), Some("")];
  }

  /** Slot i after the user's edit and its emission: the slot takes the
      text and records its filtered value; a non-empty value moves the focus
      on (slot 4 keeps it) and hides the error. */
  function Entered(p: Pad, i: Slot, text: string): (r: Pad)
    requires WellFormed(p)
    ensures WellFormed(r)
  {
    var v := FilterPin(text);
    Pad(p.texts[i - 1 := text], p.emitted[i - 1 := Some(v)],
        if v != "" && i < 4 then i + 1 else p.focus,
        p.errorVisible && v == "",
        p.outcome)
  }

  /** What one edit of slot i does, stated without the nested notifications:
      once all four slots have emitted, a join of length 4 is checked, the
      expected PIN giving RESULT_OK and any other join the cleared pad. */
  function EditReference(p: Pad, i: Slot, text: string): Pad
    requires WellFormed(p)
  {
    var entered := Entered(p, i, text);
    var e := entered.emitted;
    if AllEmitted(e) && |Joined(e)| == 4 then
      (if Joined(e) == ExpectedPin then entered.(outcome := ResultOk) else ClearedPad(p.outcome))
    else entered
  }

  /** One level of an edit: the emission, then the check of a length-4 join. */
  lemma EditUnfolds(p: Pad, i: Slot, text: string)
    requires WellFormed(p)
    ensures var p1 := Entered(p, i, text);
      Edit(p, i, text)
      == if AllEmitted(p1.emitted) && |Joined(p1.emitted)| == 4 then AuthPinCode(p1, Joined(p1.emitted)) else p1
  {
  }

  /** The edit, with its cascade of notifications, behaves as the reference. */
  lemma EditMatchesReference(p: Pad, i: Slot, text: string)
    requires WellFormed(p) && Consistent(p)
    ensures Edit(p, i, text) == EditReference(p, i, text)
  {
    var p1 := Entered(p, i, text);
    EditUnfolds(p, i, text);
    if AllEmitted(p1.emitted) && |Joined(p1.emitted)| == 4 && Joined(p1.emitted) != ExpectedPin {
      assert Settled(p1);
      FailureResetsPad(p1);
    }
  }

  /** From a consistent pad, an edit completes the PIN exactly when the
      latest four values, with the new one, join to the expected PIN. */
  lemma EditSucceedsIff(p: Pad, i: Slot, text: string)
    requires WellFormed(p) && Consistent(p) && p.outcome == NoResult
    ensures Edit(p, i, text).outcome == ResultOk
            <==> Combine(p.emitted[i - 1 := Some(FilterPin(text))]) == Some(ExpectedPin)
  {
    EditMatchesReference(p, i, text);
  }

  /** A wrong four-character join shows the error, clears every slot and
      puts the focus on slot 1. */
  lemma WrongPinClearsPad(p: Pad, i: Slot, text: string)
    requires WellFormed(p) && Consistent(p)
    requires var c := Combine(p.emitted[i - 1 := Some(FilterPin(text))]);
      c.Some? && |c.value| == 4 && c.value != ExpectedPin
    ensures var r := Edit(p, i, text);
      r.texts == ["", "", "", ""] && r.errorVisible && r.focus == 1 && r.outcome == p.outcome
  {
    EditMatchesReference(p, i, text);
  }

  /** A digit entry that does not complete a four-character join moves the
      focus to the next slot (slot 4 keeps it) and hides the error; other
      entries leave focus and error alone.  No check is made. */
  lemma EntryWithoutCheck(p: Pad, i: Slot, text: string)
    requires WellFormed(p) && Consistent(p)
    requires var c := Combine(p.emitted[i - 1 := Some(FilterPin(text))]);
      c.None? || |c.value| != 4
    ensures var r := Edit(p, i, text);
      && r.outcome == p.outcome
      && r.texts == p.texts[i - 1 := text]
      && r.emitted == p.emitted[i - 1 := Some(FilterPin(text))]
      && (text != "" && IsDigitsOnly(text) ==> r.focus == (if i < 4 then i + 1 else p.focus) && !r.errorVisible)
      && (!(text != "" && IsDigitsOnly(text)) ==> r.focus == p.focus && r.errorVisible == p.errorVisible)
  {
    EditMatchesReference(p, i, text);
  }

  /** An edit keeps the pad consistent. */
  lemma EditKeepsConsistent(p: Pad, i: Slot, text: string)
    requires WellFormed(p) && Consistent(p)
    ensures Consistent(Edit(p, i, text))
  {
    EditMatchesReference(p, i, text);
    EnteredConsistent(p, i, text);
    assert FilterPin("") == "";
  }

  lemma EnteredConsistent(p: Pad, i: Slot, text: string)
    requires WellFormed(p) && Consistent(p)
    ensures Consistent(Entered(p, i, text))
  {
  }

  datatype KeyAction = ActionDown | ActionUp | ActionMultiple

  /** KeyEvent.KEYCODE_DEL. */
  const KEYCODE_DEL: int := 67

  datatype KeyResult = KeyResult(pad: Pad, consumed: bool)

  /** The key listener `setDeleteKeyEvent` installs on slots 2, 3 and 4:
      delete pressed down in an empty slot focuses the previous slot.  Slot 1
      has no listener.  The event is never consumed. */
  function OnKey(p: Pad, i: Slot, action: KeyAction, keyCode: int): (r: KeyResult)
    requires WellFormed(p)
    ensures !r.consumed
    ensures r.pad == p.(focus := r.pad.focus)
    ensures r.pad.focus != p.focus ==> i > 1 && r.pad.focus == i - 1 && p.texts[i - 1] == ""
    ensures i > 1 && action == ActionDown && keyCode == KEYCODE_DEL && p.texts[i - 1] == "" ==> r.pad.focus == i - 1
    ensures !(i > 1 && action == ActionDown && keyCode == KEYCODE_DEL && p.texts[i - 1] == "") ==> r.pad == p
  {
    if i > 1 && action == ActionDown && keyCode == KEYCODE_DEL && p.texts[i - 1] == "" then
      KeyResult(p.(focus := i - 1), false)
    else
      KeyResult(p, false)
  }

  /** Delete undoes a forward move: after a digit entry in slot i < 4 that
      triggers no check, pressing delete in the (empty) next slot gives the
      focus back to slot i. */
  lemma DeleteReturnsFocus(p: Pad, i: Slot, text: string)
    requires WellFormed(p) && Consistent(p) && i < 4
    requires text != "" && IsDigitsOnly(text) && p.texts[i] == ""
    requires var c := Combine(p.emitted[i - 1 := Some(text)]);
      c.None? || |c.value| != 4
    ensures var r := Edit(p, i, text);
      r.focus == i + 1 && OnKey(r, i + 1, ActionDown, KEYCODE_DEL).pad.focus == i
  {
    EditMatchesReference(p, i, text);
  }

  /** What reaches the PIN pad: an edit of a slot's text, or a key event. */
  datatype PinEvent =
    | Edited(slot: Slot, text: string)
    | KeyPressed(slot: Slot, action: KeyAction, keyCode: int)

  function Step(p: Pad, ev: PinEvent): (r: Pad)
    requires WellFormed(p)
    ensures WellFormed(r)
  {
    match ev
    case Edited(i, text) => Edit(p, i, text)
    case KeyPressed(i, action, keyCode) => OnKey(p, i, action, keyCode).pad
  }

  function Run(p: Pad, events: seq<PinEvent>): (r: Pad)
    requires WellFormed(p)
    ensures WellFormed(r)
    decreases |events|
  {
    if events == [] then p else Run(Step(p, events[0]), events[1..])
  }

  /** Consistency holds from the initial pad on, whatever the events. */
  lemma {:induction false} RunKeepsConsistent(p: Pad, events: seq<PinEvent>)
    requires WellFormed(p) && Consistent(p)
    ensures Consistent(Run(p, events))
    decreases |events|
  {
    if events != [] {
      if events[0].Edited? {
        EditKeepsConsistent(p, events[0].slot, events[0].text);
      }
      RunKeepsConsistent(Step(p, events[0]), events[1..]);
    }
  }

  /** One event that does not edit slot j, while slot j has not emitted:
      no check, the result unchanged, the error not newly shown. */
  lemma SilentSlotStep(p: Pad, ev: PinEvent, j: Slot)
    requires WellFormed(p) && Consistent(p) && p.emitted[j - 1] == None
    requires !(ev.Edited? && ev.slot == j)
    ensures var r := Step(p, ev);
      && Consistent(r) && r.outcome == p.outcome && r.emitted[j - 1] == None
      && (r.errorVisible ==> p.errorVisible)
  {
    if ev.Edited? {
      EditMatchesReference(p, ev.slot, ev.text);
      assert !AllEmitted(Entered(p, ev.slot, ev.text).emitted);
    }
  }

  /** `skip(1)` with `combineLatest`: while some slot j has not emitted and
      no event edits it, no PIN is checked, so the result stays as it was,
      the error message never appears and slot j still has not emitted. */
  lemma {:induction false} SilentSlotBlocksCheck(p: Pad, events: seq<PinEvent>, j: Slot)
    requires WellFormed(p) && Consistent(p) && p.emitted[j - 1] == None
    requires forall k :: 0 <= k < |events| ==> !(events[k].Edited? && events[k].slot == j)
    ensures var r := Run(p, events);
      r.outcome == p.outcome && r.emitted[j - 1] == None && (r.errorVisible ==> p.errorVisible)
    decreases |events|
  {
    if events != [] {
      SilentSlotStep(p, events[0], j);
      SilentSlotBlocksCheck(Step(p, events[0]), events[1..], j);
    }
  }

  /** `Step` stated without the nested notifications. */
  function StepReference(p: Pad, ev: PinEvent): (r: Pad)
    requires WellFormed(p)
    ensures WellFormed(r)
  {
    match ev
    case Edited(i, text) => EditReference(p, i, text)
    case KeyPressed(i, action, keyCode) => OnKey(p, i, action, keyCode).pad
  }

  function RunReference(p: Pad, events: seq<PinEvent>): (r: Pad)
    requires WellFormed(p)
    ensures WellFormed(r)
    decreases |events|
  {
    if events == [] then p else RunReference(StepReference(p, events[0]), events[1..])
  }

  /** From a consistent pad, any sequence of events does what the flat
      reference says, and the pad stays consistent. */
  lemma {:induction false} RunMatchesReference(p: Pad, events: seq<PinEvent>)
    requires WellFormed(p) && Consistent(p)
    ensures Run(p, events) == RunReference(p, events)
    decreases |events|
  {
    if events != [] {
      var ev := events[0];
      if ev.Edited? {
        EditMatchesReference(p, ev.slot, ev.text);
        EditKeepsConsistent(p, ev.slot, ev.text);
      }
      RunMatchesReference(Step(p, ev), events[1..]);
    }
  }

  /** Typing one digit into each slot, in order. */
  function Typed(a: char, b: char, c: char, d: char): seq<PinEvent> {
    [Edited(1, [a]), Edited(2, [b]), Edited(3, [c]), Edited(4, [d])]
  }

  /** Four events in a row. */
  lemma RunReferenceFour(p: Pad, e1: PinEvent, e2: PinEvent, e3: PinEvent, e4: PinEvent)
    requires WellFormed(p)
    ensures RunReference(p, [e1, e2, e3, e4])
            == StepReference(StepReference(StepReference(StepReference(p, e1), e2), e3), e4)
  {
    var p1 := StepReference(p, e1);
    var p2 := StepReference(p1, e2);
    var p3 := StepReference(p2, e3);
    assert [e1, e2, e3, e4][1..] == [e2, e3, e4];
    assert [e2, e3, e4][1..] == [e3, e4];
    assert [e3, e4][1..] == [e4];
    assert [e4][1..] == [];
    calc {
      RunReference(p, [e1, e2, e3, e4]);
      RunReference(p1, [e2, e3, e4]);
      RunReference(p2, [e3, e4]);
      RunReference(p3, [e4]);
      RunReference(StepReference(p3, e4), []);
    }
  }

  /** A digit typed into one of the first three slots while slot 4 is
      empty, every slot holding at most one character: the digit is recorded
      and, the join being shorter than four, nothing is checked. */
  lemma DigitEntered(p: Pad, i: Slot, x: char)
    requires WellFormed(p) && Consistent(p) && IsDigit(x) && i < 4
    requires |p.texts[0]| <= 1 && |p.texts[1]| <= 1 && |p.texts[2]| <= 1 && p.texts[3] == ""
    ensures var r := StepReference(p, Edited(i, [x]));
      && Consistent(r) && r.outcome == p.outcome
      && r.texts == p.texts[i - 1 := [x]]
      && r.emitted == p.emitted[i - 1 := Some([x])]
  {
    var e := Entered(p, i, [x]).emitted;
    assert FilterPin([x]) == [x];
    if AllEmitted(e) {
      assert |e[0].value| <= 1 && |e[1].value| <= 1 && |e[2].value| <= 1;
      assert e[3] == Some("");
      assert |Joined(e)| < 4;
    }
  }

  /** The fourth digit completes a join of four and is checked. */
  lemma LastDigitChecked(p: Pad, a: char, b: char, c: char, d: char)
    requires WellFormed(p) && IsDigit(d)
    requires p.texts[0] == [a] && p.texts[1] == [b] && p.texts[2] == [c] && p.texts[3] == ""
    requires p.emitted[0] == Some([a]) && p.emitted[1] == Some([b]) && p.emitted[2] == Some([c])
    ensures var r := StepReference(p, Edited(4, [d]));
      if [a, b, c, d] == ExpectedPin then r.outcome == ResultOk && r.texts == [[a], [b], [c], [d]]
      else r == ClearedPad(p.outcome)
  {
    var e := Entered(p, 4, [d]).emitted;
    assert FilterPin([d]) == [d];
    assert Joined(e) == [a, b, c, d];
  }

  /** Four digits typed into four empty slots are checked exactly once:
      the expected PIN sets RESULT_OK, any other digits give the cleared
      pad with the error shown. */
  lemma FourDigitsChecked(p: Pad, a: char, b: char, c: char, d: char)
    requires WellFormed(p) && Consistent(p) && p.texts == ["", "", "", ""]
    requires IsDigit(a) && IsDigit(b) && IsDigit(c) && IsDigit(d)
    ensures var r := Run(p, Typed(a, b, c, d));
      if [a, b, c, d] == ExpectedPin then r.outcome == ResultOk && r.texts == [[a], [b], [c], [d]]
      else r == ClearedPad(p.outcome)
  {
    RunMatchesReference(p, Typed(a, b, c, d));
    RunReferenceFour(p, Edited(1, [a]), Edited(2, [b]), Edited(3, [c]), Edited(4, [d]));
    DigitEntered(p, 1, a);
    var p1 := StepReference(p, Edited(1, [a]));
    DigitEntered(p1, 2, b);
    var p2 := StepReference(p1, Edited(2, [b]));
    DigitEntered(p2, 3, c);
    var p3 := StepReference(p2, Edited(3, [c]));
    LastDigitChecked(p3, a, b, c, d);
  }

  /** Typing the expected PIN into the four slots in order. */
  const CorrectEntry: seq<PinEvent> := Typed('3', '6', '8', '5')

  /** From a fresh screen the expected PIN succeeds. */
  lemma FirstAttemptSucceeds()
    ensures Run(Initial, CorrectEntry).outcome == ResultOk
  {
    FourDigitsChecked(Initial, '3', '6', '8', '5');
  }

  /** From a fresh screen "3684" shows the error and clears the pad. */
  lemma WrongLastDigitClears()
    ensures Run(Initial, Typed('3', '6', '8', '4')) == ClearedPad(NoResult)
  {
    FourDigitsChecked(Initial, '3', '6', '8', '4');
  }

  /** After any number of wrong PINs the expected PIN still succeeds. */
  lemma NoLockout(outcome: Outcome)
    ensures Run(ClearedPad(outcome), CorrectEntry).outcome == ResultOk
  {
    assert FilterPin("") == "";
    FourDigitsChecked(ClearedPad(outcome), '3', '6', '8', '5');
  }
}
