/** The low-level events injectKeyEvent writes for one key request, in order. */
module Injection {
  import opened Words
  import opened InputCodes
  import opened Keymap
  import opened Syscalls

  type byte = x: int | 0 <= x < 256

  /** The parts of a KeyEvent the injection reads: the key identifier, the event
      type (copied into the event value) and the bytes of the text. */
  datatype KeyEvent = KeyEvent(key: int32, eventType: int32, text: seq<byte>)

  /** The first byte of the text's C string: the terminating zero when it is empty. */
  function FirstChar(text: seq<byte>): (c: byte)
    ensures c == (text + [0])[0]
  {
    if |text| == 0 then 0 else text[0]
  }

  /** The first characters for which a right-shift event is written before anything
      else: '>'..'Z', '!'..'&', '('..'+', '^'..'_', '{'..'}' and '<'. */
  predicate TextNeedsShift(c: int): (r: bool)
    ensures r ==> 0x21 <= c <= 0x7D
  {
    || ('>' as int <= c <= 'Z' as int)
    || ('!' as int <= c <= '&' as int)
    || ('(' as int <= c <= '+' as int)
    || ('^' as int <= c <= '_' as int)
    || ('{' as int <= c <= '}' as int)
    || c == '<' as int
  }

  /** The event the text check writes: the only field set besides the zeroed ones
      is the code, so its value is 0. */
  const RightShiftEvent: InputEvent := InputEvent(EV_KEY, KEY_RIGHTSHIFT, 0)

  const SyncEvent: InputEvent := InputEvent(EV_SYN, SYN_REPORT, 0)

  function ShiftEvent(value: int32): InputEvent
  {
    InputEvent(EV_KEY, KEY_LEFTSHIFT, value)
  }

  function KeyEventOf(code: int, value: int32): InputEvent
  {
    InputEvent(EV_KEY, Truncate16(code), value)
  }

  /** The right shift written because of the text, if any. */
  function TextShiftWrites(text: seq<byte>): seq<InputEvent>
  {
    if TextNeedsShift(FirstChar(text)) then [RightShiftEvent] else []
  }

  /** The left shift written because the translation asks for shift, if any. */
  function ModifierWrites(t: Translation, value: int32): seq<InputEvent>
  {
    if t.shiftRequired then [ShiftEvent(value)] else []
  }

  /** The synchronisation written after a release, if any. */
  function SyncWrites(value: int32, keyRelease: int32): seq<InputEvent>
  {
    if value == keyRelease then [SyncEvent] else []
  }

  /** The events written for a key whose text is text, whose translation is t and
      whose event type is value. */
  function TranslatedWrites(text: seq<byte>, t: Translation, value: int32, keyRelease: int32): (w: seq<InputEvent>)
    ensures var a, b := Count(TextNeedsShift(FirstChar(text))), Count(t.shiftRequired);
      && |w| == a + b + 1 + Count(value == keyRelease)
      && w[a + b] == KeyEventOf(t.code, value)
  {
    TextShiftWrites(text)
    + ModifierWrites(t, value)
    + [KeyEventOf(t.code, value)]
    + SyncWrites(value, keyRelease)
  }

  /** The events written for e, in order; keyRelease is KeyEvent::KeyRelease. */
  function KeyEventWrites(e: KeyEvent, tag: KeyTag, keyRelease: int32): (w: seq<InputEvent>)
    ensures 1 <= |w| <= 4
    ensures KeyEventOf(LookupCode(e.key, tag, false).code, e.eventType) in w
  {
    TranslatedWrites(e.text, LookupCode(e.key, tag, false), e.eventType, keyRelease)
  }

  /** Writing the events of a key on fd is the code's sequence of guarded writes:
      the right shift if the text asks for it, the left shift if the translation
      does, the key, and the synchronisation on release. */
  lemma WritesAsIssued(kernel: Kernel, log: seq<Call>, fd: int, text: seq<byte>, t: Translation,
                       value: int32, keyRelease: int32)
    ensures IssueAll(kernel, log, WriteRequests(fd, TranslatedWrites(text, t, value, keyRelease)))
         == IssueIf(kernel,
              Issue(kernel,
                IssueIf(kernel,
                  IssueIf(kernel, log, TextNeedsShift(FirstChar(text)), Write(fd, Event(RightShiftEvent))),
                  t.shiftRequired, Write(fd, Event(ShiftEvent(value)))),
                Write(fd, Event(KeyEventOf(t.code, value)))),
              value == keyRelease, Write(fd, Event(SyncEvent)))
  {
    var a, b, c, d := TextShiftWrites(text), ModifierWrites(t, value), [KeyEventOf(t.code, value)], SyncWrites(value, keyRelease);
    WritesSplit(kernel, log, fd, a + b + c, d);
    WritesSplit(kernel, log, fd, a + b, c);
    WritesSplit(kernel, log, fd, a, b);
    var la := IssueAll(kernel, log, WriteRequests(fd, a));
    var lb := IssueAll(kernel, la, WriteRequests(fd, b));
    var lc := IssueAll(kernel, lb, WriteRequests(fd, c));
    WriteIfPresent(kernel, log, fd, TextNeedsShift(FirstChar(text)), RightShiftEvent);
    WriteIfPresent(kernel, la, fd, t.shiftRequired, ShiftEvent(value));
    WriteIfPresent(kernel, lb, fd, true, KeyEventOf(t.code, value));
    WriteIfPresent(kernel, lc, fd, value == keyRelease, SyncEvent);
  }

  lemma WritesSplit(kernel: Kernel, log: seq<Call>, fd: int, a: seq<InputEvent>, b: seq<InputEvent>)
    ensures IssueAll(kernel, log, WriteRequests(fd, a + b))
         == IssueAll(kernel, IssueAll(kernel, log, WriteRequests(fd, a)), WriteRequests(fd, b))
  {
    assert WriteRequests(fd, a + b) == WriteRequests(fd, a) + WriteRequests(fd, b);
    IssueAllAppend(kernel, log, WriteRequests(fd, a), WriteRequests(fd, b));
  }

  lemma WriteIfPresent(kernel: Kernel, log: seq<Call>, fd: int, c: bool, ev: InputEvent)
    ensures IssueAll(kernel, log, WriteRequests(fd, if c then [ev] else []))
         == IssueIf(kernel, log, c, Write(fd, Event(ev)))
  {
    if c {
      assert WriteRequests(fd, [ev])[..0] == [];
    }
  }

  /** The calls injectKeyEvent appends on fd: one write per event of
      KeyEventWrites, in order, each answered by the kernel; the result of the
      last one is what it returns. */
  lemma InjectionCalls(kernel: Kernel, log: seq<Call>, fd: int, e: KeyEvent, tag: KeyTag, keyRelease: int32)
    ensures var w, r := KeyEventWrites(e, tag, keyRelease), IssueAll(kernel, log, WriteRequests(fd, KeyEventWrites(e, tag, keyRelease)));
      && |r| == |log| + |w| && r[..|log|] == log
      && (forall i :: 0 <= i < |w| ==> r[|log| + i].request == Write(fd, Event(w[i])))
      && LastResult(r) == kernel(r[..|r| - 1], Write(fd, Event(w[|w| - 1])))
  {
    var w := KeyEventWrites(e, tag, keyRelease);
    IssueAllCalls(kernel, log, WriteRequests(fd, w));
  }

  function Count(b: bool): nat { if b then 1 else 0 }

  /** The order of the writes: the text's right shift, the translation's left shift,
      the key itself, then the synchronisation on release; each present exactly when
      its condition holds. */
  lemma WritesInOrder(e: KeyEvent, tag: KeyTag, keyRelease: int32)
    ensures var w, t := KeyEventWrites(e, tag, keyRelease), LookupCode(e.key, tag, false);
      var a, b := Count(TextNeedsShift(FirstChar(e.text))), Count(t.shiftRequired);
      && |w| == a + b + 1 + Count(e.eventType == keyRelease)
      && 1 <= |w| <= 4
      && (a == 1 ==> w[0] == RightShiftEvent)
      && (b == 1 ==> w[a] == ShiftEvent(e.eventType))
      && w[a + b] == KeyEventOf(t.code, e.eventType)
      && (e.eventType == keyRelease ==> w[a + b + 1] == SyncEvent)
  {
  }

  /** Only the last event can be a synchronisation, and it is one exactly on release;
      every other event is a key event. */
  lemma SyncExactlyOnRelease(e: KeyEvent, tag: KeyTag, keyRelease: int32)
    ensures var w := KeyEventWrites(e, tag, keyRelease);
      && (w[|w| - 1].evType == EV_SYN <==> e.eventType == keyRelease)
      && (forall i :: 0 <= i < |w| - 1 ==> w[i].evType == EV_KEY)
  {
  }

  /** The right-shift event of the text check always has value 0, whatever the type
      of the key event; the left-shift event carries the key event's own value. */
  lemma ShiftValues(e: KeyEvent, tag: KeyTag, keyRelease: int32)
    ensures forall ev :: ev in KeyEventWrites(e, tag, keyRelease) && ev.code == KEY_RIGHTSHIFT && ev.evType == EV_KEY
              ==> ev.value == 0 || LookupCode(e.key, tag, false).code % TWO_16 == KEY_RIGHTSHIFT
    ensures forall ev :: ev in KeyEventWrites(e, tag, keyRelease) && ev.code == KEY_LEFTSHIFT && ev.evType == EV_KEY
              ==> ev.value == e.eventType
  {
  }

  /** The 16-bit store can turn a key without a case into the right shift: 0x10036
      has no case, is kept as it is, and is stored as 54, KEY_RIGHTSHIFT. */
  lemma RightShiftByWrapAround(tag: KeyTag, press: int32, keyRelease: int32)
    requires !IsTagged(0x1_0036, tag) && press != keyRelease
    ensures KeyEventWrites(KeyEvent(0x1_0036, press, []), tag, keyRelease)
         == [InputEvent(EV_KEY, KEY_RIGHTSHIFT, press)]
  {
    assert SwitchCase(0x1_0036).None? && !InShiftRanges(0x1_0036);
    assert LookupCode(0x1_0036, tag, false) == Translation(0x1_0036, false);
    assert Truncate16(0x1_0036) == KEY_RIGHTSHIFT;
  }

  /** The text check flags a subset of the characters the translation shifts: all
      of them except the apostrophe, ':' and '~'. */
  lemma TextShiftWithinLookupShift(c: int32)
    ensures TextNeedsShift(c) ==> Translate(c, false).shiftRequired
    ensures Translate(c, false).shiftRequired && !TextNeedsShift(c) <==> c in {0x27, 0x3A, 0x7E}
  {
  }

  /** Pressing 'A' typed as "A": a right shift with value 0, a left-shift press and
      the A press; no synchronisation. */
  lemma PressCapitalA(tag: KeyTag, press: int32, keyRelease: int32)
    requires !IsTagged(0x41, tag) && press != keyRelease
    ensures KeyEventWrites(KeyEvent(0x41, press, ['A' as int]), tag, keyRelease)
         == [RightShiftEvent, ShiftEvent(press), InputEvent(EV_KEY, KEY_A, press)]
  {
  }

  /** Releasing 'A': the same shift events with the release value, then the sync. */
  lemma ReleaseCapitalA(tag: KeyTag, keyRelease: int32)
    requires !IsTagged(0x41, tag)
    ensures KeyEventWrites(KeyEvent(0x41, keyRelease, ['A' as int]), tag, keyRelease)
         == [RightShiftEvent, ShiftEvent(keyRelease), InputEvent(EV_KEY, KEY_A, keyRelease), SyncEvent]
  {
  }

  /** Pressing '5': the digit key alone. */
  lemma PressDigitFive(tag: KeyTag, press: int32, keyRelease: int32)
    requires !IsTagged(0x35, tag) && press != keyRelease
    ensures KeyEventWrites(KeyEvent(0x35, press, ['5' as int]), tag, keyRelease)
         == [InputEvent(EV_KEY, KEY_5, press)]
  {
  }
}
