/** What registerUinputDevice and registerHandledKeys issue: a fixed plan of
    requests after the open, checked at some steps and not at others, stopping at
    the first checked failure. */
module Registration {
  import opened InputCodes
  import opened Syscalls

  const UinputPath: string := "/dev/uinput"

  /** The device record written before creation: USB bus, version 1, a fixed name. */
  const UInputDevice: DeviceInfo := DeviceInfo(BUS_USB, 0x01, "wd_key_input")

  /** The remote-control and companion-device codes registered after 0..255:
      power, menu, back, up, down, left, right, ok, info, text, record, stop,
      the digits one to nine and zero, live swipe, vod swipe and the four pad
      directions, in the order they are registered. */
  const ExtendedKeys: seq<int> := [
    0xE000, 0xEF00, 0xE002, 0xE100, 0xE101, 0xE102, 0xE103, 0xE001, 0xE00E, 0xE00F,
    0xE403, 0xE402, 0xE301, 0xE302, 0xE303, 0xE304, 0xE305, 0xE306, 0xE307, 0xE308,
    0xE309, 0xE300, 0xEE01, 0xEE02, 0xEE03, 0xEE04, 0xEE05, 0xEE06]

  /** How many key codes are registered: 0..255 and the extended codes. */
  const KeyCount: nat := 284

  /** The j-th key code registered: first 0..255 in order, then the extended codes. */
  function HandledKey(j: nat): int
    requires j < KeyCount
  {
    if j < 256 then j else ExtendedKeys[j - 256]
  }

  /** Every key code the device is configured to emit, in registration order. */
  function HandledKeys(): (keys: seq<int>)
    ensures |keys| == KeyCount
  {
    seq(KeyCount, j requires 0 <= j < KeyCount => HandledKey(j))
  }

  const PlanLength: nat := 3 + KeyCount + 1

  /** The i-th request issued after a successful open on descriptor fd: enable key
      events, enable synchronisation events, write the device record, one key bit
      per handled key, create the device. */
  function PlanStep(fd: int, i: nat): Request
    requires i < PlanLength
  {
    if i == 0 then Ioctl(fd, SetEvBit(EV_KEY))
    else if i == 1 then Ioctl(fd, SetEvBit(EV_SYN))
    else if i == 2 then Write(fd, DeviceSetup(UInputDevice))
    else if i < PlanLength - 1 then Ioctl(fd, SetKeyBit(HandledKey(i - 3)))
    else Ioctl(fd, DevCreate)
  }

  /** The steps of the plan whose failure ends the registration: the two event
      classes, the device record and the creation. The key bits are not checked. */
  predicate CheckedStep(i: int)
  {
    0 <= i < 3 || i == PlanLength - 1
  }

  /** calls is what one registration issues, and ok what it returns: the open; then,
      if it gave a descriptor, the plan on that descriptor. */
  predicate RegistrationTrace(calls: seq<Call>, ok: bool)
  {
    && |calls| >= 1
    && calls[0].request == Open(UinputPath)
    && (calls[0].result < 0 ==> |calls| == 1 && !ok)
    && (calls[0].result >= 0 ==> SetupTrace(calls[0].result, calls[1..], ok))
  }

  /** steps follow the plan on fd up to and including the first checked step that
      failed, or all of it; ok says that all of it was issued and the last step
      succeeded. */
  predicate SetupTrace(fd: int, steps: seq<Call>, ok: bool)
  {
    && 1 <= |steps| <= PlanLength
    && (forall i :: 0 <= i < |steps| ==> steps[i].request == PlanStep(fd, i))
    && (forall i :: 0 <= i < |steps| - 1 && CheckedStep(i) ==> steps[i].result >= 0)
    && (|steps| < PlanLength ==> CheckedStep(|steps| - 1) && steps[|steps| - 1].result < 0)
    && (ok <==> |steps| == PlanLength && steps[PlanLength - 1].result >= 0)
  }

  /** The handled keys are exactly the codes 0..255 and the extended codes. */
  lemma HandledKeysAre(c: int)
    ensures c in HandledKeys() <==> 0 <= c < 256 || c in ExtendedKeys
  {
    var keys := HandledKeys();
    if c in keys {
      var j :| 0 <= j < KeyCount && keys[j] == c;
      if j >= 256 {
        assert ExtendedKeys[j - 256] == c;
      }
    }
    if 0 <= c < 256 {
      assert keys[c] == c;
    } else if c in ExtendedKeys {
      var k :| 0 <= k < |ExtendedKeys| && ExtendedKeys[k] == c;
      assert keys[256 + k] == c;
    }
  }

  /** Registration succeeds exactly when the open and all four checked steps
      succeed; the whole plan has then been issued. */
  lemma RegistrationSucceedsIff(calls: seq<Call>, ok: bool)
    requires RegistrationTrace(calls, ok)
    ensures ok <==>
      && |calls| == 1 + PlanLength
      && calls[0].result >= 0
      && calls[1].result >= 0 && calls[2].result >= 0 && calls[3].result >= 0
      && calls[PlanLength].result >= 0
  {
  }

  /** A failed open issues nothing more; a failure before the key bits means no
      key bit is ever registered. */
  lemma EarlyFailureRegistersNoKeys(calls: seq<Call>, ok: bool)
    requires RegistrationTrace(calls, ok)
    ensures calls[0].result < 0 ==> |calls| == 1
    ensures |calls| <= 4 <==>
      (calls[0].result < 0 || calls[1].result < 0 || calls[2].result < 0 || calls[3].result < 0)
    ensures |calls| <= 4 ==> forall i :: 0 <= i < |calls| ==> !(calls[i].request.Ioctl? && calls[i].request.op.SetKeyBit?)
  {
    if calls[0].result >= 0 && |calls| > 4 {
      assert CheckedStep(0) && CheckedStep(1) && CheckedStep(2);
    }
    if |calls| <= 4 && calls[0].result >= 0 {
      var fd := calls[0].result;
      assert forall i :: 1 <= i < |calls| ==> calls[i].request == PlanStep(fd, i - 1);
    }
  }

  /** A registration that finished issues every handled key bit, in order, whatever
      those calls returned. */
  lemma FullPlanRegistersEveryKey(calls: seq<Call>, ok: bool, i: int)
    requires RegistrationTrace(calls, ok) && |calls| == 1 + PlanLength
    requires 0 <= i < KeyCount
    ensures calls[4 + i].request == Ioctl(calls[0].result, SetKeyBit(HandledKey(i)))
    ensures calls[PlanLength].request == Ioctl(calls[0].result, DevCreate)
  {
    assert calls[0].result >= 0;
    assert calls[1..][3 + i] == calls[4 + i];
  }

  /** No key code is registered twice. */
  lemma HandledKeysDistinct()
    ensures forall i, j :: 0 <= i < j < KeyCount ==> HandledKey(i) != HandledKey(j)
  {
    assert forall k :: 0 <= k < |ExtendedKeys| ==> 256 <= ExtendedKeys[k];
    assert forall k, l :: 0 <= k < l < |ExtendedKeys| ==> ExtendedKeys[k] != ExtendedKeys[l];
  }

  /** The results of the key-bit calls do not matter: a trace with other results
      there, and the same ones elsewhere, is a trace with the same outcome. */
  lemma KeyBitResultsIgnored(calls: seq<Call>, other: seq<Call>, ok: bool)
    requires RegistrationTrace(calls, ok)
    requires |other| == |calls|
    requires forall i :: 0 <= i < |calls| ==> other[i].request == calls[i].request
    requires other[0].result == calls[0].result
    requires forall i :: 1 <= i < |calls| && CheckedStep(i - 1) ==> other[i].result == calls[i].result
    ensures RegistrationTrace(other, ok)
  {
  }

  /** The key-bit requests registerHandledKeys issues on fd, in order. */
  function KeyBitRequests(fd: int): (reqs: seq<Request>)
    ensures |reqs| == KeyCount
    ensures forall j :: 0 <= j < KeyCount ==> reqs[j] == PlanStep(fd, 3 + j)
  {
    seq(KeyCount, j requires 0 <= j < KeyCount => Ioctl(fd, SetKeyBit(HandledKey(j))))
  }

  /** What one registration leaves behind: the call log, the descriptor the open
      returned, and the value returned to the caller. */
  datatype Outcome = Outcome(log: seq<Call>, fd: int, ok: bool)

  /** registerUinputDevice against kernel, after the calls in log: the open, then,
      on a descriptor, the plan. */
  function RegisterRun(kernel: Kernel, log: seq<Call>): (r: Outcome)
    ensures |r.log| > |log| && r.log[..|log|] == log
    ensures r.log[|log|] == Call(Open(UinputPath), r.fd)
    ensures r.ok ==> r.fd >= 0 && |r.log| == |log| + 1 + PlanLength
  {
    var afterOpen := Issue(kernel, log, Open(UinputPath));
    var fd := LastResult(afterOpen);
    if fd < 0 then Outcome(afterOpen, fd, false) else SetupRun(kernel, afterOpen, fd, 0)
  }

  /** The plan on fd from step i on, after the calls in log: each of the checked
      steps 0, 1 and 2 that returns a negative value ends it with false; after them
      come the key bits, whose results are not looked at, and the creation, whose
      result decides the outcome. */
  function SetupRun(kernel: Kernel, log: seq<Call>, fd: int, i: nat): (r: Outcome)
    requires i <= 3
    ensures |log| < |r.log| <= |log| + PlanLength - i
    ensures r.fd == fd && r.log[..|log|] == log
    ensures r.ok ==> |r.log| == |log| + PlanLength - i
    decreases 3 - i
  {
    if i < 3 then
      var stepped := Issue(kernel, log, PlanStep(fd, i));
      if LastResult(stepped) < 0 then Outcome(stepped, fd, false)
      else SetupRun(kernel, stepped, fd, i + 1)
    else
      var keyed := IssueAll(kernel, log, KeyBitRequests(fd));
      IssueAllCalls(kernel, log, KeyBitRequests(fd));
      var created := Issue(kernel, keyed, PlanStep(fd, PlanLength - 1));
      Outcome(created, fd, LastResult(created) >= 0)
  }

  /** A registration run keeps the earlier log and appends a registration trace:
      the open, then the plan up to the first checked failure, with the outcome
      the trace predicts. */
  lemma RegisterRunTrace(kernel: Kernel, log: seq<Call>)
    ensures var run := RegisterRun(kernel, log);
      && |run.log| > |log| && run.log[..|log|] == log
      && run.fd == run.log[|log|].result
      && RegistrationTrace(run.log[|log|..], run.ok)
  {
    var afterOpen := Issue(kernel, log, Open(UinputPath));
    var fd := LastResult(afterOpen);
    if fd < 0 {
      assert afterOpen[|log|..] == [Call(Open(UinputPath), fd)];
    } else {
      SetupRunTrace(kernel, afterOpen, afterOpen, fd, 0);
      var run := SetupRun(kernel, afterOpen, fd, 0);
      assert run.log[..|afterOpen|] == afterOpen;
      assert run.log[..|log|] == log;
      assert run.log[|log|] == afterOpen[|log|];
      assert run.log[|log|..][1..] == run.log[|afterOpen|..];
    }
  }

  /** From step i on, with steps 0..i-1 issued after start and successful, the plan
      appends a setup trace to start. */
  lemma {:induction false} SetupRunTrace(kernel: Kernel, start: seq<Call>, log: seq<Call>, fd: int, i: nat)
    requires fd >= 0 && i <= 3
    requires |log| == |start| + i && log[..|start|] == start
    requires forall j :: 0 <= j < i ==> log[|start| + j].request == PlanStep(fd, j) && log[|start| + j].result >= 0
    ensures var run := SetupRun(kernel, log, fd, i);
      && run.fd == fd && |run.log| > |start| && run.log[..|start|] == start
      && SetupTrace(fd, run.log[|start|..], run.ok)
    decreases 3 - i
  {
    if i < 3 {
      var stepped := Issue(kernel, log, PlanStep(fd, i));
      assert stepped[..|start|] == start;
      assert forall j :: |start| <= j < |log| ==> stepped[j] == log[j];
      if LastResult(stepped) < 0 {
        var steps := stepped[|start|..];
        assert forall j :: 0 <= j <= i ==> steps[j] == stepped[|start| + j];
      } else {
        SetupRunTrace(kernel, start, stepped, fd, i + 1);
      }
    } else {
      var keyed := IssueAll(kernel, log, KeyBitRequests(fd));
      var created := Issue(kernel, keyed, PlanStep(fd, PlanLength - 1));
      IssueAllCalls(kernel, log, KeyBitRequests(fd));
      CompletedTrace(start, log, keyed, created, fd);
    }
  }

  /** A run that issued the whole plan. */
  lemma CompletedTrace(start: seq<Call>, l3: seq<Call>, l4: seq<Call>, l5: seq<Call>, fd: int)
    requires |l3| == |start| + 3 && l3[..|start|] == start
    requires forall i :: 0 <= i < 3 ==> l3[|start| + i].request == PlanStep(fd, i) && l3[|start| + i].result >= 0
    requires |l4| == |l3| + KeyCount && l4[..|l3|] == l3
    requires forall i :: 0 <= i < KeyCount ==> l4[|l3| + i].request == KeyBitRequests(fd)[i]
    requires |l5| == |l4| + 1 && l5[..|l4|] == l4 && l5[|l4|].request == PlanStep(fd, PlanLength - 1)
    ensures l5[..|start|] == start
    ensures SetupTrace(fd, l5[|start|..], l5[|l5| - 1].result >= 0)
  {
    var steps := l5[|start|..];
    assert |steps| == PlanLength;
    forall i | 0 <= i < PlanLength
      ensures steps[i].request == PlanStep(fd, i)
      ensures i < 3 ==> steps[i].result >= 0
    {
      assert steps[i] == l5[|start| + i];
      if i < 3 {
        assert steps[i] == l3[|start| + i];
      } else if i < PlanLength - 1 {
        assert steps[i] == l4[|l3| + (i - 3)];
        assert l4[|l3| + (i - 3)].request == KeyBitRequests(fd)[i - 3];
      } else {
        assert steps[i] == l5[|l4|];
      }
    }
  }
}
