/** The system calls the manager issues, as requests recorded in a log together
    with the kernel's answer. The kernel itself is an oracle: its answer to a
    request may depend on everything issued before. */
module Syscalls {
  import opened Words

  /** A `struct input_event` without its timestamp. */
  datatype InputEvent = InputEvent(evType: u16, code: u16, value: int32)

  /** The `uinput_user_dev` record, reduced to the fields the manager sets. */
  datatype DeviceInfo = DeviceInfo(busType: int, version: int, name: string)

  datatype IoctlOp =
    | SetEvBit(evType: int)   // UI_SET_EVBIT
    | SetKeyBit(code: int)    // UI_SET_KEYBIT
    | DevCreate               // UI_DEV_CREATE
    | DevDestroy              // UI_DEV_DESTROY

  datatype Payload = DeviceSetup(info: DeviceInfo) | Event(event: InputEvent)

  datatype Request =
    | Open(path: string)
    | Ioctl(fd: int, op: IoctlOp)
    | Write(fd: int, payload: Payload)

  /** One issued call and the value it returned (negative on failure). */
  datatype Call = Call(request: Request, result: int)

  /** The kernel's answer to a request, given every call issued before it. */
  type Kernel = (seq<Call>, Request) -> int

  /** The log after issuing req: the call is appended with the kernel's answer. */
  function Issue(kernel: Kernel, log: seq<Call>, req: Request): (r: seq<Call>)
    ensures |r| == |log| + 1 && r[..|log|] == log
    ensures r[|log|] == Call(req, kernel(log, req))
  {
    log + [Call(req, kernel(log, req))]
  }

  /** The log after issuing req only when c holds. */
  function IssueIf(kernel: Kernel, log: seq<Call>, c: bool, req: Request): seq<Call>
  {
    if c then Issue(kernel, log, req) else log
  }

  /** The log after issuing reqs one after another. */
  function IssueAll(kernel: Kernel, log: seq<Call>, reqs: seq<Request>): seq<Call>
    decreases |reqs|
  {
    if |reqs| == 0 then log
    else Issue(kernel, IssueAll(kernel, log, reqs[..|reqs| - 1]), reqs[|reqs| - 1])
  }

  /** The value the last call returned. */
  function LastResult(log: seq<Call>): int
    requires |log| > 0
  {
    log[|log| - 1].result
  }

  /** Issuing reqs appends one call per request, in order, each with the kernel's
      answer given everything before it; the earlier log is kept. */
  lemma {:induction false} IssueAllCalls(kernel: Kernel, log: seq<Call>, reqs: seq<Request>)
    ensures var r := IssueAll(kernel, log, reqs);
      && |r| == |log| + |reqs| && r[..|log|] == log
      && forall i :: 0 <= i < |reqs| ==> r[|log| + i] == Call(reqs[i], kernel(r[..|log| + i], reqs[i]))
    decreases |reqs|
  {
    if |reqs| > 0 {
      var n := |reqs| - 1;
      var shorter := IssueAll(kernel, log, reqs[..n]);
      IssueAllCalls(kernel, log, reqs[..n]);
      var r := IssueAll(kernel, log, reqs);
      assert r == Issue(kernel, shorter, reqs[n]);
      assert r[..|shorter|] == shorter;
      forall i | 0 <= i < |reqs|
        ensures r[|log| + i] == Call(reqs[i], kernel(r[..|log| + i], reqs[i]))
      {
        if i < n {
          assert r[..|log| + i] == shorter[..|log| + i];
          assert r[|log| + i] == shorter[|log| + i];
        }
      }
    }
  }

  /** Issuing a + b is issuing a, then b. */
  lemma {:induction false} IssueAllAppend(kernel: Kernel, log: seq<Call>, a: seq<Request>, b: seq<Request>)
    ensures IssueAll(kernel, log, a + b) == IssueAll(kernel, IssueAll(kernel, log, a), b)
    decreases |b|
  {
    if |b| > 0 {
      var n := |b| - 1;
      assert (a + b)[..|a| + n] == a + b[..n];
      assert (a + b)[|a| + n] == b[n];
      IssueAllAppend(kernel, log, a, b[..n]);
    } else {
      assert a + b == a;
    }
  }

  /** Issuing one more request of reqs extends the log by that call. */
  lemma IssueAllStep(kernel: Kernel, log: seq<Call>, reqs: seq<Request>, n: nat)
    requires n < |reqs|
    ensures IssueAll(kernel, log, reqs[..n + 1]) == Issue(kernel, IssueAll(kernel, log, reqs[..n]), reqs[n])
  {
    assert reqs[..n + 1][..n] == reqs[..n];
  }

  /** The write requests for the given events on fd, in order. */
  function WriteRequests(fd: int, evs: seq<InputEvent>): (reqs: seq<Request>)
    ensures |reqs| == |evs|
    ensures forall i :: 0 <= i < |evs| ==> reqs[i] == Write(fd, Event(evs[i]))
  {
    seq(|evs|, i requires 0 <= i < |evs| => Write(fd, Event(evs[i])))
  }
}
