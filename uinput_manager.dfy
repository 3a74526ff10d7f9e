/** The UInputManager object: the descriptor of the virtual input device, its
    readiness flag, and every system call it has issued, with the kernel's answers. */
module UInput {
  import opened Words
  import opened InputCodes
  import opened Keymap
  import opened Syscalls
  import opened Registration
  import opened Injection

  class UInputManager {
    /** The kernel behind the calls. */
    const kernel: Kernel
    var deviceDescriptor: int
    var ready: bool
    /** Every call issued through this manager, oldest first. */
    var log: seq<Call>
    /** The value every registration attempt so far returned, oldest first. */
    ghost var outcomes: seq<bool>

    /** The device is ready exactly when some registration attempt succeeded. */
    ghost predicate Valid()
      reads this
    {
      ready <==> true in outcomes
    }

    /** A new manager: descriptor 0, not ready, nothing issued. */
    constructor (kernel: Kernel)
      ensures Valid()
      ensures this.kernel == kernel
      ensures deviceDescriptor == 0 && !ready && log == [] && outcomes == []
    {
      this.kernel := kernel;
      deviceDescriptor := 0;
      ready := false;
      log := [];
      outcomes := [];
    }

    /** Issue one call: the kernel answers, and the call is logged. */
    method Syscall(req: Request) returns (res: int)
      modifies this`log
      ensures log == Issue(kernel, old(log), req)
      ensures res == kernel(old(log), req)
    {
      res := kernel(log, req);
      log := log + [Call(req, res)];
    }

    /** Open the device, enable key and synchronisation events, write the device
        record, register the handled keys and create the device; any checked step
        that fails ends the registration with false. The descriptor keeps what the
        open returned, and readiness is set only when every step succeeded. */
    method RegisterUinputDevice() returns (ok: bool)
      requires Valid()
      modifies this
      ensures Valid()
      ensures var run := RegisterRun(kernel, old(log));
        log == run.log && deviceDescriptor == run.fd && ok == run.ok
      ensures ready == (old(ready) || ok) && outcomes == old(outcomes) + [ok]
    {
      var fd := Syscall(Open(UinputPath));
      deviceDescriptor := fd;
      if deviceDescriptor < 0 {
        outcomes := outcomes + [false];
        return false;
      }
      var ret := Syscall(Ioctl(deviceDescriptor, SetEvBit(EV_KEY)));
      if ret < 0 {
        outcomes := outcomes + [false];
        return false;
      }
      ret := Syscall(Ioctl(deviceDescriptor, SetEvBit(EV_SYN)));
      if ret < 0 {
        outcomes := outcomes + [false];
        return false;
      }
      ret := Syscall(Write(deviceDescriptor, DeviceSetup(UInputDevice)));
      if ret < 0 {
        outcomes := outcomes + [false];
        return false;
      }
      RegisterHandledKeys();
      ret := Syscall(Ioctl(deviceDescriptor, DevCreate));
      if ret < 0 {
        outcomes := outcomes + [false];
        return false;
      }
      ready := true;
      outcomes := outcomes + [true];
      return true;
    }

    /** Register key codes 0..255, then the extended codes; every result is ignored. */
    method RegisterHandledKeys()
      modifies this`log
      ensures log == IssueAll(kernel, old(log), KeyBitRequests(deviceDescriptor))
    {
      ghost var reqs := KeyBitRequests(deviceDescriptor);
      for code := 0 to 256
        invariant log == IssueAll(kernel, old(log), reqs[..code])
      {
        IssueAllStep(kernel, old(log), reqs, code);
        var _ := Syscall(Ioctl(deviceDescriptor, SetKeyBit(code)));
      }
      // the 28 remote-control and companion codes, one call each, in table order
      for j := 0 to |ExtendedKeys|
        invariant log == IssueAll(kernel, old(log), reqs[..256 + j])
      {
        IssueAllStep(kernel, old(log), reqs, 256 + j);
        var _ := Syscall(Ioctl(deviceDescriptor, SetKeyBit(ExtendedKeys[j])));
      }
      assert reqs[..KeyCount] == reqs;
    }

    /** Whether some registration attempt has succeeded. */
    function IsReady(): (r: bool)
      requires Valid()
      reads this
      ensures r <==> true in outcomes
    {
      ready
    }

    /** Write the events of one key request and return the result of the last write.
        The readiness flag is not consulted and a failed write does not stop the
        later ones. */
    method InjectKeyEvent(event: KeyEvent, tag: KeyTag, keyRelease: int32) returns (res: int)
      modifies this`log
      ensures log == IssueAll(kernel, old(log), WriteRequests(deviceDescriptor, KeyEventWrites(event, tag, keyRelease)))
      ensures |log| > |old(log)| && res == LastResult(log)
    {
      res := -1;
      var isShiftRequired := false;
      var ev := InputEvent(0, 0, 0);
      var keyText := FirstChar(event.text);
      if TextNeedsShift(keyText) {
        ev := ev.(evType := EV_KEY);
        ev := ev.(code := KEY_RIGHTSHIFT);
        assert ev == RightShiftEvent;
        res := Syscall(Write(deviceDescriptor, Event(ev)));
      }
      ev := ev.(evType := EV_KEY);
      ev := ev.(value := event.eventType);
      var t := LookupCode(event.key, tag, isShiftRequired);
      var keyCode;
      keyCode, isShiftRequired := t.code, t.shiftRequired;
      if isShiftRequired {
        ev := ev.(code := KEY_LEFTSHIFT);
        assert ev == ShiftEvent(event.eventType);
        res := Syscall(Write(deviceDescriptor, Event(ev)));
      }
      ev := ev.(code := Truncate16(keyCode));
      assert ev == KeyEventOf(t.code, event.eventType);
      res := Syscall(Write(deviceDescriptor, Event(ev)));
      if ev.value == keyRelease {
        ev := ev.(evType := EV_SYN);
        ev := ev.(code := SYN_REPORT);
        ev := ev.(value := 0);
        assert ev == SyncEvent;
        res := Syscall(Write(deviceDescriptor, Event(ev)));
      }
      WritesAsIssued(kernel, old(log), deviceDescriptor, event.text, t, event.eventType, keyRelease);
    }

    /** Write one synchronisation event. */
    method InjectSynEvent() returns (res: int)
      modifies this`log
      ensures log == Issue(kernel, old(log), Write(deviceDescriptor, Event(SyncEvent)))
      ensures res == LastResult(log)
    {
      var ev := InputEvent(0, 0, 0);
      ev := ev.(evType := EV_SYN);
      ev := ev.(code := SYN_REPORT);
      ev := ev.(value := 0);
      res := Syscall(Write(deviceDescriptor, Event(ev)));
    }

    /** The destructor: a best-effort UI_DEV_DESTROY on the current descriptor. */
    method Destroy()
      modifies this`log
      ensures log == Issue(kernel, old(log), Ioctl(deviceDescriptor, DevDestroy))
    {
      var _ := Syscall(Ioctl(deviceDescriptor, DevDestroy));
    }
  }

  /** The process-wide state: the lazily created manager instance. */
  class Process {
    const kernel: Kernel
    var instance: UInputManager?

    constructor (kernel: Kernel)
      ensures this.kernel == kernel && instance == null
    {
      this.kernel := kernel;
      instance := null;
    }

    /** The manager, created on first use and the same object on every later call. */
    method GetInstance() returns (m: UInputManager)
      modifies this
      ensures instance == m
      ensures old(instance) != null ==> m == old(instance)
      ensures old(instance) == null ==>
        && fresh(m) && m.Valid() && m.kernel == kernel
        && m.deviceDescriptor == 0 && !m.ready && m.log == [] && m.outcomes == []
    {
      if instance == null {
        instance := new UInputManager(kernel);
      }
      m := instance;
    }
  }
}
