/** The controller object: its report, flash and descriptors, updated in place. Each public
    method is one action of the Controller machine; the ghost fields record what the machine
    observes. Outcomes of system calls are parameters. */
module SwitchPro {
  import opened Bytes
  import opened Axis
  import opened Gamepad
  import opened Flash
  import opened Protocol
  import opened Controller
  import opened Queue
  import opened Buf

  class Pro {
    const functionId: nat
    const flash: array<byte>
    const report: array<byte>
    var fd: int
    var fdNonblock: int
    var locked: bool

    ghost var hidg: set<int>
    ghost var nonblocking: set<int>
    ghost var stray: set<int>
    ghost var ticks: nat
    ghost var commits: seq<Input>
    ghost var trace: seq<Write>

    ghost predicate Valid()
      reads this
    {
      && report.Length == REPORT_SIZE && flash.Length == FLASH_SIZE && report != flash
      && commits != [] && nonblocking <= hidg
    }

    ghost function Abs(): (s: State)
      requires Valid()
      reads this, report, flash
      ensures s.Valid()
    {
      State(report[..], flash[..], functionId, fd, fdNonblock, hidg, nonblocking, stray, ticks, commits, trace)
    }

    /** Creation and the in-memory part of initialisation; the deadzones are given. */
    constructor (functionId: nat, inner: u12, outer: u12)
      ensures Valid() && !locked && fresh(report) && fresh(flash)
      ensures Abs() == Initial(functionId, FlashImage(inner, outer))
    {
      this.functionId := functionId;
      flash := new byte[FLASH_SIZE](_ => ERASED);
      report := new byte[REPORT_SIZE](_ => 0);
      fd := -1;
      fdNonblock := 0;
      locked := false;
      hidg, nonblocking, stray, ticks, commits, trace := {}, {}, {}, 0, [NEUTRAL_INPUT], [];
      new;
      assert report[..] == Fill(REPORT_SIZE, 0);
      InitReport(report);
      assert flash[..] == Fill(FLASH_SIZE, ERASED);
      var ok := InitFlash(flash, inner, outer);
    }

    /** Creation as a whole: `gotMemory` says whether the flash could be allocated, `functionRet`
        is what creating the gadget function returns, `initRet` what the part of the
        initialisation returns that configures it. */
    static method Create(gotMemory: bool, functionRet: int, initRet: int, functionId: nat, inner: u12, outer: u12)
      returns (ret: int, pro: Pro?)
      ensures ret == if !gotMemory then -12
                     else if functionRet < 0 then functionRet
                     else if initRet < 0 then initRet
                     else 0
      ensures (pro != null) == (ret == 0)
      ensures pro != null ==> fresh(pro) && pro.Valid() && !pro.locked && fresh(pro.report) && fresh(pro.flash) &&
                              pro.Abs() == Initial(functionId, FlashImage(inner, outer))
    {
      pro := null;
      if !gotMemory {
        return -ENOMEM, pro;
      }
      if functionRet < 0 {
        return functionRet, pro;
      }
      if initRet < 0 {
        return initRet, pro;
      }
      ret := 0;
      pro := new Pro(functionId, inner, outer);
    }

    // ----- Writing reports -----

    /** One write of the contents of a buffer. */
    method HidgWrite(out: int, buf: Buffer, w: WriteResult, ghost write: Write) returns (ret: int)
      requires buf.Valid()
      requires write == Write(write.kind, out, buf.Contents(), WriteCode(|buf.Contents()|, w),
                              out in hidg, out in nonblocking, write.tick, write.commit)
      modifies this`trace
      ensures ret == WriteCode(|buf.Contents()|, w) && trace == old(trace) + [write]
    {
      trace := trace + [write];
      match w
      case Wrote(count) =>
        if count != buf.size {
          return -EIO;
        }
        return 0;
      case Failed(error) =>
        return -(error as int);
    }

    // ----- State updates -----

    /** `memcmp` of the three button bytes. */
    method CompareButtons(input: array<byte>) returns (changed: bool)
      requires Valid() && input.Length == 9
      ensures changed == ButtonsChanged(report[..], input[..])
    {
      changed := false;
      for i := 0 to 3
        invariant changed == (input[..i] != report[3..3 + i])
      {
        assert input[..i + 1] == input[..i] + [input[i]];
        assert report[3..3 + i + 1] == report[3..3 + i] + [report[3 + i]];
        changed := changed || input[i] != report[3 + i];
      }
      assert input[..][..3] == input[..3] && report[..][3..6] == report[3..6];
    }

    /** Advances the timer and copies the input bytes. */
    method UpdateReport(input: array<byte>)
      requires Valid() && input.Length == 9 && input != report
      modifies report
      ensures report[..] == Updated(old(report[..]), NextTimer(old(report[1])), input[..])
    {
      report[1] := NextTimer(report[1]);
      forall i | 0 <= i < 9 {
        report[3 + i] := input[i];
      }
    }

    /** Sends the report: on the blocking descriptor if buttons changed, else on the other. */
    method SendState(changed: bool, buf: Buffer, w: WriteResult) returns (needsRetry: bool)
      requires Valid() && buf.Valid() && buf.Contents() == report[..]
      modifies this`trace
      ensures needsRetry == (!changed && WriteCode(REPORT_SIZE, w) == -EAGAIN)
      ensures var out := if changed then fd else fdNonblock;
              trace == old(trace) + [Write(if changed then ButtonReport else StickReport, out, report[..],
                                           WriteCode(REPORT_SIZE, w), out in hidg, out in nonblocking,
                                           ticks, |commits| - 1)]
    {
      needsRetry := false;
      ghost var code := WriteCode(REPORT_SIZE, w);
      if changed {
        ghost var live, mode := fd in hidg, fd in nonblocking;
        var ret := HidgWrite(fd, buf, w, Write(ButtonReport, fd, report[..], code, live, mode, ticks, |commits| - 1));
      } else {
        ghost var live, mode := fdNonblock in hidg, fdNonblock in nonblocking;
        var ret := HidgWrite(fdNonblock, buf, w,
                             Write(StickReport, fdNonblock, report[..], code, live, mode, ticks, |commits| - 1));
        if ret == -EAGAIN {
          needsRetry := true;
        }
      }
    }

    method SetState(st: GamepadState, w: WriteResult) returns (needsRetry: bool)
      requires Valid() && !locked
      modifies this`locked, this`ticks, this`commits, this`trace, report
      ensures Valid() && !locked
      ensures needsRetry == NeedsRetry(old(Abs()), Encode(st), w)
      ensures Abs() == AfterSetState(old(Abs()), Encode(st), w)
    {
      var input := new byte[9](_ => 0);
      assert input[..] == Fill(9, 0);
      EncodeInto(input, st);
      needsRetry := Update(input, w);
    }

    /** What a state update does with its nine encoded bytes. */
    method Update(input: array<byte>, w: WriteResult) returns (needsRetry: bool)
      requires Valid() && !locked && input.Length == 9 && input != report && input != flash
      modifies this`locked, this`ticks, this`commits, this`trace, report
      ensures Valid() && !locked
      ensures needsRetry == NeedsRetry(old(Abs()), input[..], w)
      ensures Abs() == AfterSetState(old(Abs()), input[..], w)
    {
      var buf := new Buffer(report);
      buf.size := report.Length;
      locked := true;
      if fd < 0 {
        locked := false;
        return false;
      }
      needsRetry := Publish(input, buf, w);
      locked := false;
    }

    /** The body of the critical section of a state update. */
    method Publish(input: array<byte>, buf: Buffer, w: WriteResult) returns (needsRetry: bool)
      requires Valid() && input.Length == 9 && input != report && input != flash
      requires buf.Valid() && buf.store == report && buf.data == 0 && buf.size == REPORT_SIZE
      modifies this`ticks, this`commits, this`trace, report
      ensures Valid()
      ensures needsRetry == (!ButtonsChanged(old(report[..]), input[..]) && WriteCode(REPORT_SIZE, w) == -EAGAIN)
      ensures Abs() == Published(old(Abs()), input[..], w)
    {
      var changed := CompareButtons(input);
      UpdateReport(input);
      ticks := ticks + 1;
      commits := commits + [input[..]];
      assert buf.Contents() == report[..];
      needsRetry := SendState(changed, buf, w);
    }

    // ----- Opening and closing -----

    /** `first` and `second` are what the two opens return, `nonblock` what setting the mode returns. */
    method OpenHidg(first: int, second: int, nonblock: int)
      requires Valid() && fd < 0
      requires Enabled(Abs(), Open(first, second, nonblock))
      modifies this`fd, this`fdNonblock, this`hidg, this`nonblocking, this`stray
      ensures Valid() && Abs() == AfterOpen(old(Abs()), first, second, nonblock)
    {
      if first < 0 {
        return;
      }
      hidg := hidg + {first};
      if second < 0 {
        CloseOwn(first);
        assert hidg == old(hidg);
        return;
      }
      hidg := hidg + {second};
      if nonblock != 0 {
        CloseOwn(second);
        CloseOwn(first);
        assert hidg == old(hidg);
        return;
      }
      SetNonblocking(second);
      fd := first;
      fdNonblock := second;
      assert hidg == old(hidg) + {first, second};
    }

    ghost method CloseOwn(descriptor: int)
      modifies this`hidg, this`nonblocking, this`stray
      ensures hidg == old(hidg) - {descriptor} && nonblocking == old(nonblocking) - {descriptor}
      ensures stray == if descriptor in old(hidg) then old(stray) else old(stray) + {descriptor}
    {
      stray := if descriptor in hidg then stray else stray + {descriptor};
      hidg := hidg - {descriptor};
      nonblocking := nonblocking - {descriptor};
    }

    ghost method SetNonblocking(descriptor: int)
      modifies this`nonblocking
      ensures nonblocking == old(nonblocking) + {descriptor}
    {
      nonblocking := nonblocking + {descriptor};
    }

    method OpenDevice(first: int, second: int, nonblock: int) returns (ret: int)
      requires Valid() && !locked
      requires Enabled(Abs(), Open(first, second, nonblock))
      modifies this`locked, this`fd, this`fdNonblock, this`hidg, this`nonblocking, this`stray
      ensures Valid() && !locked && Abs() == AfterOpen(old(Abs()), first, second, nonblock) && ret == fd
      ensures old(fd) < 0 <= first && 0 <= second && nonblock == 0 ==>
                fd == first && fdNonblock == second && nonblocking == old(nonblocking) + {second}
    {
      locked := true;
      if fd < 0 {
        OpenHidg(first, second, nonblock);
      }
      locked := false;
      ret := fd;
    }

    method CloseDevice()
      requires Valid() && !locked
      modifies this`locked, this`fd, this`fdNonblock, this`hidg, this`nonblocking, this`stray
      ensures Valid() && !locked && Abs() == AfterClose(old(Abs()))
    {
      locked := true;
      if fd >= 0 {
        CloseOwn(fd);
        fd := -1;
      }
      if fdNonblock >= 0 {
        CloseOwn(fdNonblock);
        fdNonblock := -1;
      }
      locked := false;
    }

    // ----- Output reports -----

    ghost predicate Apart(buf: Buffer)
      reads this, buf
    {
      buf.Valid() && buf.store != report && buf.store != flash
    }

    /** Both rumble words are consumed and ignored. */
    method OnRumble(buf: Buffer) returns (ok: bool)
      requires buf.Valid()
      modifies buf
      ensures buf.Valid() && ok == (|old(buf.Contents())| >= 8)
      ensures ok ==> buf.Contents() == old(buf.Contents())[8..]
    {
      ghost var req := buf.Contents();
      var left;
      ok, left := buf.PullU32le();
      if !ok {
        return;
      }
      var right;
      ok, right := buf.PullU32le();
      assert ok ==> req[4..][4..] == req[8..];
    }

    /** Two single-byte appends. */
    method AddPair(buf: Buffer, first: byte, second: byte) returns (ok: bool)
      requires Apart(buf)
      modifies buf, buf.store
      ensures Apart(buf)
      ensures ok == Succeeds(old(buf.Abs()), Op.Add([first, second]))
      ensures ok ==> buf.Abs() == Step(old(buf.Abs()), Op.Add([first, second]))
    {
      ok := buf.AddU8(first);
      if !ok {
        return;
      }
      ok := buf.AddU8(second);
    }

    /** Returns the timer and increments it. */
    method AdvanceTimer() returns (timer: byte)
      requires Valid()
      modifies report, this`ticks
      ensures Valid() && timer == old(report[1]) && ticks == old(ticks) + 1
      ensures report[..] == old(report[..])[1 := NextTimer(timer)]
    {
      timer := report[1];
      report[1] := NextTimer(timer);
      ticks := ticks + 1;
    }

    /** The report id and the timer. */
    method BeginHeader(buf: Buffer) returns (ok: bool)
      requires Valid() && Apart(buf) && buf.store.Length >= 1
      requires buf.Abs() == Fifo(0, [], buf.store.Length)
      modifies buf, buf.store, report, this`ticks
      ensures Valid() && Apart(buf)
      ensures report[..] == old(report[..])[1 := NextTimer(old(report[1]))] && ticks == old(ticks) + 1
      ensures ok == (2 <= buf.store.Length)
      ensures ok ==> buf.Abs() == Fifo(0, [RESPONSE_SUBCMD, old(report[1])], buf.store.Length)
    {
      ok := buf.AddU8(RESPONSE_SUBCMD);
      var timer := AdvanceTimer();
      ok := buf.AddU8(timer);
    }

    /** The timer sent is the one before the increment, unlike in state reports. */
    method EncodeHeader(buf: Buffer, ack: byte, id: byte) returns (ok: bool)
      requires Valid() && Apart(buf) && buf.store.Length >= 1
      requires buf.Abs() == Fifo(0, [], buf.store.Length)
      modifies buf, buf.store, report, this`ticks
      ensures Valid() && Apart(buf)
      ensures report[..] == old(report[..])[1 := NextTimer(old(report[1]))] && ticks == old(ticks) + 1
      ensures ok == (15 <= buf.store.Length)
      ensures ok ==> buf.Abs() == Fifo(0, Header(old(report[..]), ack, id), buf.store.Length)
    {
      ghost var before := report[..];
      ok := BeginHeader(buf);
      if !ok {
        return;
      }
      assert report[2..13] == before[2..13];
      ok := buf.AddMem(report, 2, 11);
      if !ok {
        return;
      }
      ok := AddPair(buf, ack, id);
      if ok {
        assert buf.Contents() == Header(before, ack, id);
      }
    }

    /** Brings the buffer to the report size and writes it. */
    method PadAndWrite(buf: Buffer, out: int, w: WriteResult, ghost kind: Kind, ghost tick: nat)
      requires Valid() && Apart(buf) && buf.data == 0
      modifies buf, buf.store, this`trace
      ensures Valid() && Apart(buf)
      ensures var sized := Sized(buf.store.Length, old(buf.Contents()));
              Abs() == if sized.None? then old(Abs()) else Replied(old(Abs()), kind, tick, sized.value, out, w)
    {
      ghost var bytes := buf.Contents();
      var ok := buf.Resize(REPORT_SIZE, 0);
      if !ok {
        return;
      }
      assert Some(buf.Contents()) == Sized(buf.store.Length, bytes);
      ghost var code := WriteCode(|buf.Contents()|, w);
      ghost var live, mode := out in hidg, out in nonblocking;
      var ret := HidgWrite(out, buf, w, Write(kind, out, buf.Contents(), code, live, mode, tick, |commits| - 1));
    }

    /** A reply that is nothing but its header. */
    method Acknowledge(buf: Buffer, ack: byte, id: byte, out: int, w: WriteResult)
      requires Valid() && Apart(buf) && buf.store.Length >= 1
      modifies buf, buf.store, report, this`ticks, this`trace
      ensures Valid() && Apart(buf)
      ensures Abs() == Answered(old(Abs()), buf.store.Length, Header(old(report[..]), ack, id) + [], out, w)
    {
      ghost var s := Abs();
      ghost var header := Header(report[..], ack, id);
      assert header + [] == header;
      buf.Reset();
      var ok := EncodeHeader(buf, ack, id);
      assert Abs() == Timer(s);
      if ok {
        PadAndWrite(buf, out, w, SubcmdReply, s.ticks);
      }
    }

    method AddDeviceInfo(buf: Buffer) returns (ok: bool)
      requires Apart(buf)
      modifies buf, buf.store
      ensures Apart(buf)
      ensures ok == Succeeds(old(buf.Abs()), Op.Add(DeviceInfo(functionId)))
      ensures ok ==> buf.Abs() == Step(old(buf.Abs()), Op.Add(DeviceInfo(functionId)))
    {
      ghost var s := buf.Abs();
      ok := AddFirmware(buf);
      if !ok {
        return;
      }
      ok := AddMac(buf);
      if !ok {
        return;
      }
      ok := AddPair(buf, 0x03, 0x02);
      assert ok ==> buf.Contents() == s.contents + DeviceInfo(functionId);
    }

    /** Firmware version, controller type and an unknown byte. */
    method AddFirmware(buf: Buffer) returns (ok: bool)
      requires Apart(buf)
      modifies buf, buf.store
      ensures Apart(buf)
      ensures ok == Succeeds(old(buf.Abs()), Op.Add([0x03, 0x49, CONTROLLER_TYPE_PRO, 0x02]))
      ensures ok ==> buf.Abs() == Step(old(buf.Abs()), Op.Add([0x03, 0x49, CONTROLLER_TYPE_PRO, 0x02]))
    {
      ok := AddPair(buf, 0x03, 0x49);
      if !ok {
        return;
      }
      ok := AddPair(buf, CONTROLLER_TYPE_PRO, 0x02);
    }

    /** The Bluetooth address: the function id, then zeros. */
    method AddMac(buf: Buffer) returns (ok: bool)
      requires Apart(buf)
      modifies buf, buf.store
      ensures Apart(buf)
      ensures ok == Succeeds(old(buf.Abs()), Op.Add([ToByte(functionId), 0, 0, 0, 0, 0]))
      ensures ok ==> buf.Abs() == Step(old(buf.Abs()), Op.Add([ToByte(functionId), 0, 0, 0, 0, 0]))
    {
      ok := buf.AddU8(ToByte(functionId));
      if !ok {
        return;
      }
      ok := AddZeros(buf);
    }

    method AddZeros(buf: Buffer) returns (ok: bool)
      requires Apart(buf)
      modifies buf, buf.store
      ensures Apart(buf)
      ensures ok == Succeeds(old(buf.Abs()), Op.Add([0, 0, 0, 0, 0]))
      ensures ok ==> buf.Abs() == Step(old(buf.Abs()), Op.Add([0, 0, 0, 0, 0]))
    {
      ok := buf.AddU8(0x00);
      if !ok {
        return;
      }
      ok := buf.AddU8(0x00);
      if !ok {
        return;
      }
      ok := AddThreeZeros(buf);
    }

    method AddThreeZeros(buf: Buffer) returns (ok: bool)
      requires Apart(buf)
      modifies buf, buf.store
      ensures Apart(buf)
      ensures ok == Succeeds(old(buf.Abs()), Op.Add([0, 0, 0]))
      ensures ok ==> buf.Abs() == Step(old(buf.Abs()), Op.Add([0, 0, 0]))
    {
      ok := buf.AddU8(0x00);
      if !ok {
        return;
      }
      ok := buf.AddU8(0x00);
      if !ok {
        return;
      }
      ok := buf.AddU8(0x00);
    }

    method ReplyDeviceInfo(buf: Buffer, out: int, w: WriteResult)
      requires Valid() && Apart(buf) && buf.store.Length >= 1
      modifies buf, buf.store, report, this`ticks, this`trace
      ensures Valid() && Apart(buf)
      ensures Abs() == Answered(old(Abs()), buf.store.Length,
                                Header(old(report[..]), 0x82, SUBCMD_REQ_DEVINFO) + DeviceInfo(functionId), out, w)
    {
      ghost var s := Abs();
      buf.Reset();
      var ok := EncodeHeader(buf, 0x82, SUBCMD_REQ_DEVINFO);
      assert Abs() == Timer(s);
      if !ok {
        return;
      }
      ok := AddDeviceInfo(buf);
      if ok {
        PadAndWrite(buf, out, w, SubcmdReply, s.ticks);
      }
    }

    method ReplyUnsupported(buf: Buffer, id: byte, out: int, w: WriteResult)
      requires Valid() && Apart(buf) && buf.store.Length >= 1
      modifies buf, buf.store, report, this`ticks, this`trace
      ensures Valid() && Apart(buf)
      ensures Abs() == Answered(old(Abs()), buf.store.Length, Header(old(report[..]), 0x80, id) + [0x03], out, w)
    {
      ghost var s := Abs();
      buf.Reset();
      var ok := EncodeHeader(buf, 0x80, id);
      assert Abs() == Timer(s);
      if !ok {
        return;
      }
      ok := buf.AddU8(0x03);
      if ok {
        PadAndWrite(buf, out, w, SubcmdReply, s.ticks);
      }
    }

    method AddFlashData(buf: Buffer, address: u32, size: byte) returns (ok: bool)
      requires Valid() && Apart(buf) && address + size <= FLASH_SIZE
      modifies buf, buf.store
      ensures Apart(buf)
      ensures ok == Succeeds(old(buf.Abs()), Op.Add(Le32(address) + [size] + flash[address..address + size]))
      ensures ok ==> buf.Abs() == Step(old(buf.Abs()), Op.Add(Le32(address) + [size] + flash[address..address + size]))
    {
      ghost var s := buf.Abs();
      ok := buf.AddU32le(address);
      if !ok {
        return;
      }
      ok := buf.AddU8(size);
      if !ok {
        return;
      }
      ok := buf.AddMem(flash, address, size);
      assert ok ==> buf.Contents() == s.contents + (Le32(address) + [size] + flash[address..address + size]);
    }

    /** The range check works on the wrapped 32-bit end. */
    method ReplyFlashRead(buf: Buffer, address: u32, size: byte, out: int, w: WriteResult)
      requires Valid() && Apart(buf) && buf.store.Length >= 1
      modifies buf, buf.store, report, this`ticks, this`trace
      ensures Valid() && Apart(buf)
      ensures Abs() == if address + size > FLASH_SIZE then old(Abs())
                       else Answered(old(Abs()), buf.store.Length,
                                     Header(old(report[..]), 0x90, SUBCMD_FLASH_READ) +
                                     (Le32(address) + [size] + old(flash[address..address + size])), out, w)
    {
      ghost var s := Abs();
      WrappedEnd(address, size);
      var end := WrapU32(address + size);
      if end < address || end > FLASH_SIZE {
        return;
      }
      buf.Reset();
      var ok := EncodeHeader(buf, 0x90, SUBCMD_FLASH_READ);
      assert Abs() == Timer(s);
      if !ok {
        return;
      }
      ok := AddFlashData(buf, address, size);
      assert Abs() == Timer(s);
      if ok {
        PadAndWrite(buf, out, w, SubcmdReply, s.ticks);
      }
    }

    /** A subcommand with one ignored argument byte. */
    method AcknowledgeArgument(buf: Buffer, id: byte, out: int, w: WriteResult)
      requires Valid() && Apart(buf) && buf.store.Length >= 1
      modifies buf, buf.store, report, this`ticks, this`trace
      ensures Valid() && Apart(buf)
      ensures Abs() == if old(buf.Contents()) == [] then old(Abs())
                       else Answered(old(Abs()), buf.store.Length, Header(old(report[..]), 0x80, id) + [], out, w)
    {
      var ok, argument := buf.PullU8();
      if !ok {
        return;
      }
      Acknowledge(buf, 0x80, id, out, w);
    }

    method FlashRead(buf: Buffer, ghost args: seq<byte>, out: int, w: WriteResult)
      requires Valid() && Apart(buf) && buf.store.Length >= 1 && buf.Contents() == args
      modifies buf, buf.store, report, this`ticks, this`trace
      ensures Valid() && Apart(buf)
      ensures var s := old(Abs());
              var plan := PlanOf(SUBCMD_FLASH_READ, args, s.flash, functionId);
              Abs() == if plan.Ignore? then s
                       else Answered(s, buf.store.Length,
                                     Header(s.report, plan.ack, SUBCMD_FLASH_READ) + plan.payload, out, w)
    {
      var ok, address := buf.PullU32le();
      if !ok {
        return;
      }
      var size;
      ok, size := buf.PullU8();
      if !ok {
        return;
      }
      FlashReadPlan(args, address, size, flash[..], functionId);
      ReplyFlashRead(buf, address, size, out, w);
    }

    /** The subcommand dispatch, under the mutex. */
    method Subcommand(buf: Buffer, id: byte, ghost req: seq<byte>, out: int, w: WriteResult)
      requires Valid() && Apart(buf) && locked && buf.store.Length >= 1
      requires |req| > SUBCMD_AT && req[0] == OUTPUT_REPORT_RUMBLE_AND_SUBCMD
      requires id == req[SUBCMD_AT] && buf.Contents() == req[SUBCMD_AT + 1..]
      modifies buf, buf.store, report, this`ticks, this`trace
      ensures Valid() && Apart(buf)
      ensures Abs() == AfterOutputReport(old(Abs()), buf.store.Length, req, out, w)
    {
      SubcmdEffect(Abs(), buf.store.Length, req, out, w);
      if id == SUBCMD_MANUAL_BT_PAIRING {
        Acknowledge(buf, 0x81, id, out, w);
      } else if id == SUBCMD_REQ_DEVINFO {
        ReplyDeviceInfo(buf, out, w);
      } else if id == SUBCMD_TRIGGERS_ELAPSED {
        Acknowledge(buf, 0x83, id, out, w);
      } else if id == SUBCMD_LOW_POWER_MODE {
        AcknowledgeArgument(buf, id, out, w);
      } else if id == SUBCMD_FLASH_READ {
        FlashRead(buf, req[SUBCMD_AT + 1..], out, w);
      } else if id == SUBCMD_ENABLE_IMU {
        AcknowledgeArgument(buf, id, out, w);
      } else if id == SUBCMD_SET_REPORT_MODE {
        AcknowledgeArgument(buf, id, out, w);
      } else if id == SUBCMD_ENABLE_RUMBLE {
        AcknowledgeArgument(buf, id, out, w);
      } else if id == SUBCMD_SET_PLAYER_LEDS {
        AcknowledgeArgument(buf, id, out, w);
      } else if id == SUBCMD_SET_HOME_LED {
        Acknowledge(buf, 0x80, id, out, w);
      } else {
        ReplyUnsupported(buf, id, out, w);
      }
    }

    /** Packet number, rumble words, subcommand id. */
    method PullSubcommand(buf: Buffer) returns (ok: bool, id: byte)
      requires buf.Valid()
      modifies buf
      ensures buf.Valid() && ok == (|old(buf.Contents())| >= SUBCMD_AT)
      ensures ok ==> id == old(buf.Contents())[SUBCMD_AT - 1] && buf.Contents() == old(buf.Contents())[SUBCMD_AT..]
    {
      ghost var req := buf.Contents();
      var packetNum;
      id := 0;
      ok, packetNum := buf.PullU8();
      if !ok {
        return;
      }
      ok := OnRumble(buf);
      if !ok {
        return;
      }
      assert buf.Contents() == req[SUBCMD_AT - 1..];
      ok, id := buf.PullU8();
    }

    method OnRumbleAndSubcmd(buf: Buffer, ghost req: seq<byte>, out: int, w: WriteResult)
      requires Valid() && !locked && Apart(buf) && buf.store.Length >= 1
      requires |req| > 0 && req[0] == OUTPUT_REPORT_RUMBLE_AND_SUBCMD && buf.Contents() == req[1..]
      modifies buf, buf.store, report, this`locked, this`ticks, this`trace
      ensures Valid() && !locked && Apart(buf)
      ensures Abs() == AfterOutputReport(old(Abs()), buf.store.Length, req, out, w)
    {
      var ok, id := PullSubcommand(buf);
      if !ok {
        return;
      }
      assert buf.Contents() == req[SUBCMD_AT + 1..];
      locked := true;
      Subcommand(buf, id, req, out, w);
      locked := false;
    }

    /** The first two bytes of every USB reply. */
    method BeginUsbReply(buf: Buffer, id: byte) returns (ok: bool)
      requires Apart(buf)
      modifies buf, buf.store
      ensures Apart(buf) && ok == (2 <= buf.store.Length)
      ensures ok ==> buf.Abs() == Fifo(0, [RESPONSE_USB_CMD, id], buf.store.Length)
    {
      buf.Reset();
      ok := buf.AddU8(RESPONSE_USB_CMD);
      if !ok {
        return;
      }
      ok := buf.AddU8(id);
    }

    method AddConnStatus(buf: Buffer) returns (ok: bool)
      requires Apart(buf)
      modifies buf, buf.store
      ensures Apart(buf)
      ensures ok == Succeeds(old(buf.Abs()), Op.Add([0, CONTROLLER_TYPE_PRO, 0, 0, 0, 0, 0, ToByte(functionId)]))
      ensures ok ==> buf.Abs() == Step(old(buf.Abs()),
                                       Op.Add([0, CONTROLLER_TYPE_PRO, 0, 0, 0, 0, 0, ToByte(functionId)]))
    {
      ghost var s := buf.Abs();
      ok := AddPair(buf, 0x00, CONTROLLER_TYPE_PRO);
      if !ok {
        return;
      }
      ok := AddZeros(buf);
      if !ok {
        return;
      }
      ok := buf.AddU8(ToByte(functionId));
      assert ok ==> buf.Contents() == s.contents + [0, CONTROLLER_TYPE_PRO, 0, 0, 0, 0, 0, ToByte(functionId)];
    }

    method ReplyConnStatus(buf: Buffer, out: int, w: WriteResult)
      requires Valid() && Apart(buf)
      modifies buf, buf.store, this`trace
      ensures Valid() && Apart(buf)
      ensures var reply := Sized(buf.store.Length, ConnStatus(functionId));
              Abs() == if reply.None? then old(Abs()) else Replied(old(Abs()), UsbReply, ticks, reply.value, out, w)
    {
      var ok := BeginUsbReply(buf, USB_CMD_CONN_STATUS);
      if !ok {
        return;
      }
      ok := AddConnStatus(buf);
      if ok {
        assert buf.Contents() == ConnStatus(functionId);
        PadAndWrite(buf, out, w, UsbReply, ticks);
      }
    }

    method ReplyHandshake(buf: Buffer, out: int, w: WriteResult)
      requires Valid() && Apart(buf)
      modifies buf, buf.store, this`trace
      ensures Valid() && Apart(buf)
      ensures var reply := Sized(buf.store.Length, [RESPONSE_USB_CMD, USB_CMD_HANDSHAKE]);
              Abs() == if reply.None? then old(Abs()) else Replied(old(Abs()), UsbReply, ticks, reply.value, out, w)
    {
      var ok := BeginUsbReply(buf, USB_CMD_HANDSHAKE);
      if ok {
        PadAndWrite(buf, out, w, UsbReply, ticks);
      }
    }

    /** The only reply that is not padded. */
    method ReplyBaudrate(buf: Buffer, out: int, w: WriteResult)
      requires Valid() && Apart(buf)
      modifies buf, buf.store, this`trace
      ensures Valid() && Apart(buf)
      ensures Abs() == if buf.store.Length < 2 then old(Abs())
                       else Replied(old(Abs()), UsbReply, ticks, [RESPONSE_USB_CMD, USB_CMD_SET_BAUDRATE_3M], out, w)
    {
      var ok := BeginUsbReply(buf, USB_CMD_SET_BAUDRATE_3M);
      if ok {
        assert buf.Contents() == [RESPONSE_USB_CMD, USB_CMD_SET_BAUDRATE_3M];
        ghost var code := WriteCode(2, w);
        ghost var live, mode := out in hidg, out in nonblocking;
        var ret := HidgWrite(out, buf, w,
                             Write(UsbReply, out, buf.Contents(), code, live, mode, ticks, |commits| - 1));
      }
    }

    method OnUsbCmd(buf: Buffer, ghost req: seq<byte>, out: int, w: WriteResult)
      requires Valid() && Apart(buf)
      requires |req| > 0 && req[0] == OUTPUT_REPORT_USB_CMD && buf.Contents() == req[1..]
      modifies buf, buf.store, this`trace
      ensures Valid() && Apart(buf)
      ensures Abs() == AfterOutputReport(old(Abs()), buf.store.Length, req, out, w)
    {
      var ok, id := buf.PullU8();
      if !ok {
        return;
      }
      if id == USB_CMD_CONN_STATUS {
        ReplyConnStatus(buf, out, w);
      } else if id == USB_CMD_HANDSHAKE {
        ReplyHandshake(buf, out, w);
      } else if id == USB_CMD_SET_BAUDRATE_3M {
        ReplyBaudrate(buf, out, w);
      }
    }

    /** Handles the output report in the buffer, in place: the reply is built over the request.
        Whatever the bytes, the effect is that of the pure response function. */
    method OnOutputReport(out: int, buf: Buffer, w: WriteResult)
      requires Valid() && !locked && Apart(buf)
      modifies buf, buf.store, report, this`locked, this`ticks, this`trace
      ensures Valid() && !locked && Apart(buf)
      ensures Abs() == AfterOutputReport(old(Abs()), buf.store.Length, old(buf.Contents()), out, w)
    {
      ghost var req := buf.Contents();
      var ok, id := buf.PullU8();
      if !ok {
        return;
      }
      if id == OUTPUT_REPORT_RUMBLE_AND_SUBCMD {
        OnRumbleAndSubcmd(buf, req, out, w);
      } else if id == OUTPUT_REPORT_RUMBLE {
        var timer;
        ok, timer := buf.PullU8();
        if !ok {
          return;
        }
        ok := OnRumble(buf);
      } else if id == OUTPUT_REPORT_USB_CMD {
        OnUsbCmd(buf, req, out, w);
      }
    }
  }

  /** What the arguments of a flash read ask for. */
  lemma FlashReadPlan(args: seq<byte>, address: u32, size: byte, flash: seq<byte>, functionId: nat)
    requires |args| >= 5 && address == FromLe32(args[..4]) && size == args[4] && |flash| == FLASH_SIZE
    ensures PlanOf(SUBCMD_FLASH_READ, args, flash, functionId) ==
            if address + size > FLASH_SIZE then Ignore
            else Answer(0x90, Le32(address) + [size] + flash[address..address + size])
  {
    Le32RoundTrip(0, args[..4]);
    assert args[..5] == args[..4] + [args[4]];
  }

  /** What a subcommand that reached the dispatch does. */
  lemma SubcmdEffect(s: State, cap: nat, req: seq<byte>, out: int, w: WriteResult)
    requires s.Valid() && |req| > SUBCMD_AT && req[0] == OUTPUT_REPORT_RUMBLE_AND_SUBCMD
    ensures var plan := PlanOf(req[SUBCMD_AT], req[SUBCMD_AT + 1..], s.flash, s.functionId);
            AfterOutputReport(s, cap, req, out, w) ==
              if plan.Ignore? then s
              else Answered(s, cap, Header(s.report, plan.ack, req[SUBCMD_AT]) + plan.payload, out, w)
  {
  }

  /** The report part of `init`. */
  method InitReport(report: array<byte>)
    requires report.Length == REPORT_SIZE && report[..] == Fill(REPORT_SIZE, 0)
    modifies report
    ensures report[..] == ReportOf(0, NEUTRAL_INPUT)
  {
    report[0] := RESPONSE_REPORT;
    report[2] := 0x91;
    report[12] := 0;
    WriteTwoU12le(report, 6, AxisRaw(0), AxisRaw(0));
    WriteTwoU12le(report, 9, AxisRaw(0), AxisRaw(0));
    NeutralReport(Pack(AxisRaw(0), AxisRaw(0)));
    NeutralBytes();
  }

  lemma NeutralReport(centre: seq<byte>)
    requires |centre| == 3
    ensures var start := Fill(REPORT_SIZE, 0)[0 := RESPONSE_REPORT][2 := 0x91][12 := 0];
            Patch(Patch(start, 6, centre), 9, centre) == ReportOf(0, [0, 0, 0] + centre + centre)
  {
    var start := Fill(REPORT_SIZE, 0)[0 := RESPONSE_REPORT][2 := 0x91][12 := 0];
    var left := Patch(start, 6, centre);
    var both := Patch(left, 9, centre);
    var report := ReportOf(0, [0, 0, 0] + centre + centre);
    forall i | 0 <= i < REPORT_SIZE ensures both[i] == report[i] {
      PatchAt(start, 6, centre, i);
      PatchAt(left, 9, centre, i);
      NeutralReportAt(centre, i);
    }
  }

  lemma NeutralReportAt(centre: seq<byte>, i: nat)
    requires |centre| == 3 && i < REPORT_SIZE
    ensures ReportOf(0, [0, 0, 0] + centre + centre)[i] ==
            if i == 0 then RESPONSE_REPORT
            else if i == 2 then 0x91
            else if 6 <= i < 9 then centre[i - 6]
            else if 9 <= i < 12 then centre[i - 9]
            else 0
  {
  }

  lemma NeutralBytes()
    ensures NEUTRAL_INPUT == [0, 0, 0] + Pack(AxisRaw(0), AxisRaw(0)) + Pack(AxisRaw(0), AxisRaw(0))
  {
  }
}
