/** The loop object: the event loop as the thread runs it, against the machine of EventLoop. */
module LoopThread {
  import opened Bytes
  import opened Flash
  import opened Protocol
  import opened Controller
  import opened Buf
  import opened SwitchPro
  import opened EventLoop

  /** One iteration: whether a stop has been requested by the time the wait returns, and what
      the kernel answers. */
  datatype Iteration = Iteration(stop: bool, round: Round)

  /** Loop steps left until the next wait. */
  function StepsToWait(pc: Pc): nat {
    match pc
    case Opening => 3
    case Reading => 3
    case Adding => 2
    case Deleting => 2
    case Abandoning => 1
    case Closing => 1
    case Handling(_) => 1
    case _ => 0
  }

  /** All loop steps up to the next wait. */
  function Settle(m: Machine, r: Round): (n: Machine)
    requires m.Valid()
    ensures n.Valid() && (n.pc.Waiting? || n.pc.Returned?)
    decreases StepsToWait(m.pc)
  {
    if m.pc.Waiting? || m.pc.Returned? then m else Settle(LoopStep(m, r), r)
  }

  lemma SettleTwice(m: Machine, r: Round)
    requires m.Valid() && !m.pc.Waiting? && !m.pc.Returned?
    requires var n := LoopStep(m, r); !n.pc.Waiting? && !n.pc.Returned?
    ensures Settle(m, r) == Settle(LoopStep(LoopStep(m, r), r), r)
  {
  }

  predicate SettleConforms(m: Machine, r: Round)
    requires m.Valid()
    decreases StepsToWait(m.pc)
  {
    m.pc.Waiting? || m.pc.Returned? || (Conforms(m, r) && SettleConforms(LoopStep(m, r), r))
  }

  function Signal(m: Machine, stop: bool): Machine {
    m.(signalled := m.signalled || stop)
  }

  function Iterate(m: Machine, it: Iteration): (n: Machine)
    requires m.Valid() && m.pc.Waiting?
    ensures n.Valid() && (n.pc.Waiting? || n.pc.Returned?)
  {
    Settle(LoopStep(Signal(m, it.stop), it.round), it.round)
  }

  predicate IterationConforms(m: Machine, it: Iteration)
    requires m.Valid() && m.pc.Waiting?
  {
    var n := Signal(m, it.stop);
    Conforms(n, it.round) && SettleConforms(LoopStep(n, it.round), it.round)
  }

  function Script(m: Machine, its: seq<Iteration>): (n: Machine)
    requires m.Valid() && (m.pc.Waiting? || m.pc.Returned?)
    ensures n.Valid() && (n.pc.Waiting? || n.pc.Returned?)
    decreases |its|
  {
    if its == [] || m.pc.Returned? then m else Script(Iterate(m, its[0]), its[1..])
  }

  predicate ScriptConforms(m: Machine, its: seq<Iteration>)
    requires m.Valid() && (m.pc.Waiting? || m.pc.Returned?)
    decreases |its|
  {
    its == [] || m.pc.Returned? || (IterationConforms(m, its[0]) && ScriptConforms(Iterate(m, its[0]), its[1..]))
  }

  // ----- Scripts are runs -----

  lemma {:induction false} SettleIsRun(m: Machine, r: Round) returns (turns: seq<Turn>)
    requires m.Valid() && SettleConforms(m, r)
    ensures Conforming(m, turns) && Run(m, turns) == Settle(m, r)
    decreases StepsToWait(m.pc)
  {
    if m.pc.Waiting? || m.pc.Returned? {
      turns := [];
    } else {
      var rest := SettleIsRun(LoopStep(m, r), r);
      turns := [LoopTurn(r)] + rest;
    }
  }

  lemma IterateIsRun(m: Machine, it: Iteration) returns (turns: seq<Turn>)
    requires m.Valid() && m.pc.Waiting? && IterationConforms(m, it)
    ensures Conforming(m, turns) && Run(m, turns) == Iterate(m, it)
  {
    var n := Signal(m, it.stop);
    var rest := SettleIsRun(LoopStep(n, it.round), it.round);
    var iteration := [LoopTurn(it.round)] + rest;
    assert iteration[1..] == rest;
    turns := if it.stop then [StopTurn] + iteration else iteration;
  }

  /** A run of the loop thread is a run of the machine in which nobody but the loop and the
      stop requests take turns. */
  lemma {:induction false} ScriptIsRun(m: Machine, its: seq<Iteration>) returns (turns: seq<Turn>)
    requires m.Valid() && (m.pc.Waiting? || m.pc.Returned?) && ScriptConforms(m, its)
    ensures Conforming(m, turns) && Run(m, turns) == Script(m, its)
    decreases |its|
  {
    if its == [] || m.pc.Returned? {
      turns := [];
    } else {
      var first := IterateIsRun(m, its[0]);
      var rest := ScriptIsRun(Iterate(m, its[0]), its[1..]);
      RunAppend(m, first, rest);
      turns := first + rest;
    }
  }

  // ----- Stopping -----

  predicate ReportsStop(stopfd: int, wait: Wait) {
    wait.Event? && wait.fd == stopfd && (wait.hup || wait.err || wait.input)
  }

  lemma {:induction false} SettleWaits(m: Machine, r: Round)
    requires m.Valid() && !m.pc.Returned?
    ensures Settle(m, r).pc.Waiting?
    decreases StepsToWait(m.pc)
  {
    if !m.pc.Waiting? {
      SettleWaits(LoopStep(m, r), r);
    }
  }

  /** The loop is left exactly when the wait fails or reports the stop event: with the error,
      with -EIO if the event itself failed, else with 0. Nothing the device does leaves it. */
  lemma LoopEndsOnlyBy(m: Machine, it: Iteration)
    requires LoopInv(m) && m.pc.Waiting? && IterationConforms(m, it)
    ensures var w, n := it.round.wait, Iterate(m, it);
            if w.WaitFailed? then n.pc == Returned(-(w.error as int))
            else if ReportsStop(m.stopfd, w) then n.pc == Returned(if w.err || w.hup then -EIO else 0)
            else n.pc == Waiting
  {
    var n := LoopStep(Signal(m, it.stop), it.round);
    if !n.pc.Returned? {
      SettleWaits(n, it.round);
    }
  }

  lemma IterateKeeps(m: Machine, it: Iteration)
    requires LoopInv(m) && m.pc.Waiting? && IterationConforms(m, it)
    ensures LoopInv(Iterate(m, it))
    ensures ReportsStop(m.stopfd, it.round.wait) ==> Iterate(m, it).pc.Returned?
  {
    var turns := IterateIsRun(m, it);
    RunKeeps(m, turns);
  }

  lemma StopfdStays(m: Machine, it: Iteration)
    requires m.Valid() && m.pc.Waiting?
    ensures Iterate(m, it).stopfd == m.stopfd
  {
    SettleStopfd(LoopStep(Signal(m, it.stop), it.round), it.round);
  }

  lemma {:induction false} SettleStopfd(m: Machine, r: Round)
    requires m.Valid()
    ensures Settle(m, r).stopfd == m.stopfd
    decreases StepsToWait(m.pc)
  {
    if !m.pc.Waiting? && !m.pc.Returned? {
      SettleStopfd(LoopStep(m, r), r);
    }
  }

  /** If wait number k reports the stop event, the loop has returned after that iteration. This
      holds from every reachable state, so also of every later run: the event is never read. */
  lemma {:induction false} StopTerminates(m: Machine, its: seq<Iteration>, k: nat)
    requires LoopInv(m) && (m.pc.Waiting? || m.pc.Returned?) && ScriptConforms(m, its)
    requires k < |its| && ReportsStop(m.stopfd, its[k].round.wait)
    ensures Script(m, its[..k + 1]).pc.Returned?
    decreases |its|
  {
    if m.pc.Waiting? {
      var n := Iterate(m, its[0]);
      IterateKeeps(m, its[0]);
      StopfdStays(m, its[0]);
      assert its[..k + 1][1..] == its[1..][..k];
      if k > 0 {
        StopTerminates(n, its[1..], k - 1);
      }
    }
  }

  /** A run that starts, or starts again, after a stop request opens nothing and stays stopped. */
  lemma StoppedRunOpensNothing(m: Machine, its: seq<Iteration>)
    requires m.Valid() && m.signalled && (m.pc.Waiting? || m.pc.Returned?) && ScriptConforms(m, its)
    ensures Script(m, its).signalled && Opens(Script(m, its).calls) <= Opens(m.calls)
  {
    var turns := ScriptIsRun(m, its);
    NoOpenAfterStop(m, turns);
  }

  /** The loop thread alone is safe for every script: what holds at every wait of every run of
      the machine holds whenever it waits or has returned. */
  lemma ThreadIsSettled(stopfd: nat, functionId: nat, flash: Image, its: seq<Iteration>)
    requires ScriptConforms(Boot(stopfd, Initial(functionId, flash)), its)
    ensures var m := Script(Boot(stopfd, Initial(functionId, flash)), its);
            Settled(m) && AllRouted(m.ctl.trace) && m.ctl.stray == {} && Alternates(m.calls, m.datafd >= 0)
  {
    var turns := ScriptIsRun(Boot(stopfd, Initial(functionId, flash)), its);
    LoopSafety(stopfd, functionId, flash, turns);
  }

  class Loop {
    const stopfd: nat
    const pro: Pro
    var datafd: int
    var signalled: bool

    ghost var epoll: set<int>
    ghost var calls: seq<Callback>

    ghost predicate Valid()
      reads this, pro
    {
      pro.Valid() && !pro.locked
    }

    /** The machine with the loop at pc and its local timeout. */
    ghost function At(pc: Pc, timeout: int): (m: Machine)
      requires Valid()
      reads this, pro, pro.report, pro.flash
      ensures m.Valid()
    {
      Machine(pc, timeout, datafd, stopfd, epoll, signalled, calls, pro.Abs())
    }

    constructor (stopfd: nat, pro: Pro)
      requires pro.Valid() && !pro.locked
      ensures Valid() && this.pro == pro && At(Waiting, SETUP_TIMEOUT) == Boot(stopfd, pro.Abs())
    {
      this.stopfd, this.pro := stopfd, pro;
      datafd, signalled := -1, false;
      epoll, calls := {stopfd}, [];
    }

    /** A stop request writes to the event; EAGAIN means that its counter is full, so that it
        has been signalled before. */
    method Stop(w: WriteResult) returns (ret: int)
      requires Valid()
      requires w.Failed? && w.error == EAGAIN ==> signalled
      modifies this`signalled
      ensures signalled == (old(signalled) || w.Wrote?)
      ensures (ret == 0) == (w.Wrote? || w.error == EAGAIN) && (ret == 0 ==> signalled)
    {
      match w
      case Wrote(_) =>
        signalled := true;
        return 0;
      case Failed(error) =>
        if error == EAGAIN {
          return 0;
        }
        return -(error as int);
    }

    method OpenDatafd(r: Round, ghost timeout: int)
      requires Valid() && (datafd < 0 ==> SettleConforms(At(Opening, timeout), r))
      modifies this`datafd, this`epoll, this`calls
      modifies pro`locked, pro`fd, pro`fdNonblock, pro`hidg, pro`nonblocking, pro`stray
      ensures Valid()
      ensures At(Waiting, if datafd >= 0 then FOREVER else timeout) ==
              if old(datafd) >= 0 then old(At(Waiting, FOREVER)) else Settle(old(At(Opening, timeout)), r)
    {
      if datafd >= 0 {
        return;
      }
      ghost var m := At(Opening, timeout);
      var fd := pro.OpenDevice(r.first, r.second, r.nonblock);
      calls := calls + [if fd < 0 then OpenFailed else Opened];
      if fd < 0 {
        assert At(Waiting, timeout) == LoopStep(m, r);
        return;
      }
      datafd := fd;
      assert At(Adding, timeout) == LoopStep(m, r);
      Register(r, timeout);
    }

    /** Adds the open device to the interest set, or closes it again. */
    method Register(r: Round, ghost timeout: int)
      requires Valid() && datafd >= 0
      modifies this`datafd, this`epoll, this`calls
      modifies pro`locked, pro`fd, pro`fdNonblock, pro`hidg, pro`nonblocking, pro`stray
      ensures Valid()
      ensures At(Waiting, if datafd >= 0 then FOREVER else timeout) == Settle(old(At(Adding, timeout)), r)
    {
      ghost var m := At(Adding, timeout);
      if !r.ctlOk {
        datafd := -1;
        ghost var a := At(Abandoning, timeout);
        assert a == LoopStep(m, r);
        SettleTwice(m, r);
        pro.CloseDevice();
        calls := calls + [Closed];
        assert At(Waiting, timeout) == LoopStep(a, r);
        return;
      }
      epoll := epoll + {datafd};
      assert At(Waiting, FOREVER) == LoopStep(m, r);
    }

    method CloseDatafd(r: Round, ghost timeout: int)
      requires Valid()
      modifies this`datafd, this`epoll, this`calls
      modifies pro`locked, pro`fd, pro`fdNonblock, pro`hidg, pro`nonblocking, pro`stray
      ensures Valid()
      ensures At(Waiting, SETUP_TIMEOUT) ==
              if old(datafd) < 0 then old(At(Waiting, SETUP_TIMEOUT)) else Settle(old(At(Deleting, timeout)), r)
    {
      if datafd < 0 {
        return;
      }
      ghost var m := At(Deleting, timeout);
      if !r.ctlOk {
        assert At(Waiting, SETUP_TIMEOUT) == LoopStep(m, r);
        return;
      }
      epoll := epoll - {datafd};
      ghost var c := At(Closing, timeout);
      assert c == LoopStep(m, r);
      SettleTwice(m, r);
      pro.CloseDevice();
      calls := calls + [Closed];
      datafd := -1;
      assert At(Waiting, SETUP_TIMEOUT) == LoopStep(c, r);
    }

    /** The 64 bytes read into are the buffer the reply is built in. */
    method Handle(bytes: seq<byte>, w: WriteResult)
      requires Valid() && |bytes| <= REPORT_SIZE
      modifies pro`locked, pro`ticks, pro`trace, pro.report
      ensures Valid() && pro.Abs() == AfterOutputReport(old(pro.Abs()), REPORT_SIZE, bytes, datafd, w)
    {
      var data := new byte[REPORT_SIZE](i => if 0 <= i < |bytes| then bytes[i] else 0);
      var buf := new Buffer(data);
      buf.size := |bytes|;
      assert buf.Contents() == bytes;
      pro.OnOutputReport(datafd, buf, w);
    }

    method ProcessDatafdEvents(r: Round, ghost timeout: int) returns (ret: int)
      requires Valid() && Conforms(At(Reading, timeout), r)
      modifies pro`locked, pro`ticks, pro`trace, pro.report
      ensures Valid()
      ensures (ret < 0) == r.read.ReadFailed?
      ensures ret < 0 ==> At(Waiting, timeout) == old(At(Waiting, timeout))
      ensures ret >= 0 ==> At(Waiting, timeout) == Settle(old(At(Reading, timeout)), r)
    {
      match r.read
      case ReadFailed(error) =>
        return -(error as int);
      case ReadBytes(bytes) =>
        ghost var m := At(Reading, timeout);
        assert At(Handling(bytes), timeout) == LoopStep(m, r);
        SettleTwice(m, r);
        Handle(bytes, r.write);
        assert At(Waiting, timeout) == LoopStep(LoopStep(m, r), r);
        return 0;
    }

    /** What follows a wait: the next timeout, and the result if the loop is left. */
    method AfterWait(r: Round, timeout: int) returns (newTimeout: int, ret: Option<int>)
      requires Valid() && SettleConforms(LoopStep(At(Waiting, timeout), r), r)
      modifies this`datafd, this`epoll, this`calls
      modifies pro`locked, pro`fd, pro`fdNonblock, pro`hidg, pro`nonblocking, pro`stray
      modifies pro`ticks, pro`trace, pro.report
      ensures Valid()
      ensures At(if ret.Some? then Returned(ret.value) else Waiting, newTimeout) ==
              Settle(LoopStep(old(At(Waiting, timeout)), r), r)
    {
      newTimeout, ret := timeout, None;
      match r.wait
      case WaitFailed(error) =>
        ret := Some(-(error as int));
      case TimedOut =>
        OpenDatafd(r, timeout);
        if datafd >= 0 {
          newTimeout := FOREVER;
        }
      case Event(fd, hup, err, input) =>
        if fd == datafd {
          if hup || err {
            CloseDatafd(r, timeout);
            newTimeout := SETUP_TIMEOUT;
          } else if input {
            ghost var m := At(Reading, timeout);
            var code := ProcessDatafdEvents(r, timeout);
            if code < 0 {
              CloseDatafd(r, timeout);
              newTimeout := SETUP_TIMEOUT;
            }
          }
        } else if fd == stopfd {
          if err || hup {
            ret := Some(-EIO);
          } else if input {
            ret := Some(0);
          }
        }
    }

    /** The loop against any script of iterations. It ends with the value the loop returned, or,
        when the script is over, still waiting. */
    method Run(its: seq<Iteration>) returns (ret: Option<int>, timeout: int)
      requires Valid() && ScriptConforms(At(Waiting, SETUP_TIMEOUT), its)
      modifies this`datafd, this`epoll, this`calls, this`signalled
      modifies pro`locked, pro`fd, pro`fdNonblock, pro`hidg, pro`nonblocking, pro`stray
      modifies pro`ticks, pro`trace, pro.report
      ensures Valid()
      ensures At(if ret.Some? then Returned(ret.value) else Waiting, timeout) ==
              Script(old(At(Waiting, SETUP_TIMEOUT)), its)
    {
      ret, timeout := None, SETUP_TIMEOUT;
      var n := 0;
      while n < |its|
        invariant 0 <= n <= |its| && Valid() && ret.None?
        invariant ScriptConforms(At(Waiting, timeout), its[n..])
        invariant Script(At(Waiting, timeout), its[n..]) == Script(old(At(Waiting, SETUP_TIMEOUT)), its)
      {
        ghost var before := At(Waiting, timeout);
        var it := its[n];
        n := n + 1;
        signalled := signalled || it.stop;
        assert At(Waiting, timeout) == Signal(before, it.stop);
        timeout, ret := AfterWait(it.round, timeout);
        assert its[n - 1..][1..] == its[n..];
        if ret.Some? {
          break;
        }
      }
    }
  }
}
