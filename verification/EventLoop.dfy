/** The event loop driving the controller, as a machine that moves from system call to system
    call while other threads update states and request a stop. */
module EventLoop {
  import opened Bytes
  import opened Flash
  import opened Gamepad
  import opened Protocol
  import opened Controller
  import opened Descriptors

  const SETUP_TIMEOUT := 500
  const FOREVER := -1

  datatype Wait =
    | WaitFailed(error: errno)
    | TimedOut
    | Event(fd: int, hup: bool, err: bool, input: bool)

  datatype Read = ReadFailed(error: errno) | ReadBytes(data: seq<byte>)

  /** What the kernel answers during one iteration; each call takes what it needs. */
  datatype Round = Round(wait: Wait, first: int, second: int, nonblock: int, ctlOk: bool, read: Read,
                         write: WriteResult)

  /** The loop's next system call or callback. */
  datatype Pc =
    | Waiting
    | Opening
    | Adding
    | Abandoning
    | Deleting
    | Closing
    | Reading
    | Handling(req: seq<byte>)
    | Returned(ret: int)

  /** Callbacks made: successful and failed opens, and closes. */
  datatype Callback = Opened | OpenFailed | Closed

  /** `epoll` is the kernel's interest set, `signalled` whether the stop event is readable. */
  datatype Machine = Machine(pc: Pc, timeout: int, datafd: int, stopfd: int, epoll: set<int>, signalled: bool,
                             calls: seq<Callback>, ctl: State)
  {
    predicate Valid() { ctl.Valid() }
  }

  // ----- The loop thread -----

  /** What the loop does after `epoll_wait`. */
  function AfterWait(m: Machine, wait: Wait): Machine {
    match wait
    case WaitFailed(error) => m.(pc := Returned(-(error as int)))
    case TimedOut => if m.datafd >= 0 then m.(timeout := FOREVER) else m.(pc := Opening)
    case Event(fd, hup, err, input) =>
      if fd == m.datafd then
        if m.datafd >= 0 && (hup || err) then m.(pc := Deleting)
        else if hup || err then m.(timeout := SETUP_TIMEOUT)
        else if input then m.(pc := Reading)
        else m
      else if fd == m.stopfd then
        if err || hup then m.(pc := Returned(-EIO))
        else if input then m.(pc := Returned(0))
        else m
      else m
  }

  function LoopStep(m: Machine, r: Round): (t: Machine)
    requires m.Valid()
    ensures t.Valid()
  {
    match m.pc
    case Waiting => AfterWait(m, r.wait)
    case Opening =>
      var ctl := Next(m.ctl, Open(r.first, r.second, r.nonblock));
      if ctl.fd < 0 then m.(pc := Waiting, ctl := ctl, calls := m.calls + [OpenFailed])
      else m.(pc := Adding, ctl := ctl, datafd := ctl.fd, calls := m.calls + [Opened])
    case Adding =>
      if r.ctlOk then m.(pc := Waiting, epoll := m.epoll + {m.datafd}, timeout := FOREVER)
      else m.(pc := Abandoning, datafd := -1)
    case Abandoning => m.(pc := Waiting, ctl := Next(m.ctl, Close), calls := m.calls + [Closed])
    case Deleting =>
      if r.ctlOk then m.(pc := Closing, epoll := m.epoll - {m.datafd})
      else m.(pc := Waiting, timeout := SETUP_TIMEOUT)
    case Closing =>
      m.(pc := Waiting, ctl := Next(m.ctl, Close), datafd := -1, timeout := SETUP_TIMEOUT, calls := m.calls + [Closed])
    case Reading =>
      (match r.read
       case ReadFailed(_) => if m.datafd >= 0 then m.(pc := Deleting) else m.(pc := Waiting, timeout := SETUP_TIMEOUT)
       case ReadBytes(data) => m.(pc := Handling(data)))
    case Handling(req) => m.(pc := Waiting, ctl := Next(m.ctl, OutputReport(REPORT_SIZE, req, m.datafd, r.write)))
    case Returned(_) => m
  }

  // ----- Everybody -----

  datatype Turn =
    | LoopTurn(round: Round)
    | SetStateTurn(input: Input, w: WriteResult)
    | StopTurn
    | RunAgainTurn

  function TurnStep(m: Machine, t: Turn): (n: Machine)
    requires m.Valid()
    ensures n.Valid()
  {
    match t
    case LoopTurn(r) => LoopStep(m, r)
    case SetStateTurn(input, w) => m.(ctl := Next(m.ctl, SetState(input, w)))
    case StopTurn => m.(signalled := true)
    case RunAgainTurn => if m.pc.Returned? then m.(pc := Waiting, timeout := SETUP_TIMEOUT) else m
  }

  /** What the kernel guarantees: opens return unused descriptors; waits report descriptors of
      the interest set, do not time out when told to wait forever or when the stop event is
      readable (readiness is level-triggered), and report the stop event with a cause; reads
      fit the buffer. */
  predicate Conforms(m: Machine, r: Round) {
    && (m.pc.Opening? ==>
          Enabled(m.ctl, Open(r.first, r.second, r.nonblock)) && r.first != m.stopfd && r.second != m.stopfd)
    && (m.pc.Waiting? && r.wait.TimedOut? ==> m.timeout >= 0 && !m.signalled)
    && (m.pc.Waiting? && r.wait.Event? ==>
          && r.wait.fd in m.epoll
          && (r.wait.fd == m.stopfd ==> (r.wait.hup || r.wait.err || r.wait.input) && (r.wait.input ==> m.signalled)))
    && (m.pc.Reading? && r.read.ReadBytes? ==> |r.read.data| <= REPORT_SIZE)
  }

  function Run(m: Machine, turns: seq<Turn>): (n: Machine)
    requires m.Valid()
    ensures n.Valid()
    decreases |turns|
  {
    if turns == [] then m else Run(TurnStep(m, turns[0]), turns[1..])
  }

  predicate Conforming(m: Machine, turns: seq<Turn>)
    requires m.Valid()
    decreases |turns|
  {
    turns == [] ||
    ((turns[0].LoopTurn? ==> Conforms(m, turns[0].round)) && Conforming(TurnStep(m, turns[0]), turns[1..]))
  }

  lemma {:induction false} RunAppend(m: Machine, first: seq<Turn>, rest: seq<Turn>)
    requires m.Valid()
    ensures Run(m, first + rest) == Run(Run(m, first), rest)
    ensures Conforming(m, first + rest) <==> Conforming(m, first) && Conforming(Run(m, first), rest)
    decreases |first|
  {
    if first == [] {
      assert first + rest == rest;
    } else {
      assert (first + rest)[1..] == first[1..] + rest;
      RunAppend(TurnStep(m, first[0]), first[1..], rest);
    }
  }

  function Boot(stopfd: nat, ctl: State): Machine {
    Machine(Waiting, SETUP_TIMEOUT, -1, stopfd, {stopfd}, false, [], ctl)
  }

  // ----- What every run keeps -----

  /** Opens only while closed, closes only while open. */
  predicate Alternates(calls: seq<Callback>, open: bool) {
    if calls == [] then !open
    else
      var front := calls[..|calls| - 1];
      match calls[|calls| - 1]
      case Opened => open && Alternates(front, false)
      case OpenFailed => !open && Alternates(front, false)
      case Closed => !open && Alternates(front, true)
  }

  predicate AllRouted(trace: seq<Write>) {
    forall i :: 0 <= i < |trace| ==> trace[i].live && (trace[i].nonblocking <==> trace[i].kind.StickReport?)
  }

  /** The controller's part: it owns its descriptors, has never closed a foreign one, and has
      never written to a closed one. */
  predicate ControllerInv(s: State, stopfd: int) {
    && s.Valid() && Owned(s) && s.stray == {} && AllRouted(s.trace) && stopfd !in s.hidg
    && s.fd >= -1
  }

  /** The interest set is the stop event, and the device exactly while it is registered. */
  predicate LoopInv(m: Machine) {
    && ControllerInv(m.ctl, m.stopfd) && m.stopfd >= 0 && m.datafd >= -1
    && Alternates(m.calls, m.ctl.fd >= 0)
    && (m.timeout == SETUP_TIMEOUT || (m.timeout == FOREVER && m.datafd >= 0))
    && m.epoll == {m.stopfd} + (if m.datafd >= 0 && !m.pc.Adding? && !m.pc.Closing? then {m.datafd} else {})
    && (if m.pc.Abandoning? then m.datafd < 0 <= m.ctl.fd else m.datafd == m.ctl.fd)
    && (m.pc.Opening? ==> m.datafd < 0)
    && (m.pc.Adding? ==> m.timeout == SETUP_TIMEOUT)
    && (m.pc.Adding? || m.pc.Deleting? || m.pc.Closing? || m.pc.Reading? || m.pc.Handling? ==> m.datafd >= 0)
  }

  lemma AlternatesAppend(calls: seq<Callback>, c: Callback, open: bool)
    requires Alternates(calls, c.Closed?)
    requires open == c.Opened?
    ensures Alternates(calls + [c], open)
  {
  }

  lemma OpenKeeps(s: State, stopfd: int, r: Round)
    requires ControllerInv(s, stopfd) && s.fd < 0 && Enabled(s, Open(r.first, r.second, r.nonblock))
    requires r.first != stopfd && r.second != stopfd
    ensures ControllerInv(Next(s, Open(r.first, r.second, r.nonblock)), stopfd)
  {
  }

  lemma CloseKeeps(s: State, stopfd: int)
    requires ControllerInv(s, stopfd) && s.fd >= 0
    ensures ControllerInv(Next(s, Close), stopfd) && Next(s, Close).fd == -1
  {
  }

  lemma OutputReportKeeps(s: State, stopfd: int, cap: nat, req: seq<byte>, w: WriteResult)
    requires ControllerInv(s, stopfd) && s.fd >= 0
    ensures var t := Next(s, OutputReport(cap, req, s.fd, w)); ControllerInv(t, stopfd) && t.fd == s.fd
  {
  }

  lemma SetStateKeeps(s: State, stopfd: int, input: Input, w: WriteResult)
    requires ControllerInv(s, stopfd)
    ensures var t := Next(s, SetState(input, w)); ControllerInv(t, stopfd) && t.fd == s.fd
  {
  }

  lemma AfterWaitKeeps(m: Machine, r: Round)
    requires LoopInv(m) && m.pc.Waiting? && Conforms(m, r)
    ensures LoopInv(AfterWait(m, r.wait))
  {
  }

  lemma OpeningKeeps(m: Machine, r: Round)
    requires LoopInv(m) && m.pc.Opening? && Conforms(m, r)
    ensures LoopInv(LoopStep(m, r))
  {
    OpenKeeps(m.ctl, m.stopfd, r);
    var succeeded := Next(m.ctl, Open(r.first, r.second, r.nonblock)).fd >= 0;
    AlternatesAppend(m.calls, if succeeded then Opened else OpenFailed, succeeded);
  }

  lemma LoopStepKeeps(m: Machine, r: Round)
    requires LoopInv(m) && Conforms(m, r)
    ensures LoopInv(LoopStep(m, r))
  {
    match m.pc
    case Waiting => AfterWaitKeeps(m, r);
    case Opening => OpeningKeeps(m, r);
    case Adding =>
    case Abandoning =>
      CloseKeeps(m.ctl, m.stopfd);
      AlternatesAppend(m.calls, Closed, false);
    case Deleting =>
      assert {m.stopfd} + {m.datafd} - {m.datafd} == {m.stopfd};
    case Closing =>
      CloseKeeps(m.ctl, m.stopfd);
      AlternatesAppend(m.calls, Closed, false);
    case Reading =>
    case Handling(req) =>
      OutputReportKeeps(m.ctl, m.stopfd, REPORT_SIZE, req, r.write);
    case Returned(_) =>
  }

  lemma OneTurn(m: Machine, t: Turn)
    requires LoopInv(m) && (t.LoopTurn? ==> Conforms(m, t.round))
    ensures LoopInv(TurnStep(m, t))
  {
    match t
    case LoopTurn(r) => LoopStepKeeps(m, r);
    case SetStateTurn(input, w) => SetStateKeeps(m.ctl, m.stopfd, input, w);
    case StopTurn =>
    case RunAgainTurn =>
  }

  lemma {:induction false} RunKeeps(m: Machine, turns: seq<Turn>)
    requires LoopInv(m) && Conforming(m, turns)
    ensures LoopInv(Run(m, turns))
    decreases |turns|
  {
    if turns != [] {
      OneTurn(m, turns[0]);
      RunKeeps(TurnStep(m, turns[0]), turns[1..]);
    }
  }

  /** The state of things whenever the loop is about to wait, after any turns of any threads,
      any kernel results, and any number of stops and later runs. */
  predicate Settled(m: Machine) {
    // it never sleeps forever without a device
    && (m.timeout == FOREVER ==> m.datafd >= 0)
    // the interest set is the stop event and, exactly while there is one, the device
    && m.epoll == {m.stopfd} + (if m.datafd >= 0 then {m.datafd} else {})
    // loop and controller agree on the device, both of whose descriptors are open and distinct
    && m.datafd == m.ctl.fd
    && (m.datafd >= 0 ==> m.ctl.fdNonblock >= 0 && m.ctl.fdNonblock != m.datafd)
    && m.ctl.hidg == (if m.datafd >= 0 then {m.datafd, m.ctl.fdNonblock} else {})
    && m.ctl.nonblocking == (if m.datafd >= 0 then {m.ctl.fdNonblock} else {})
  }

  /** For every script of kernel results and every interleaving with other threads: at every
      wait all is settled; opens and closes alternate strictly; nothing is ever written to a
      descriptor that is not an open device, and no foreign descriptor is ever closed. */
  lemma LoopSafety(stopfd: nat, functionId: nat, flash: Image, turns: seq<Turn>)
    requires Conforming(Boot(stopfd, Initial(functionId, flash)), turns)
    ensures var m := Run(Boot(stopfd, Initial(functionId, flash)), turns);
      && (m.pc.Waiting? || m.pc.Returned? ==> Settled(m))
      && Alternates(m.calls, m.ctl.fd >= 0)
      && AllRouted(m.ctl.trace)
      && m.ctl.stray == {}
  {
    var m := Boot(stopfd, Initial(functionId, flash));
    assert LoopInv(m);
    RunKeeps(m, turns);
  }

  /** What a turn does to the controller. */
  function ActionsOf(m: Machine, t: Turn): seq<Action> {
    match t
    case SetStateTurn(input, w) => [SetState(input, w)]
    case LoopTurn(r) =>
      (match m.pc
       case Opening => [Open(r.first, r.second, r.nonblock)]
       case Abandoning => [Close]
       case Closing => [Close]
       case Handling(req) => [OutputReport(REPORT_SIZE, req, m.datafd, r.write)]
       case Waiting => []
       case Adding => []
       case Deleting => []
       case Reading => []
       case Returned(_) => [])
    case StopTurn => []
    case RunAgainTurn => []
  }

  lemma TurnActs(m: Machine, t: Turn)
    requires m.Valid() && (t.LoopTurn? ==> Conforms(m, t.round))
    ensures AllEnabled(m.ctl, ActionsOf(m, t)) && TurnStep(m, t).ctl == Exec(m.ctl, ActionsOf(m, t))
  {
  }

  /** Whatever the loop does to the controller is a run of the controller's own machine, so
      that everything proved about those runs holds under the loop. */
  lemma {:induction false} RunIsControllerRun(m: Machine, turns: seq<Turn>) returns (actions: seq<Action>)
    requires m.Valid() && Conforming(m, turns)
    ensures AllEnabled(m.ctl, actions) && Run(m, turns).ctl == Exec(m.ctl, actions)
    decreases |turns|
  {
    if turns == [] {
      actions := [];
    } else {
      var rest := RunIsControllerRun(TurnStep(m, turns[0]), turns[1..]);
      actions := ActionsOf(m, turns[0]) + rest;
      TurnActs(m, turns[0]);
      ExecAppend(m.ctl, ActionsOf(m, turns[0]), rest);
    }
  }

  // ----- Stopping -----

  /** How often the open callback was called. */
  function Opens(calls: seq<Callback>): nat {
    if calls == [] then 0
    else Opens(calls[..|calls| - 1]) + if calls[|calls| - 1].Closed? then 0 else 1
  }

  lemma OpensAppend(calls: seq<Callback>, c: Callback)
    ensures Opens(calls + [c]) == Opens(calls) + if c.Closed? then 0 else 1
  {
  }

  /** How many more opens are possible once stop is signalled: one that is under way. */
  function OpensLeft(pc: Pc): nat {
    if pc.Opening? then 1 else 0
  }

  lemma OpeningCounts(m: Machine, r: Round)
    requires m.Valid() && m.pc.Opening?
    ensures var n := LoopStep(m, r);
            Opens(n.calls) == Opens(m.calls) + 1 && n.signalled == m.signalled && !n.pc.Opening?
  {
    OpensAppend(m.calls, Opened);
    OpensAppend(m.calls, OpenFailed);
  }

  lemma TurnAfterStop(m: Machine, t: Turn)
    requires m.Valid() && m.signalled && (t.LoopTurn? ==> Conforms(m, t.round))
    ensures TurnStep(m, t).signalled
    ensures var n := TurnStep(m, t);
            Opens(n.calls) + OpensLeft(n.pc) <= Opens(m.calls) + OpensLeft(m.pc)
  {
    if t.LoopTurn? && m.pc.Opening? {
      OpeningCounts(m, t.round);
    } else {
      OpensAppend(m.calls, Closed);
    }
  }

  /** Stop is sticky: once signalled, whatever happens and however often the loop is run again,
      the open callback is not called again, except once if the loop was just about to. */
  lemma {:induction false} NoOpenAfterStop(m: Machine, turns: seq<Turn>)
    requires m.Valid() && m.signalled && Conforming(m, turns)
    ensures Run(m, turns).signalled
    ensures Opens(Run(m, turns).calls) <= Opens(m.calls) + OpensLeft(m.pc)
    decreases |turns|
  {
    if turns != [] {
      TurnAfterStop(m, turns[0]);
      NoOpenAfterStop(TurnStep(m, turns[0]), turns[1..]);
    }
  }
}
