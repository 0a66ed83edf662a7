/** Everything at once: the event loop is one of the threads that interleave between single
    byte copies. It starts a callback, takes the callback's steps among those of the other
    threads, and reads the result when the callback has released the mutex. */
module WholeSystem {
  import opened Flash
  import opened Gamepad
  import opened Protocol
  import opened Controller
  import opened Refinement
  import opened Atomicity
  import Completion
  import Snapshots
  import I = Interleaving
  import E = EventLoop

  /** What the loop keeps of its own, its local timeout included. */
  datatype Loop = Loop(pc: E.Pc, timeout: int, datafd: int, stopfd: int, epoll: set<int>, signalled: bool,
                       calls: seq<E.Callback>)
  {
    function With(ctl: State): E.Machine {
      E.Machine(pc, timeout, datafd, stopfd, epoll, signalled, calls, ctl)
    }
  }

  function LoopOf(m: E.Machine): Loop {
    Loop(m.pc, m.timeout, m.datafd, m.stopfd, m.epoll, m.signalled, m.calls)
  }

  /** `me` is the loop's thread, `busy` whether it has started the callback its pc asks for. */
  datatype Whole = Whole(loop: Loop, busy: bool, f: I.System, me: nat) {
    predicate Valid() { I.Ready(f) && me in f.threads }
  }

  predicate IsCallback(pc: E.Pc) {
    pc.Opening? || pc.Abandoning? || pc.Closing? || pc.Handling?
  }

  function CallFor(l: Loop): I.Call
    requires IsCallback(l.pc)
  {
    match l.pc
    case Opening => I.CallOpen
    case Abandoning => I.CallClose
    case Closing => I.CallClose
    case Handling(req) => I.CallOutputReport(REPORT_SIZE, req, l.datafd)
  }

  /** The loop once its callback has returned; `fd` is the descriptor the open callback reads
      after it has released the mutex. */
  function Returned(l: Loop, fd: int): Loop
    requires IsCallback(l.pc)
  {
    match l.pc
    case Opening =>
      if fd < 0 then l.(pc := E.Waiting, calls := l.calls + [E.OpenFailed])
      else l.(pc := E.Adding, datafd := fd, calls := l.calls + [E.Opened])
    case Abandoning => l.(pc := E.Waiting, calls := l.calls + [E.Closed])
    case Closing => l.(pc := E.Waiting, datafd := -1, timeout := E.SETUP_TIMEOUT, calls := l.calls + [E.Closed])
    case Handling(_) => l.(pc := E.Waiting)
  }

  /** One step of the loop's thread: its own, or one of the callback. */
  function LoopStep(w: Whole, r: E.Round, c: I.Choice): (v: Whole)
    requires w.Valid()
    ensures v.Valid()
  {
    if !IsCallback(w.loop.pc) then
      w.(loop := LoopOf(E.LoopStep(w.loop.With(w.f.spec), r)))
    else if !w.busy then
      w.(busy := true, f := I.Step(w.f, w.me, c.(call := CallFor(w.loop))))
    else if !w.f.threads[w.me].Idle? then
      w.(f := I.Step(w.f, w.me, c))
    else
      w.(busy := false, loop := Returned(w.loop, w.f.mem.fd))
  }

  datatype Turn =
    | LoopTurn(round: E.Round, choice: I.Choice)
    | OtherTurn(tid: nat, choice: I.Choice)
    | StopTurn
    | RunAgainTurn

  function Step(w: Whole, t: Turn): (v: Whole)
    requires w.Valid()
    ensures v.Valid()
  {
    match t
    case LoopTurn(r, c) => LoopStep(w, r, c)
    case OtherTurn(tid, c) => w.(f := I.Step(w.f, tid, c))
    case StopTurn => w.(loop := w.loop.(signalled := true))
    case RunAgainTurn =>
      if w.loop.pc.Returned? then w.(loop := w.loop.(pc := E.Waiting, timeout := E.SETUP_TIMEOUT)) else w
  }

  /** What the kernel guarantees; and other threads only update states. */
  predicate Conforms(w: Whole, t: Turn)
    requires w.Valid()
  {
    match t
    case LoopTurn(r, c) =>
      if IsCallback(w.loop.pc) then I.Conforms(w.f.threads[w.me], w.f.mem, c) && c.result != w.loop.stopfd
      else E.Conforms(w.loop.With(w.f.spec), r)
    case OtherTurn(tid, c) => tid != w.me && c.call.CallSetState?
    case StopTurn => true
    case RunAgainTurn => true
  }

  function Run(w: Whole, turns: seq<Turn>): (v: Whole)
    requires w.Valid()
    ensures v.Valid()
    decreases |turns|
  {
    if turns == [] then w else Run(Step(w, turns[0]), turns[1..])
  }

  predicate Conforming(w: Whole, turns: seq<Turn>)
    requires w.Valid()
    decreases |turns|
  {
    turns == [] || (Conforms(w, turns[0]) && Conforming(Step(w, turns[0]), turns[1..]))
  }

  function Boot(stopfd: nat, functionId: nat, flash: Image, me: nat, others: set<nat>): (w: Whole)
    ensures w.Valid()
  {
    Whole(Loop(E.Waiting, E.SETUP_TIMEOUT, -1, stopfd, {stopfd}, false, []), false,
          I.Boot(functionId, flash, others + {me}), me)
  }

  // ----- The loop machine behind it -----

  /** The callback has taken effect but not returned. */
  predicate Effected(w: Whole)
    requires w.Valid()
  {
    w.busy && PendingAt(w.f.threads[w.me]) == []
  }

  /** The machine of the event loop that this system implements: a callback happens at once,
      where it takes effect. */
  function Abs(w: Whole): E.Machine
    requires w.Valid() && (w.busy ==> IsCallback(w.loop.pc))
  {
    (if Effected(w) then Returned(w.loop, w.f.spec.fd) else w.loop).With(w.f.spec)
  }

  predicate OnlyUpdates(pc: I.Pc) {
    pc.Idle? || pc.Unlocking? || pc.Setting? || (pc.Locking? && pc.call.CallSetState?)
  }

  predicate Inv(w: Whole)
    requires w.Valid()
  {
    && I.SysInv(w.f)
    && (forall t :: t in w.f.threads && t != w.me ==> OnlyUpdates(w.f.threads[t]))
    && (if w.busy then
          IsCallback(w.loop.pc) && (Effected(w) || PendingAt(w.f.threads[w.me]) == [CallFor(w.loop)])
        else w.f.threads[w.me].Idle?)
    && w.loop.stopfd !in w.f.mem.hidg
    && E.LoopInv(Abs(w))
  }

  /** The machine performs what the loop does. */
  function RoundOf(a: Action): E.Round {
    match a
    case Open(first, second, nonblock) =>
      E.Round(E.TimedOut, first, second, nonblock, true, E.ReadBytes([]), Wrote(0))
    case OutputReport(_, _, _, w) => E.Round(E.TimedOut, -1, -1, 0, true, E.ReadBytes([]), w)
    case SetState(_, w) => E.Round(E.TimedOut, -1, -1, 0, true, E.ReadBytes([]), w)
    case Close => E.Round(E.TimedOut, -1, -1, 0, true, E.ReadBytes([]), Wrote(0))
  }

  /** A callback that takes effect is one step of the machine. */
  lemma CallbackIsStep(l: Loop, s: State, a: Action)
    requires s.Valid() && IsCallback(l.pc) && CallOf(a) == CallFor(l)
    ensures Returned(l, Next(s, a).fd).With(Next(s, a)) == E.LoopStep(l.With(s), RoundOf(a))
  {
  }

  /** Descriptors on the way into the controller are open. */
  lemma OpenedAreOpen(pc: I.OpenPc, m: I.Shared, s: State, c: I.Choice, stopfd: int)
    requires s.Valid() && |m.report| == REPORT_SIZE && I.OpenAt(pc, m, s) && stopfd !in m.hidg && stopfd >= 0
    requires I.StepOpen(pc, m, s, c).pc.Unlocking?
    ensures OpenAction(pc, c).first != stopfd && OpenAction(pc, c).second != stopfd
  {
  }

  lemma StepHidg(f: I.System, tid: nat, c: I.Choice)
    requires I.Ready(f)
    ensures var hidg := I.Step(f, tid, c).mem.hidg;
            hidg <= f.mem.hidg || (tid in f.threads && f.threads[tid].Opening? && hidg <= f.mem.hidg + {c.result})
  {
    if tid in f.threads && I.InSection(f.threads[tid]) && !f.threads[tid].Unlocking? {
      SectionHidg(f.threads[tid], f.mem, f.spec, c);
    }
  }

  lemma SectionHidg(pc: I.Pc, m: I.Shared, s: State, c: I.Choice)
    requires s.Valid() && |m.report| == REPORT_SIZE && |m.flash| == FLASH_SIZE && I.WellFormed(pc)
    ensures var hidg := I.StepSection(pc, m, s, c).mem.hidg;
            hidg <= m.hidg || (pc.Opening? && hidg <= m.hidg + {c.result})
  {
  }

  // ----- Every step is one step of the machine, or none -----

  /** From m to n by no turn or one conforming turn of the machine. */
  predicate AtMostOne(m: E.Machine, turns: seq<E.Turn>, n: E.Machine)
    requires m.Valid()
  {
    |turns| <= 1 && E.Conforming(m, turns) && n == E.Run(m, turns)
  }

  lemma OneLoopTurn(m: E.Machine, r: E.Round)
    requires E.LoopInv(m) && E.Conforms(m, r)
    ensures AtMostOne(m, [E.LoopTurn(r)], E.LoopStep(m, r)) && E.LoopInv(E.LoopStep(m, r))
  {
    E.LoopStepKeeps(m, r);
    assert [E.LoopTurn(r)][1..] == [];
  }

  lemma OneOtherTurn(m: E.Machine, t: E.Turn)
    requires E.LoopInv(m) && !t.LoopTurn?
    ensures AtMostOne(m, [t], E.TurnStep(m, t)) && E.LoopInv(E.TurnStep(m, t))
  {
    E.OneTurn(m, t);
    assert [t][1..] == [];
  }

  lemma OwnStep(w: Whole, r: E.Round, c: I.Choice) returns (turns: seq<E.Turn>)
    requires w.Valid() && Inv(w) && !IsCallback(w.loop.pc) && E.Conforms(w.loop.With(w.f.spec), r)
    ensures var v := LoopStep(w, r, c); Inv(v) && AtMostOne(Abs(w), turns, Abs(v))
  {
    OneLoopTurn(Abs(w), r);
    OwnStepFrame(w.loop.With(w.f.spec), r);
    turns := [E.LoopTurn(r)];
  }

  lemma OwnStepFrame(m: E.Machine, r: E.Round)
    requires m.Valid() && !IsCallback(m.pc)
    ensures var n := E.LoopStep(m, r); n.stopfd == m.stopfd && LoopOf(n).With(m.ctl) == n
  {
  }

  /** One step inside the callback. */
  predicate StepsIn(w: Whole, c: I.Choice)
    requires w.Valid()
  {
    && IsCallback(w.loop.pc)
    && (if w.busy then !w.f.threads[w.me].Idle? else c.call == CallFor(w.loop))
    && I.Conforms(w.f.threads[w.me], w.f.mem, c) && c.result != w.loop.stopfd
  }

  function Inside(w: Whole, c: I.Choice): (v: Whole)
    requires w.Valid()
    ensures v.Valid()
  {
    w.(busy := true, f := I.Step(w.f, w.me, c))
  }

  lemma PerformedOnce(f: I.System, turn: I.Turn)
    requires I.Ready(f)
    ensures |Performed(f, turn)| <= 1
  {
  }

  /** The callback is the only one that can take effect now, and whether it does. */
  lemma InsidePerforms(w: Whole, c: I.Choice)
    requires w.Valid() && Inv(w) && StepsIn(w, c)
    ensures var p, pc := Performed(w.f, I.Turn(w.me, c)), I.Step(w.f, w.me, c).threads[w.me];
            if p == [] then PendingAt(pc) == if Effected(w) then [] else [CallFor(w.loop)]
            else !Effected(w) && CallOf(p[0]) == CallFor(w.loop) && PendingAt(pc) == []
  {
    var turn := I.Turn(w.me, c);
    TurnPerformsCalls(w.f, turn, w.me);
    PerformedOnce(w.f, turn);
    TaggedParts(w.me, Performed(w.f, turn), w.me);
  }

  lemma OthersStay(w: Whole, c: I.Choice)
    requires w.Valid() && Inv(w) && StepsIn(w, c)
    ensures var g := I.Step(w.f, w.me, c);
            && (forall t :: t in g.threads && t != w.me ==> OnlyUpdates(g.threads[t]))
            && w.loop.stopfd !in g.mem.hidg
  {
    StepHidg(w.f, w.me, c);
  }

  lemma PerformedConforms(w: Whole, c: I.Choice)
    requires w.Valid() && Inv(w) && StepsIn(w, c) && Performed(w.f, I.Turn(w.me, c)) != []
    ensures var a := Performed(w.f, I.Turn(w.me, c))[0];
            !Effected(w) && E.Conforms(Abs(w), RoundOf(a))
  {
    InsidePerforms(w, c);
    StepKeepsSysInv(w.f, I.Turn(w.me, c));
    var pc := w.f.threads[w.me];
    if pc.Opening? {
      OpenedAreOpen(pc.open, w.f.mem, w.f.spec, c, w.loop.stopfd);
    }
  }

  lemma InsideStep(w: Whole, c: I.Choice) returns (turns: seq<E.Turn>)
    requires w.Valid() && Inv(w) && StepsIn(w, c)
    ensures Inv(Inside(w, c)) && AtMostOne(Abs(w), turns, Abs(Inside(w, c)))
  {
    var p := Performed(w.f, I.Turn(w.me, c));
    StepKeepsSysInv(w.f, I.Turn(w.me, c));
    InsidePerforms(w, c);
    OthersStay(w, c);
    if p == [] {
      turns := [];
    } else {
      var a := p[0];
      assert Exec(w.f.spec, [a]) == Next(w.f.spec, a);
      PerformedConforms(w, c);
      CallbackIsStep(w.loop, w.f.spec, a);
      OneLoopTurn(Abs(w), RoundOf(a));
      turns := [E.LoopTurn(RoundOf(a))];
    }
  }

  /** While the loop's thread neither opens nor closes, memory and specification agree on the device. */
  lemma DeviceAgrees(w: Whole)
    requires w.Valid() && Inv(w) && !w.f.threads[w.me].Opening? && !w.f.threads[w.me].Closing?
    ensures I.SameDevice(w.f.mem, w.f.spec)
  {
  }

  lemma ReturnStep(w: Whole, r: E.Round, c: I.Choice)
    requires w.Valid() && Inv(w) && w.busy && w.f.threads[w.me].Idle?
    ensures Inv(LoopStep(w, r, c)) && Abs(LoopStep(w, r, c)) == Abs(w)
  {
    DeviceAgrees(w);
  }

  lemma OtherPerforms(f: I.System, tid: nat, c: I.Choice)
    requires I.Ready(f) && (tid in f.threads ==> OnlyUpdates(f.threads[tid])) && c.call.CallSetState?
    ensures var p := Performed(f, I.Turn(tid, c)); p == [] || p[0].SetState?
    ensures tid in f.threads ==> OnlyUpdates(I.Step(f, tid, c).threads[tid])
    ensures I.Step(f, tid, c).mem.hidg == f.mem.hidg
  {
  }

  lemma OtherKeeps(w: Whole, tid: nat, c: I.Choice)
    requires w.Valid() && Inv(w) && tid != w.me && c.call.CallSetState?
    ensures var v := Step(w, OtherTurn(tid, c));
            && I.SysInv(v.f) && v.f.threads[w.me] == w.f.threads[w.me] && w.loop.stopfd !in v.f.mem.hidg
            && (forall t :: t in v.f.threads && t != w.me ==> OnlyUpdates(v.f.threads[t]))
  {
    OtherPerforms(w.f, tid, c);
    StepKeepsSysInv(w.f, I.Turn(tid, c));
    StepFrame(w.f, tid, c);
  }

  lemma StepFrame(f: I.System, tid: nat, c: I.Choice)
    requires I.Ready(f)
    ensures var g := I.Step(f, tid, c);
            g.threads.Keys == f.threads.Keys && forall t :: t in f.threads && t != tid ==> g.threads[t] == f.threads[t]
  {
  }

  lemma OtherStep(w: Whole, tid: nat, c: I.Choice) returns (turns: seq<E.Turn>)
    requires w.Valid() && Inv(w) && tid != w.me && c.call.CallSetState?
    ensures var v := Step(w, OtherTurn(tid, c)); Inv(v) && AtMostOne(Abs(w), turns, Abs(v))
  {
    OtherKeeps(w, tid, c);
    turns := OtherTurns(w, tid, c);
  }

  lemma OtherTurns(w: Whole, tid: nat, c: I.Choice) returns (turns: seq<E.Turn>)
    requires w.Valid() && Inv(w) && tid != w.me && c.call.CallSetState?
    ensures var v := Step(w, OtherTurn(tid, c)); AtMostOne(Abs(w), turns, Abs(v)) && E.LoopInv(Abs(v))
  {
    var p := Performed(w.f, I.Turn(tid, c));
    OtherPerforms(w.f, tid, c);
    StepKeepsSysInv(w.f, I.Turn(tid, c));
    if p == [] {
      turns := [];
      NoUpdate(w, tid, c);
    } else {
      var t := E.SetStateTurn(p[0].input, p[0].w);
      assert Exec(w.f.spec, [p[0]]) == Next(w.f.spec, p[0]);
      UpdateIsTurn(w, tid, c, p[0]);
      OneOtherTurn(Abs(w), t);
      turns := [t];
    }
  }

  lemma NoUpdate(w: Whole, tid: nat, c: I.Choice)
    requires w.Valid() && (w.busy ==> IsCallback(w.loop.pc)) && tid != w.me && I.Step(w.f, tid, c).spec == w.f.spec
    ensures Abs(Step(w, OtherTurn(tid, c))) == Abs(w)
  {
  }

  /** An update does not move the device, so it makes no difference whether a callback has returned. */
  lemma UpdateIsTurn(w: Whole, tid: nat, c: I.Choice, a: Action)
    requires w.Valid() && (w.busy ==> IsCallback(w.loop.pc)) && tid != w.me && a.SetState?
    requires I.Step(w.f, tid, c).spec == Next(w.f.spec, a)
    ensures Abs(Step(w, OtherTurn(tid, c))) == E.TurnStep(Abs(w), E.SetStateTurn(a.input, a.w))
  {
  }

  lemma StepKeeps(w: Whole, t: Turn) returns (turns: seq<E.Turn>)
    requires w.Valid() && Inv(w) && Conforms(w, t)
    ensures Inv(Step(w, t)) && AtMostOne(Abs(w), turns, Abs(Step(w, t)))
  {
    turns := [];
    match t
    case LoopTurn(r, c) =>
      if !IsCallback(w.loop.pc) {
        turns := OwnStep(w, r, c);
      } else if w.busy && w.f.threads[w.me].Idle? {
        ReturnStep(w, r, c);
      } else {
        turns := InsideStep(w, if w.busy then c else c.(call := CallFor(w.loop)));
      }
    case OtherTurn(tid, c) =>
      turns := OtherStep(w, tid, c);
    case StopTurn =>
      OneOtherTurn(Abs(w), E.StopTurn);
      turns := [E.StopTurn];
    case RunAgainTurn =>
      if w.loop.pc.Returned? {
        OneOtherTurn(Abs(w), E.RunAgainTurn);
        turns := [E.RunAgainTurn];
      }
  }

  // ----- Whole runs -----

  lemma {:induction false} RunImplementsLoop(w: Whole, turns: seq<Turn>) returns (steps: seq<E.Turn>)
    requires w.Valid() && Inv(w) && Conforming(w, turns)
    ensures Inv(Run(w, turns)) && E.Conforming(Abs(w), steps) && Abs(Run(w, turns)) == E.Run(Abs(w), steps)
    decreases |turns|
  {
    if turns == [] {
      steps := [];
    } else {
      var first := StepKeeps(w, turns[0]);
      var rest := RunImplementsLoop(Step(w, turns[0]), turns[1..]);
      E.RunAppend(Abs(w), first, rest);
      steps := first + rest;
    }
  }

  lemma BootInv(stopfd: nat, functionId: nat, flash: Image, me: nat, others: set<nat>)
    ensures Inv(Boot(stopfd, functionId, flash, me, others))
  {
    Refinement.BootInv(functionId, flash, others + {me});
  }

  /** The threads of a run follow a schedule of their own, so that whatever holds of all
      schedules holds here. */
  lemma {:induction false} RunIsSchedule(w: Whole, turns: seq<Turn>) returns (schedule: seq<I.Turn>)
    requires w.Valid() && Inv(w) && Conforming(w, turns)
    ensures I.Conforming(w.f, schedule) && Run(w, turns).f == I.Run(w.f, schedule)
    decreases |turns|
  {
    if turns == [] {
      schedule := [];
    } else {
      var steps := StepKeeps(w, turns[0]);
      var rest := RunIsSchedule(Step(w, turns[0]), turns[1..]);
      var first := ThreadTurn(w, turns[0]);
      StepIsTurn(w, turns[0]);
      if first == [] {
        schedule := rest;
      } else {
        Prepend(w.f, first[0], Step(w, turns[0]).f, rest);
        schedule := [first[0]] + rest;
      }
    }
  }

  lemma Prepend(f: I.System, turn: I.Turn, g: I.System, rest: seq<I.Turn>)
    requires I.Ready(f) && g == I.Step(f, turn.tid, turn.choice) && I.Conforming(g, rest)
    requires turn.tid in f.threads ==> I.Conforms(f.threads[turn.tid], f.mem, turn.choice)
    ensures I.Conforming(f, [turn] + rest) && I.Run(f, [turn] + rest) == I.Run(g, rest)
  {
    assert ([turn] + rest)[1..] == rest;
  }

  /** The turn of a thread that a turn of the whole system is, if any. */
  function ThreadTurn(w: Whole, t: Turn): seq<I.Turn>
    requires w.Valid()
  {
    match t
    case LoopTurn(r, c) =>
      if !IsCallback(w.loop.pc) then []
      else if !w.busy then [I.Turn(w.me, c.(call := CallFor(w.loop)))]
      else if !w.f.threads[w.me].Idle? then [I.Turn(w.me, c)]
      else []
    case OtherTurn(tid, c) => [I.Turn(tid, c)]
    case StopTurn => []
    case RunAgainTurn => []
  }

  lemma StepIsTurn(w: Whole, t: Turn)
    requires w.Valid() && Inv(w) && Conforms(w, t)
    ensures var turns := ThreadTurn(w, t);
            if turns == [] then Step(w, t).f == w.f
            else
              && |turns| == 1 && Step(w, t).f == I.Step(w.f, turns[0].tid, turns[0].choice)
              && (turns[0].tid in w.f.threads ==> I.Conforms(w.f.threads[turns[0].tid], w.f.mem, turns[0].choice))
  {
  }

  // ----- Callbacks return -----

  /** An upper bound on the loop's steps until its callback has returned. */
  function StepsToReturn(w: Whole): nat
    requires w.Valid()
  {
    if !IsCallback(w.loop.pc) then 0
    else if !w.busy then 86
    else
      var pc := w.f.threads[w.me];
      if pc.Idle? then 1
      else if pc.Locking? then 85
      else Completion.StepsLeft(pc) + 2
  }

  /** Every step of the loop's thread brings the return of its callback nearer, unless it waits
      for the mutex, which its holder gives back within 83 steps; and with the last one the
      loop moves on. */
  lemma CallbackProceeds(w: Whole, r: E.Round, c: I.Choice)
    requires w.Valid() && Inv(w) && IsCallback(w.loop.pc)
    requires w.busy && w.f.threads[w.me].Locking? ==> w.f.holder.None?
    ensures StepsToReturn(LoopStep(w, r, c)) < StepsToReturn(w) <= 86
  {
    if w.busy && !w.f.threads[w.me].Idle? {
      Completion.StepShrinks(w.f, w.me, c);
    }
  }

  // ----- Nothing is written to a closed descriptor -----

  /** To an open descriptor, in non-blocking mode exactly for state reports that change no buttons. */
  predicate WellSent(sent: I.Sent, m: I.Shared) {
    sent.fd in m.hidg && (sent.fd in m.nonblocking <==> sent.kind.StickReport?)
  }

  /** What was written from w to v went to descriptors that were right at that moment. */
  predicate WritesLive(w: Whole, v: Whole) {
    forall i :: |w.f.mem.sent| <= i < |v.f.mem.sent| ==> WellSent(v.f.mem.sent[i], w.f.mem)
  }

  predicate AllWritesLive(w: Whole, turns: seq<Turn>)
    requires w.Valid()
    decreases |turns|
  {
    turns == [] || (WritesLive(w, Step(w, turns[0])) && AllWritesLive(Step(w, turns[0]), turns[1..]))
  }

  lemma NextLive(s: State, a: Action)
    requires s.Valid()
    ensures var t := Next(s, a);
            && |s.trace| <= |t.trace| <= |s.trace| + 1
            && (|t.trace| > |s.trace| ==> 
                 var write := t.trace[|s.trace|];
                 write.live == (write.fd in s.hidg) && write.nonblocking == (write.fd in s.nonblocking))
  {
  }

  lemma PerformedLive(f: I.System, g: I.System, p: seq<Action>)
    requires I.SysInv(f) && I.SysInv(g) && Performs(f.spec, p, g.spec) && I.SameDevice(f.mem, f.spec)
    requires E.AllRouted(g.spec.trace)
    ensures forall i :: |f.mem.sent| <= i < |g.mem.sent| ==> WellSent(g.mem.sent[i], f.mem)
  {
    if p != [] {
      assert Exec(f.spec, p) == Next(f.spec, p[0]);
      NextLive(f.spec, p[0]);
      assert |g.mem.sent| > |f.mem.sent| ==> g.mem.sent[|f.mem.sent|] == I.SentOf(g.spec.trace[|f.mem.sent|]);
    }
  }

  /** A thread that opens or closes writes nothing, and keeps the others from writing. */
  lemma SilentWhileOpening(w: Whole, tid: nat, c: I.Choice)
    requires w.Valid() && Inv(w) && (w.f.threads[w.me].Opening? || w.f.threads[w.me].Closing?)
    requires tid != w.me ==> c.call.CallSetState?
    ensures I.Step(w.f, tid, c).mem.sent == w.f.mem.sent
  {
  }

  lemma TurnWritesLive(w: Whole, t: Turn)
    requires w.Valid() && Inv(w) && Conforms(w, t)
    ensures Inv(Step(w, t)) && WritesLive(w, Step(w, t))
  {
    var steps := StepKeeps(w, t);
    StepIsTurn(w, t);
    var turns := ThreadTurn(w, t);
    if turns != [] {
      if w.f.threads[w.me].Opening? || w.f.threads[w.me].Closing? {
        SilentWhileOpening(w, turns[0].tid, turns[0].choice);
      } else {
        DeviceAgrees(w);
        StepKeepsSysInv(w.f, turns[0]);
        PerformedLive(w.f, Step(w, t).f, Performed(w.f, turns[0]));
      }
    }
  }

  lemma {:induction false} RunWritesLive(w: Whole, turns: seq<Turn>)
    requires w.Valid() && Inv(w) && Conforming(w, turns)
    ensures Inv(Run(w, turns)) && AllWritesLive(w, turns)
    decreases |turns|
  {
    if turns != [] {
      TurnWritesLive(w, turns[0]);
      RunWritesLive(Step(w, turns[0]), turns[1..]);
    }
  }

  // ----- The main result -----

  /** What the loop finds whenever it waits, in the memory it shares with the other threads. */
  predicate Settled(l: Loop, m: I.Shared) {
    // it never sleeps forever without a device
    && (l.timeout == E.FOREVER ==> l.datafd >= 0)
    // the interest set is the stop event and, exactly while there is one, the device
    && l.epoll == {l.stopfd} + (if l.datafd >= 0 then {l.datafd} else {})
    // loop and controller agree on the device, both of whose descriptors are open and distinct
    && l.datafd == m.fd
    && (l.datafd >= 0 ==> m.fdNonblock >= 0 && m.fdNonblock != l.datafd)
    && m.hidg == (if l.datafd >= 0 then {l.datafd, m.fdNonblock} else {})
    && m.nonblocking == (if l.datafd >= 0 then {m.fdNonblock} else {})
    // no foreign descriptor has been closed, and opens and closes alternate
    && m.stray == {} && E.Alternates(l.calls, l.datafd >= 0)
  }

  /** However the loop's steps, the byte copies of its callbacks and those of any number of
      updating threads interleave, whatever the kernel answers, and however often the loop is
      stopped and run again: all is settled at every wait, and every report, replies included,
      is written to a descriptor that is open at that moment. */
  lemma WholeSafety(stopfd: nat, functionId: nat, flash: Image, me: nat, others: set<nat>, turns: seq<Turn>)
    requires Conforming(Boot(stopfd, functionId, flash, me, others), turns)
    ensures var boot := Boot(stopfd, functionId, flash, me, others);
            var w := Run(boot, turns);
            && AllWritesLive(boot, turns)
            && (w.loop.pc.Waiting? || w.loop.pc.Returned? ==> Settled(w.loop, w.f.mem))
  {
    BootInv(stopfd, functionId, flash, me, others);
    RunWritesLive(Boot(stopfd, functionId, flash, me, others), turns);
    InvSettles(Run(Boot(stopfd, functionId, flash, me, others), turns));
  }

  /** And no report is torn: the threads of the run have followed a schedule, over which every
      report shows the input committed last when it was written. */
  lemma WholeReports(stopfd: nat, functionId: nat, flash: Image, me: nat, others: set<nat>, turns: seq<Turn>)
    returns (schedule: seq<I.Turn>)
    requires Conforming(Boot(stopfd, functionId, flash, me, others), turns)
    ensures var boot := Boot(stopfd, functionId, flash, me, others);
            var f := Run(boot, turns).f;
            && I.Conforming(boot.f, schedule) && f == I.Run(boot.f, schedule)
            && Snapshots.ShowsInOrder(f, [NEUTRAL_INPUT] + Snapshots.Committed(boot.f, schedule),
                                      Snapshots.CommitsAt(boot.f, schedule, 0))
  {
    BootInv(stopfd, functionId, flash, me, others);
    schedule := RunIsSchedule(Boot(stopfd, functionId, flash, me, others), turns);
    Snapshots.NoTornReports(functionId, flash, others + {me}, schedule);
  }

  lemma InvSettles(w: Whole)
    requires w.Valid() && Inv(w)
    ensures w.loop.pc.Waiting? || w.loop.pc.Returned? ==> Settled(w.loop, w.f.mem)
  {
    if w.loop.pc.Waiting? || w.loop.pc.Returned? {
      DeviceAgrees(w);
    }
  }
}
