/** Every schedule of byte-granular steps has the effect of its calls, each performed whole. */
module Atomicity {
  import opened Flash
  import opened Protocol
  import opened Controller
  import opened Descriptors
  import opened HostView
  import opened Interleaving
  import opened Refinement

  /** An action and the thread whose call it is. */
  datatype Event = Event(tid: nat, action: Action)

  /** What a schedule performs, in the order of its turns. */
  function Events(f: System, schedule: seq<Turn>): seq<Event>
    requires Ready(f)
    decreases |schedule|
  {
    if schedule == [] then []
    else
      Tagged(schedule[0].tid, Performed(f, schedule[0])) +
      Events(Step(f, schedule[0].tid, schedule[0].choice), schedule[1..])
  }

  function Tagged(tid: nat, actions: seq<Action>): seq<Event> {
    if actions == [] then [] else [Event(tid, actions[0])]
  }

  function Actions(events: seq<Event>): seq<Action> {
    if events == [] then [] else [events[0].action] + Actions(events[1..])
  }

  /** The call whose effect an action is. */
  function CallOf(a: Action): Call {
    match a
    case SetState(input, _) => CallSetState(input)
    case OutputReport(cap, req, out, _) => CallOutputReport(cap, req, out)
    case Open(_, _, _) => CallOpen
    case Close => CallClose
  }

  /** The calls of one thread among events, in order. */
  function CallsBy(events: seq<Event>, tid: nat): seq<Call> {
    if events == [] then [] else CallBy(events[0], tid) + CallsBy(events[1..], tid)
  }

  function CallBy(e: Event, tid: nat): seq<Call> {
    if e.tid == tid then [CallOf(e.action)] else []
  }

  /** The calls a thread starts in a schedule, in order. */
  function Started(f: System, schedule: seq<Turn>, tid: nat): seq<Call>
    requires Ready(f)
    decreases |schedule|
  {
    if schedule == [] then []
    else
      StartedBy(f, schedule[0], tid) +
      Started(Step(f, schedule[0].tid, schedule[0].choice), schedule[1..], tid)
  }

  function StartedBy(f: System, turn: Turn, tid: nat): seq<Call> {
    if turn.tid == tid && tid in f.threads && f.threads[tid].Idle? then [turn.choice.call] else []
  }

  /** The call a thread is in that has not taken effect. */
  function Pending(f: System, tid: nat): seq<Call> {
    if tid in f.threads then PendingAt(f.threads[tid]) else []
  }

  function PendingAt(pc: Pc): seq<Call> {
    match pc
    case Idle => []
    case Unlocking => []
    case Locking(call) => [call]
    case Setting(input, _) => [CallSetState(input)]
    case Replying(cap, req, out, _) => [CallOutputReport(cap, req, out)]
    case Opening(_) => [CallOpen]
    case Closing(_) => [CallClose]
  }

  lemma {:induction false} CallsAppend(first: seq<Event>, rest: seq<Event>, tid: nat)
    ensures CallsBy(first + rest, tid) == CallsBy(first, tid) + CallsBy(rest, tid)
  {
    if first == [] {
      assert first + rest == rest;
    } else {
      var all, head := first + rest, CallBy(first[0], tid);
      assert all[0] == first[0] && all[1..] == first[1..] + rest;
      CallsAppend(first[1..], rest, tid);
      assert CallsBy(all, tid) == head + (CallsBy(first[1..], tid) + CallsBy(rest, tid));
    }
  }

  lemma {:induction false} ActionsAppend(first: seq<Event>, rest: seq<Event>)
    ensures Actions(first + rest) == Actions(first) + Actions(rest)
  {
    if first == [] {
      assert first + rest == rest;
    } else {
      assert (first + rest)[1..] == first[1..] + rest;
      ActionsAppend(first[1..], rest);
    }
  }

  lemma TaggedParts(tid: nat, actions: seq<Action>, other: nat)
    requires |actions| <= 1
    ensures Actions(Tagged(tid, actions)) == actions
    ensures CallsBy(Tagged(tid, actions), other) == if tid == other && actions != [] then [CallOf(actions[0])] else []
  {
  }

  // ----- Every call once, in order -----

  /** In one turn a thread starts a call, or one that it started takes effect, or both. */
  lemma TurnPerformsCalls(f: System, turn: Turn, tid: nat)
    requires Ready(f)
    ensures var g := Step(f, turn.tid, turn.choice);
            Pending(f, tid) + StartedBy(f, turn, tid) ==
            CallsBy(Tagged(turn.tid, Performed(f, turn)), tid) + Pending(g, tid)
  {
    TaggedParts(turn.tid, Performed(f, turn), tid);
    if turn.tid in f.threads && turn.tid == tid {
      var pc := f.threads[tid];
      if InSection(pc) && !pc.Unlocking? {
        SectionKeepsCall(pc, f.mem, f.spec, turn.choice);
      }
    }
  }

  lemma SectionKeepsCall(pc: Pc, m: Shared, s: State, c: Choice)
    requires s.Valid() && |m.report| == REPORT_SIZE && |m.flash| == FLASH_SIZE && WellFormed(pc)
    requires InSection(pc) && !pc.Unlocking?
    ensures var l := StepSection(pc, m, s, c);
            && PendingAt(pc) == [CallOf(ActionAt(pc, c))]
            && PendingAt(l.pc) == if l.pc.Unlocking? then [] else PendingAt(pc)
  {
  }

  /** The calls a thread starts are those that take effect, in the order started and each
      exactly once, and then the one that is still pending, if any. */
  lemma {:induction false} CallsTakeEffectOnce(f: System, schedule: seq<Turn>, tid: nat)
    requires Ready(f)
    ensures Pending(f, tid) + Started(f, schedule, tid) ==
            CallsBy(Events(f, schedule), tid) + Pending(Run(f, schedule), tid)
    decreases |schedule|
  {
    if schedule != [] {
      var g := Step(f, schedule[0].tid, schedule[0].choice);
      var first := Tagged(schedule[0].tid, Performed(f, schedule[0]));
      TurnPerformsCalls(f, schedule[0], tid);
      CallsTakeEffectOnce(g, schedule[1..], tid);
      CallsAppend(first, Events(g, schedule[1..]), tid);
      Rotate(Pending(f, tid), StartedBy(f, schedule[0], tid), Started(g, schedule[1..], tid),
             CallsBy(first, tid), Pending(g, tid), CallsBy(Events(g, schedule[1..]), tid),
             Pending(Run(f, schedule), tid));
    }
  }

  lemma Rotate(p: seq<Call>, s: seq<Call>, ss: seq<Call>, e: seq<Call>, q: seq<Call>, es: seq<Call>, r: seq<Call>)
    requires p + s == e + q && q + ss == es + r
    ensures p + (s + ss) == (e + es) + r
  {
    assert p + (s + ss) == (p + s) + ss;
    assert (e + q) + ss == e + (q + ss);
    assert e + (es + r) == (e + es) + r;
  }

  // ----- All schedules -----

  lemma {:induction false} RunRefines(f: System, schedule: seq<Turn>)
    requires SysInv(f) && Ready(f) && Conforming(f, schedule)
    ensures SysInv(Run(f, schedule))
    ensures AllEnabled(f.spec, Actions(Events(f, schedule)))
    ensures Run(f, schedule).spec == Exec(f.spec, Actions(Events(f, schedule)))
    decreases |schedule|
  {
    if schedule != [] {
      var g := Step(f, schedule[0].tid, schedule[0].choice);
      var first := Tagged(schedule[0].tid, Performed(f, schedule[0]));
      StepKeepsSysInv(f, schedule[0]);
      RunRefines(g, schedule[1..]);
      TaggedParts(schedule[0].tid, Performed(f, schedule[0]), 0);
      ActionsAppend(first, Events(g, schedule[1..]));
      ExecAppend(f.spec, Performed(f, schedule[0]), Actions(Events(g, schedule[1..])));
    }
  }

  /** Every schedule of every number of threads has the effect of its calls performed one after
      the other, each whole and at one point between its start and its end: the writes are
      theirs, in order; whenever the mutex is free the shared memory is exactly the state they
      lead to; and each thread's calls take effect in its own order, each exactly once, except
      that its last may be pending. */
  lemma SchedulesAreAtomic(functionId: nat, flash: Image, threads: set<nat>, schedule: seq<Turn>)
    requires Conforming(Boot(functionId, flash, threads), schedule)
    ensures var boot := Boot(functionId, flash, threads);
            var f, events := Run(boot, schedule), Events(boot, schedule);
            && AllEnabled(boot.spec, Actions(events))
            && (forall tid :: Started(boot, schedule, tid) == CallsBy(events, tid) + Pending(f, tid))
            && var s := Exec(boot.spec, Actions(events));
            && f.mem.sent == Strip(s.trace)
            && f.mem.flash == s.flash
            && (f.holder.None? ==> Same(f.mem, s))
            && Inv(s) && Owned(s) && StateReportsRouted(s.trace) && InStep(s)
  {
    BootInv(functionId, flash, threads);
    RunRefines(Boot(functionId, flash, threads), schedule);
    CallsFromBoot(functionId, flash, threads, schedule);
  }

  lemma CallsFromBoot(functionId: nat, flash: Image, threads: set<nat>, schedule: seq<Turn>)
    ensures var boot := Boot(functionId, flash, threads);
            var f, events := Run(boot, schedule), Events(boot, schedule);
            forall tid :: Started(boot, schedule, tid) == CallsBy(events, tid) + Pending(f, tid)
  {
    var boot := Boot(functionId, flash, threads);
    var f, events := Run(boot, schedule), Events(boot, schedule);
    forall tid ensures Started(boot, schedule, tid) == CallsBy(events, tid) + Pending(f, tid) {
      CallsTakeEffectOnce(boot, schedule, tid);
      assert Pending(boot, tid) == [];
    }
  }
}
