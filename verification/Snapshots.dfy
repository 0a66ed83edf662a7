/** What any interleaving of threads puts on the wire, stated on the shared memory alone. */
module Snapshots {
  import opened Flash
  import opened Gamepad
  import opened Protocol
  import opened Controller
  import opened Atomicity
  import opened Interleaving
  import opened Refinement

  /** The input bytes of a report on the wire. */
  predicate Shows(sent: Sent, input: Input) {
    |sent.bytes| == REPORT_SIZE && sent.bytes[3..12] == input
  }

  /** Reports show the listed inputs one at a time and in list order, and whenever the mutex
      is free the shared report shows the last. */
  predicate ShowsInOrder(f: System, commits: seq<Input>, at: seq<nat>)
    requires commits != []
  {
    && |at| == |f.mem.sent|
    && (forall i :: 0 <= i < |at| ==> at[i] < |commits|)
    && (forall i :: 0 <= i < |at| && !f.mem.sent[i].kind.UsbReply? ==> Shows(f.mem.sent[i], commits[at[i]]))
    && (forall i, j :: 0 <= i < j < |at| ==> at[i] <= at[j])
    && (f.holder.None? ==> |f.mem.report| == REPORT_SIZE && f.mem.report[3..12] == Last(commits))
  }

  // ----- The list of committed inputs -----

  /** The input a turn commits: that of a thread whose copy of the report is complete. */
  function CommittedBy(f: System, turn: Turn): seq<Input> {
    if turn.tid in f.threads && Sends(f.threads[turn.tid]) then [f.threads[turn.tid].input] else []
  }

  predicate Sends(pc: Pc) {
    pc.Setting? && pc.set_.Send? && |pc.set_.packet| >= REPORT_SIZE
  }

  /** The inputs committed in a schedule, in order. */
  function Committed(f: System, schedule: seq<Turn>): seq<Input>
    requires Ready(f)
    decreases |schedule|
  {
    if schedule == [] then []
    else CommittedBy(f, schedule[0]) + Committed(Step(f, schedule[0].tid, schedule[0].choice), schedule[1..])
  }

  /** Whether a turn writes a report. */
  predicate Writes(f: System, turn: Turn) {
    turn.tid in f.threads &&
    var pc, call := f.threads[turn.tid], turn.choice.call;
    || Sends(pc)
    || (pc.Replying? && pc.reply.Transmit?)
    || (pc.Idle? && call.CallOutputReport? && !TakesLock(call.req) && UnlockedReply(call, f.mem.functionId).Some?)
  }

  /** For every report written in a schedule, the number of commits up to it, n before the schedule. */
  function CommitsAt(f: System, schedule: seq<Turn>, n: nat): seq<nat>
    requires Ready(f)
    decreases |schedule|
  {
    if schedule == [] then []
    else
      var k := n + |CommittedBy(f, schedule[0])|;
      (if Writes(f, schedule[0]) then [k] else []) +
      CommitsAt(Step(f, schedule[0].tid, schedule[0].choice), schedule[1..], k)
  }

  /** A commit is the effect of a state update with that input. */
  lemma CommitIsPerformed(f: System, turn: Turn)
    requires Ready(f) && CommittedBy(f, turn) != []
    ensures Performed(f, turn) == [SetState(CommittedBy(f, turn)[0], turn.choice.write)]
  {
  }

  /** The writes of a trace carry these commit numbers. */
  predicate Numbered(trace: seq<Write>, at: seq<nat>) {
    |trace| == |at| && forall i :: 0 <= i < |at| ==> trace[i].commit == at[i]
  }

  /** An action adds at most one write, which carries the number of the last commit. */
  lemma NextWrites(s: State, a: Action, at: seq<nat>)
    requires s.Valid() && Numbered(s.trace, at)
    ensures var t := Next(s, a);
            Numbered(t.trace, at + if |t.trace| > |s.trace| then [|t.commits| - 1] else [])
  {
  }

  lemma ReplyingKeepsCommits(pc: Pc, m: Shared, s: State, c: Choice)
    requires s.Valid() && |m.report| == REPORT_SIZE && |m.flash| == |s.flash| && WellFormed(pc) && pc.Replying?
    ensures StepSection(pc, m, s, c).spec.commits == s.commits
  {
  }

  lemma StepCommits(f: System, turn: Turn)
    requires SysInv(f) && (turn.tid in f.threads ==> Conforms(f.threads[turn.tid], f.mem, turn.choice))
    ensures Step(f, turn.tid, turn.choice).spec.commits == f.spec.commits + CommittedBy(f, turn)
  {
    if turn.tid in f.threads && InSection(f.threads[turn.tid]) && !f.threads[turn.tid].Unlocking? {
      SectionCommits(f.threads[turn.tid], f.mem, f.spec, turn.choice);
    }
  }

  lemma SectionCommits(pc: Pc, m: Shared, s: State, c: Choice)
    requires Linked(m, s) && InSection(pc) && !pc.Unlocking? && WellFormed(pc) && At(pc, m, s)
    ensures StepSection(pc, m, s, c).spec.commits == s.commits + if Sends(pc) then [pc.input] else []
  {
    if pc.Replying? {
      ReplyingKeepsCommits(pc, m, s, c);
    }
  }

  lemma PerformedWrites(s: State, actions: seq<Action>, t: State, at: seq<nat>)
    requires s.Valid() && Performs(s, actions, t) && Numbered(s.trace, at)
    ensures Numbered(t.trace, at + if |t.trace| > |s.trace| then [|t.commits| - 1] else [])
  {
    if actions == [] {
      assert at + [] == at;
    } else {
      assert Exec(s, actions) == Next(s, actions[0]);
      NextWrites(s, actions[0], at);
    }
  }

  lemma SendsOnlyThen(f: System, turn: Turn)
    requires SysInv(f)
    ensures |Step(f, turn.tid, turn.choice).mem.sent| == |f.mem.sent| + if Writes(f, turn) then 1 else 0
  {
  }

  /** A turn that writes shows the number of commits so far, its own included. */
  lemma StepWrites(f: System, turn: Turn, g: System, k: nat, at: seq<nat>)
    requires SysInv(f) && (turn.tid in f.threads ==> Conforms(f.threads[turn.tid], f.mem, turn.choice))
    requires g == Step(f, turn.tid, turn.choice) && k + 1 == |f.spec.commits| + |CommittedBy(f, turn)|
    requires Numbered(f.spec.trace, at)
    ensures SysInv(g) && k + 1 == |g.spec.commits|
    ensures Numbered(g.spec.trace, at + if Writes(f, turn) then [k] else [])
  {
    StepKeepsSysInv(f, turn);
    StepCommits(f, turn);
    SendsOnlyThen(f, turn);
    PerformedWrites(f.spec, Performed(f, turn), Step(f, turn.tid, turn.choice).spec, at);
  }

  lemma Chain<T>(a: seq<T>, b: seq<T>, ab: seq<T>, c: seq<T>)
    requires ab == a + b
    ensures ab + c == a + (b + c)
  {
  }

  lemma {:induction false} RunCommits(f: System, schedule: seq<Turn>)
    requires SysInv(f) && Ready(f) && Conforming(f, schedule)
    ensures Run(f, schedule).spec.commits == f.spec.commits + Committed(f, schedule)
    decreases |schedule|
  {
    if schedule != [] {
      var g := Step(f, schedule[0].tid, schedule[0].choice);
      StepKeepsSysInv(f, schedule[0]);
      StepCommits(f, schedule[0]);
      RunCommits(g, schedule[1..]);
      Chain(f.spec.commits, CommittedBy(f, schedule[0]), g.spec.commits, Committed(g, schedule[1..]));
    }
  }

  lemma FirstCommitsAt(f: System, schedule: seq<Turn>, n: nat, at: seq<nat>, g: System, k: nat, now: seq<nat>)
    requires Ready(f) && schedule != [] && g == Step(f, schedule[0].tid, schedule[0].choice)
    requires k == n + |CommittedBy(f, schedule[0])| && now == if Writes(f, schedule[0]) then [k] else []
    ensures at + CommitsAt(f, schedule, n) == (at + now) + CommitsAt(g, schedule[1..], k)
  {
    Chain(at, now, at + now, CommitsAt(g, schedule[1..], k));
  }

  lemma {:induction false} RunWrites(f: System, schedule: seq<Turn>, n: nat, at: seq<nat>)
    requires SysInv(f) && Ready(f) && Conforming(f, schedule) && n + 1 == |f.spec.commits|
    requires Numbered(f.spec.trace, at)
    ensures Numbered(Run(f, schedule).spec.trace, at + CommitsAt(f, schedule, n))
    decreases |schedule|
  {
    if schedule == [] {
      assert at + [] == at;
    } else {
      var g, k := Step(f, schedule[0].tid, schedule[0].choice), n + |CommittedBy(f, schedule[0])|;
      var now := if Writes(f, schedule[0]) then [k] else [];
      StepWrites(f, schedule[0], g, k, at);
      FirstCommitsAt(f, schedule, n, at, g, k, now);
      RunWrites(g, schedule[1..], k, at + now);
    }
  }

  lemma ReportsOfRun(f: System, schedule: seq<Turn>)
    requires SysInv(f) && Ready(f) && Conforming(f, schedule)
    requires f.spec.commits == [NEUTRAL_INPUT] && f.spec.trace == []
    ensures ShowsInOrder(Run(f, schedule), [NEUTRAL_INPUT] + Committed(f, schedule), CommitsAt(f, schedule, 0))
  {
    RunRefines(f, schedule);
    RunCommits(f, schedule);
    RunWrites(f, schedule, 0, []);
    var at := CommitsAt(f, schedule, 0);
    assert [] + at == at;
    SentShowCommits(Run(f, schedule), [NEUTRAL_INPUT] + Committed(f, schedule), at);
  }

  /** No torn snapshots: however threads interleave byte by byte, take the neutral input and
      then the inputs in the order in which state updates committed them. Every report shows
      exactly the input that was the last committed when it was written, and whenever the
      mutex is free the shared report shows the last of all. */
  lemma NoTornReports(functionId: nat, flash: Image, threads: set<nat>, schedule: seq<Turn>)
    requires Conforming(Boot(functionId, flash, threads), schedule)
    ensures var boot := Boot(functionId, flash, threads);
            ShowsInOrder(Run(boot, schedule), [NEUTRAL_INPUT] + Committed(boot, schedule), CommitsAt(boot, schedule, 0))
  {
    BootInv(functionId, flash, threads);
    ReportsOfRun(Boot(functionId, flash, threads), schedule);
  }

  lemma SentShowCommits(f: System, commits: seq<Input>, at: seq<nat>)
    requires SysInv(f) && commits == f.spec.commits && Numbered(f.spec.trace, at)
    ensures ShowsInOrder(f, commits, at)
  {
    var trace := f.spec.trace;
    InvShowsCommits(f.spec);
    forall i | 0 <= i < |trace| && !f.mem.sent[i].kind.UsbReply?
      ensures Shows(f.mem.sent[i], f.spec.commits[trace[i].commit]) {
      assert ShowsOneCommit(trace[i], f.spec.commits);
      assert f.mem.sent[i] == SentOf(trace[i]);
    }
  }

  // ----- In terms of gamepad states -----

  /** The input bytes of the state updates that idle threads start during a schedule. */
  function Called(f: System, schedule: seq<Turn>): set<Input>
    requires Ready(f)
    decreases |schedule|
  {
    if schedule == [] then {}
    else Starts(f, schedule[0]) + Called(Step(f, schedule[0].tid, schedule[0].choice), schedule[1..])
  }

  function Starts(f: System, turn: Turn): set<Input> {
    if turn.tid in f.threads && f.threads[turn.tid].Idle? && turn.choice.call.CallSetState? then
      {turn.choice.call.input}
    else {}
  }

  predicate PcFrom(pc: Pc, inputs: set<Input>) {
    && (pc.Locking? && pc.call.CallSetState? ==> pc.call.input in inputs)
    && (pc.Setting? ==> pc.input in inputs)
  }

  /** All inputs being published are among the given. */
  predicate From(f: System, inputs: set<Input>) {
    forall t :: t in f.threads ==> PcFrom(f.threads[t], inputs)
  }

  lemma SectionFrom(pc: Pc, m: Shared, s: State, c: Choice, inputs: set<Input>)
    requires s.Valid() && |m.report| == REPORT_SIZE && |m.flash| == FLASH_SIZE && WellFormed(pc) && PcFrom(pc, inputs)
    ensures PcFrom(StepSection(pc, m, s, c).pc, inputs)
  {
  }

  lemma StepFrom(f: System, turn: Turn, inputs: set<Input>)
    requires Ready(f) && From(f, inputs) && Starts(f, turn) <= inputs
    ensures From(Step(f, turn.tid, turn.choice), inputs)
  {
    if turn.tid in f.threads {
      var pc := f.threads[turn.tid];
      if InSection(pc) && !pc.Unlocking? {
        SectionFrom(pc, f.mem, f.spec, turn.choice, inputs);
      } else if pc.Idle? && turn.choice.call.CallSetState? {
        assert turn.choice.call.input in Starts(f, turn);
      }
    }
  }

  /** Only inputs of calls that were made are committed. */
  lemma {:induction false} CommittedAreCalled(f: System, schedule: seq<Turn>, inputs: set<Input>)
    requires Ready(f) && From(f, inputs) && Called(f, schedule) <= inputs
    ensures forall i :: 0 <= i < |Committed(f, schedule)| ==> Committed(f, schedule)[i] in inputs
    decreases |schedule|
  {
    if schedule != [] {
      StepFrom(f, schedule[0], inputs);
      CommittedAreCalled(Step(f, schedule[0].tid, schedule[0].choice), schedule[1..], inputs);
    }
  }

  predicate EncodesOneOf(input: Input, states: set<GamepadState>) {
    exists st :: st in states && input == Encode(st)
  }

  /** A console that decodes the report reads what can be expressed of one of the states. */
  predicate ReadsAsOneOf(sent: Sent, states: set<GamepadState>) {
    |sent.bytes| == REPORT_SIZE && exists st :: st in states && Decode(sent.bytes[3..12]) == View(st)
  }

  lemma ShownIsRead(sent: Sent, input: Input, states: set<GamepadState>)
    requires Shows(sent, input) && EncodesOneOf(input, states)
    ensures ReadsAsOneOf(sent, states)
  {
    var st :| st in states && input == Encode(st);
    DecodeEncode(st);
  }

  /** In terms of gamepad states: if the threads pass the encodings of some states, then from
      every report of every interleaving a console reads one of these states, or neutral. */
  lemma NoTornStates(functionId: nat, flash: Image, threads: set<nat>, schedule: seq<Turn>, states: set<GamepadState>)
    requires Conforming(Boot(functionId, flash, threads), schedule)
    requires forall input :: input in Called(Boot(functionId, flash, threads), schedule) ==> EncodesOneOf(input, states)
    ensures var m := Run(Boot(functionId, flash, threads), schedule).mem;
            forall i :: 0 <= i < |m.sent| && !m.sent[i].kind.UsbReply? ==> ReadsAsOneOf(m.sent[i], states + {NEUTRAL})
  {
    var boot := Boot(functionId, flash, threads);
    var commits, at := [NEUTRAL_INPUT] + Committed(boot, schedule), CommitsAt(boot, schedule, 0);
    NoTornReports(functionId, flash, threads, schedule);
    CommittedAreCalled(boot, schedule, Called(boot, schedule));
    ReadInOrder(Run(boot, schedule), commits, at, Called(boot, schedule), states);
  }

  lemma ReadInOrder(f: System, commits: seq<Input>, at: seq<nat>, called: set<Input>, states: set<GamepadState>)
    requires commits != [] && ShowsInOrder(f, commits, at)
    requires forall i :: 0 <= i < |commits| ==> commits[i] in called || commits[i] == NEUTRAL_INPUT
    requires forall input :: input in called ==> EncodesOneOf(input, states)
    ensures forall i :: 0 <= i < |f.mem.sent| && !f.mem.sent[i].kind.UsbReply? ==>
              ReadsAsOneOf(f.mem.sent[i], states + {NEUTRAL})
  {
    var sent := f.mem.sent;
    forall i | 0 <= i < |sent| && !sent[i].kind.UsbReply? ensures ReadsAsOneOf(sent[i], states + {NEUTRAL}) {
      CommitEncodes(commits[at[i]], called, states);
      ShownIsRead(sent[i], commits[at[i]], states + {NEUTRAL});
    }
  }

  lemma CommitEncodes(input: Input, called: set<Input>, states: set<GamepadState>)
    requires forall i :: i in called ==> EncodesOneOf(i, states)
    requires input in called || input == NEUTRAL_INPUT
    ensures EncodesOneOf(input, states + {NEUTRAL})
  {
    if input in called {
      var st :| st in states && input == Encode(st);
      assert st in states + {NEUTRAL};
    } else {
      NeutralInput();
      assert NEUTRAL in states + {NEUTRAL};
    }
  }

  // ----- Where reports go -----

  /** However threads interleave, state reports only go to open device descriptors, those that
      change buttons to a blocking one and the others to a non-blocking one, and whenever the
      mutex is free the open ones are exactly the two held, or none. */
  lemma NoWriteAfterClose(functionId: nat, flash: Image, threads: set<nat>, schedule: seq<Turn>)
    requires Conforming(Boot(functionId, flash, threads), schedule)
    ensures var m := Run(Boot(functionId, flash, threads), schedule).mem;
      forall i :: 0 <= i < |m.sent| && (m.sent[i].kind.ButtonReport? || m.sent[i].kind.StickReport?) ==>
        m.sent[i].live && (m.sent[i].nonblocking <==> m.sent[i].kind.StickReport?)
    ensures var f := Run(Boot(functionId, flash, threads), schedule);
      f.holder.None? ==>
        f.mem.hidg == (if f.mem.fd >= 0 then {f.mem.fd, f.mem.fdNonblock} else {}) &&
        f.mem.nonblocking == (if f.mem.fd >= 0 then {f.mem.fdNonblock} else {}) &&
        (f.mem.fd >= 0 ==> f.mem.fdNonblock >= 0 && f.mem.fd != f.mem.fdNonblock)
  {
    SchedulesAreAtomic(functionId, flash, threads, schedule);
    var boot := Boot(functionId, flash, threads);
    var s := Exec(boot.spec, Actions(Events(boot, schedule)));
    var m := Run(Boot(functionId, flash, threads), schedule).mem;
    forall i | 0 <= i < |m.sent| ensures m.sent[i] == SentOf(s.trace[i]) {
    }
  }
}
