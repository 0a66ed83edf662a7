/** The interleaved system refines the Controller machine: each step is either invisible or
    exactly one Action. What the Controller's runs keep therefore holds of every schedule. */
module Refinement {
  import opened Bytes
  import opened Flash
  import opened Gamepad
  import opened Protocol
  import opened Controller
  import opened Descriptors
  import opened HostView
  import opened Interleaving

  /** Nothing, or one action of the Controller. */
  predicate Performs(s: State, actions: seq<Action>, t: State)
    requires s.Valid()
  {
    |actions| <= 1 && AllEnabled(s, actions) && t == Exec(s, actions)
  }

  lemma StripAppend(trace: seq<Write>, w: Write)
    ensures Strip(trace + [w]) == Strip(trace) + [SentOf(w)]
  {
  }

  /** The action by which a call takes effect when its thread is at pc. */
  function ActionAt(pc: Pc, c: Choice): Action
    requires InSection(pc) && !pc.Unlocking?
  {
    match pc
    case Setting(input, _) => SetState(input, c.write)
    case Replying(cap, req, out, _) => OutputReport(cap, req, out, c.write)
    case Opening(p) => OpenAction(p, c)
    case Closing(_) => Close
  }

  /** What the open calls of a thread have returned, -1 standing for those it did not make. */
  function OpenAction(pc: OpenPc, c: Choice): Action {
    match pc
    case CheckClosed => Open(-1, -1, 0)
    case OpenFirst => Open(c.result, -1, 0)
    case OpenSecond(first) => Open(first, c.result, 0)
    case SetMode(first, second) => Open(first, second, c.result)
    case UndoSecond(first, second) => Open(first, second, -1)
    case UndoFirst(first) => Open(first, -1, 0)
    case StoreFirst(first, second) => Open(first, second, 0)
    case StoreSecond(first, second) => Open(first, second, 0)
  }

  /** A critical section takes effect as a whole, in its last step. */
  function Leaving(l: Local, a: Action): seq<Action> {
    if l.pc.Unlocking? then [a] else []
  }

  /** What one turn performs: the whole call of a thread about to release the mutex, the whole
      call of a thread that needs no mutex, or nothing. */
  function Performed(f: System, turn: Turn): seq<Action>
    requires Ready(f)
  {
    if turn.tid !in f.threads then []
    else
      var pc, c := f.threads[turn.tid], turn.choice;
      if pc.Idle? then
        if c.call.CallOutputReport? && !TakesLock(c.call.req) then
          [OutputReport(c.call.cap, c.call.req, c.call.out, c.write)]
        else []
      else if pc.Locking? || pc.Unlocking? then []
      else Leaving(StepSection(pc, f.mem, f.spec, c), ActionAt(pc, c))
  }

  lemma OneAction(s: State, a: Action)
    requires s.Valid() && Enabled(s, a)
    ensures Performs(s, [a], Next(s, a))
  {
    assert [a][1..] == [];
    assert Exec(Next(s, a), []) == Next(s, a);
  }

  lemma ActionKeepsAll(s: State, a: Action)
    requires Inv(s) && Owned(s) && StateReportsRouted(s.trace) && InStep(s) && Enabled(s, a)
    ensures var t := Next(s, a); Inv(t) && Owned(t) && StateReportsRouted(t.trace) && InStep(t)
  {
    NextKeepsInv(s, a);
    NextKeepsOwned(s, a);
    NextInStep(s, a);
  }

  // ----- One step inside a critical section -----

  predicate Good(l: Local) {
    Linked(l.mem, l.spec) && WellFormed(l.pc) && InSection(l.pc) && At(l.pc, l.mem, l.spec)
  }

  lemma CompareOne(a: seq<byte>, b: seq<byte>, i: nat)
    requires i < |a| && i < |b|
    ensures a[..i + 1] != b[..i + 1] <==> a[..i] != b[..i] || a[i] != b[i]
  {
  }

  lemma CopyOne(report: seq<byte>, timer: byte, input: seq<byte>, i: nat)
    requires |report| == REPORT_SIZE && |input| == 9 && i < 9
    ensures Copied(report, timer, input, i)[3 + i := input[i]] == Copied(report, timer, input, i + 1)
  {
  }

  lemma CopyEnds(report: seq<byte>, timer: byte, input: seq<byte>)
    requires |report| == REPORT_SIZE && |input| == 9
    ensures Copied(report, timer, input, 0) == report[1 := timer]
    ensures Copied(report, timer, input, 9) == Updated(report, timer, input)
  {
  }

  lemma SendOne(report: seq<byte>, packet: seq<byte>)
    requires |packet| < |report| && packet == report[..|packet|]
    ensures packet + [report[|packet|]] == report[..|packet| + 1]
  {
  }

  /** A step that only the shared memory sees. */
  predicate Quiet(l: Local, m: Shared, s: State)
    requires s.Valid()
  {
    && l.spec == s && l.mem.sent == m.sent && l.mem.flash == m.flash && l.mem.functionId == m.functionId
    && |l.mem.report| == REPORT_SIZE && WellFormed(l.pc) && InSection(l.pc) && At(l.pc, l.mem, s)
  }

  lemma QuietIsGood(l: Local, m: Shared, s: State)
    requires Linked(m, s) && Quiet(l, m, s)
    ensures Good(l) && Performs(s, [], l.spec)
  {
  }

  /** A step that is one action: the section is over and memory and specification agree. */
  predicate Commits(l: Local, m: Shared, s: State, a: Action)
    requires s.Valid()
  {
    && Enabled(s, a) && l.spec == Next(s, a) && l.pc == Unlocking && Same(l.mem, l.spec)
    && l.mem.flash == m.flash && l.mem.functionId == m.functionId && l.mem.sent == Strip(l.spec.trace)
    && l.spec.flash == s.flash && l.spec.functionId == s.functionId
  }

  lemma CommitIsGood(l: Local, m: Shared, s: State, a: Action)
    requires Linked(m, s) && Commits(l, m, s, a)
    ensures Good(l) && Performs(s, [a], l.spec)
  {
    OneAction(s, a);
    ActionKeepsAll(s, a);
  }

  lemma SetQuiet(input: Input, pc: SetPc, m: Shared, s: State, c: Choice)
    requires s.Valid() && |m.report| == REPORT_SIZE && SetAt(input, pc, m, s)
    requires !(pc.Send? && |pc.packet| == REPORT_SIZE)
    ensures Quiet(StepSet(input, pc, m, s, c), m, s)
  {
    match pc
    case CheckFd =>
      assert input[..0] == s.report[3..3];
    case Compare(i, changed) => CompareQuiet(input, i, changed, m, s, c);
    case ReadTimer(_) =>
    case WriteTimer(_, _) =>
      CopyEnds(s.report, NextTimer(s.report[1]), input);
    case Copy(changed, i) => CopyQuiet(input, changed, i, m, s, c);
    case Send(_, packet) =>
      SendOne(m.report, packet);
  }

  lemma CompareQuiet(input: Input, i: nat, changed: bool, m: Shared, s: State, c: Choice)
    requires s.Valid() && |m.report| == REPORT_SIZE && SetAt(input, Compare(i, changed), m, s)
    ensures Quiet(StepSet(input, Compare(i, changed), m, s, c), m, s)
  {
    if i < 3 {
      CompareOne(input, s.report[3..], i);
      PrefixOfDrop(s.report, i);
      PrefixOfDrop(s.report, i + 1);
    }
  }

  lemma PrefixOfDrop(report: seq<byte>, i: nat)
    requires 3 + i <= |report|
    ensures report[3..][..i] == report[3..3 + i]
  {
  }

  lemma CopyQuiet(input: Input, changed: bool, i: nat, m: Shared, s: State, c: Choice)
    requires s.Valid() && |m.report| == REPORT_SIZE && SetAt(input, Copy(changed, i), m, s)
    ensures Quiet(StepSet(input, Copy(changed, i), m, s, c), m, s)
  {
    if i < 9 {
      CopyOne(s.report, NextTimer(s.report[1]), input, i);
    } else {
      CopyEnds(s.report, NextTimer(s.report[1]), input);
    }
  }

  lemma SetStep(input: Input, pc: SetPc, m: Shared, s: State, c: Choice)
    requires Linked(m, s) && SetAt(input, pc, m, s)
    ensures var l := StepSet(input, pc, m, s, c); Good(l) && Performs(s, Leaving(l, SetState(input, c.write)), l.spec)
  {
    var l := StepSet(input, pc, m, s, c);
    if pc.Send? && |pc.packet| == REPORT_SIZE {
      SetStateCommits(input, pc, m, s, c);
      CommitIsGood(l, m, s, SetState(input, c.write));
    } else {
      SetQuiet(input, pc, m, s, c);
      QuietIsGood(l, m, s);
      if l.pc.Unlocking? {
        OneAction(s, SetState(input, c.write));
      }
    }
  }

  lemma SetStateCommits(input: Input, pc: SetPc, m: Shared, s: State, c: Choice)
    requires s.Valid() && |m.report| == REPORT_SIZE && m.sent == Strip(s.trace)
    requires SetAt(input, pc, m, s) && pc.Send? && |pc.packet| == REPORT_SIZE
    ensures Commits(StepSet(input, pc, m, s, c), m, s, SetState(input, c.write))
  {
    assert pc.packet == m.report;
    SetStateEffect(s, input, c.write);
    StripAppend(s.trace, Next(s, SetState(input, c.write)).trace[|s.trace|]);
  }

  /** What a state update on an open device does to the machine. */
  lemma SetStateEffect(s: State, input: Input, w: WriteResult)
    requires s.Valid() && s.fd >= 0
    ensures var changed := ButtonsChanged(s.report, input);
            var report := Updated(s.report, NextTimer(s.report[1]), input);
            var fd := if changed then s.fd else s.fdNonblock;
            var t := Next(s, SetState(input, w));
            && t == s.(report := report, ticks := t.ticks, commits := t.commits, trace := t.trace)
            && t.trace == s.trace + [Write(if changed then ButtonReport else StickReport, fd, report,
                                           WriteCode(REPORT_SIZE, w), fd in s.hidg, fd in s.nonblocking,
                                           s.ticks + 1, |s.commits|)]
  {
  }

  lemma HeaderGrows(report: seq<byte>, n: nat)
    requires |report| == REPORT_SIZE
    ensures HeaderSoFar(report, 0) == [] && HeaderSoFar(report, 1) == [RESPONSE_SUBCMD]
    ensures HeaderSoFar(report, 2) == [RESPONSE_SUBCMD, report[1]]
    ensures 2 <= n < 13 ==> HeaderSoFar(report, n) + [report[n]] == HeaderSoFar(report, n + 1)
    ensures HeaderSoFar(report, 13) == [RESPONSE_SUBCMD, report[1]] + report[2..13]
  {
  }

  lemma HeaderComplete(report: seq<byte>, ack: byte, id: byte, payload: seq<byte>)
    requires |report| == REPORT_SIZE
    ensures HeaderSoFar(report, 13) + [ack, id] + payload == Header(report, ack, id) + payload
  {
  }

  predicate ReplyDone(pc: ReplyPc) {
    pc.Transmit? || (pc.Collect? && |pc.header| == 13)
  }

  lemma ReplyQuiet(cap: nat, req: seq<byte>, out: int, pc: ReplyPc, m: Shared, s: State, c: Choice)
    requires s.Valid() && |m.report| == REPORT_SIZE && m.flash == s.flash && m.functionId == s.functionId
    requires ReplyAt(cap, req, pc, m, s) && !ReplyDone(pc)
    ensures Quiet(StepReply(cap, req, out, pc, m, s, c), m, s)
  {
    HeaderGrows(s.report, if pc.Collect? then |pc.header| else 0);
  }

  /** A request that is dropped is an action that changes nothing. */
  lemma DroppedRequest(cap: nat, req: seq<byte>, out: int, s: State, w: WriteResult)
    requires s.Valid() && TakesLock(req) && PlanOf(req[SUBCMD_AT], req[SUBCMD_AT + 1..], s.flash, s.functionId).Ignore?
    ensures Performs(s, [OutputReport(cap, req, out, w)], s)
  {
    OneAction(s, OutputReport(cap, req, out, w));
  }

  lemma ReplyStep(cap: nat, req: seq<byte>, out: int, pc: ReplyPc, m: Shared, s: State, c: Choice)
    requires Linked(m, s) && ReplyAt(cap, req, pc, m, s)
    ensures var l := StepReply(cap, req, out, pc, m, s, c);
            Good(l) && Performs(s, Leaving(l, OutputReport(cap, req, out, c.write)), l.spec)
  {
    var l := StepReply(cap, req, out, pc, m, s, c);
    if ReplyDone(pc) && l.pc.Unlocking? {
      ReplyCommits(cap, req, out, pc, m, s, c);
      CommitIsGood(l, m, s, OutputReport(cap, req, out, c.write));
    } else {
      if ReplyDone(pc) {
        ReplySized(cap, req, out, pc, m, s, c);
      } else {
        ReplyQuiet(cap, req, out, pc, m, s, c);
      }
      QuietIsGood(l, m, s);
      if l.pc.Unlocking? {
        DroppedRequest(cap, req, out, s, c.write);
      }
    }
  }

  lemma ReplySized(cap: nat, req: seq<byte>, out: int, pc: ReplyPc, m: Shared, s: State, c: Choice)
    requires s.Valid() && |m.report| == REPORT_SIZE && m.flash == s.flash && m.functionId == s.functionId
    requires ReplyAt(cap, req, pc, m, s) && ReplyDone(pc) && !StepReply(cap, req, out, pc, m, s, c).pc.Unlocking?
    ensures Quiet(StepReply(cap, req, out, pc, m, s, c), m, s)
  {
    var plan := PlanOf(req[SUBCMD_AT], req[SUBCMD_AT + 1..], s.flash, s.functionId);
    HeaderComplete(s.report, plan.ack, req[SUBCMD_AT], plan.payload);
  }

  lemma ReplyCommits(cap: nat, req: seq<byte>, out: int, pc: ReplyPc, m: Shared, s: State, c: Choice)
    requires s.Valid() && |m.report| == REPORT_SIZE && m.flash == s.flash && m.functionId == s.functionId
    requires m.sent == Strip(s.trace)
    requires ReplyAt(cap, req, pc, m, s) && ReplyDone(pc) && StepReply(cap, req, out, pc, m, s, c).pc.Unlocking?
    ensures Commits(StepReply(cap, req, out, pc, m, s, c), m, s, OutputReport(cap, req, out, c.write))
  {
  }

  lemma OpenQuiet(pc: OpenPc, m: Shared, s: State, c: Choice)
    requires s.Valid() && |m.report| == REPORT_SIZE && OpenAt(pc, m, s) && Conforms(Opening(pc), m, c)
    requires !pc.StoreSecond?
    ensures Quiet(StepOpen(pc, m, s, c), m, s)
  {
  }

  lemma OpenStep(pc: OpenPc, m: Shared, s: State, c: Choice)
    requires Linked(m, s) && OpenAt(pc, m, s) && Conforms(Opening(pc), m, c)
    ensures var l := StepOpen(pc, m, s, c); Good(l) && Performs(s, Leaving(l, OpenAction(pc, c)), l.spec)
  {
    var l := StepOpen(pc, m, s, c);
    if pc.StoreSecond? {
      CommitIsGood(l, m, s, OpenAction(pc, c));
    } else {
      OpenQuiet(pc, m, s, c);
      QuietIsGood(l, m, s);
      if l.pc.Unlocking? {
        OneAction(s, OpenAction(pc, c));
      }
    }
  }

  predicate CloseDone(pc: ClosePc, m: Shared) {
    pc.ClearSecond? || (pc.CloseSecond? && m.fdNonblock < 0)
  }

  lemma CloseQuiet(pc: ClosePc, m: Shared, s: State)
    requires s.Valid() && |m.report| == REPORT_SIZE && CloseAt(pc, m, s) && !CloseDone(pc, m)
    ensures Quiet(StepClose(pc, m, s), m, s)
  {
  }

  lemma CloseCommits(pc: ClosePc, m: Shared, s: State)
    requires s.Valid() && CloseAt(pc, m, s) && CloseDone(pc, m) && m.sent == Strip(s.trace)
    ensures Commits(StepClose(pc, m, s), m, s, Close)
  {
  }

  lemma CloseStep(pc: ClosePc, m: Shared, s: State)
    requires Linked(m, s) && CloseAt(pc, m, s)
    ensures var l := StepClose(pc, m, s); Good(l) && Performs(s, Leaving(l, Close), l.spec)
  {
    if CloseDone(pc, m) {
      CloseCommits(pc, m, s);
      CommitIsGood(StepClose(pc, m, s), m, s, Close);
    } else {
      CloseQuiet(pc, m, s);
      QuietIsGood(StepClose(pc, m, s), m, s);
    }
  }

  lemma SectionStep(pc: Pc, m: Shared, s: State, c: Choice)
    requires Linked(m, s) && InSection(pc) && !pc.Unlocking? && WellFormed(pc) && At(pc, m, s) && Conforms(pc, m, c)
    ensures var l := StepSection(pc, m, s, c); Good(l) && Performs(s, Leaving(l, ActionAt(pc, c)), l.spec)
  {
    match pc
    case Setting(input, p) => SetStep(input, p, m, s, c);
    case Replying(cap, req, out, p) => ReplyStep(cap, req, out, p, m, s, c);
    case Opening(p) => OpenStep(p, m, s, c);
    case Closing(p) => CloseStep(p, m, s);
  }

  // ----- Requests outside the mutex -----

  /** A request outside the mutex adds to the trace and changes nothing else. */
  lemma UnlockedEffect(m: Shared, s: State, call: Call, c: Choice)
    requires s.Valid() && m.functionId == s.functionId && m.sent == Strip(s.trace)
    requires call.CallOutputReport? && !TakesLock(call.req) && UnlockedReply(call, s.functionId).Some?
    ensures var l := AnswerUnlocked(m, s, call, c);
            && l.spec == Next(s, OutputReport(call.cap, call.req, call.out, c.write))
            && l.spec == s.(trace := l.spec.trace) && l.mem == m.(sent := Strip(l.spec.trace))
  {
    var t := Next(s, OutputReport(call.cap, call.req, call.out, c.write));
    StripAppend(s.trace, t.trace[|s.trace|]);
  }

  /** Whoever is inside a critical section is not disturbed by a longer trace. */
  lemma TraceDoesNotMatter(pc: Pc, m: Shared, s: State, sent: seq<Sent>, trace: seq<Write>)
    requires s.Valid()
    ensures At(pc, m.(sent := sent), s.(trace := trace)) == At(pc, m, s)
    ensures Same(m.(sent := sent), s.(trace := trace)) == Same(m, s)
  {
  }

  lemma UnlockedStep(f: System, call: Call, c: Choice)
    requires SysInv(f) && call.CallOutputReport? && !TakesLock(call.req)
    ensures var l := AnswerUnlocked(f.mem, f.spec, call, c);
            && SysInv(f.(mem := l.mem, spec := l.spec))
            && Performs(f.spec, [OutputReport(call.cap, call.req, call.out, c.write)], l.spec)
  {
    var a := OutputReport(call.cap, call.req, call.out, c.write);
    OneAction(f.spec, a);
    if UnlockedReply(call, f.spec.functionId).Some? {
      UnlockedEffect(f.mem, f.spec, call, c);
      ActionKeepsAll(f.spec, a);
      var l := AnswerUnlocked(f.mem, f.spec, call, c);
      var holder := if f.holder.Some? then f.threads[f.holder.value] else Idle;
      TraceDoesNotMatter(holder, f.mem, f.spec, l.mem.sent, l.spec.trace);
    }
  }

  // ----- One step of the system -----

  lemma SectionKeepsSysInv(f: System, tid: nat, l: Local)
    requires SysInv(f) && tid in f.threads && InSection(f.threads[tid]) && Good(l)
    ensures SysInv(f.(mem := l.mem, spec := l.spec, threads := f.threads[tid := l.pc]))
  {
  }

  lemma LockKeepsSysInv(f: System, tid: nat)
    requires SysInv(f) && tid in f.threads && f.threads[tid].Locking? && f.holder.None?
    ensures SysInv(f.(holder := Some(tid), threads := f.threads[tid := Entry(f.threads[tid].call)]))
  {
    EntryIsGood(f.threads[tid], f.mem, f.spec);
    LockTaken(f, tid, Local(Entry(f.threads[tid].call), f.mem, f.spec));
  }

  lemma EntryIsGood(pc: Pc, m: Shared, s: State)
    requires pc.Locking? && WellFormed(pc) && Linked(m, s) && Same(m, s)
    ensures Good(Local(Entry(pc.call), m, s))
  {
  }

  lemma LockTaken(f: System, tid: nat, l: Local)
    requires SysInv(f) && tid in f.threads && f.holder.None? && Good(l) && l.mem == f.mem && l.spec == f.spec
    ensures SysInv(f.(holder := Some(tid), threads := f.threads[tid := l.pc]))
  {
  }

  lemma OutsideKeepsSysInv(f: System, tid: nat, pc: Pc)
    requires SysInv(f) && tid in f.threads && f.threads[tid].Idle? && !InSection(pc) && WellFormed(pc)
    ensures SysInv(f.(threads := f.threads[tid := pc]))
  {
  }

  lemma UnlockKeepsSysInv(f: System, tid: nat)
    requires SysInv(f) && tid in f.threads && f.threads[tid].Unlocking?
    ensures SysInv(f.(holder := None, threads := f.threads[tid := Idle]))
  {
  }

  /** One step of any thread performs what its turn says, and keeps the invariant. */
  lemma StepKeepsSysInv(f: System, turn: Turn)
    requires SysInv(f) && (turn.tid in f.threads ==> Conforms(f.threads[turn.tid], f.mem, turn.choice))
    ensures var g := Step(f, turn.tid, turn.choice);
            SysInv(g) && Performs(f.spec, Performed(f, turn), g.spec)
  {
    var tid, c := turn.tid, turn.choice;
    if tid in f.threads {
      var pc := f.threads[tid];
      if pc.Idle? {
        if c.call.CallOutputReport? && !TakesLock(c.call.req) {
          UnlockedStep(f, c.call, c);
        } else {
          OutsideKeepsSysInv(f, tid, Locking(c.call));
        }
      } else if pc.Locking? {
        if f.holder.None? {
          LockKeepsSysInv(f, tid);
        }
      } else if pc.Unlocking? {
        UnlockKeepsSysInv(f, tid);
      } else {
        SectionStep(pc, f.mem, f.spec, c);
        SectionKeepsSysInv(f, tid, StepSection(pc, f.mem, f.spec, c));
      }
    }
  }

  lemma BootInv(functionId: nat, flash: Image, threads: set<nat>)
    ensures SysInv(Boot(functionId, flash, threads))
  {
    InitialInv(functionId, flash);
    FrontOfInput(ReportOf(0, NEUTRAL_INPUT));
  }
}
