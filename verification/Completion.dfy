/** Every call gets through: the mutex is held for a bounded number of steps, and an open call
    that the kernel serves ends with the device open. */
module Completion {
  import opened Bytes
  import opened Flash
  import opened Gamepad
  import opened Protocol
  import opened Controller
  import opened Interleaving
  import opened Refinement

  /** An upper bound on the steps until the mutex is about to be released. */
  function StepsLeft(pc: Pc): nat {
    match pc
    case Idle => 0
    case Locking(_) => 0
    case Unlocking => 0
    case Setting(_, p) => SetStepsLeft(p)
    case Replying(_, _, _, p) => ReplyStepsLeft(p)
    case Opening(p) => OpenStepsLeft(p)
    case Closing(p) => CloseStepsLeft(p)
  }

  function SetStepsLeft(pc: SetPc): nat {
    match pc
    case CheckFd => 82
    case Compare(i, _) => if i <= 3 then 81 - i else 0
    case ReadTimer(_) => 77
    case WriteTimer(_, _) => 76
    case Copy(_, i) => if i <= 9 then 75 - i else 0
    case Send(_, packet) => if |packet| <= 64 then 65 - |packet| else 0
  }

  function ReplyStepsLeft(pc: ReplyPc): nat {
    match pc
    case Parse => 18
    case Collect(header) => if |header| < 2 then 17 - |header| else if |header| <= 13 then 16 - |header| else 0
    case Tick(_) => 15
    case Transmit(_) => 1
  }

  function OpenStepsLeft(pc: OpenPc): nat {
    match pc
    case CheckClosed => 6
    case OpenFirst => 5
    case OpenSecond(_) => 4
    case SetMode(_, _) => 3
    case UndoSecond(_, _) => 2
    case UndoFirst(_) => 1
    case StoreFirst(_, _) => 2
    case StoreSecond(_, _) => 1
  }

  function CloseStepsLeft(pc: ClosePc): nat {
    match pc
    case CloseFirst => 4
    case ClearFirst => 3
    case CloseSecond => 2
    case ClearSecond => 1
  }

  lemma SetShrinks(input: Input, pc: SetPc, m: Shared, s: State, c: Choice)
    requires s.Valid() && |m.report| == REPORT_SIZE && SetAt(input, pc, m, s)
    ensures StepsLeft(StepSet(input, pc, m, s, c).pc) < SetStepsLeft(pc) <= 82
  {
  }

  lemma ReplyShrinks(cap: nat, req: seq<byte>, out: int, pc: ReplyPc, m: Shared, s: State, c: Choice)
    requires s.Valid() && |m.report| == REPORT_SIZE && |m.flash| == FLASH_SIZE && ReplyAt(cap, req, pc, m, s)
    ensures StepsLeft(StepReply(cap, req, out, pc, m, s, c).pc) < ReplyStepsLeft(pc) <= 82
  {
  }

  lemma SectionShrinks(pc: Pc, m: Shared, s: State, c: Choice)
    requires Linked(m, s) && InSection(pc) && !pc.Unlocking? && WellFormed(pc) && At(pc, m, s)
    ensures StepsLeft(StepSection(pc, m, s, c).pc) < StepsLeft(pc) <= 82
  {
    match pc
    case Setting(input, p) => SetShrinks(input, p, m, s, c);
    case Replying(cap, req, out, p) => ReplyShrinks(cap, req, out, p, m, s, c);
    case Opening(_) =>
    case Closing(_) =>
  }

  /** How far one step takes a thread that is not idle: out of its section, nearer to the end of
      it, or into it if the mutex is free. */
  lemma StepShrinks(f: System, tid: nat, c: Choice)
    requires SysInv(f) && Ready(f) && tid in f.threads && !f.threads[tid].Idle?
    ensures var pc, next := f.threads[tid], Step(f, tid, c).threads[tid];
            if pc.Unlocking? then next.Idle?
            else if pc.Locking? then f.holder.None? ==> InSection(next) && StepsLeft(next) <= 82
            else InSection(next) && StepsLeft(next) < StepsLeft(pc) <= 82
  {
    var pc := f.threads[tid];
    if InSection(pc) && !pc.Unlocking? {
      SectionShrinks(pc, f.mem, f.spec, c);
    }
  }

  /** One thread taking all turns. */
  function Alone(tid: nat, choices: seq<Choice>): seq<Turn> {
    if choices == [] then [] else [Turn(tid, choices[0])] + Alone(tid, choices[1..])
  }

  /** Whoever holds the mutex releases it within 83 steps of its own, whatever the system calls
      it makes return. */
  lemma {:induction false} MutexIsReleased(f: System, tid: nat, choices: seq<Choice>) returns (n: nat)
    requires SysInv(f) && Ready(f) && f.holder == Some(tid) && Conforming(f, Alone(tid, choices))
    requires |choices| > StepsLeft(f.threads[tid])
    ensures StepsLeft(f.threads[tid]) <= 82 && n <= StepsLeft(f.threads[tid]) + 1 && n <= |choices|
    ensures Run(f, Alone(tid, choices[..n])).holder.None?
    decreases StepsLeft(f.threads[tid])
  {
    var pc, c := f.threads[tid], choices[0];
    var g := Step(f, tid, c);
    if pc.Unlocking? {
      n := 1;
      assert Alone(tid, choices[..1])[1..] == Alone(tid, []);
      assert choices[..1][1..] == [];
    } else {
      SectionShrinks(pc, f.mem, f.spec, c);
      StepKeepsSysInv(f, Turn(tid, c));
      assert Alone(tid, choices)[1..] == Alone(tid, choices[1..]);
      var k := MutexIsReleased(g, tid, choices[1..]);
      n := k + 1;
      assert choices[..n][1..] == choices[1..][..k];
      assert Alone(tid, choices[..n])[1..] == Alone(tid, choices[1..][..k]);
    }
  }

  // ----- Opening -----

  lemma AloneStep(f: System, tid: nat, choices: seq<Choice>)
    requires Ready(f) && choices != []
    ensures Run(f, Alone(tid, choices)) == Run(Step(f, tid, choices[0]), Alone(tid, choices[1..]))
  {
    assert Alone(tid, choices)[1..] == Alone(tid, choices[1..]);
  }

  /** What system calls and locking return in an open call, if they return anything. */
  function Result(result: int): Choice {
    Choice(CallOpen, WriteResult.Wrote(0), result)
  }

  /** A thread is at pc, with the mutex if it is in its critical section. */
  predicate ThreadAt(f: System, tid: nat, pc: Pc) {
    Ready(f) && tid in f.threads && f.threads[tid] == pc && f.holder == if InSection(pc) then Some(tid) else None
  }

  function Opened(m: Shared, first: int, second: int): Shared {
    m.(fd := first, fdNonblock := second, hidg := {first, second}, nonblocking := {second})
  }

  lemma StoreCompletes(f: System, tid: nat, m: Shared, first: int, second: int, choices: seq<Choice>)
    requires ThreadAt(f, tid, Opening(StoreFirst(first, second)))
    requires f.mem == m.(hidg := {first, second}, nonblocking := {second})
    requires choices == [Result(0), Result(0), Result(0)]
    ensures var g := Run(f, Alone(tid, choices)); ThreadAt(g, tid, Idle) && g.mem == Opened(m, first, second)
  {
    var f1 := Step(f, tid, Result(0));
    assert ThreadAt(f1, tid, Opening(StoreSecond(first, second)));
    var f2 := Step(f1, tid, Result(0));
    assert ThreadAt(f2, tid, Unlocking);
    AloneStep(f, tid, choices);
    AloneStep(f1, tid, choices[1..]);
    AloneStep(f2, tid, choices[2..]);
    assert choices[1..][1..] == choices[2..] && choices[2..][1..] == [];
  }

  lemma SecondCompletes(f: System, tid: nat, m: Shared, first: int, second: int, choices: seq<Choice>)
    requires ThreadAt(f, tid, Opening(OpenSecond(first))) && second >= 0
    requires f.mem == m.(hidg := {first}) && m.nonblocking == {}
    requires choices == [Result(second), Result(0), Result(0), Result(0), Result(0)]
    ensures var g := Run(f, Alone(tid, choices)); ThreadAt(g, tid, Idle) && g.mem == Opened(m, first, second)
  {
    var f1 := Step(f, tid, Result(second));
    assert {first} + {second} == {first, second};
    assert ThreadAt(f1, tid, Opening(SetMode(first, second)));
    var f2 := Step(f1, tid, Result(0));
    assert f2.mem.nonblocking == {second};
    AloneStep(f, tid, choices);
    AloneStep(f1, tid, choices[1..]);
    assert choices[1..][1..] == [Result(0), Result(0), Result(0)];
    StoreCompletes(f2, tid, m, first, second, choices[1..][1..]);
  }

  lemma FirstCompletes(f: System, tid: nat, m: Shared, first: int, second: int, choices: seq<Choice>)
    requires ThreadAt(f, tid, Opening(CheckClosed)) && first >= 0 && second >= 0
    requires f.mem == m && m.hidg == {} && m.nonblocking == {} && m.fd < 0
    requires choices == [Result(0), Result(first), Result(second), Result(0), Result(0), Result(0), Result(0)]
    ensures var g := Run(f, Alone(tid, choices)); ThreadAt(g, tid, Idle) && g.mem == Opened(m, first, second)
  {
    var f1 := Step(f, tid, Result(0));
    assert ThreadAt(f1, tid, Opening(OpenFirst));
    var f2 := Step(f1, tid, Result(first));
    assert f2.mem.hidg == {first};
    AloneStep(f, tid, choices);
    AloneStep(f1, tid, choices[1..]);
    assert choices[1..][1..] == [Result(second), Result(0), Result(0), Result(0), Result(0)];
    SecondCompletes(f2, tid, m, first, second, choices[1..][1..]);
  }

  /** An open call on a closed controller that the kernel serves ends, with the mutex free, with
      both descriptors held and open, the first blocking and the second not, and everything
      else as it was. */
  lemma OpenCompletes(f: System, tid: nat, first: int, second: int)
    requires SysInv(f) && ThreadAt(f, tid, Idle) && f.mem.fd < 0 && first >= 0 && second >= 0
    ensures var choices := [Result(0), Result(0), Result(0), Result(first), Result(second),
                            Result(0), Result(0), Result(0), Result(0)];
            var g := Run(f, Alone(tid, choices));
            && ThreadAt(g, tid, Idle)
            && g.mem == f.mem.(fd := first, fdNonblock := second, hidg := {first, second}, nonblocking := {second})
  {
    var choices := [Result(0), Result(0), Result(0), Result(first), Result(second),
                    Result(0), Result(0), Result(0), Result(0)];
    var f1 := Step(f, tid, Result(0));
    assert ThreadAt(f1, tid, Locking(CallOpen));
    var f2 := Step(f1, tid, Result(0));
    AloneStep(f, tid, choices);
    AloneStep(f1, tid, choices[1..]);
    assert choices[1..][1..] == [Result(0), Result(first), Result(second), Result(0), Result(0), Result(0), Result(0)];
    FirstCompletes(f2, tid, f.mem, first, second, choices[1..][1..]);
  }
}
