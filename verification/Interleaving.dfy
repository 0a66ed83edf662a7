/** Threads interleaved at the granularity of single byte copies: any number of threads, each
    running state updates, output reports, opens and closes, share the report, the descriptors
    and one mutex. A gamepad state is encoded before the mutex is taken, in memory of the
    calling thread, so that a call to update the state carries the nine input bytes. The auxiliary
    component `spec` is a Controller state advanced by one Action where a critical section takes
    effect; it never influences the other components. */
module Interleaving {
  import opened Bytes
  import opened Gamepad
  import opened Flash
  import opened Protocol
  import opened Controller
  import opened Descriptors
  import opened HostView

  /** A write attempt as it happened; `live` says, of a write under the mutex, that its
      descriptor was an open device. */
  datatype Sent = Sent(kind: Kind, fd: int, bytes: seq<byte>, code: int, live: bool, nonblocking: bool)

  datatype Shared = Shared(
    report: seq<byte>, flash: seq<byte>, functionId: nat, fd: int, fdNonblock: int,
    hidg: set<int>, nonblocking: set<int>, stray: set<int>, sent: seq<Sent>)

  datatype Call =
    | CallSetState(input: Input)
    | CallOutputReport(cap: nat, req: seq<byte>, out: int)
    | CallOpen
    | CallClose

  /** The next thing a thread does, by the call it is in. */
  datatype Pc =
    | Idle
    | Locking(call: Call)
    | Setting(input: Input, set_: SetPc)
    | Replying(cap: nat, req: seq<byte>, out: int, reply: ReplyPc)
    | Opening(open: OpenPc)
    | Closing(close: ClosePc)
    | Unlocking

  datatype SetPc =
    | CheckFd
    | Compare(i: nat, changed: bool)
    | ReadTimer(changed: bool)
    | WriteTimer(changed: bool, timer: byte)
    | Copy(changed: bool, i: nat)
    | Send(changed: bool, packet: seq<byte>)

  datatype ReplyPc =
    | Parse
    | Collect(header: seq<byte>)
    | Tick(timer: byte)
    | Transmit(bytes: seq<byte>)

  datatype OpenPc =
    | CheckClosed
    | OpenFirst
    | OpenSecond(first: int)
    | SetMode(first: int, second: int)
    | UndoSecond(first: int, second: int)
    | UndoFirst(first: int)
    | StoreFirst(first: int, second: int)
    | StoreSecond(first: int, second: int)

  datatype ClosePc = CloseFirst | ClearFirst | CloseSecond | ClearSecond

  /** Everything the environment decides in one step: which call a thread makes next, the
      outcome of a write, and the result of an open or of setting the mode. */
  datatype Choice = Choice(call: Call, write: WriteResult, result: int)

  datatype System = System(mem: Shared, holder: Option<nat>, threads: map<nat, Pc>, spec: State)

  predicate InSection(pc: Pc) {
    !pc.Idle? && !pc.Locking?
  }

  /** Whether a request gets as far as taking the mutex. */
  predicate TakesLock(req: seq<byte>) {
    |req| > SUBCMD_AT && req[0] == OUTPUT_REPORT_RUMBLE_AND_SUBCMD
  }

  function Entry(call: Call): Pc {
    match call
    case CallSetState(input) => Setting(input, CheckFd)
    case CallOutputReport(cap, req, out) => Replying(cap, req, out, Parse)
    case CallOpen => Opening(CheckClosed)
    case CallClose => Closing(CloseFirst)
  }

  // ----- Steps inside a critical section -----

  datatype Local = Local(pc: Pc, mem: Shared, spec: State)

  function StepSet(input: Input, pc: SetPc, m: Shared, s: State, c: Choice): (r: Local)
    requires |m.report| == REPORT_SIZE && s.Valid()
    ensures |r.mem.report| == REPORT_SIZE && r.mem.flash == m.flash && r.spec.Valid() && WellFormed(r.pc)
  {
    match pc
    case CheckFd =>
      Local(if m.fd < 0 then Unlocking else Setting(input, Compare(0, false)), m, s)
    case Compare(i, changed) =>
      if i < 3 then Local(Setting(input, Compare(i + 1, changed || input[i] != m.report[3 + i])), m, s)
      else Local(Setting(input, ReadTimer(changed)), m, s)
    case ReadTimer(changed) =>
      Local(Setting(input, WriteTimer(changed, m.report[1])), m, s)
    case WriteTimer(changed, timer) =>
      Local(Setting(input, Copy(changed, 0)), m.(report := m.report[1 := NextTimer(timer)]), s)
    case Copy(changed, i) =>
      if i < 9 then Local(Setting(input, Copy(changed, i + 1)), m.(report := m.report[3 + i := input[i]]), s)
      else Local(Setting(input, Send(changed, [])), m, s)
    case Send(changed, packet) =>
      if |packet| < REPORT_SIZE then Local(Setting(input, Send(changed, packet + [m.report[|packet|]])), m, s)
      else
        var fd := if changed then m.fd else m.fdNonblock;
        var sent := Sent(if changed then ButtonReport else StickReport, fd, packet,
                         WriteCode(REPORT_SIZE, c.write), fd in m.hidg, fd in m.nonblocking);
        Local(Unlocking, m.(sent := m.sent + [sent]), Next(s, SetState(input, c.write)))
  }

  function StepReply(cap: nat, req: seq<byte>, out: int, pc: ReplyPc, m: Shared, s: State, c: Choice): (r: Local)
    requires TakesLock(req) && |m.report| == REPORT_SIZE && |m.flash| == FLASH_SIZE && s.Valid()
    ensures |r.mem.report| == REPORT_SIZE && r.mem.flash == m.flash && r.spec.Valid() && WellFormed(r.pc)
  {
    var id := req[SUBCMD_AT];
    var plan := PlanOf(id, req[SUBCMD_AT + 1..], m.flash, m.functionId);
    match pc
    case Parse =>
      Local(if plan.Ignore? then Unlocking else Replying(cap, req, out, Collect([])), m, s)
    case Collect(header) =>
      if |header| == 0 then Local(Replying(cap, req, out, Collect([RESPONSE_SUBCMD])), m, s)
      else if |header| == 1 then Local(Replying(cap, req, out, Tick(m.report[1])), m, s)
      else if |header| < 13 then Local(Replying(cap, req, out, Collect(header + [m.report[|header|]])), m, s)
      else if plan.Ignore? then Local(Unlocking, m, s)
      else
        var bytes := Sized(cap, header + [plan.ack, id] + plan.payload);
        if bytes.None? then Local(Unlocking, m, Next(s, OutputReport(cap, req, out, c.write)))
        else Local(Replying(cap, req, out, Transmit(bytes.value)), m, s)
    case Tick(timer) =>
      Local(Replying(cap, req, out, Collect([RESPONSE_SUBCMD, timer])),
            m.(report := m.report[1 := NextTimer(timer)]), s)
    case Transmit(bytes) =>
      var sent := Sent(SubcmdReply, out, bytes, WriteCode(|bytes|, c.write), out in m.hidg, out in m.nonblocking);
      Local(Unlocking, m.(sent := m.sent + [sent]), Next(s, OutputReport(cap, req, out, c.write)))
  }

  function StepOpen(pc: OpenPc, m: Shared, s: State, c: Choice): (r: Local)
    requires |m.report| == REPORT_SIZE && s.Valid()
    ensures |r.mem.report| == REPORT_SIZE && r.mem.flash == m.flash && r.spec.Valid() && WellFormed(r.pc)
  {
    match pc
    case CheckClosed => Local(if m.fd < 0 then Opening(OpenFirst) else Unlocking, m, s)
    case OpenFirst =>
      if c.result < 0 then Local(Unlocking, m, s)
      else Local(Opening(OpenSecond(c.result)), m.(hidg := m.hidg + {c.result}), s)
    case OpenSecond(first) =>
      if c.result < 0 then Local(Opening(UndoFirst(first)), m, s)
      else Local(Opening(SetMode(first, c.result)), m.(hidg := m.hidg + {c.result}), s)
    case SetMode(first, second) =>
      if c.result != 0 then Local(Opening(UndoSecond(first, second)), m, s)
      else Local(Opening(StoreFirst(first, second)), m.(nonblocking := m.nonblocking + {second}), s)
    case UndoSecond(first, second) =>
      Local(Opening(UndoFirst(first)), m.(hidg := m.hidg - {second}, nonblocking := m.nonblocking - {second}), s)
    case UndoFirst(first) =>
      Local(Unlocking, m.(hidg := m.hidg - {first}, nonblocking := m.nonblocking - {first}), s)
    case StoreFirst(first, second) => Local(Opening(StoreSecond(first, second)), m.(fd := first), s)
    case StoreSecond(first, second) =>
      Local(Unlocking, m.(fdNonblock := second), Next(s, Open(first, second, 0)))
  }

  function Shut(m: Shared, fd: int): Shared {
    m.(hidg := m.hidg - {fd}, nonblocking := m.nonblocking - {fd},
       stray := if fd in m.hidg then m.stray else m.stray + {fd})
  }

  function StepClose(pc: ClosePc, m: Shared, s: State): (r: Local)
    requires |m.report| == REPORT_SIZE && s.Valid()
    ensures |r.mem.report| == REPORT_SIZE && r.mem.flash == m.flash && r.spec.Valid() && WellFormed(r.pc)
  {
    match pc
    case CloseFirst =>
      if m.fd >= 0 then Local(Closing(ClearFirst), Shut(m, m.fd), s) else Local(Closing(CloseSecond), m, s)
    case ClearFirst => Local(Closing(CloseSecond), m.(fd := -1), s)
    case CloseSecond =>
      if m.fdNonblock >= 0 then Local(Closing(ClearSecond), Shut(m, m.fdNonblock), s)
      else Local(Unlocking, m, Next(s, Close))
    case ClearSecond => Local(Unlocking, m.(fdNonblock := -1), Next(s, Close))
  }

  // ----- What holds at each point of a critical section -----

  predicate SameDevice(m: Shared, s: State) {
    m.fd == s.fd && m.fdNonblock == s.fdNonblock && m.hidg == s.hidg && m.nonblocking == s.nonblocking &&
    m.stray == s.stray
  }

  /** The shared memory is that of the specification. */
  predicate Same(m: Shared, s: State) {
    SameDevice(m, s) && m.report == s.report
  }

  /** The report once the timer and the first i input bytes are in. */
  function Copied(report: seq<byte>, timer: byte, input: seq<byte>, i: nat): seq<byte>
    requires |report| == REPORT_SIZE && |input| == 9 && i <= 9
  {
    [report[0], timer, report[2]] + input[..i] + report[3 + i..]
  }

  /** The first n bytes of a reply header. */
  function HeaderSoFar(report: seq<byte>, n: nat): (r: seq<byte>)
    requires |report| == REPORT_SIZE && n <= 13
    ensures |r| == n
  {
    ([RESPONSE_SUBCMD, report[1]] + report[2..13])[..n]
  }

  predicate SetAt(input: Input, pc: SetPc, m: Shared, s: State)
    requires s.Valid()
  {
    && SameDevice(m, s) && (!pc.CheckFd? ==> s.fd >= 0)
    && match pc
       case CheckFd => m.report == s.report
       case Compare(i, changed) =>
         m.report == s.report && i <= 3 && changed == (input[..i] != s.report[3..3 + i])
       case ReadTimer(changed) =>
         m.report == s.report && changed == ButtonsChanged(s.report, input)
       case WriteTimer(changed, timer) =>
         m.report == s.report && changed == ButtonsChanged(s.report, input) && timer == s.report[1]
       case Copy(changed, i) =>
         && changed == ButtonsChanged(s.report, input) && i <= 9
         && m.report == Copied(s.report, NextTimer(s.report[1]), input, i)
       case Send(changed, packet) =>
         && changed == ButtonsChanged(s.report, input)
         && m.report == Updated(s.report, NextTimer(s.report[1]), input)
         && |packet| <= REPORT_SIZE && packet == m.report[..|packet|]
  }

  predicate ReplyAt(cap: nat, req: seq<byte>, pc: ReplyPc, m: Shared, s: State)
    requires s.Valid()
  {
    && TakesLock(req) && SameDevice(m, s)
    && var plan := PlanOf(req[SUBCMD_AT], req[SUBCMD_AT + 1..], s.flash, s.functionId);
    && (pc.Parse? || plan.Answer?)
    && match pc
       case Parse => m.report == s.report
       case Collect(header) =>
         && |header| <= 13 && header == HeaderSoFar(s.report, |header|)
         && m.report == if |header| < 2 then s.report else s.report[1 := NextTimer(s.report[1])]
       case Tick(timer) => timer == s.report[1] && m.report == s.report
       case Transmit(bytes) =>
         && m.report == s.report[1 := NextTimer(s.report[1])]
         && Sized(cap, Header(s.report, plan.ack, req[SUBCMD_AT]) + plan.payload) == Some(bytes)
  }

  predicate TwoNew(first: int, second: int, now: set<int>, before: set<int>) {
    0 <= first && 0 <= second && first != second && first !in before && second !in before &&
    now == before + {first, second}
  }

  /** The descriptor whose mode has been set on the way into the controller. */
  function ModeSet(pc: OpenPc): set<int> {
    if pc.StoreFirst? || pc.StoreSecond? then {pc.second} else {}
  }

  predicate OpenAt(pc: OpenPc, m: Shared, s: State) {
    && m.report == s.report && m.stray == s.stray && m.fdNonblock == s.fdNonblock
    && m.nonblocking == s.nonblocking + ModeSet(pc)
    && (!pc.CheckClosed? ==> s.fd < 0) && (!pc.StoreSecond? ==> m.fd == s.fd)
    && match pc
       case CheckClosed => m.hidg == s.hidg
       case OpenFirst => m.hidg == s.hidg
       case OpenSecond(first) => 0 <= first && first !in s.hidg && m.hidg == s.hidg + {first}
       case UndoFirst(first) => first !in s.hidg && m.hidg == s.hidg + {first}
       case StoreSecond(first, second) => m.fd == first && TwoNew(first, second, m.hidg, s.hidg)
       case SetMode(first, second) => TwoNew(first, second, m.hidg, s.hidg)
       case UndoSecond(first, second) => TwoNew(first, second, m.hidg, s.hidg)
       case StoreFirst(first, second) => TwoNew(first, second, m.hidg, s.hidg)
  }

  /** Half-closed states, compared with what the whole close will do. */
  predicate CloseAt(pc: ClosePc, m: Shared, s: State) {
    var half := if s.fd >= 0 then CloseFd(s, s.fd).(fd := -1) else s;
    && m.report == s.report
    && match pc
       case CloseFirst => SameDevice(m, s)
       case ClearFirst => s.fd >= 0 && SameDevice(m, CloseFd(s, s.fd))
       case CloseSecond => SameDevice(m, half)
       case ClearSecond => s.fdNonblock >= 0 && SameDevice(m, CloseFd(half, s.fdNonblock))
  }

  predicate At(pc: Pc, m: Shared, s: State)
    requires s.Valid()
  {
    match pc
    case Idle => true
    case Locking(_) => true
    case Unlocking => Same(m, s)
    case Setting(input, p) => SetAt(input, p, m, s)
    case Replying(cap, req, _, p) => ReplyAt(cap, req, p, m, s)
    case Opening(p) => OpenAt(p, m, s)
    case Closing(p) => CloseAt(p, m, s)
  }

  // ----- The whole system -----

  function SentOf(w: Write): Sent {
    Sent(w.kind, w.fd, w.bytes, w.code, w.kind.UsbReply? || w.live,
         !w.kind.UsbReply? && w.nonblocking)
  }

  function Strip(trace: seq<Write>): (r: seq<Sent>)
    ensures |r| == |trace|
  {
    seq(|trace|, i requires 0 <= i < |trace| =>
      SentOf(trace[i]))
  }

  /** What holds of the shared memory and the specification whoever is where. */
  predicate Linked(m: Shared, s: State) {
    && Inv(s) && Owned(s) && StateReportsRouted(s.trace) && InStep(s)
    && m.flash == s.flash && m.functionId == s.functionId && |m.report| == REPORT_SIZE
    && m.sent == Strip(s.trace)
  }

  predicate WellFormed(pc: Pc) {
    (pc.Locking? && pc.call.CallOutputReport? ==> TakesLock(pc.call.req)) &&
    (pc.Replying? ==> TakesLock(pc.req))
  }

  predicate SysInv(f: System) {
    && Linked(f.mem, f.spec)
    && (forall t :: t in f.threads ==> WellFormed(f.threads[t]))
    && (forall t :: t in f.threads && InSection(f.threads[t]) ==> f.holder == Some(t))
    && match f.holder
       case None => Same(f.mem, f.spec)
       case Some(h) => h in f.threads && InSection(f.threads[h]) && At(f.threads[h], f.mem, f.spec)
  }

  /** The shape every system keeps, whatever happens. */
  predicate Ready(f: System) {
    && f.spec.Valid() && |f.mem.report| == REPORT_SIZE && |f.mem.flash| == FLASH_SIZE
    && (forall t :: t in f.threads ==> WellFormed(f.threads[t]))
  }

  function Boot(functionId: nat, flash: Image, threads: set<nat>): System {
    var s := Initial(functionId, flash);
    System(Shared(s.report, s.flash, functionId, s.fd, s.fdNonblock, {}, {}, {}, []), None,
           map t | t in threads :: Idle, s)
  }

  /** A descriptor the kernel hands out is not open. */
  predicate Conforms(pc: Pc, m: Shared, c: Choice) {
    pc.Opening? && (pc.open.OpenFirst? || pc.open.OpenSecond?) && c.result >= 0 ==> c.result !in m.hidg
  }

  function StepSection(pc: Pc, m: Shared, s: State, c: Choice): (r: Local)
    requires s.Valid() && |m.report| == REPORT_SIZE && |m.flash| == FLASH_SIZE && WellFormed(pc)
    ensures |r.mem.report| == REPORT_SIZE && r.mem.flash == m.flash && r.spec.Valid() && WellFormed(r.pc)
  {
    match pc
    case Idle => Local(pc, m, s)
    case Locking(_) => Local(pc, m, s)
    case Unlocking => Local(pc, m, s)
    case Setting(input, p) => StepSet(input, p, m, s, c)
    case Replying(cap, req, out, p) => StepReply(cap, req, out, p, m, s, c)
    case Opening(p) => StepOpen(p, m, s, c)
    case Closing(p) => StepClose(p, m, s)
  }

  /** A request that never takes the mutex is answered from the request alone. */
  function UnlockedReply(call: Call, functionId: nat): Option<seq<byte>>
    requires call.CallOutputReport?
  {
    if |call.req| > 0 && call.req[0] == OUTPUT_REPORT_USB_CMD then RespondUsb(call.cap, call.req, functionId).reply
    else None
  }

  function AnswerUnlocked(m: Shared, s: State, call: Call, c: Choice): (r: Local)
    requires call.CallOutputReport? && s.Valid()
    ensures r.mem.report == m.report && r.mem.flash == m.flash && r.spec.Valid()
  {
    var reply := UnlockedReply(call, m.functionId);
    if reply.None? then Local(Idle, m, s)
    else
      var sent := Sent(UsbReply, call.out, reply.value, WriteCode(|reply.value|, c.write), true, false);
      Local(Idle, m.(sent := m.sent + [sent]), Next(s, OutputReport(call.cap, call.req, call.out, c.write)))
  }

  /** One step of one thread; a thread that cannot move leaves everything as it is. */
  function Step(f: System, tid: nat, c: Choice): (r: System)
    requires Ready(f)
    ensures Ready(r)
  {
    if tid !in f.threads then f
    else
      var pc := f.threads[tid];
      if pc.Idle? then
        if c.call.CallOutputReport? && !TakesLock(c.call.req) then
          var l := AnswerUnlocked(f.mem, f.spec, c.call, c);
          f.(mem := l.mem, spec := l.spec)
        else f.(threads := f.threads[tid := Locking(c.call)])
      else if pc.Locking? then
        if f.holder.Some? then f
        else f.(holder := Some(tid), threads := f.threads[tid := Entry(pc.call)])
      else if pc.Unlocking? then f.(holder := None, threads := f.threads[tid := Idle])
      else
        var l := StepSection(pc, f.mem, f.spec, c);
        f.(mem := l.mem, spec := l.spec, threads := f.threads[tid := l.pc])
  }

  // ----- Schedules -----

  /** Which thread moves next, and what the environment decides for it. */
  datatype Turn = Turn(tid: nat, choice: Choice)

  function Run(f: System, schedule: seq<Turn>): (r: System)
    requires Ready(f)
    ensures Ready(r)
    decreases |schedule|
  {
    if schedule == [] then f else Run(Step(f, schedule[0].tid, schedule[0].choice), schedule[1..])
  }

  predicate Conforming(f: System, schedule: seq<Turn>)
    requires Ready(f)
    decreases |schedule|
  {
    schedule == [] ||
    ((schedule[0].tid in f.threads ==> Conforms(f.threads[schedule[0].tid], f.mem, schedule[0].choice)) &&
     Conforming(Step(f, schedule[0].tid, schedule[0].choice), schedule[1..]))
  }
}
