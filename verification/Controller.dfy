/** The controller as a machine whose steps are its critical sections: state updates,
    output reports, opening and closing the device. System call results are inputs. */
module Controller {
  import opened Bytes
  import opened Gamepad
  import opened Flash
  import opened Protocol

  const EIO := 5
  const EAGAIN := 11
  const ENOMEM := 12

  type errno = e: int | 0 < e witness 1

  /** The outcome of a write system call. */
  datatype WriteResult = Wrote(count: nat) | Failed(error: errno)

  /** The return value of the report writer: a short write is an I/O error. */
  function WriteCode(size: nat, w: WriteResult): int {
    match w
    case Wrote(count) => if count == size then 0 else -EIO
    case Failed(error) => -(error as int)
  }

  /** Which code wrote a report: a state update with changed buttons (blocking descriptor) or
      without (non-blocking descriptor), or the answer to a subcommand or USB command. */
  datatype Kind = ButtonReport | StickReport | SubcmdReply | UsbReply

  /** One write attempt. `live`, `nonblocking`, `tick` and `commit` are observations of the model:
      whether the descriptor was an open device, whether it was in non-blocking mode, the unwrapped
      timer value sent, and the index of the input bytes in force. */
  datatype Write = Write(kind: Kind, fd: int, bytes: seq<byte>, code: int, live: bool, nonblocking: bool,
                         tick: nat, commit: nat)
  {
    predicate Delivered() { code == 0 }
    predicate CarriesInput() { !kind.UsbReply? }

    // The timer values before and after the critical section that made this write.
    function Before(): int { if kind.ButtonReport? || kind.StickReport? then tick - 1 else tick }
    function After(): int { if kind.SubcmdReply? then tick + 1 else tick }
  }

  /** `hidg` are the open device descriptors of this controller, `nonblocking` those among them
      that have been set to non-blocking mode, `stray` the descriptors it
      closed without owning them, `ticks` the unwrapped timer, `commits` all input bytes
      ever put into the report, `trace` all write attempts. */
  datatype State = State(
    report: seq<byte>, flash: seq<byte>, functionId: nat, fd: int, fdNonblock: int,
    hidg: set<int>, nonblocking: set<int>, stray: set<int>, ticks: nat, commits: seq<Input>, trace: seq<Write>)
  {
    predicate Valid() { |report| == REPORT_SIZE && |flash| == FLASH_SIZE && commits != [] && nonblocking <= hidg }
  }

  /** The timer is a byte and wraps around. */
  function NextTimer(timer: byte): byte {
    (timer as int + 1) % 0x100
  }

  // ----- State updates -----

  function Updated(report: seq<byte>, timer: byte, input: Input): (r: seq<byte>)
    requires |report| == REPORT_SIZE
    ensures |r| == REPORT_SIZE
  {
    [report[0], timer, report[2]] + input + report[12..]
  }

  predicate ButtonsChanged(report: seq<byte>, input: Input)
    requires |report| == REPORT_SIZE
  {
    input[..3] != report[3..6]
  }

  /** The input bytes go into the report and the report goes out, on the blocking descriptor
      if they change the buttons, else on the other. */
  function AfterSetState(s: State, input: Input, w: WriteResult): (r: State)
    requires s.Valid()
    ensures r.Valid()
  {
    if s.fd < 0 then s else Published(s, input, w)
  }

  function Published(s: State, input: Input, w: WriteResult): (r: State)
    requires s.Valid()
    ensures r.Valid()
  {
    var changed := ButtonsChanged(s.report, input);
    var report := Updated(s.report, NextTimer(s.report[1]), input);
    var fd := if changed then s.fd else s.fdNonblock;
    s.(report := report, ticks := s.ticks + 1, commits := s.commits + [input],
       trace := s.trace + [Write(if changed then ButtonReport else StickReport, fd, report,
                                 WriteCode(REPORT_SIZE, w), fd in s.hidg, fd in s.nonblocking,
                                 s.ticks + 1, |s.commits|)])
  }

  /** The return value of a state update: the caller should send the same state again. */
  predicate NeedsRetry(s: State, input: Input, w: WriteResult)
    requires s.Valid()
  {
    s.fd >= 0 && !ButtonsChanged(s.report, input) && WriteCode(REPORT_SIZE, w) == -EAGAIN
  }

  // ----- Output reports -----

  function Timer(s: State): State
    requires s.Valid()
  {
    s.(report := s.report[1 := NextTimer(s.report[1])], ticks := s.ticks + 1)
  }

  /** A subcommand was acknowledged: the timer advances, and bytes, cut or padded to size, are
      sent unless a buffer of cap bytes cannot hold them. */
  function Answered(s: State, cap: nat, bytes: seq<byte>, fd: int, w: WriteResult): (r: State)
    requires s.Valid()
    ensures r.Valid()
  {
    match Sized(cap, bytes)
    case None => Timer(s)
    case Some(reply) => Replied(Timer(s), SubcmdReply, s.ticks, reply, fd, w)
  }

  function Replied(s: State, kind: Kind, tick: nat, reply: seq<byte>, fd: int, w: WriteResult): (r: State)
    requires s.Valid()
    ensures r.Valid()
  {
    s.(trace := s.trace + [Write(kind, fd, reply, WriteCode(|reply|, w), fd in s.hidg, fd in s.nonblocking,
                                 tick, |s.commits| - 1)])
  }

  function AfterOutputReport(s: State, cap: nat, req: seq<byte>, fd: int, w: WriteResult): (r: State)
    requires s.Valid()
    ensures r.Valid()
  {
    Reacted(s, Respond(cap, req, s.report, s.flash, s.functionId), fd, w)
  }

  function Reacted(s: State, reaction: Reaction, fd: int, w: WriteResult): (r: State)
    requires s.Valid()
    ensures r.Valid()
  {
    var ticked := if reaction.ticks then Timer(s) else s;
    match reaction.reply
    case None => ticked
    case Some(reply) => Replied(ticked, if reaction.ticks then SubcmdReply else UsbReply, s.ticks, reply, fd, w)
  }

  // ----- Opening and closing -----

  /** Two descriptors are opened and the second made non-blocking; any failure closes what was
      opened. `first` and `second` are descriptors or negative, `nonblock` is zero on success. */
  function AfterOpen(s: State, first: int, second: int, nonblock: int): State {
    if s.fd >= 0 || first < 0 || second < 0 || nonblock != 0 then s
    else s.(fd := first, fdNonblock := second, hidg := s.hidg + {first, second},
            nonblocking := s.nonblocking + {second})
  }

  function CloseFd(s: State, fd: int): State {
    s.(hidg := s.hidg - {fd}, nonblocking := s.nonblocking - {fd},
       stray := if fd in s.hidg then s.stray else s.stray + {fd})
  }

  function AfterClose(s: State): State {
    var t := if s.fd >= 0 then CloseFd(s, s.fd).(fd := -1) else s;
    if t.fdNonblock >= 0 then CloseFd(t, t.fdNonblock).(fdNonblock := -1) else t
  }

  /** The descriptors that destroying the controller closes. */
  function DestroyCloses(s: State): set<int> {
    (if s.fd >= 0 then {s.fd} else {}) + (if s.fdNonblock >= 0 then {s.fdNonblock} else {})
  }

  // ----- Runs -----

  datatype Action =
    | SetState(input: Input, w: WriteResult)
    | OutputReport(cap: nat, req: seq<byte>, fd: int, w: WriteResult)
    | Open(first: int, second: int, nonblock: int)
    | Close

  function Next(s: State, a: Action): (r: State)
    requires s.Valid()
    ensures r.Valid()
  {
    match a
    case SetState(input, w) => AfterSetState(s, input, w)
    case OutputReport(cap, req, fd, w) => AfterOutputReport(s, cap, req, fd, w)
    case Open(first, second, nonblock) => AfterOpen(s, first, second, nonblock)
    case Close => AfterClose(s)
  }

  /** What the kernel guarantees: a descriptor it hands out is not one still open. */
  predicate Enabled(s: State, a: Action) {
    a.Open? ==>
      && (a.first >= 0 ==> a.first !in s.hidg)
      && (a.second >= 0 ==> a.second !in s.hidg && a.second != a.first)
  }

  function Exec(s: State, actions: seq<Action>): (r: State)
    requires s.Valid()
    ensures r.Valid()
    decreases |actions|
  {
    if actions == [] then s else Exec(Next(s, actions[0]), actions[1..])
  }

  /** The report for a timer value and input bytes. */
  function ReportOf(tick: nat, input: Input): (r: seq<byte>)
    ensures |r| == REPORT_SIZE && r[3..12] == input && r[1] == tick % 0x100
  {
    [RESPONSE_REPORT, tick % 0x100, 0x91] + input + Fill(52, 0)
  }

  /** A new controller, with any flash contents. */
  function Initial(functionId: nat, flash: Image): (s: State)
    ensures s.Valid()
  {
    State(ReportOf(0, NEUTRAL_INPUT), flash, functionId, -1, 0, {}, {}, {}, 0, [NEUTRAL_INPUT], [])
  }

  // ----- What every run keeps -----

  function Last(commits: seq<Input>): Input
    requires commits != []
  {
    commits[|commits| - 1]
  }

  /** What a write attempt put on its descriptor, given the states committed so far. */
  predicate Untorn(w: Write, commits: seq<Input>) {
    w.CarriesInput() ==>
      && w.commit < |commits|
      && |w.bytes| == REPORT_SIZE
      && (if w.kind.SubcmdReply? then
            w.bytes[0] == RESPONSE_SUBCMD && w.bytes[1..13] == ReportOf(w.tick, commits[w.commit])[1..13]
          else w.bytes == ReportOf(w.tick, commits[w.commit]))
  }

  predicate Ordered(trace: seq<Write>, ticks: nat, commits: nat) {
    && (forall i, j :: 0 <= i < j < |trace| ==>
          trace[i].After() <= trace[j].Before() && trace[i].commit <= trace[j].commit)
    && (forall i :: 0 <= i < |trace| ==> trace[i].After() <= ticks && trace[i].commit < commits)
  }

  predicate Inv(s: State) {
    && s.Valid()
    && s.report == ReportOf(s.ticks, Last(s.commits))
    && (forall i :: 0 <= i < |s.trace| ==> Untorn(s.trace[i], s.commits))
    && Ordered(s.trace, s.ticks, |s.commits|)
  }

  lemma NextTimerIsNextTick(tick: nat)
    ensures NextTimer(tick % 0x100) == (tick + 1) % 0x100
  {
  }

  lemma UpdatedReport(tick: nat, before: Input, after: Input)
    ensures Updated(ReportOf(tick, before), NextTimer(tick % 0x100), after) == ReportOf(tick + 1, after)
    ensures ReportOf(tick, before)[1 := NextTimer(tick % 0x100)] == ReportOf(tick + 1, before)
  {
    NextTimerIsNextTick(tick);
  }

  lemma SetStateKeepsInv(s: State, input: Input, w: WriteResult)
    requires Inv(s)
    ensures Inv(AfterSetState(s, input, w))
  {
    UpdatedReport(s.ticks, Last(s.commits), input);
    if s.fd >= 0 {
      var t := AfterSetState(s, input, w);
      OneMoreWrite(s, t.(trace := s.trace), t.trace[|s.trace|]);
    }
  }

  lemma OutputReportKeepsInv(s: State, cap: nat, req: seq<byte>, fd: int, w: WriteResult)
    requires Inv(s)
    ensures Inv(AfterOutputReport(s, cap, req, fd, w))
  {
    var reaction := Respond(cap, req, s.report, s.flash, s.functionId);
    if reaction.ticks && reaction.reply.Some? {
      SubcmdReplyShows(cap, req, s.report, s.flash, s.functionId);
    }
    ReactionKeepsInv(s, reaction, fd, w);
  }

  lemma ReactionKeepsInv(s: State, reaction: Reaction, fd: int, w: WriteResult)
    requires Inv(s)
    requires reaction.ticks && reaction.reply.Some? ==>
      |reaction.reply.value| == REPORT_SIZE && reaction.reply.value[0] == RESPONSE_SUBCMD &&
      reaction.reply.value[1..13] == s.report[1..13]
    ensures Inv(Reacted(s, reaction, fd, w))
  {
    var ticked := if reaction.ticks then Timer(s) else s;
    UpdatedReport(s.ticks, Last(s.commits), Last(s.commits));
    if reaction.reply.Some? {
      var bytes := reaction.reply.value;
      var write := Write(if reaction.ticks then SubcmdReply else UsbReply, fd, bytes,
                         WriteCode(|bytes|, w), fd in s.hidg, fd in s.nonblocking, s.ticks, |s.commits| - 1);
      OneMoreWrite(s, ticked, write);
    }
  }

  /** Appending an untorn write that follows the earlier ones keeps the invariant. */
  lemma OneMoreWrite(s: State, t: State, write: Write)
    requires Inv(s) && t.Valid() && t.report == ReportOf(t.ticks, Last(t.commits))
    requires t.trace == s.trace && s.commits <= t.commits
    requires Untorn(write, t.commits) && write.commit == |t.commits| - 1
    requires s.ticks <= write.Before() && write.After() <= t.ticks
    ensures Inv(t.(trace := s.trace + [write]))
  {
    OrderedAppend(s.trace, s.ticks, |s.commits|, write, t.ticks, |t.commits|);
    forall i | 0 <= i < |s.trace| ensures Untorn(s.trace[i], t.commits) {
      UntornStays(s.trace[i], s.commits, t.commits);
    }
  }

  lemma UntornStays(w: Write, before: seq<Input>, after: seq<Input>)
    requires Untorn(w, before) && before <= after
    ensures Untorn(w, after)
  {
  }

  lemma OrderedAppend(trace: seq<Write>, ticks: nat, commits: nat, write: Write, ticks': nat, commits': nat)
    requires Ordered(trace, ticks, commits)
    requires ticks <= write.Before() && write.After() <= ticks' && write.commit == commits' - 1 && commits <= commits'
    ensures Ordered(trace + [write], ticks', commits')
  {
  }

  lemma NextKeepsInv(s: State, a: Action)
    requires Inv(s)
    ensures Inv(Next(s, a))
  {
    match a
    case SetState(input, w) => SetStateKeepsInv(s, input, w);
    case OutputReport(cap, req, fd, w) => OutputReportKeepsInv(s, cap, req, fd, w);
    case Open(_, _, _) =>
    case Close =>
  }

  lemma {:induction false} ExecKeepsInv(s: State, actions: seq<Action>)
    requires Inv(s)
    ensures Inv(Exec(s, actions))
    decreases |actions|
  {
    if actions != [] {
      NextKeepsInv(s, actions[0]);
      ExecKeepsInv(Next(s, actions[0]), actions[1..]);
    }
  }

  lemma InitialInv(functionId: nat, flash: Image)
    ensures Inv(Initial(functionId, flash))
  {
  }

  lemma RunInv(functionId: nat, flash: Image, actions: seq<Action>)
    ensures Inv(Exec(Initial(functionId, flash), actions))
  {
    InitialInv(functionId, flash);
    ExecKeepsInv(Initial(functionId, flash), actions);
  }

  lemma UntornShows(w: Write, commits: seq<Input>)
    requires Untorn(w, commits) && w.CarriesInput()
    ensures w.commit < |commits| && |w.bytes| == REPORT_SIZE
    ensures w.bytes[3..12] == commits[w.commit] && w.bytes[1] == w.tick % 0x100
  {
    var r := ReportOf(w.tick, commits[w.commit]);
    Subslice(w.bytes);
    Subslice(r);
  }

  lemma Subslice(bytes: seq<byte>)
    requires |bytes| == REPORT_SIZE
    ensures bytes[3..12] == bytes[1..13][2..11] && bytes[1] == bytes[1..13][0]
  {
    var part := bytes[1..13];
    assert forall i :: 0 <= i < 9 ==> bytes[3..12][i] == part[2 + i];
  }

  /** The input bytes of an attempted report are those of one committed state. */
  predicate ShowsOneCommit(w: Write, commits: seq<Input>) {
    w.CarriesInput() ==>
      w.commit < |commits| && |w.bytes| == REPORT_SIZE && w.bytes[3..12] == commits[w.commit]
  }

  /** In every run, the nine input bytes of every attempted report are the encoding of one
      state that was committed as a whole, and reports never go back to an earlier state. */
  lemma NoTornSnapshots(functionId: nat, flash: Image, actions: seq<Action>)
    ensures var s := Exec(Initial(functionId, flash), actions);
      && s.report[3..12] == Last(s.commits)
      && (forall i :: 0 <= i < |s.trace| ==> ShowsOneCommit(s.trace[i], s.commits))
      && (forall i, j :: 0 <= i < j < |s.trace| ==> s.trace[i].commit <= s.trace[j].commit)
  {
    RunInv(functionId, flash, actions);
    InvShowsCommits(Exec(Initial(functionId, flash), actions));
  }

  lemma InvShowsCommits(s: State)
    requires Inv(s)
    ensures forall i :: 0 <= i < |s.trace| ==> ShowsOneCommit(s.trace[i], s.commits)
  {
    forall i | 0 <= i < |s.trace| ensures ShowsOneCommit(s.trace[i], s.commits) {
      if s.trace[i].CarriesInput() {
        UntornShows(s.trace[i], s.commits);
      }
    }
  }

  predicate ShowsItsTick(w: Write) {
    w.CarriesInput() ==> |w.bytes| == REPORT_SIZE && w.bytes[1] == w.tick % 0x100
  }

  /** A later report shows the same tick only as a reply right after a state report. */
  predicate TicksFollow(earlier: Write, later: Write) {
    && earlier.tick <= later.tick
    && (earlier.CarriesInput() && later.CarriesInput() && earlier.tick == later.tick ==>
          !earlier.kind.SubcmdReply? && later.kind.SubcmdReply?)
  }

  /** In every run, the report's timer is the number of ticks modulo 256, every report shows
      its own tick, and ticks of reports never decrease, however many ticks unanswered
      flash reads and undelivered writes used up in between. */
  lemma TimerLaw(functionId: nat, flash: Image, actions: seq<Action>)
    ensures var s := Exec(Initial(functionId, flash), actions);
      && s.report[1] == s.ticks % 0x100
      && (forall i :: 0 <= i < |s.trace| ==> ShowsItsTick(s.trace[i]) && s.trace[i].tick <= s.ticks)
      && (forall i, j :: 0 <= i < j < |s.trace| ==> TicksFollow(s.trace[i], s.trace[j]))
  {
    RunInv(functionId, flash, actions);
    InvShowsTicks(Exec(Initial(functionId, flash), actions));
  }

  lemma InvShowsTicks(s: State)
    requires Inv(s)
    ensures forall i :: 0 <= i < |s.trace| ==> ShowsItsTick(s.trace[i]) && s.trace[i].tick <= s.ticks
    ensures forall i, j :: 0 <= i < j < |s.trace| ==> TicksFollow(s.trace[i], s.trace[j])
  {
  }

  /** Nothing a run does changes the flash. */
  lemma {:induction false} FlashNeverChanges(s: State, actions: seq<Action>)
    requires s.Valid()
    ensures Exec(s, actions).flash == s.flash && Exec(s, actions).functionId == s.functionId
    decreases |actions|
  {
    if actions != [] {
      FlashNeverChanges(Next(s, actions[0]), actions[1..]);
    }
  }
}
