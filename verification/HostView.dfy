/** What the console sees: the input bytes of the last report it received. */
module HostView {
  import opened Bits
  import opened Bytes
  import opened Flash
  import opened Gamepad
  import opened Protocol
  import opened Controller
  import opened Descriptors

  predicate Carried(w: Write) {
    w.Delivered() && w.CarriesInput() && |w.bytes| == REPORT_SIZE
  }

  /** Neutral until something is received. */
  function Shown(trace: seq<Write>): Input
  {
    if trace == [] then NEUTRAL_INPUT
    else
      var last := trace[|trace| - 1];
      if Carried(last) then last.bytes[3..12] else Shown(trace[..|trace| - 1])
  }

  /** Whether a state report of the given kinds was lost since the last report received. */
  predicate LostSince(trace: seq<Write>, kinds: set<Kind>) {
    trace != [] &&
    var last := trace[|trace| - 1];
    !Carried(last) && (last.kind in kinds || LostSince(trace[..|trace| - 1], kinds))
  }

  predicate InStep(s: State)
    requires s.Valid()
  {
    && (!LostSince(s.trace, {ButtonReport}) ==> Shown(s.trace)[..3] == s.report[3..6])
    && (!LostSince(s.trace, {ButtonReport, StickReport}) ==> Shown(s.trace) == s.report[3..12])
  }

  lemma OneMore(trace: seq<Write>, w: Write)
    ensures Shown(trace + [w]) == if Carried(w) then w.bytes[3..12] else Shown(trace)
    ensures forall kinds: set<Kind> :: LostSince(trace + [w], kinds) <==>
              !Carried(w) && (w.kind in kinds || LostSince(trace, kinds))
  {
  }

  lemma FrontOfInput(bytes: seq<byte>)
    requires |bytes| == REPORT_SIZE
    ensures bytes[3..12][..3] == bytes[3..6]
  {
  }

  lemma SetStateInStep(s: State, input: Input, w: WriteResult)
    requires Inv(s) && InStep(s)
    ensures InStep(AfterSetState(s, input, w))
  {
  }

  lemma OutputReportInStep(s: State, cap: nat, req: seq<byte>, fd: int, w: WriteResult)
    requires Inv(s) && InStep(s)
    ensures InStep(AfterOutputReport(s, cap, req, fd, w))
  {
    var t := AfterOutputReport(s, cap, req, fd, w);
    assert t.report[3..12] == s.report[3..12] && t.report[3..6] == s.report[3..6];
    var reaction := Respond(cap, req, s.report, s.flash, s.functionId);
    if reaction.reply.Some? {
      OneMore(s.trace, t.trace[|s.trace|]);
      if reaction.ticks {
        SubcmdReplyShows(cap, req, s.report, s.flash, s.functionId);
        Subslice(reaction.reply.value);
        Subslice(s.report);
        FrontOfInput(s.report);
      }
    }
  }

  lemma NextInStep(s: State, a: Action)
    requires Inv(s) && InStep(s)
    ensures InStep(Next(s, a))
  {
    match a
    case SetState(input, w) => SetStateInStep(s, input, w);
    case OutputReport(cap, req, fd, w) => OutputReportInStep(s, cap, req, fd, w);
    case Open(_, _, _) =>
    case Close =>
  }

  lemma {:induction false} ExecInStep(s: State, actions: seq<Action>)
    requires Inv(s) && InStep(s)
    ensures Inv(Exec(s, actions)) && InStep(Exec(s, actions))
    decreases |actions|
  {
    if actions != [] {
      NextKeepsInv(s, actions[0]);
      NextInStep(s, actions[0]);
      ExecInStep(Next(s, actions[0]), actions[1..]);
    }
  }

  /** In every run, the console's buttons are the controller's unless a button report was lost
      since the last report received, and its whole view is the controller's unless some state
      report was. In particular the buttons always agree while blocking writes succeed. */
  lemma HostAgrees(functionId: nat, flash: Image, actions: seq<Action>)
    ensures var s := Exec(Initial(functionId, flash), actions);
      && (!LostSince(s.trace, {ButtonReport}) ==> Shown(s.trace)[..3] == s.report[3..6])
      && (!LostSince(s.trace, {ButtonReport, StickReport}) ==> Shown(s.trace) == s.report[3..12])
  {
    InitialInv(functionId, flash);
    FrontOfInput(ReportOf(0, NEUTRAL_INPUT));
    ExecInStep(Initial(functionId, flash), actions);
  }

  lemma {:induction false} BlockingWritesSucceeding(trace: seq<Write>)
    requires forall i :: 0 <= i < |trace| && trace[i].kind.ButtonReport? ==> Carried(trace[i])
    ensures !LostSince(trace, {ButtonReport})
  {
    if trace != [] {
      BlockingWritesSucceeding(trace[..|trace| - 1]);
    }
  }

  // ----- Sending the same input again -----

  /** Nothing but updates with this input, and output reports. */
  predicate OnlyInput(actions: seq<Action>, input: Input) {
    forall i :: 0 <= i < |actions| ==> actions[i].OutputReport? || (actions[i].SetState? && actions[i].input == input)
  }

  /** Some report with input bytes has been received since the first n writes. */
  predicate ReceivedSince(trace: seq<Write>, n: nat) {
    exists i :: n <= i < |trace| && Carried(trace[i])
  }

  predicate GrowsByOne(before: seq<Write>, after: seq<Write>) {
    after == before || (|after| == |before| + 1 && after[..|before|] == before)
  }

  /** After one such action the report holds the input, if it did before or the action publishes it. */
  lemma InputStays(s: State, a: Action, input: Input)
    requires Inv(s) && s.fd >= 0 && OnlyInput([a], input)
    requires a.SetState? || s.report[3..12] == input
    ensures var t := Next(s, a);
            && Inv(t) && t.fd == s.fd && t.report[3..12] == input && Last(t.commits) == input
            && GrowsByOne(s.trace, t.trace)
    ensures var t := Next(s, a);
            |t.trace| > |s.trace| ==> t.trace[|s.trace|].commit == |t.commits| - 1
  {
    assert [a][0] == a;
    NextKeepsInv(s, a);
  }

  lemma ShownGrows(before: seq<Write>, after: seq<Write>, input: Input)
    requires GrowsByOne(before, after)
    requires |after| > |before| && Carried(after[|before|]) ==> after[|before|].bytes[3..12] == input
    ensures Shown(after) == if ReceivedSince(after, |before|) then input else Shown(before)
  {
    if |after| > |before| {
      assert after == before + [after[|before|]];
      OneMore(before, after[|before|]);
    }
  }

  /** And the console shows it as soon as a report has been received. */
  lemma OneOnlyInput(s: State, a: Action, input: Input)
    requires Inv(s) && s.fd >= 0 && OnlyInput([a], input)
    requires a.SetState? || s.report[3..12] == input
    ensures var t := Next(s, a);
            && Inv(t) && t.fd == s.fd && t.report[3..12] == input && GrowsByOne(s.trace, t.trace)
            && Shown(t.trace) == if ReceivedSince(t.trace, |s.trace|) then input else Shown(s.trace)
  {
    var t := Next(s, a);
    InputStays(s, a, input);
    InvShowsCommits(t);
    if |t.trace| > |s.trace| {
      assert ShowsOneCommit(t.trace[|s.trace|], t.commits);
    }
    ShownGrows(s.trace, t.trace, input);
  }

  /** From the moment an input is in the report, and as long as only it is published, the
      console shows it exactly once some report has been received since, be it a state report
      or the reply to an output report, or if it showed it before. */
  lemma {:induction false} OnlyInputShows(s: State, actions: seq<Action>, input: Input)
    requires Inv(s) && s.fd >= 0 && OnlyInput(actions, input)
    requires s.report[3..12] == input || (actions != [] && actions[0].SetState?)
    ensures var t := Exec(s, actions);
            && t.report[3..12] == input && |s.trace| <= |t.trace| && t.trace[..|s.trace|] == s.trace
            && Shown(t.trace) == if ReceivedSince(t.trace, |s.trace|) then input else Shown(s.trace)
    decreases |actions|
  {
    if actions != [] {
      var u, t := Next(s, actions[0]), Exec(s, actions);
      OneOnlyInput(s, actions[0], input);
      OnlyInputShows(u, actions[1..], input);
      ReceivedLater(s.trace, u.trace, t.trace);
    }
  }

  lemma ReceivedLater(before: seq<Write>, mid: seq<Write>, after: seq<Write>)
    requires before <= mid <= after
    ensures ReceivedSince(after, |before|) <==> ReceivedSince(mid, |before|) || ReceivedSince(after, |mid|)
  {
    if ReceivedSince(mid, |before|) {
      var i :| |before| <= i < |mid| && Carried(mid[i]);
      assert after[i] == mid[i];
    }
    if ReceivedSince(after, |before|) && !ReceivedSince(after, |mid|) {
      var i :| |before| <= i < |after| && Carried(after[i]);
      assert mid[i] == after[i];
    }
  }

  /** Resending an input until one write goes through makes the console show it, whatever
      output reports come in between, and further resends keep it there whatever becomes of them. */
  lemma {:induction false} ResendReaches(s: State, actions: seq<Action>, input: Input, k: nat)
    requires Inv(s) && s.fd >= 0 && OnlyInput(actions, input)
    requires k < |actions| && actions[k].SetState? && WriteCode(REPORT_SIZE, actions[k].w) == 0
    ensures var t := Exec(s, actions); Shown(t.trace) == input == t.report[3..12]
    decreases |actions|
  {
    var u := Next(s, actions[0]);
    NextKeepsInv(s, actions[0]);
    assert actions[0].OutputReport? || (actions[0].SetState? && actions[0].input == input);
    if k == 0 {
      OneOnlyInput(s, actions[0], input);
      Delivered(s, input, actions[0].w);
      OnlyInputShows(u, actions[1..], input);
    } else {
      ResendReaches(u, actions[1..], input, k - 1);
    }
  }

  lemma Delivered(s: State, input: Input, w: WriteResult)
    requires s.Valid() && s.fd >= 0 && WriteCode(REPORT_SIZE, w) == 0
    ensures ReceivedSince(AfterSetState(s, input, w).trace, |s.trace|)
  {
    assert Carried(AfterSetState(s, input, w).trace[|s.trace|]);
  }

  /** After a state update the console shows its input exactly when the report was delivered,
      or when it showed the same before. */
  lemma ShownAfterSetState(s: State, input: Input, w: WriteResult)
    requires Inv(s)
    ensures Shown(AfterSetState(s, input, w).trace) == input <==>
              (s.fd >= 0 && WriteCode(REPORT_SIZE, w) == 0) || Shown(s.trace) == input
  {
  }

  /** The descriptor an update writes to. */
  function Target(s: State, input: Input): int
    requires s.Valid()
  {
    if ButtonsChanged(s.report, input) then s.fd else s.fdNonblock
  }

  /** The outcomes of the write of an update when nothing but congestion is possible: the whole
      report, or EAGAIN on a descriptor in non-blocking mode. */
  predicate Congestion(s: State, input: Input, w: WriteResult)
    requires s.Valid()
  {
    w == Wrote(REPORT_SIZE) || (Target(s, input) in s.nonblocking && w == Failed(EAGAIN))
  }

  /** A retry is asked for exactly when the report changed no buttons and its write hit EAGAIN. */
  lemma RetryIsCongestion(s: State, input: Input, w: WriteResult)
    requires s.Valid() && Owned(s)
    ensures NeedsRetry(s, input, w) <==>
              s.fd >= 0 && w == Failed(11) && input[..3] == s.report[3..6] && Target(s, input) in s.nonblocking
  {
  }

  /** A write counts as delivered exactly when the whole report was written. */
  lemma DeliveredIsWhole(size: nat, w: WriteResult)
    ensures WriteCode(size, w) == 0 <==> w == Wrote(size)
    ensures WriteCode(size, w) == -11 <==> w == Failed(11)
    ensures w.Wrote? && w.count != size ==> WriteCode(size, w) == -5
  {
  }

  /** Whether "no retry needed" will mean that the console shows the input can be told before
      the call: if nothing but congestion is possible, exactly when the device is open or the
      console shows the input already. */
  lemma RetryResultMeaning(s: State, input: Input)
    requires Inv(s) && Owned(s)
    ensures (forall w :: Congestion(s, input, w) ==>
              !NeedsRetry(s, input, w) ==> Shown(AfterSetState(s, input, w).trace) == input) <==>
            s.fd >= 0 || Shown(s.trace) == input
  {
    forall w | Congestion(s, input, w)
      ensures Shown(AfterSetState(s, input, w).trace) == input <==>
              (s.fd >= 0 && WriteCode(REPORT_SIZE, w) == 0) || Shown(s.trace) == input {
      ShownAfterSetState(s, input, w);
    }
    var whole := Wrote(REPORT_SIZE);
    assert Congestion(s, input, whole) && (s.fd < 0 ==> !NeedsRetry(s, input, whole));
  }

  /** If the write may fail in any way, only when the console shows the input already. */
  lemma RetryResultUnderFailure(s: State, input: Input)
    requires Inv(s)
    ensures (forall w :: !NeedsRetry(s, input, w) ==> Shown(AfterSetState(s, input, w).trace) == input) <==>
            Shown(s.trace) == input
  {
    forall w ensures Shown(AfterSetState(s, input, w).trace) == input <==>
                     (s.fd >= 0 && WriteCode(REPORT_SIZE, w) == 0) || Shown(s.trace) == input {
      ShownAfterSetState(s, input, w);
    }
    var lost := Failed(EIO);
    assert !NeedsRetry(s, input, lost);
  }

  /** A lost update: the device is open, pressing A fails on the blocking descriptor, the call
      reports that no retry is needed, and the console goes on showing a neutral gamepad. */
  lemma LostUpdate(functionId: nat, flash: Image, error: errno)
    ensures var press := Encode(NEUTRAL.(buttons := 0x1000));
            var s := Exec(Initial(functionId, flash), [Open(5, 6, 0)]);
            var t := AfterSetState(s, press, Failed(error));
            && !NeedsRetry(s, press, Failed(error))
            && t.report[3..12] == press
            && Shown(t.trace) == Encode(NEUTRAL) != press
  {
    var start := Initial(functionId, flash);
    assert Exec(start, [Open(5, 6, 0)]) == Next(start, Open(5, 6, 0));
    NeutralInput();
    PressIsVisible();
    LostPress(Next(start, Open(5, 6, 0)), Encode(NEUTRAL.(buttons := 0x1000)), error);
  }

  lemma LostPress(s: State, press: Input, error: errno)
    requires s.Valid() && s.fd >= 0 && s.trace == [] && s.report == ReportOf(s.ticks, NEUTRAL_INPUT)
    requires NEUTRAL_INPUT[..3] != press[..3]
    ensures var t := AfterSetState(s, press, Failed(error));
            && !NeedsRetry(s, press, Failed(error))
            && t.report[3..12] == press
            && Shown(t.trace) == NEUTRAL_INPUT
  {
    FrontOfInput(s.report);
    var t := AfterSetState(s, press, Failed(error));
    assert s.report[3..12] == NEUTRAL_INPUT && ButtonsChanged(s.report, press);
    assert t.trace == s.trace + [t.trace[0]];
    OneMore(s.trace, t.trace[0]);
    assert Shown(s.trace) == NEUTRAL_INPUT;
  }

  lemma PressIsVisible()
    ensures NEUTRAL_INPUT[..3] != Encode(NEUTRAL.(buttons := 0x1000))[..3]
  {
    var press := NEUTRAL.(buttons := 0x1000);
    NeutralInput();
    ButtonsRead(View(NEUTRAL));
    ButtonsRead(View(press));
    PressedIsBit(0, A);
    PressedIsBit(0x1000, A);
    assert Pow2(12) == 0x1000;
    AndSingleBit(0x1000, 12);
    Pow2Bit(12, 12);
    assert !View(NEUTRAL).a && View(press).a;
    assert Flags0(View(NEUTRAL))[3] != Flags0(View(press))[3];
    assert NEUTRAL_INPUT[..3][0] != Encode(press)[..3][0];
  }
}
