/** Which device descriptors are open, and who closes what. */
module Descriptors {
  import opened Flash
  import opened Controller

  /** The open device descriptors are the two the controller holds, or none, and the second of
      them is the one in non-blocking mode. */
  predicate Owned(s: State) {
    if s.fd >= 0 then
      s.fdNonblock >= 0 && s.fd != s.fdNonblock && s.hidg == {s.fd, s.fdNonblock} && s.nonblocking == {s.fdNonblock}
    else s.hidg == {} && s.nonblocking == {}
  }

  predicate AllEnabled(s: State, actions: seq<Action>)
    requires s.Valid()
    decreases |actions|
  {
    actions == [] || (Enabled(s, actions[0]) && AllEnabled(Next(s, actions[0]), actions[1..]))
  }

  lemma {:induction false} ExecAppend(s: State, first: seq<Action>, rest: seq<Action>)
    requires s.Valid()
    ensures Exec(s, first + rest) == Exec(Exec(s, first), rest)
    ensures AllEnabled(s, first + rest) <==> AllEnabled(s, first) && AllEnabled(Exec(s, first), rest)
    decreases |first|
  {
    if first == [] {
      assert first + rest == rest;
    } else {
      assert (first + rest)[1..] == first[1..] + rest;
      ExecAppend(Next(s, first[0]), first[1..], rest);
    }
  }

  /** Every state report was written to a descriptor that was open at that moment, and in
      non-blocking mode exactly if it changed no buttons. */
  predicate StateReportsRouted(trace: seq<Write>) {
    forall i :: 0 <= i < |trace| ==> Routed(trace[i])
  }

  predicate Routed(w: Write) {
    w.kind.ButtonReport? || w.kind.StickReport? ==> w.live && (w.nonblocking <==> w.kind.StickReport?)
  }

  lemma NextKeepsOwned(s: State, a: Action)
    requires s.Valid() && Owned(s) && Enabled(s, a) && StateReportsRouted(s.trace)
    ensures Owned(Next(s, a)) && StateReportsRouted(Next(s, a).trace)
  {
  }

  /** In every run of a kernel that hands out unused descriptors: both descriptors open and
      distinct, the second alone in non-blocking mode, or neither open; failed opens leak none;
      every report that changes buttons is written to an open blocking descriptor, and every
      other state report to an open non-blocking one. */
  lemma {:induction false} DescriptorsNeverLeak(s: State, actions: seq<Action>)
    requires s.Valid() && Owned(s) && AllEnabled(s, actions) && StateReportsRouted(s.trace)
    ensures Owned(Exec(s, actions)) && StateReportsRouted(Exec(s, actions).trace)
    decreases |actions|
  {
    if actions != [] {
      NextKeepsOwned(s, actions[0]);
      DescriptorsNeverLeak(Next(s, actions[0]), actions[1..]);
    }
  }

  /** A closed controller whose opens and mode setting succeed writes buttons to the first
      descriptor, which blocks, and sticks to the second, which does not; if any of them fails,
      nothing has changed. */
  lemma OpenTakesBoth(s: State, first: int, second: int, nonblock: int)
    requires s.Valid() && Owned(s) && s.fd < 0 && Enabled(s, Open(first, second, nonblock))
    ensures var t := Next(s, Open(first, second, nonblock));
            if first >= 0 && second >= 0 && nonblock == 0 then
              && t.fd == first && t.fdNonblock == second
              && t.hidg == {first, second} && first !in t.nonblocking && second in t.nonblocking
            else t == s
  {
  }

  /** A close leaves nothing open and nothing to close again. */
  lemma CloseIsFinal(s: State)
    requires s.Valid() && Owned(s)
    ensures var t := Next(s, Close);
            && t.fd < 0 && (s.fd >= 0 ==> t.fd == -1) && t.fdNonblock < 0
            && t.hidg == {} && t.nonblocking == {} && Next(t, Close) == t && DestroyCloses(t) == {}
            && t.report == s.report && t.trace == s.trace
  {
  }

  // ----- Closing what was never opened -----

  /** A close stays within the controller's own descriptors exactly when the device is open, or
      the non-blocking descriptor has been reset by an earlier close. */
  lemma CloseStaysHome(s: State)
    requires s.Valid() && Owned(s) && s.stray == {}
    ensures AfterClose(s).stray == {} <==> s.fd >= 0 || s.fdNonblock < 0
    ensures DestroyCloses(s) == s.hidg <==> s.fd >= 0 || s.fdNonblock < 0
  {
  }

  /** A controller that was created but never opened holds 0 as its non-blocking descriptor:
      destroying it, or closing it, closes descriptor 0, which it does not own. */
  lemma NeverOpenedClosesZero(functionId: nat, flash: Image)
    ensures var s := Initial(functionId, flash);
            Owned(s) && DestroyCloses(s) == {0} && 0 !in s.hidg && AfterClose(s).stray == {0}
  {
  }
}
