/** What one iteration of the event loop does, case by case, and that it gets a device. */
module Progress {
  import opened Controller
  import opened Descriptors
  import opened EventLoop
  import opened LoopThread

  /** An iteration that can follow a wait. */
  predicate Iterates(m: Machine, it: Iteration) {
    LoopInv(m) && m.pc.Waiting? && IterationConforms(m, it)
  }

  /** Opening two descriptors and setting the mode of the second all succeed. */
  predicate OpensSucceed(r: Round) {
    r.first >= 0 && r.second >= 0 && r.nonblock == 0
  }

  /** The device is open on these descriptors, registered and waited for without limit. */
  predicate Running(m: Machine, first: int, second: int) {
    && m.datafd == first && m.epoll == {m.stopfd, first} && m.timeout == -1
    && m.ctl.fd == first && m.ctl.fdNonblock == second
    && m.ctl.hidg == {first, second} && m.ctl.nonblocking == {second}
  }

  /** There is no device, and another attempt is due after half a second. */
  predicate Retrying(m: Machine) {
    && m.datafd == -1 && m.epoll == {m.stopfd} && m.timeout == 500
    && m.ctl.fd < 0 && m.ctl.hidg == {} && m.ctl.nonblocking == {}
  }

  /** A timeout without a device makes exactly one attempt to open it. If everything succeeds
      the loop runs on the descriptors just opened; if only registering fails the device is
      closed again; and if opening fails nothing has changed. */
  lemma TimeoutOpens(m: Machine, it: Iteration)
    requires Iterates(m, it) && it.round.wait.TimedOut? && m.datafd < 0
    ensures var r, n := it.round, Iterate(m, it);
            && n.pc.Waiting?
            && if OpensSucceed(r) then
                 if r.ctlOk then Running(n, r.first, r.second) && n.calls == m.calls + [Opened]
                 else Retrying(n) && n.calls == m.calls + [Opened] + [Closed]
               else n == m.(calls := m.calls + [OpenFailed])
  {
    var r, m0 := it.round, Signal(m, it.stop);
    var m1 := LoopStep(m0, r);
    assert m1 == m.(pc := Opening);
    var m2 := LoopStep(m1, r);
    assert Settle(m1, r) == Settle(m2, r);
    OpenTakesBoth(m.ctl, r.first, r.second, r.nonblock);
    if OpensSucceed(r) {
      var m3 := LoopStep(m2, r);
      assert Settle(m2, r) == Settle(m3, r);
      if !r.ctlOk {
        CloseIsFinal(m3.ctl);
        assert Settle(m3, r) == LoopStep(m3, r);
      }
    }
  }

  /** A timeout with a device only stops the clock. */
  lemma TimeoutWithDevice(m: Machine, it: Iteration)
    requires Iterates(m, it) && it.round.wait.TimedOut? && m.datafd >= 0
    ensures Iterate(m, it) == m.(timeout := -1)
  {
  }

  /** The device is closed, or, if it cannot be unregistered, kept and polled again. */
  predicate Dropped(m: Machine, n: Machine, ctlOk: bool) {
    if ctlOk then n.pc.Waiting? && Retrying(n) && n.calls == m.calls + [Closed]
    else n == m.(timeout := 500)
  }

  lemma DeletingDrops(m: Machine, r: Round)
    requires LoopInv(m) && m.pc.Deleting?
    ensures Dropped(m.(pc := Waiting), Settle(m, r), r.ctlOk)
  {
    var n := LoopStep(m, r);
    if r.ctlOk {
      assert Settle(m, r) == Settle(n, r);
      CloseIsFinal(n.ctl);
      assert Settle(n, r) == LoopStep(n, r);
      assert {m.stopfd} + {m.datafd} - {m.datafd} == {m.stopfd};
    }
  }

  /** A hangup or an error of the device drops it. */
  lemma HangupDrops(m: Machine, it: Iteration)
    requires Iterates(m, it) && it.round.wait.Event? && it.round.wait.fd == m.datafd
    requires it.round.wait.hup || it.round.wait.err
    ensures Dropped(Signal(m, it.stop), Iterate(m, it), it.round.ctlOk)
  {
    var n := LoopStep(Signal(m, it.stop), it.round);
    assert n == Signal(m, it.stop).(pc := Deleting);
    DeletingDrops(n, it.round);
  }

  /** Input is read and handed to the controller, as it is and with the device to answer on;
      if it cannot be read, the device is dropped. */
  lemma InputIsHandled(m: Machine, it: Iteration)
    requires Iterates(m, it) && it.round.wait.Event? && it.round.wait.fd == m.datafd
    requires !it.round.wait.hup && !it.round.wait.err && it.round.wait.input
    ensures var r, before, n := it.round, Signal(m, it.stop), Iterate(m, it);
            if r.read.ReadFailed? then Dropped(before, n, r.ctlOk)
            else n == before.(ctl := Next(m.ctl, OutputReport(64, r.read.data, m.datafd, r.write)))
  {
    var r, m0 := it.round, Signal(m, it.stop);
    var m1 := LoopStep(m0, r);
    assert m1 == m0.(pc := Reading);
    var m2 := LoopStep(m1, r);
    assert Settle(m1, r) == Settle(m2, r);
    if r.read.ReadFailed? {
      DeletingDrops(m2, r);
    } else {
      assert Settle(m2, r) == LoopStep(m2, r);
    }
  }

  /** An event with no cause, or of another descriptor, is ignored. */
  lemma OtherEventsPass(m: Machine, it: Iteration)
    requires Iterates(m, it) && it.round.wait.Event?
    requires var w := it.round.wait;
             (w.fd != m.datafd && w.fd != m.stopfd) || (!w.hup && !w.err && !w.input)
    ensures Iterate(m, it) == Signal(m, it.stop)
  {
  }

  /** As soon as one of the attempts succeeds the loop has a device: if waits keep timing out
      and everything succeeds in iteration k, the loop is running after it, on the descriptors
      of the first iteration in which everything succeeded. */
  lemma {:induction false} DeviceIsOpened(m: Machine, its: seq<Iteration>, k: nat)
    requires LoopInv(m) && m.pc.Waiting? && m.datafd < 0 && ScriptConforms(m, its)
    requires k < |its| && forall i :: 0 <= i <= k ==> its[i].round.wait.TimedOut?
    requires OpensSucceed(its[k].round) && its[k].round.ctlOk
    requires forall i :: 0 <= i < k ==> !(OpensSucceed(its[i].round) && its[i].round.ctlOk)
    ensures var n := Script(m, its[..k + 1]);
            n.pc.Waiting? && Running(n, its[k].round.first, its[k].round.second)
    decreases k
  {
    var n := Iterate(m, its[0]);
    TimeoutOpens(m, its[0]);
    IterateKeeps(m, its[0]);
    assert its[..k + 1][0] == its[0] && its[..k + 1][1..] == its[1..][..k];
    if k > 0 {
      DeviceIsOpened(n, its[1..], k - 1);
    } else {
      assert its[1..][..k] == [];
    }
  }
}
