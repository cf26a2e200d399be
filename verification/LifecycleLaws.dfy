/**
 What single events do to a display, said of the record before and after, with the times
 and process IDs as they are.
 */
module LifecycleLaws {
  import opened DisplayRecord
  import opened Lifecycle
  import opened LifecycleInvariant
  import opened LifecycleTheorems
  import opened SessionEnds

  /** Only the record of `d` is another, and the launch slot and timer are as given. */
  predicate Becomes(w: World, w2: World, d: Display, r: Rec, starting: Display?, timer: Timer) {
    w2 == w.(recs := w.recs[d := r], starting := starting, timer := timer)
  }

  // -------------------------------------------------------------------- a kick

  /** The display can have a session at once: it is not of this host, or its server is there. */
  predicate HasServer(r: Rec) {
    !r.isLocal || r.serverPid != NO_PID
  }

  /** A kick does nothing to a display that is neither idle nor waiting for the launch slot, nor before a free VT. */
  lemma {:induction false} KickIgnored(w: World, d: Display, fork: int, vtPending: bool)
    requires Inv(w)
    requires d in w.recs ==>
      w.stopping || (w.recs[d].status != NotRunning && w.recs[d].serverStatus != Awaiting)
      || (w.recs[d].status == NotRunning && vtPending) || (w.recs[d].serverStatus == Awaiting && w.starting != null)
    ensures Step(w, KickDpy(d, fork, vtPending)) == w
  {
    hide ListOk, PidsOk, StartServer, StartDisplayP2;
    if d in w.recs {
      assert RecOk(w.recs[d]);
    }
  }

  /** An idle display with a server gets its session, from now on; if that cannot be forked it stays idle. */
  lemma {:induction false} KickStartsSession(w: World, d: Display, fork: int)
    requires Inv(w) && d in w.recs && !w.stopping && w.recs[d].status == NotRunning && HasServer(w.recs[d])
    ensures var r := w.recs[d];
      Becomes(w, Step(w, KickDpy(d, fork, false)), d,
              if fork == NO_PID then r else r.(status := Running, pid := fork, lastStart := w.now), w.starting, w.timer)
  {
    hide ListOk, PidsOk, StartServer;
    assert RecOk(w.recs[d]);
  }

  /** An idle local display without a server waits for the launch slot ... */
  lemma {:induction false} KickQueues(w: World, d: Display, fork: int)
    requires Inv(w) && d in w.recs && !w.stopping && w.recs[d].status == NotRunning && !HasServer(w.recs[d])
    requires w.starting != null
    ensures Becomes(w, Step(w, KickDpy(d, fork, false)), d,
                    w.recs[d].(status := Running, serverStatus := Awaiting), w.starting, w.timer)
  {
    hide ListOk, PidsOk, StartServer;
  }

  /** ... and the server is launched when it is free: the first try, with `serverTimeout` seconds for it. */
  lemma {:induction false} KickLaunches(w: World, d: Display, fork: int, vtPending: bool)
    requires Inv(w) && d in w.recs && !w.stopping && w.starting == null && fork != NO_PID
    requires var r := w.recs[d];
      r.serverStatus == Awaiting || (r.status == NotRunning && !HasServer(r) && !vtPending)
    ensures var r := w.recs[d];
      Becomes(w, Step(w, KickDpy(d, fork, vtPending)), d,
              r.(status := Running, serverStatus := Starting, serverPid := fork, startTries := 1),
              d, At(w.now + r.cfg.serverTimeout))
  {
    hide ListOk, PidsOk, StartServerFailed;
    assert RecOk(w.recs[d]);
  }

  // ------------------------------------------------------------------- the launch

  /** The server reports ready: its session starts, and nothing is timed any more. */
  lemma {:induction false} ReadyStarts(w: World, fork: int)
    requires Inv(w) && HasStarting(w) && w.recs[w.starting].serverStatus == Starting
    ensures var r := w.recs[w.starting].(serverStatus := Ignore);
      Becomes(w, Step(w, ServerReady(fork)), w.starting,
              if fork == NO_PID then r.(status := NotRunning) else r.(pid := fork, lastStart := w.now), w.starting, Never)
  {
    hide ListOk, PidsOk;
    assert RecOk(w.recs[w.starting]);
  }

  /** A report is heard while the server is being started, and at no other time; a timer only when it is due. */
  lemma {:induction false} TooEarlyOrLate(w: World, e: Event)
    requires Inv(w)
    requires (e.ServerReady? && (w.starting == null || w.recs[w.starting].serverStatus != Starting))
             || (e.TimerFired? && (w.timer == Never || w.now < w.timer.time))
    ensures Step(w, e) == w
  {
    hide ListOk, PidsOk, StartServerSuccess, StartServerTimeout;
  }

  /** A server that is too slow has as long again to go, then ten seconds after it is killed. */
  lemma {:induction false} PhaseTimes(w: World, fork: int)
    requires Inv(w) && w.timer.At? && w.now >= w.timer.time
    ensures var d := w.starting;
      && d != null && d in w.recs
      && (w.recs[d].serverStatus == Starting ==>
            Becomes(w, Step(w, TimerFired(fork)), d, w.recs[d].(serverStatus := Terminated), d,
                    At(w.now + w.recs[d].cfg.serverTimeout)))
      && (w.recs[d].serverStatus == Terminated ==>
            Becomes(w, Step(w, TimerFired(fork)), d, w.recs[d].(serverStatus := Killed), d, At(w.now + 10)))
  {
    hide ListOk, PidsOk, StartServerFailed, StartServerOnce;
  }

  /** There may be another attempt. */
  predicate MayTryAgain(r: Rec) {
    r.cfg.serverAttempts == 0 || r.startTries < r.cfg.serverAttempts
  }

  /** A launch that has failed while it may be tried again pauses for `openDelay` seconds. */
  predicate Pauses(w: World, w2: World, d: Display, r: Rec) {
    Becomes(w, w2, d, r.(serverStatus := Pausing), d, At(w.now + r.cfg.openDelay))
  }

  /** The server does not even go when it is killed. */
  lemma {:induction false} StuckPauses(w: World, fork: int)
    requires Inv(w) && w.timer.At? && w.now >= w.timer.time && w.starting != null
    requires w.recs[w.starting].serverStatus == Killed && MayTryAgain(w.recs[w.starting])
    ensures Pauses(w, Step(w, TimerFired(fork)), w.starting, w.recs[w.starting])
  {
    hide ListOk, PidsOk, StartServerOnce;
  }

  /** It dies before it is ready. */
  lemma {:induction false} DeadPauses(w: World, fork: int, code: ExitCode)
    requires Inv(w) && w.timer.At? && w.starting != null && MayTryAgain(w.recs[w.starting])
    requires w.recs[w.starting].serverPid != NO_PID
    ensures var d := w.starting;
      Pauses(w, Step(w, Reaped(w.recs[d].serverPid, code, fork)), d, w.recs[d].(serverPid := NO_PID))
  {
    var d := w.starting;
    assert RecOk(w.recs[d]);
    ServerFound(w, d, code, fork);
    var r := w.recs[d].(serverPid := NO_PID);
    FailedPauses(w, d, r);
    hide Inv, Step, StartServerFailed, Pauses;
    assert ReapServer(w, d, fork) == StartServerFailed(Put(w, d, r));
  }

  lemma {:induction false} FailedPauses(w: World, d: Display, r: Rec)
    requires d in w.recs && d == w.starting && MayTryAgain(r) && r.cfg == w.recs[d].cfg
    ensures Pauses(w, StartServerFailed(Put(w, d, r)), d, r)
  {
    assert Put(Put(w, d, r), d, r.(serverStatus := Pausing)) == Put(w, d, r.(serverStatus := Pausing));
  }

  lemma {:induction false} ServerFound(w: World, d: Display, code: ExitCode, fork: int)
    requires Inv(w) && d in w.recs && w.recs[d].serverPid != NO_PID
    ensures Step(w, Reaped(w.recs[d].serverPid, code, fork)) == ReapServer(w, d, fork)
  {
    PidIsServer(w, d);
    hide Inv, ReapServer, ReapSession, ByPid, ByServerPid;
  }

  lemma {:induction false} PidIsServer(w: World, d: Display)
    requires Inv(w) && d in w.recs && w.recs[d].serverPid != NO_PID
    ensures ByPid(w, w.recs[d].serverPid) == null && ByServerPid(w, w.recs[d].serverPid) == d
  {
    assert RecOk(w.recs[d]);
    PidOwner(w, d);
  }

  /** After the pause it is tried again, and counted. */
  lemma {:induction false} PauseRelaunches(w: World, fork: int)
    requires Inv(w) && w.timer.At? && w.now >= w.timer.time && w.starting != null && fork != NO_PID
    requires w.recs[w.starting].serverStatus == Pausing
    ensures var r := w.recs[w.starting];
      Becomes(w, Step(w, TimerFired(fork)), w.starting,
              r.(serverStatus := Starting, serverPid := fork, startTries := r.startTries + 1), w.starting,
              At(w.now + r.cfg.serverTimeout))
  {
    hide ListOk, PidsOk, StartServerFailed;
  }

  // ----------------------------------------------------------- the death of a server

  /** Outside a launch the death of a server frees its display from waiting for it, and does no more. */
  lemma {:induction false} ServerDeath(w: World, d: Display, code: ExitCode, fork: int)
    requires Inv(w) && d in w.recs && w.recs[d].serverPid != NO_PID && w.recs[d].serverStatus == Ignore
    requires w.recs[d].status != Zombie
    ensures var r := w.recs[d];
      var next := if r.status == Phoenix then NotRunning
                  else if r.status == RemoteLogin then (if r.lifetime == ReserveDpy then Reserve else NotRunning)
                  else r.status;
      Becomes(w, Step(w, Reaped(r.serverPid, code, fork)), d, r.(serverPid := NO_PID, status := next), w.starting, w.timer)
  {
    ServerFound(w, d, code, fork);
    hide Inv, Step, StartServerFailed, RStop;
  }

  // ------------------------------------------------------------------- the commands

  /** A login command ends a session for a new one, if nobody is logged in there or it may nuke; so does a session's own. */
  lemma {:induction false} AskedToEnd(w: World, d: Display, nuke: bool)
    requires Inv(w) && d in w.recs && w.recs[d].status == Running && w.recs[d].pid != NO_PID
    ensures w.recs[d].userSess < 0 || nuke ==>
      Becomes(w, Step(w, Login(d, nuke)), d, w.recs[d].(status := Raiser), w.starting, w.timer)
    ensures Becomes(w, Step(w, Suicide(d)), d, w.recs[d].(status := Raiser), w.starting, w.timer)
  {
    hide Inv;
  }

  /** A session that ends after that, however it does, is no failure, and keeps its server. */
  lemma {:induction false} AskedGoesOn(w: World, w1: World, d: Display, code: ExitCode, fork: int)
    requires Inv(w) && d in w.recs && w.recs[d].status == Running && w.recs[d].pid != NO_PID
    requires w.recs[d].lifetime != Transient && !w.stopping && !w.shutdownNow && WantsAnother(code, w.recs[d].lifetime)
    requires w1 == Step(w, Suicide(d)) || (w1 == Step(w, Login(d, true))) || (w1 == Step(w, Login(d, false)) && w.recs[d].userSess < 0)
    ensures d in w1.recs && GoesOn(w1, Step(w1, Reaped(w.recs[d].pid, code, fork)), d, w.recs[d].cfg.terminateServer, 0)
  {
    RetouchStepOk(w, Suicide(d));
    AskedToEnd(w, d, true);
    AskedToEnd(w, d, false);
    hide Inv, GoesOn, Step;
    RaiserGoesOn(w1, d, code, fork);
  }

  /** It leaves a user alone that it may not nuke, and wakes a display in reserve. */
  lemma {:induction false} LoginOtherwise(w: World, d: Display, nuke: bool)
    requires Inv(w) && d in w.recs
    ensures w.recs[d].status == Running && w.recs[d].userSess >= 0 && !nuke ==> Step(w, Login(d, nuke)) == w
    ensures w.recs[d].status == Reserve ==>
      Becomes(w, Step(w, Login(d, nuke)), d, w.recs[d].(status := NotRunning), w.starting, w.timer)
    ensures w.recs[d].status != Running && w.recs[d].status != Reserve ==> Step(w, Login(d, nuke)) == w
  {
    hide Inv;
  }

  /** A display that leaves the reserve lists is idle, one that joins them waits in reserve; a session is not disturbed. */
  lemma {:induction false} RescanMoves(w: World, d: Display, lifetime: Lifetime)
    requires d in w.recs
    ensures var r, w2 := w.recs[d], Step(w, Rescan(d, lifetime));
      var idle := r.status == NotRunning || r.status == Reserve;
      && Becomes(w, w2, d, w2.recs[d], w.starting, w.timer)
      && w2.recs[d] == r.(lifetime := lifetime, status := w2.recs[d].status)
      && (idle ==> (w2.recs[d].status == Reserve <==> lifetime == ReserveDpy))
      && (idle ==> (w2.recs[d].status == NotRunning <==> lifetime != ReserveDpy))
      && (!idle ==> w2.recs[d].status == r.status)
  {
  }

  /** Displays behind `k` in the list are not idle in reserve. */
  ghost predicate NoneBehind(w: World, list: seq<Display>, k: nat) {
    forall i :: k < i < |list| && list[i] in w.recs ==> w.recs[list[i]].status != Reserve
  }

  lemma {:induction false} LastAt(w: World, list: seq<Display>, k: nat)
    requires k < |list| && list[k] in w.recs && w.recs[list[k]].status == Reserve && NoneBehind(w, list, k)
    ensures LastReserve(w, list) == list[k]
    decreases |list|
  {
    if k == 0 {
      var rest := list[1..];
      forall i | 0 <= i < |rest| && rest[i] in w.recs
        ensures w.recs[rest[i]].status != Reserve
      {
        assert rest[i] == list[i + 1];
      }
      NoReserve(w, rest);
    } else {
      assert forall i :: 0 <= i < |list[1..]| ==> list[1..][i] == list[i + 1];
      LastAt(w, list[1..], k - 1);
    }
  }

  lemma {:induction false} NoReserve(w: World, list: seq<Display>)
    requires forall i :: 0 <= i < |list| && list[i] in w.recs ==> w.recs[list[i]].status != Reserve
    ensures LastReserve(w, list) == null
    decreases |list|
  {
    if list != [] {
      assert forall i :: 0 <= i < |list[1..]| ==> list[1..][i] == list[i + 1];
      NoReserve(w, list[1..]);
    }
  }

  /** The last idle reserve display of the list is woken, and no other; without one nothing is. */
  lemma {:induction false} WakesLast(w: World, k: nat)
    ensures k < |w.list| && w.list[k] in w.recs && w.recs[w.list[k]].status == Reserve && NoneBehind(w, w.list, k) ==>
      Becomes(w, Step(w, WakeReserve), w.list[k], w.recs[w.list[k]].(status := NotRunning), w.starting, w.timer)
    ensures (forall i :: 0 <= i < |w.list| && w.list[i] in w.recs ==> w.recs[w.list[i]].status != Reserve) ==>
      Step(w, WakeReserve) == w
  {
    hide LastReserve;
    if k < |w.list| && w.list[k] in w.recs && w.recs[w.list[k]].status == Reserve && NoneBehind(w, w.list, k) {
      LastAt(w, w.list, k);
    }
    if forall i :: 0 <= i < |w.list| && w.list[i] in w.recs ==> w.recs[w.list[i]].status != Reserve {
      NoReserve(w, w.list);
    }
  }
}
