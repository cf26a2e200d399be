/**
 What every reachable state of the display table satisfies.
 */
module LifecycleInvariant {
  import opened DisplayRecord
  import opened Lifecycle

  predicate InStart(s: ServerStatus) {
    s == Starting || s == Terminated || s == Killed || s == Pausing
  }

  predicate PidOk(pid: int) {
    pid == NO_PID || pid > 0
  }

  predicate OneRole(r: Rec) {
    r.pid == r.serverPid ==> r.pid == NO_PID
  }

  /** What one record satisfies by itself. */
  predicate RecOk(r: Rec) {
    && PidOk(r.pid) && PidOk(r.serverPid) && OneRole(r)
    && (r.status == Zombie ==> r.pid != NO_PID || r.serverPid != NO_PID)
    && (r.status == Phoenix || r.status == RemoteLogin ==> r.serverPid != NO_PID && r.pid == NO_PID)
    && (r.status == Raiser ==> r.pid != NO_PID)
    && (r.status == NotRunning || r.status == Reserve ==> r.pid == NO_PID)
    && (r.serverStatus != Ignore ==> r.status == Running && r.pid == NO_PID)
    && (r.serverStatus == Awaiting ==> r.serverPid == NO_PID)
    && (InStart(r.serverStatus) && r.serverStatus != Pausing ==> r.serverPid != NO_PID)
    && (InStart(r.serverStatus) && r.cfg.serverAttempts > 0 ==>
          && 1 <= r.startTries <= r.cfg.serverAttempts
          && (r.serverStatus == Pausing ==> r.startTries < r.cfg.serverAttempts))
  }

  ghost predicate ListOk(list: seq<Display>, recs: map<Display, Rec>) {
    && (forall d :: d in list ==> d in recs)
    && (forall d :: d in recs ==> d in list)
    && (forall i, j :: 0 <= i < j < |list| ==> list[i] != list[j])
  }

  ghost predicate RecsOk(recs: map<Display, Rec>) {
    forall d :: d in recs ==> RecOk(recs[d])
  }

  /** No process belongs to both records. */
  predicate Apart(r: Rec, s: Rec) {
    && (r.pid != NO_PID ==> r.pid != s.pid && r.pid != s.serverPid)
    && (r.serverPid != NO_PID ==> r.serverPid != s.pid && r.serverPid != s.serverPid)
  }

  /** A process belongs to one display, in one role. */
  ghost predicate PidsOk(recs: map<Display, Rec>) {
    forall d, e {:trigger Apart(recs[d], recs[e])} ::
      d in recs && e in recs && d != e ==> Apart(recs[d], recs[e])
  }

  /** At most one display is in a start phase, it is `starting`, and then the timer runs. */
  ghost predicate StartOk(w: World) {
    && (w.starting != null ==> w.starting in w.recs)
    && (forall d :: d in w.recs && InStart(w.recs[d].serverStatus) ==> d == w.starting)
    && (w.timer.At? <==> w.starting != null && InStart(w.recs[w.starting].serverStatus))
  }

  ghost predicate Inv(w: World) {
    ListOk(w.list, w.recs) && RecsOk(w.recs) && PidsOk(w.recs) && StartOk(w)
  }

  predicate Unused(r: Rec, fork: int, reaped: int) {
    (r.pid == fork ==> fork == reaped) && (r.serverPid == fork ==> fork == reaped)
  }

  /** fork() failed or returned a pid that no display uses, except the one just reaped. */
  ghost predicate Fresh(recs: map<Display, Rec>, fork: int, reaped: int) {
    fork == NO_PID ||
    (fork > 0 && forall d :: d in recs ==> Unused(recs[d], fork, reaped))
  }

  /** What the operating system guarantees of an event. */
  ghost predicate Enabled(w: World, e: Event) {
    match e
    case KickDpy(_, fork, _) => Fresh(w.recs, fork, NO_PID)
    case Reaped(pid, _, fork) => pid > 0 && Fresh(w.recs, fork, pid)
    case ServerReady(fork) => Fresh(w.recs, fork, NO_PID)
    case TimerFired(fork) => Fresh(w.recs, fork, NO_PID)
    case _ => true
  }

  /** No launch is in progress when a ready message comes. */
  predicate Orderly(w: World, e: Event) {
    e.XConnOk? ==> w.timer == Never
  }

  ghost predicate RunOk(w: World, es: seq<Event>)
    decreases |es|
  {
    es != [] ==>
      Enabled(w, es[0]) && Orderly(w, es[0]) && RunOk(Step(w, es[0]), es[1..])
  }

  predicate SessionLive(w: World, d: Display) {
    d in w.recs && w.recs[d].pid != NO_PID
  }

  // ------------------------------------------------------- handler by handler

  /** The invariant, except for what concerns the record of `d` alone. */
  ghost predicate Rest(w: World, d: Display) {
    && ListOk(w.list, w.recs) && PidsOk(w.recs) && d in w.recs && OneRole(w.recs[d])
    && (forall e :: e in w.recs && e != d ==> RecOk(w.recs[e]))
    && (forall e :: e in w.recs && e != d && InStart(w.recs[e].serverStatus) ==> e == w.starting)
    && (w.starting != null ==> w.starting in w.recs)
  }

  lemma {:induction false} WithoutOk(list: seq<Display>, d: Display)
    requires forall i, j :: 0 <= i < j < |list| ==> list[i] != list[j]
    ensures forall e :: e in Without(list, d) ==> e in list && e != d
    ensures forall e :: e in list && e != d ==> e in Without(list, d)
    ensures forall i, j :: 0 <= i < j < |Without(list, d)| ==> Without(list, d)[i] != Without(list, d)[j]
  {
    if list != [] && list[0] != d {
      WithoutOk(list[1..], d);
      var l := Without(list[1..], d);
      assert Without(list, d) == [list[0]] + l;
      assert list[0] !in list[1..];
    }
  }

  lemma {:induction false} RemoveRest(w: World, d: Display)
    requires Rest(w, d) && w.starting != d
    requires w.timer.At? <==> w.starting != null && InStart(w.recs[w.starting].serverStatus)
    ensures Inv(Remove(w, d))
  {
    WithoutOk(w.list, d);
    assert Remove(w, d).recs.Keys == w.recs.Keys - {d};
  }

  /** The process ids of a new record for `d` are its old ones, none, or new. */
  ghost predicate PidsFrom(w: World, d: Display, r: Rec)
    requires d in w.recs
  {
    var o := w.recs[d];
    && (r.pid == o.pid || r.pid == NO_PID || Fresh(w.recs, r.pid, NO_PID))
    && (r.serverPid == o.serverPid || r.serverPid == NO_PID || Fresh(w.recs, r.serverPid, NO_PID))
    && OneRole(r)
  }

  lemma {:induction false} PutRest(w: World, d: Display, r: Rec)
    requires Rest(w, d) && PidsFrom(w, d, r)
    ensures Rest(Put(w, d, r), d)
  {
    forall e | e in w.recs && e != d
      ensures Apart(r, w.recs[e]) && Apart(w.recs[e], r)
    {
      assert Apart(w.recs[d], w.recs[e]) && Apart(w.recs[e], w.recs[d]);
      assert r.pid == w.recs[d].pid || r.pid == NO_PID || Unused(w.recs[e], r.pid, NO_PID);
      assert r.serverPid == w.recs[d].serverPid || r.serverPid == NO_PID || Unused(w.recs[e], r.serverPid, NO_PID);
    }
  }

  lemma {:induction false} Settled(w: World, d: Display)
    requires Rest(w, d) && RecOk(w.recs[d])
    requires InStart(w.recs[d].serverStatus) ==> d == w.starting
    requires w.timer.At? <==> w.starting != null && InStart(w.recs[w.starting].serverStatus)
    ensures Inv(w)
  {
  }

  /** `d` may be stopped now: a display waiting for its server has no processes. */
  predicate Stoppable(w: World, d: Display, es: EndState)
    requires d in w.recs
  {
    var r := w.recs[d];
    && PidOk(r.pid) && PidOk(r.serverPid)
    && (w.starting != d ==>
          r.serverStatus == Ignore ||
          (r.serverStatus == Awaiting && r.pid == NO_PID && r.serverPid == NO_PID &&
           es != DsReserve && es != DsRemote))
  }

  ghost predicate TimerOk(w: World, d: Display)
    requires d in w.recs && (w.starting != null ==> w.starting in w.recs)
  {
    (w.timer.At? && w.starting != d <==>
       w.starting != null && w.starting != d && InStart(w.recs[w.starting].serverStatus))
    && (w.starting == d && w.timer.At? ==> w.recs[d].serverStatus != Ignore)
  }

  lemma {:induction false} AbortStartOk(w: World, d: Display)
    requires Rest(w, d) && TimerOk(w, d)
    ensures var w1 := AbortStart(w, d);
      && Rest(w1, d) && w1.starting != d
      && (w1.timer.At? <==> w1.starting != null && InStart(w1.recs[w1.starting].serverStatus))
      && w1.recs[d] == w.recs[d].(serverStatus := if w.starting == d then Ignore else w.recs[d].serverStatus)
  {
    if w.starting == d {
      PutRest(w, d, w.recs[d].(serverStatus := Ignore));
    }
  }

  lemma {:induction false} PutSettled(w: World, d: Display, r: Rec)
    requires Rest(w, d) && PidsFrom(w, d, r) && RecOk(r)
    requires InStart(r.serverStatus) ==> d == w.starting
    requires w.timer.At? <==>
      (w.starting != null &&
       InStart(if w.starting == d then r.serverStatus else w.recs[w.starting].serverStatus))
    ensures Inv(Put(w, d, r))
  {
    PutRest(w, d, r);
    Settled(Put(w, d, r), d);
  }

  lemma {:induction false} RStopOk(w: World, d: Display, es: EndState, fork: int)
    requires Rest(w, d) && TimerOk(w, d) && Stoppable(w, d, es) && Fresh(w.recs, fork, NO_PID)
    ensures Inv(RStop(w, d, es, fork))
  {
    hide ListOk, PidsOk;
    AbortStartOk(w, d);
    var w1 := AbortStart(w, d);
    var r := w1.recs[d];
    if r.serverPid != NO_PID || r.pid != NO_PID {
      PutSettled(w1, d, r.(status := Zombie, zstatus := es));
    } else if es == DsReserve {
      PutSettled(w1, d, r.(status := Reserve));
    } else if es == DsRemote {
      assert Fresh(w1.recs, fork, NO_PID);
      PutSettled(w1, d, r.(serverPid := fork,
                           status := if fork == NO_PID then NotRunning else RemoteLogin));
    } else {
      RemoveRest(w1, d);
    }
  }

  /** Nothing is known to be wrong with `d` except its start phase and its timer. */
  predicate Launching(r: Rec) {
    && r.status == Running && r.pid == NO_PID && PidOk(r.serverPid)
    && (r.cfg.serverAttempts > 0 ==> 1 <= r.startTries <= r.cfg.serverAttempts)
  }

  lemma {:induction false} StartServerFailedOk(w: World)
    requires HasStarting(w) && Rest(w, w.starting) && Launching(w.recs[w.starting])
    ensures Inv(StartServerFailed(w))
  {
    var d := w.starting;
    var r := w.recs[d];
    if r.cfg.serverAttempts == 0 || r.startTries < r.cfg.serverAttempts {
      PutSettled(w.(timer := At(r.cfg.openDelay + w.now)), d, r.(serverStatus := Pausing));
    } else {
      var w1 := Put(w, d, r.(serverStatus := Ignore)).(timer := Never, starting := null);
      PutRest(w, d, r.(serverStatus := Ignore));
      RStopOk(w1, d, DsRemove, NO_PID);
    }
  }

  lemma {:induction false} LaunchedOk(w: World, d: Display, r: Rec, fork: int)
    requires Rest(w, d) && w.starting == d && Fresh(w.recs, fork, NO_PID) && fork != NO_PID
    requires r.pid == w.recs[d].pid && r.serverPid == fork && r.serverStatus == Starting && Launching(r)
    ensures Inv(Put(w, d, r).(timer := At(r.cfg.serverTimeout + w.now)))
  {
    PutSettled(w.(timer := At(r.cfg.serverTimeout + w.now)), d, r);
  }

  lemma {:induction false} StartServerOnceOk(w: World, fork: int)
    requires HasStarting(w) && Rest(w, w.starting) && Fresh(w.recs, fork, NO_PID)
    requires var r := w.recs[w.starting];
      && r.status == Running && r.pid == NO_PID && PidOk(r.serverPid)
      && (r.cfg.serverAttempts > 0 ==> 0 <= r.startTries < r.cfg.serverAttempts)
    ensures Inv(StartServerOnce(w, fork))
  {
    hide ListOk, PidsOk;
    var d := w.starting;
    var r := w.recs[d].(startTries := w.recs[d].startTries + 1, serverStatus := Starting,
                        serverPid := fork);
    if fork == NO_PID {
      PutRest(w, d, r);
      StartServerFailedOk(Put(w, d, r));
    } else {
      LaunchedOk(w, d, r, fork);
    }
  }

  lemma {:induction false} StartServerOk(w: World, d: Display, fork: int)
    requires Inv(w) && d in w.recs && w.recs[d].serverStatus == Awaiting && w.starting == null
    requires Fresh(w.recs, fork, NO_PID)
    ensures Inv(StartServer(w, d, fork))
  {
    PutRest(w, d, w.recs[d].(startTries := 0));
    StartServerOnceOk(Put(w, d, w.recs[d].(startTries := 0)).(starting := d), fork);
  }

  lemma {:induction false} StartDisplayP2Ok(w: World, d: Display, fork: int)
    requires Rest(w, d) && Fresh(w.recs, fork, NO_PID)
    requires var r := w.recs[d];
      r.status == Running && r.serverStatus == Ignore && r.pid == NO_PID && PidOk(r.serverPid)
    requires w.timer.At? <==>
      (w.starting != null && w.starting != d && InStart(w.recs[w.starting].serverStatus))
    ensures Inv(StartDisplayP2(w, d, fork))
  {
    var r := w.recs[d];
    if fork == NO_PID {
      PutSettled(w, d, r.(pid := NO_PID, status := NotRunning));
    } else {
      assert Unused(r, fork, NO_PID);
      PutSettled(w, d, r.(pid := fork, lastStart := w.now));
    }
  }

  lemma {:induction false} StartServerSuccessOk(w: World, fork: int)
    requires Inv(w) && HasStarting(w) && w.recs[w.starting].serverStatus == Starting
    requires Fresh(w.recs, fork, NO_PID)
    ensures Inv(StartServerSuccess(w, fork))
  {
    var d := w.starting;
    var r := w.recs[d].(serverStatus := Ignore);
    PutRest(w, d, r);
    StartDisplayP2Ok(Put(w, d, r).(timer := Never), d, fork);
  }

  lemma {:induction false} StartServerTimeoutOk(w: World, fork: int)
    requires Inv(w) && w.timer.At? && Fresh(w.recs, fork, NO_PID)
    ensures HasStarting(w) && InStart(w.recs[w.starting].serverStatus)
    ensures Inv(StartServerTimeout(w.(timer := Never), fork))
  {
    hide StartServerFailed, StartServerOnce, ListOk, PidsOk;
    var d := w.starting;
    var r := w.recs[d];
    var w1 := w.(timer := Never);
    match r.serverStatus
    case Starting =>
      PutSettled(w.(timer := At(r.cfg.serverTimeout + w.now)), d, r.(serverStatus := Terminated));
    case Terminated =>
      PutSettled(w.(timer := At(10 + w.now)), d, r.(serverStatus := Killed));
    case Killed => StartServerFailedOk(w1);
    case Pausing => StartServerOnceOk(w1, fork);
    case _ =>
  }

  lemma {:induction false} StartDisplayOk(w: World, d: Display, fork: int, vtPending: bool)
    requires Inv(w) && d in w.recs && w.recs[d].status == NotRunning && Fresh(w.recs, fork, NO_PID)
    ensures Inv(StartDisplay(w, d, fork, vtPending))
  {
    hide ListOk, PidsOk;
    if w.stopping {
      RStopOk(w, d, DsRemove, NO_PID);
    } else if !vtPending {
      var r := w.recs[d].(status := Running);
      if r.isLocal && r.serverPid == NO_PID {
        PutSettled(w, d, r.(serverStatus := Awaiting));
      } else {
        PutRest(w, d, r);
        assert Fresh(Put(w, d, r).recs, fork, NO_PID);
        StartDisplayP2Ok(Put(w, d, r), d, fork);
      }
    }
  }

  lemma {:induction false} KickOk(w: World, d: Display, fork: int, vtPending: bool)
    requires Inv(w) && d in w.recs && !w.stopping && Fresh(w.recs, fork, NO_PID)
    ensures Inv(Kick(w, d, fork, vtPending))
  {
    hide ListOk, PidsOk;
    if w.recs[d].status == NotRunning {
      StartDisplayOk(w, d, fork, vtPending);
    }
    var w1 := if w.recs[d].status == NotRunning then StartDisplay(w, d, fork, vtPending) else w;
    if w1.recs[d].serverStatus == Awaiting && w1.starting == null {
      assert Fresh(w1.recs, fork, NO_PID);
      StartServerOk(w1, d, fork);
    }
  }

  /** Stopping `d` after a change that leaves its processes and its start phase alone. */
  lemma {:induction false} PutStopOk(w: World, d: Display, r: Rec, es: EndState, fork: int)
    requires Rest(w, d) && TimerOk(w, d) && Stoppable(w, d, es) && Fresh(w.recs, fork, NO_PID)
    requires r.pid == w.recs[d].pid && r.serverPid == w.recs[d].serverPid
    requires r.serverStatus == w.recs[d].serverStatus
    ensures Inv(RStop(Put(w, d, r), d, es, fork))
  {
    PutRest(w, d, r);
    var w1 := Put(w, d, r);
    assert Fresh(w1.recs, fork, NO_PID) by {
      forall e | e in w1.recs && fork != NO_PID ensures Unused(w1.recs[e], fork, NO_PID) {
        assert Unused(w.recs[e], fork, NO_PID);
      }
    }
    RStopOk(w1, d, es, fork);
  }

  lemma {:induction false} ExitDisplayOk(w: World, d: Display, es: EndState, cmd: ServerCmd, fork: int)
    requires Rest(w, d) && Fresh(w.recs, fork, NO_PID) && TimerOk(w, d)
    requires var r := w.recs[d];
      && r.pid == NO_PID && PidOk(r.serverPid) && r.serverStatus == Ignore
      && (r.status == Running || r.status == Raiser || r.status == Zombie)
    ensures Inv(ExitDisplay(w, d, es, cmd, fork))
  {
    var cmd' := if w.recs[d].status == Raiser then XsKeep else cmd;
    var r := w.recs[d].(userSess := -1);
    var es' := if w.shutdownNow then DsRemove else es;
    if r.status == Zombie {
      PutStopOk(w, d, r, r.zstatus, fork);
    } else if w.stopping {
      PutStopOk(w, d, r, DsRemove, NO_PID);
    } else if es' != DsRestart || r.lifetime == Transient {
      PutStopOk(w, d, r, es', fork);
    } else {
      PutRest(w, d, r);
      RestartOk(Put(w, d, r), d, cmd');
    }
  }

  lemma {:induction false} RestartOk(w: World, d: Display, cmd: ServerCmd)
    requires Rest(w, d) && TimerOk(w, d)
    requires var r := w.recs[d];
      && r.pid == NO_PID && PidOk(r.serverPid) && r.serverStatus == Ignore
      && (r.status == Running || r.status == Raiser)
    ensures Inv(Restart(w, d, cmd))
  {
    hide RStop, ListOk, PidsOk;
    var r := w.recs[d];
    var tries := if cmd != XsRetry then 0
                 else if r.isLocal then r.startTries else r.startTries + 1;
    var r2 := r.(startTries := tries);
    if cmd == XsRetry && (if r.isLocal then w.now - r.lastStart < 120 else tries > r.cfg.startAttempts) {
      PutStopOk(w, d, r2, DsRemove, NO_PID);
    } else {
      var kill := r.serverPid != NO_PID && (cmd != XsKeep || r.cfg.terminateServer);
      PutRest(w, d, r2);
      PutSettled(Put(w, d, r2), d, r2.(status := if kill then Phoenix else NotRunning));
    }
  }

  lemma {:induction false} FindByOk(w: World, list: seq<Display>, p: Rec -> bool)
    ensures var d := FindBy(w, list, p);
      d != null ==> d in list && d in w.recs && p(w.recs[d])
    ensures FindBy(w, list, p) == null ==>
      forall d :: d in list && d in w.recs ==> !p(w.recs[d])
  {
    if list != [] {
      FindByOk(w, list[1..], p);
    }
  }

  /** Once `pid` has been reaped, a forked process may get its number. */
  lemma {:induction false} ReapedFresh(w: World, d: Display, r: Rec, pid: int, fork: int)
    requires d in w.recs && PidsOk(w.recs) && OneRole(w.recs[d])
    requires Fresh(w.recs, fork, pid) && pid != NO_PID
    requires (w.recs[d].pid == pid && r.pid == NO_PID && r.serverPid == w.recs[d].serverPid) ||
             (w.recs[d].serverPid == pid && r.serverPid == NO_PID && r.pid == w.recs[d].pid)
    ensures Fresh(Put(w, d, r).recs, fork, NO_PID)
  {
    forall e | e in w.recs && fork != NO_PID
      ensures Unused(Put(w, d, r).recs[e], fork, NO_PID)
    {
      assert Unused(w.recs[e], fork, pid);
      assert e != d ==> Apart(w.recs[d], w.recs[e]);
    }
  }

  lemma {:induction false} ReapSessionOk(w: World, d: Display, code: ExitCode, pid: int, fork: int)
    requires Inv(w) && d in w.recs && w.recs[d].pid == pid && pid > 0 && Fresh(w.recs, fork, pid)
    ensures Inv(ReapSession(w, d, code, fork))
  {
    hide ExitDisplay, ListOk, PidsOk, Fresh;
    var r := w.recs[d].(pid := NO_PID);
    ReapedFresh(w, d, r, pid, fork);
    PutRest(w, d, r);
    var w1 := Put(w, d, r);
    forall es, cmd ensures Inv(ExitDisplay(w1, d, es, cmd, fork)) {
      ExitDisplayOk(w1, d, es, cmd, fork);
    }
  }

  lemma {:induction false} ReapServerOk(w: World, d: Display, pid: int, fork: int)
    requires Inv(w) && d in w.recs && w.recs[d].serverPid == pid && pid > 0 && Fresh(w.recs, fork, pid)
    ensures Inv(ReapServer(w, d, fork))
  {
    hide RStop, StartServerFailed, ListOk, PidsOk, Fresh;
    var r := w.recs[d].(serverPid := NO_PID);
    ReapedFresh(w, d, r, pid, fork);
    PutRest(w, d, r);
    var w1 := Put(w, d, r);
    match r.status
    case Zombie => RStopOk(w1, d, r.zstatus, fork);
    case Phoenix => PutSettled(w1, d, r.(status := NotRunning));
    case RemoteLogin =>
      PutSettled(w1, d, r.(status := if r.lifetime == ReserveDpy then Reserve else NotRunning));
    case Running =>
      if w1.starting == d && r.serverStatus != Ignore {
        StartServerFailedOk(w1);
      } else {
        Settled(w1, d);
      }
    case _ => Settled(w1, d);
  }

  lemma {:induction false} ReapOk(w: World, pid: int, code: ExitCode, fork: int)
    requires Inv(w) && pid > 0 && Fresh(w.recs, fork, pid)
    ensures Inv(Reap(w, pid, code, fork))
  {
    hide ListOk, PidsOk, RecsOk, StartOk, Fresh;
    FindByOk(w, w.list, (r: Rec) => r.pid == pid);
    FindByOk(w, w.list, (r: Rec) => r.serverPid == pid);
    var d := ByPid(w, pid);
    var sd := ByServerPid(w, pid);
    if d != null {
      ReapSessionOk(w, d, code, pid, fork);
    } else if sd != null {
      ReapServerOk(w, sd, pid, fork);
    }
  }

  lemma {:induction false} NewDisplayOk(w: World, d: Display, r: Rec)
    requires Inv(w) && d !in w.recs && RecOk(r) && r.pid == NO_PID == r.serverPid
    requires r.serverStatus == Ignore
    ensures Inv(Put(w, d, r).(list := [d] + w.list))
  {
    var w1 := Put(w, d, r).(list := [d] + w.list);
    forall e, f | e in w1.recs && f in w1.recs && e != f ensures Apart(w1.recs[e], w1.recs[f]) {
      assert e != d && f != d ==> Apart(w.recs[e], w.recs[f]);
      assert f == d ==> RecOk(w.recs[e]);
    }
  }

  /** A record change that touches neither processes nor the start phase. */
  lemma {:induction false} RetouchOk(w: World, d: Display, r: Rec)
    requires Inv(w) && d in w.recs && RecOk(r)
    requires r.pid == w.recs[d].pid && r.serverPid == w.recs[d].serverPid
    requires r.serverStatus == w.recs[d].serverStatus
    ensures Inv(Put(w, d, r))
  {
    PutSettled(w, d, r);
  }

  lemma {:induction false} LastReserveOk(w: World, list: seq<Display>)
    ensures var d := LastReserve(w, list);
      d != null ==> d in list && d in w.recs && w.recs[d].status == Reserve
  {
    if list != [] {
      LastReserveOk(w, list[1..]);
    }
  }

  /** The events that only touch up one record. */
  lemma {:induction false} RetouchStepOk(w: World, e: Event)
    requires Inv(w) && (e.Suicide? || e.Login? || e.WakeReserve? || e.LoggedIn? || e.Configure?)
    ensures Inv(Step(w, e))
  {
    hide Kick, Reap, StartServerTimeout, StartServerSuccess, Stop, LastReserve, ListOk, PidsOk, Fresh;
    if e.Login? {
      LoginStepOk(w, e);
    } else if e.WakeReserve? {
      WakeStepOk(w);
    } else {
      FieldStepOk(w, e);
    }
  }

  lemma {:induction false} LoginStepOk(w: World, e: Event)
    requires Inv(w) && e.Login?
    ensures Inv(Step(w, e))
  {
    hide ListOk, PidsOk;
    var d := e.d;
    if d in w.recs && w.recs[d].status == Running && w.recs[d].pid != NO_PID {
      RetouchOk(w, d, w.recs[d].(status := Raiser));
    } else if d in w.recs && w.recs[d].status == Reserve {
      RetouchOk(w, d, w.recs[d].(status := NotRunning));
    }
  }

  lemma {:induction false} WakeStepOk(w: World)
    requires Inv(w)
    ensures Inv(Step(w, WakeReserve))
  {
    hide ListOk, PidsOk, LastReserve;
    LastReserveOk(w, w.list);
    var d := LastReserve(w, w.list);
    if d != null {
      RetouchOk(w, d, w.recs[d].(status := NotRunning));
    }
  }

  lemma {:induction false} FieldStepOk(w: World, e: Event)
    requires Inv(w) && (e.Suicide? || e.LoggedIn? || e.Configure?)
    ensures Inv(Step(w, e))
  {
    hide ListOk, PidsOk;
    match e
    case Configure(d, cfg) =>
      if d in w.recs && w.recs[d].status == NotRunning {
        RetouchOk(w, d, w.recs[d].(cfg := cfg));
      }
    case Suicide(d) =>
      if d in w.recs && w.recs[d].status == Running && w.recs[d].pid != NO_PID {
        RetouchOk(w, d, w.recs[d].(status := Raiser));
      }
    case LoggedIn(d, uid) =>
      if d in w.recs {
        RetouchOk(w, d, w.recs[d].(userSess := uid));
      }
  }

  lemma {:induction false} RescanStepOk(w: World, d: Display, lifetime: Lifetime)
    requires Inv(w)
    ensures Inv(Step(w, Rescan(d, lifetime)))
  {
    hide Kick, Reap, StartServerTimeout, StartServerSuccess, Stop, LastReserve, ListOk, PidsOk, Fresh;
    if d in w.recs {
      var r := w.recs[d].(lifetime := lifetime);
      RetouchOk(w, d, r);
      RetouchOk(w, d, if r.status == NotRunning then r.(status := Reserve) else r);
      RetouchOk(w, d, if r.status == Reserve then r.(status := NotRunning) else r);
    }
  }

  /** Every event keeps the invariant, as long as no ready message comes during a launch. */
  lemma {:induction false} StepOk(w: World, e: Event)
    requires Inv(w) && Enabled(w, e) && Orderly(w, e)
    ensures Inv(Step(w, e))
  {
    hide Kick, Reap, StartServerTimeout, StartServerSuccess, Stop, LastReserve, ListOk, PidsOk, Fresh;
    match e
    case NewDisplay(d, isLocal, lifetime, cfg) =>
      if d !in w.recs {
        NewDisplayOk(w, d, NewRec(isLocal, lifetime, cfg));
      }
    case Rescan(d, lifetime) => RescanStepOk(w, d, lifetime);
    case KickDpy(d, fork, vtPending) =>
      if d in w.recs && !w.stopping {
        KickOk(w, d, fork, vtPending);
      }
    case Reaped(pid, code, fork) => ReapOk(w, pid, code, fork);
    case ServerReady(fork) =>
      if w.starting != null && w.recs[w.starting].serverStatus == Starting {
        StartServerSuccessOk(w, fork);
      }
    case TimerFired(fork) =>
      if w.timer.At? {
        StartServerTimeoutOk(w, fork);
      }
    case StopDpy(d) =>
      if d in w.recs {
        StopOk(w, d);
      }
    case _ =>
      if e.Suicide? || e.Login? || e.WakeReserve? || e.LoggedIn? || e.Configure? {
        RetouchStepOk(w, e);
      }
  }

  lemma {:induction false} StopOk(w: World, d: Display)
    requires Inv(w) && d in w.recs
    ensures Inv(Stop(w, d))
  {
    RStopOk(w, d, DsRemove, NO_PID);
  }

  /** ... so it holds in every reachable state. */
  lemma {:induction false} RunInv(w: World, es: seq<Event>)
    requires Inv(w) && RunOk(w, es)
    ensures Inv(Run(w, es))
    decreases |es|
  {
    if es != [] {
      StepOk(w, es[0]);
      RunInv(Step(w, es[0]), es[1..]);
    }
  }
}
