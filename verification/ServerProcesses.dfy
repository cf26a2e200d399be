/**
 Where the process IDs in the records come from, and when a record loses the ID of a
 server that has not been reaped.
 */
module ServerProcesses {
  import opened DisplayRecord
  import opened Lifecycle
  import opened LifecycleInvariant
  import opened LifecycleTheorems
  import opened LaunchBound

  function ForkOf(e: Event): int {
    match e
    case KickDpy(_, fork, _) => fork
    case Reaped(_, _, fork) => fork
    case ServerReady(fork) => fork
    case TimerFired(fork) => fork
    case _ => NO_PID
  }

  predicate Reaps(e: Event, pid: int) {
    e.Reaped? && e.pid == pid
  }

  /** A record knows the process. */
  predicate Known(w: World, q: (int, Display)) {
    q.1 in w.recs && w.recs[q.1].serverPid == q.0
  }

  // ------------------------------------------ where a process ID comes from

  /** The process IDs of a record are those it had, or the one that the event has launched. */
  predicate From(r: Rec, r2: Rec, fork: int) {
    && (r2.pid == r.pid || r2.pid == NO_PID || r2.pid == fork)
    && (r2.serverPid == r.serverPid || r2.serverPid == NO_PID || r2.serverPid == fork)
  }

  predicate Sources(w: World, w2: World, d: Display, fork: int) {
    d in w.recs && (d in w2.recs ==> From(w.recs[d], w2.recs[d], fork)) && w2.recs.Keys <= w.recs.Keys
  }

  lemma {:induction false} RStopSources(w: World, d: Display, es: EndState, fork: int)
    requires d in w.recs
    ensures Sources(w, RStop(w, d, es, fork), d, fork)
  {
  }

  lemma {:induction false} FailedSources(w: World, d: Display, fork: int)
    requires HasStarting(w) && d == w.starting
    ensures Sources(w, StartServerFailed(w), d, fork)
  {
    hide RStop;
    var w1 := Put(w, d, w.recs[d].(serverStatus := Ignore)).(timer := Never, starting := null);
    RStopSources(w1, d, DsRemove, NO_PID);
  }

  lemma {:induction false} OnceSources(w: World, d: Display, fork: int)
    requires HasStarting(w) && d == w.starting
    ensures Sources(w, StartServerOnce(w, fork), d, fork)
  {
    hide StartServerFailed;
    var r := w.recs[d];
    FailedSources(Put(w, d, r.(startTries := r.startTries + 1, serverStatus := Starting, serverPid := fork)), d, fork);
  }

  lemma {:induction false} TimeoutSources(w: World, d: Display, fork: int)
    requires HasStarting(w) && d == w.starting
    ensures Sources(w, StartServerTimeout(w, fork), d, fork)
  {
    hide StartServerOnce, StartServerFailed;
    OnceSources(w, d, fork);
    FailedSources(w, d, fork);
  }

  lemma {:induction false} KickSources(w: World, d: Display, fork: int, vtPending: bool)
    requires d in w.recs && !w.stopping
    ensures Sources(w, Kick(w, d, fork, vtPending), d, fork)
  {
    hide StartServerOnce, RStop;
    RStopSources(w, d, DsRemove, NO_PID);
    var w1 := if w.recs[d].status == NotRunning then StartDisplay(w, d, fork, vtPending) else w;
    if d in w1.recs {
      OnceSources(Put(w1, d, w1.recs[d].(startTries := 0)).(starting := d), d, fork);
    }
  }

  lemma {:induction false} RestartSources(w: World, d: Display, cmd: ServerCmd, fork: int)
    requires d in w.recs
    ensures Sources(w, Restart(w, d, cmd), d, fork)
  {
    hide RStop;
    var r := w.recs[d];
    var tries := if cmd != XsRetry then 0
                 else if r.isLocal then r.startTries else r.startTries + 1;
    RStopSources(Put(w, d, r.(startTries := tries)), d, DsRemove, NO_PID);
  }

  lemma {:induction false} ExitSources(w: World, d: Display, es: EndState, cmd: ServerCmd, fork: int)
    requires d in w.recs
    ensures Sources(w, ExitDisplay(w, d, es, cmd, fork), d, fork)
  {
    hide RStop, Restart;
    var w1 := Put(w, d, w.recs[d].(userSess := -1));
    RStopSources(w1, d, w1.recs[d].zstatus, fork);
    RStopSources(w1, d, DsRemove, fork);
    RStopSources(w1, d, DsRemove, NO_PID);
    RStopSources(w1, d, es, fork);
    RestartSources(w1, d, cmd, fork);
    RestartSources(w1, d, XsKeep, fork);
  }

  /** Reaping takes the process out of its record, and may launch another. */
  predicate Reaped2(r: Rec, r2: Rec, pid: int, fork: int) {
    && From(r, r2, fork)
    && (r2.pid == pid ==> pid == fork) && (r2.serverPid == pid ==> pid == fork)
  }

  lemma {:induction false} ReapSessionSources(w: World, d: Display, code: ExitCode, fork: int)
    requires d in w.recs
    ensures Sources(Put(w, d, w.recs[d].(pid := NO_PID)), ReapSession(w, d, code, fork), d, fork)
  {
    hide ExitDisplay, Sources;
    var w1 := Put(w, d, w.recs[d].(pid := NO_PID));
    forall es, cmd ensures Sources(w1, ExitDisplay(w1, d, es, cmd, fork), d, fork) {
      ExitSources(w1, d, es, cmd, fork);
    }
  }

  lemma {:induction false} ReapServerSources(w: World, d: Display, fork: int)
    requires d in w.recs
    ensures Sources(Put(w, d, w.recs[d].(serverPid := NO_PID)), ReapServer(w, d, fork), d, fork)
  {
    hide RStop, StartServerFailed;
    var w1 := Put(w, d, w.recs[d].(serverPid := NO_PID));
    RStopSources(w1, d, w1.recs[d].zstatus, fork);
    if w1.starting == d {
      FailedSources(w1, d, fork);
    }
  }

  lemma {:induction false} ReapSources(w: World, pid: int, code: ExitCode, fork: int, d: Display)
    requires Inv(w) && pid > 0 && d in w.recs && d == Target(w, Reaped(pid, code, fork))
    ensures w.recs[d].pid == pid || w.recs[d].serverPid == pid
    ensures var w2 := Reap(w, pid, code, fork);
      && (d in w2.recs ==> Reaped2(w.recs[d], w2.recs[d], pid, fork))
      && w2.recs.Keys <= w.recs.Keys
  {
    hide ReapSession, ReapServer, ListOk, PidsOk;
    assert RecOk(w.recs[d]);
    FindByOk(w, w.list, (r: Rec) => r.pid == pid);
    FindByOk(w, w.list, (r: Rec) => r.serverPid == pid);
    if ByPid(w, pid) != null {
      ReapSessionSources(w, d, code, fork);
    } else {
      ReapServerSources(w, d, fork);
    }
  }

  lemma {:induction false} TargetOf(w: World, e: Event)
    requires Inv(w) && (e.Reaped? || TimerDue(w, e))
    ensures Target(w, e) != null ==> Target(w, e) in w.recs
    ensures TimerDue(w, e) ==> Target(w, e) != null
    ensures e.Reaped? && Target(w, e) == null ==> Step(w, e) == w
  {
    hide ReapSession, ReapServer, StartServerTimeout;
    if e.Reaped? {
      FindByOk(w, w.list, (r: Rec) => r.pid == e.pid);
      FindByOk(w, w.list, (r: Rec) => r.serverPid == e.pid);
    }
  }

  /** Where the process IDs of the records come from, whatever the event. */
  lemma {:induction false} StepSources(w: World, e: Event, d: Display)
    requires Inv(w) && Enabled(w, e) && d in Step(w, e).recs
    ensures d in w.recs ==> From(w.recs[d], Step(w, e).recs[d], ForkOf(e))
    ensures d !in w.recs ==> Gone(Step(w, e).recs[d])
  {
    hide ListOk, PidsOk, Fresh, Kick, Reap, StartServerTimeout, RStop, LastReserve, From;
    SameFrom(w, d, ForkOf(e));
    if d in w.recs && d != Target(w, e) {
      StepKeeps(w, e, d);
    } else if e.Reaped? {
      ReapedSources(w, e, d);
    } else if TimerDue(w, e) {
      TargetOf(w, e);
      TimeoutSources(w.(timer := Never), w.starting, e.fork);
    } else if e.KickDpy? {
      if e.d in w.recs && !w.stopping {
        KickSources(w, e.d, e.fork, e.vtPending);
      }
    } else if e.StopDpy? {
      if e.d in w.recs {
        RStopSources(w, e.d, DsRemove, NO_PID);
      }
    } else {
      QuietSources(w, e, d);
    }
  }

  lemma {:induction false} SameFrom(w: World, d: Display, fork: int)
    ensures d in w.recs ==> From(w.recs[d], w.recs[d], fork)
  {
  }

  lemma {:induction false} ReapedSources(w: World, e: Event, d: Display)
    requires Inv(w) && Enabled(w, e) && e.Reaped? && d in Step(w, e).recs
    requires d !in w.recs || d == Target(w, e)
    ensures d in w.recs && From(w.recs[d], Step(w, e).recs[d], e.fork)
  {
    hide ListOk, PidsOk, Reap, Target;
    TargetOf(w, e);
    var x := Target(w, e);
    if x != null {
      ReapSources(w, e.pid, e.code, e.fork, x);
    }
  }

  /** The other events, which do not stop or launch a server. */
  lemma {:induction false} QuietSources(w: World, e: Event, d: Display)
    requires Inv(w) && d in Step(w, e).recs && !e.Reaped? && !TimerDue(w, e) && !e.KickDpy? && !e.StopDpy?
    ensures d in w.recs ==> From(w.recs[d], Step(w, e).recs[d], ForkOf(e))
    ensures d !in w.recs ==> Gone(Step(w, e).recs[d])
  {
    hide ListOk, PidsOk, LastReserve, Kick, Reap, StartServerTimeout, RStop, From, Gone;
    SameFrom(w, d, ForkOf(e));
    match e
    case NewDisplay(k, isLocal, lifetime, cfg) =>
      NewGone(isLocal, lifetime, cfg);
    case ServerReady(fork) =>
      if HasStarting(w) {
        P2Sources(w, fork);
      }
    case _ => OnlyStatus(w, e, d);
  }

  lemma {:induction false} NewGone(isLocal: bool, lifetime: Lifetime, cfg: Config)
    ensures Gone(NewRec(isLocal, lifetime, cfg))
  {
  }

  lemma {:induction false} P2Sources(w: World, fork: int)
    requires HasStarting(w)
    ensures var w2 := StartServerSuccess(w, fork);
      && w2.recs.Keys == w.recs.Keys && From(w.recs[w.starting], w2.recs[w.starting], fork)
      && w2.recs == w.recs[w.starting := w2.recs[w.starting]]
  {
  }

  /** Both process IDs are what they were. */
  lemma {:induction false} OnlyStatus(w: World, e: Event, d: Display)
    requires Inv(w) && d in Step(w, e).recs
    requires !e.Reaped? && !TimerDue(w, e) && !e.KickDpy? && !e.StopDpy? && !e.NewDisplay? && !e.ServerReady?
    ensures d in w.recs && From(w.recs[d], Step(w, e).recs[d], ForkOf(e))
  {
    hide ListOk, PidsOk, LastReserve, Kick, Reap, StartServerTimeout, RStop;
    SamePids(w, e, d);
  }

  lemma {:induction false} SamePids(w: World, e: Event, d: Display)
    requires Inv(w) && d in Step(w, e).recs
    requires !e.Reaped? && !TimerDue(w, e) && !e.KickDpy? && !e.StopDpy? && !e.NewDisplay? && !e.ServerReady?
    ensures d in w.recs && Step(w, e).recs[d].pid == w.recs[d].pid
    ensures Step(w, e).recs[d].serverPid == w.recs[d].serverPid
  {
    hide Inv, LastReserve, Kick, Reap, StartServerTimeout, RStop;
  }

  // ------------------------------------------------ when a server is forgotten

  /** A server that is known stays known. */
  predicate ServerStays(w: World, w2: World, d: Display) {
    && d in w.recs
    && (w.recs[d].serverPid != NO_PID ==> d in w2.recs && w2.recs[d].serverPid == w.recs[d].serverPid)
  }

  lemma {:induction false} RStopStays(w: World, d: Display, es: EndState, fork: int)
    requires d in w.recs
    ensures ServerStays(w, RStop(w, d, es, fork), d)
  {
  }

  lemma {:induction false} FailedStays(w: World, d: Display)
    requires HasStarting(w) && d == w.starting
    ensures ServerStays(w, StartServerFailed(w), d)
  {
    hide RStop;
    var w1 := Put(w, d, w.recs[d].(serverStatus := Ignore)).(timer := Never, starting := null);
    RStopStays(w1, d, DsRemove, NO_PID);
  }

  lemma {:induction false} KickStays(w: World, d: Display, fork: int, vtPending: bool)
    requires d in w.recs && !w.stopping && RecOk(w.recs[d])
    ensures ServerStays(w, Kick(w, d, fork, vtPending), d)
  {
    hide StartServerOnce, RStop;
    RStopStays(w, d, DsRemove, NO_PID);
  }

  lemma {:induction false} ExitStays(w: World, d: Display, es: EndState, cmd: ServerCmd, fork: int)
    requires d in w.recs
    ensures ServerStays(w, ExitDisplay(w, d, es, cmd, fork), d)
  {
    hide RStop, Restart;
    var w1 := Put(w, d, w.recs[d].(userSess := -1));
    RStopStays(w1, d, w1.recs[d].zstatus, fork);
    RStopStays(w1, d, DsRemove, fork);
    RStopStays(w1, d, DsRemove, NO_PID);
    RStopStays(w1, d, es, fork);
    RestartStays(w1, d, cmd);
    RestartStays(w1, d, XsKeep);
  }

  lemma {:induction false} RestartStays(w: World, d: Display, cmd: ServerCmd)
    requires d in w.recs
    ensures ServerStays(w, Restart(w, d, cmd), d)
  {
    hide RStop;
    var r := w.recs[d];
    var tries := if cmd != XsRetry then 0
                 else if r.isLocal then r.startTries else r.startTries + 1;
    RStopStays(Put(w, d, r.(startTries := tries)), d, DsRemove, NO_PID);
  }

  lemma {:induction false} ReapStays(w: World, pid: int, code: ExitCode, fork: int, d: Display)
    requires Inv(w) && pid > 0 && d in w.recs && w.recs[d].serverPid != pid
    requires d == Target(w, Reaped(pid, code, fork))
    ensures ServerStays(w, Reap(w, pid, code, fork), d)
  {
    hide ExitDisplay, ReapServer, ListOk, PidsOk;
    FindByOk(w, w.list, (r: Rec) => r.pid == pid);
    FindByOk(w, w.list, (r: Rec) => r.serverPid == pid);
    var w1 := Put(w, d, w.recs[d].(pid := NO_PID));
    forall es, cmd ensures ServerStays(w1, ExitDisplay(w1, d, es, cmd, fork), d) {
      ExitStays(w1, d, es, cmd, fork);
    }
  }

  /** A due timer launches a new server for `d` while the last one is still recorded. */
  predicate Relaunches(w: World, e: Event, d: Display) {
    && TimerDue(w, e) && d == w.starting && d in w.recs
    && w.recs[d].serverStatus == Pausing && w.recs[d].serverPid != NO_PID
  }

  lemma {:induction false} TimeoutStays(w: World, fork: int, d: Display)
    requires HasStarting(w) && d == w.starting && w.recs[d].serverStatus != Pausing
    ensures ServerStays(w, StartServerTimeout(w, fork), d)
  {
    hide StartServerOnce, StartServerFailed;
    FailedStays(w, d);
  }

  lemma {:induction false} RelaunchForgets(w: World, fork: int, d: Display)
    requires HasStarting(w) && d == w.starting && w.recs[d].serverStatus == Pausing
    ensures var w2 := StartServerTimeout(w, fork);
      d in w2.recs ==> w2.recs[d].serverPid == fork
  {
    hide StartServerFailed;
    var r := w.recs[d];
    var w1 := Put(w, d, r.(startTries := r.startTries + 1, serverStatus := Starting, serverPid := fork));
    hide RStop;
    FailedKeepsNone(w1, d);
  }

  lemma {:induction false} FailedKeepsNone(w: World, d: Display)
    requires HasStarting(w) && d == w.starting
    ensures d in StartServerFailed(w).recs ==> StartServerFailed(w).recs[d].serverPid == w.recs[d].serverPid
  {
  }

  /** A server that a record knows is forgotten without being reaped exactly by such a relaunch. */
  lemma {:induction false} ForgottenExactly(w: World, e: Event, d: Display)
    requires Inv(w) && Enabled(w, e) && d in w.recs && w.recs[d].serverPid != NO_PID
    requires !Reaps(e, w.recs[d].serverPid)
    ensures !Known(Step(w, e), (w.recs[d].serverPid, d)) <==> Relaunches(w, e, d)
  {
    hide ListOk, PidsOk, Fresh, Kick, Reap, StartServerTimeout, RStop, LastReserve;
    if d != Target(w, e) {
      StepKeeps(w, e, d);
    } else if e.Reaped? {
      ReapStays(w, e.pid, e.code, e.fork, d);
    } else if TimerDue(w, e) {
      if w.recs[d].serverStatus == Pausing {
        RelaunchForgets(w.(timer := Never), e.fork, d);
        ForkIsNew(w, e, d);
      } else {
        TimeoutStays(w.(timer := Never), e.fork, d);
      }
    } else if e.KickDpy? {
      assert RecOk(w.recs[d]);
      if !w.stopping {
        KickStays(w, d, e.fork, e.vtPending);
      }
    } else if e.StopDpy? {
      RStopStays(w, d, DsRemove, NO_PID);
    } else if e.ServerReady? {
      P2Sources(w, e.fork);
      P2Stays(w, e.fork);
    } else if d in Step(w, e).recs {
      if !e.NewDisplay? {
        SamePids(w, e, d);
      }
    } else {
      QuietKeeps(w, e, d);
    }
  }

  lemma {:induction false} P2Stays(w: World, fork: int)
    requires HasStarting(w)
    ensures ServerStays(w, StartServerSuccess(w, fork), w.starting)
  {
  }

  lemma {:induction false} QuietKeeps(w: World, e: Event, d: Display)
    requires d in w.recs
    requires !e.Reaped? && !TimerDue(w, e) && !e.KickDpy? && !e.StopDpy? && !e.ServerReady?
    ensures d in Step(w, e).recs
  {
    hide LastReserve, Kick, Reap, StartServerTimeout, RStop;
  }

  lemma {:induction false} ForkIsNew(w: World, e: Event, d: Display)
    requires Enabled(w, e) && e.TimerFired? && d in w.recs && w.recs[d].serverPid != NO_PID
    ensures e.fork != w.recs[d].serverPid
  {
    if e.fork != NO_PID {
      assert Unused(w.recs[d], e.fork, NO_PID);
    }
  }
}
