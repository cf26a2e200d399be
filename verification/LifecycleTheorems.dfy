/**
 The promises of the display lifecycle over whole runs.
 */
module LifecycleTheorems {
  import opened DisplayRecord
  import opened Lifecycle
  import opened LifecycleInvariant

  lemma {:induction false} InitialInv(now: int)
    ensures Inv(Initial(now))
  {
  }

  /**
   At most one display is being launched, it is the one in `starting`, the timer runs
   exactly then, and a timer that expires finds it in one of the four phases the handler
   is written for.
   */
  ghost predicate StartSafe(w: World) {
    && (w.starting != null ==> w.starting in w.list && w.starting in w.recs)
    && (forall d, e | d in w.recs && e in w.recs ::
          InStart(w.recs[d].serverStatus) && InStart(w.recs[e].serverStatus) ==> d == e)
    && (forall d :: d in w.recs && InStart(w.recs[d].serverStatus) ==>
          d == w.starting && w.recs[d].status == Running && w.recs[d].pid == NO_PID)
    && (w.timer.At? <==> exists d :: d in w.recs && InStart(w.recs[d].serverStatus))
    && (w.timer.At? ==> w.starting != null && InStart(w.recs[w.starting].serverStatus))
  }

  lemma {:induction false} InvSafe(w: World)
    requires Inv(w)
    ensures StartSafe(w)
  {
  }

  /** Nothing but what the operating system guarantees. */
  ghost predicate EnabledRun(w: World, es: seq<Event>)
    decreases |es|
  {
    es != [] ==> Enabled(w, es[0]) && EnabledRun(Step(w, es[0]), es[1..])
  }

  /** In every state of the run. */
  ghost predicate SafeThroughout(w: World, es: seq<Event>)
    decreases |es|
  {
    StartSafe(w) && (es != [] ==> SafeThroughout(Step(w, es[0]), es[1..]))
  }

  /** The launch is safe in every state of a run exactly if no ready message comes during one. */
  lemma {:induction false} SafeExactly(w: World, es: seq<Event>)
    requires Inv(w) && EnabledRun(w, es)
    ensures SafeThroughout(w, es) <==> RunOk(w, es)
    decreases |es|
  {
    hide Inv, Step, StartSafe, Enabled, Orderly;
    InvSafe(w);
    if es != [] {
      if Orderly(w, es[0]) {
        StepOk(w, es[0]);
        SafeExactly(Step(w, es[0]), es[1..]);
      } else {
        ReadyTooEarly(w, es[0]);
      }
    }
  }

  lemma {:induction false} ReadyTooEarly(w: World, e: Event)
    requires !Orderly(w, e)
    ensures !StartSafe(Step(w, e))
  {
  }

  /** The daemon starts with an empty table. */
  lemma {:induction false} StartSafety(now: int, es: seq<Event>)
    requires EnabledRun(Initial(now), es)
    ensures SafeThroughout(Initial(now), es) <==> RunOk(Initial(now), es)
  {
    InitialInv(now);
    SafeExactly(Initial(now), es);
  }

  /** What each status says about the two processes of a display, in every reachable state. */
  lemma {:induction false} StatusSafety(now: int, es: seq<Event>, d: Display)
    requires RunOk(Initial(now), es) && d in Run(Initial(now), es).recs
    ensures var r := Run(Initial(now), es).recs[d];
      && (r.status == Zombie ==> r.pid != NO_PID || r.serverPid != NO_PID)
      && (r.status == Phoenix || r.status == RemoteLogin ==> r.serverPid != NO_PID && r.pid == NO_PID)
      && (r.status == Raiser ==> r.pid != NO_PID)
      && (r.status == NotRunning || r.status == Reserve ==> r.pid == NO_PID)
      && (r.serverStatus == Awaiting ==> r.pid == NO_PID && r.serverPid == NO_PID)
  {
    InitialInv(now);
    RunInv(Initial(now), es);
    assert RecOk(Run(Initial(now), es).recs[d]);
  }

  // ------------------------------------------------------------- ready message

  /**
   The handler of the ready message does not look at the sender. It keeps the state
   in order exactly when no launch is in progress.
   */
  lemma {:induction false} XConnOkExact(w: World, d: Display)
    requires Inv(w)
    ensures Inv(Step(w, XConnOk(d))) <==> w.timer == Never
  {
  }

  /** That is so if the sender is the display last launched. */
  lemma {:induction false} XConnOkInOrder(w: World, d: Display)
    requires Inv(w) && d == w.starting && SessionLive(w, d)
    ensures w.timer == Never
  {
  }

  /** Unfolding a short run. */
  lemma {:induction false} Unroll(w: World, es: seq<Event>)
    ensures |es| == 2 ==> Run(w, es) == Step(Step(w, es[0]), es[1])
    ensures |es| == 3 ==> Run(w, es) == Step(Step(Step(w, es[0]), es[1]), es[2])
    ensures |es| == 4 ==> Run(w, es) == Step(Step(Step(Step(w, es[0]), es[1]), es[2]), es[3])
    decreases |es|
  {
    hide Step;
    if |es| == 2 {
      assert Run(Step(w, es[0]), es[1..]) == Run(Step(Step(w, es[0]), es[1]), es[2..]) by {
        assert es[1..][1..] == es[2..];
      }
    } else if |es| == 3 || |es| == 4 {
      Unroll(Step(w, es[0]), es[1..]);
    }
  }

  /** A session of `a` that was launched with its server and has reported ready. */
  lemma {:induction false} ReadyState(a: Display, cfg: Config)
    requires cfg == Config(3, 15, 5, 4, false)
    ensures Run(Initial(0), [NewDisplay(a, true, Permanent, cfg), KickDpy(a, 11, false),
                             ServerReady(12), XConnOk(a)]) ==
      World([a], map[a := NewRec(true, Permanent, cfg).(
                            status := Running, pid := 12, serverPid := 11, startTries := 1)],
            null, Never, 0, false, false)
  {
    Unroll(Initial(0), [NewDisplay(a, true, Permanent, cfg), KickDpy(a, 11, false),
                        ServerReady(12), XConnOk(a)]);
  }

  /**
   Two displays are enough to break it: the session of `a` restarts on its old server
   and reports ready again while the server of `b` is being launched. The timer then
   expires with no display recorded as starting.
   */
  lemma {:induction false} XConnOkCounterexample(a: Display, b: Display, cfg: Config)
    requires a != b && cfg == Config(3, 15, 5, 4, false)
    ensures var w1 := Run(Initial(0), [NewDisplay(a, true, Permanent, cfg), KickDpy(a, 11, false),
                                       ServerReady(12), XConnOk(a)]);
      var w2 := Run(w1, [NewDisplay(b, true, Permanent, cfg), Reaped(12, ExNormal, NO_PID)]);
      var w := Run(w2, [KickDpy(a, 13, false), KickDpy(b, 14, false), XConnOk(a)]);
      w.starting == null && w.timer == At(15) && b in w.recs && w.recs[b].serverStatus == Starting
  {
    ReadyState(a, cfg);
    var w1 := Run(Initial(0), [NewDisplay(a, true, Permanent, cfg), KickDpy(a, 11, false),
                               ServerReady(12), XConnOk(a)]);
    ReadySessionEnds(w1, a, b, cfg);
    hide Run, Step, Initial;
    ReadyAgain(Run(w1, [NewDisplay(b, true, Permanent, cfg), Reaped(12, ExNormal, NO_PID)]), a, b, cfg);
  }

  /** Both displays are started, and the one that has its server reports ready. */
  lemma {:induction false} ReadyAgain(w: World, a: Display, b: Display, cfg: Config)
    requires a != b && cfg == Config(3, 15, 5, 4, false)
    requires w == World([b, a], map[a := NewRec(true, Permanent, cfg).(serverPid := 11),
                                    b := NewRec(true, Permanent, cfg)],
                        null, Never, 0, false, false)
    ensures var w2 := Run(w, [KickDpy(a, 13, false), KickDpy(b, 14, false), XConnOk(a)]);
      w2.starting == null && w2.timer == At(15) && b in w2.recs && w2.recs[b].serverStatus == Starting
  {
    var es := [KickDpy(a, 13, false), KickDpy(b, 14, false), XConnOk(a)];
    hide Run;
    Unroll(w, es);
    var w1 := Step(w, es[0]);
    assert b in w1.recs && w1.recs[b] == w.recs[b] && w1.starting == null && !w1.stopping && w1.now == 0;
    var w2 := Step(w1, es[1]);
    assert w2.timer == At(15) && b in w2.recs && w2.recs[b].serverStatus == Starting;
  }

  lemma {:induction false} ReadySessionEnds(w: World, a: Display, b: Display, cfg: Config)
    requires a != b
    requires w == World([a], map[a := NewRec(true, Permanent, cfg).(
                            status := Running, pid := 12, serverPid := 11, startTries := 1)],
                        null, Never, 0, false, false)
    requires !cfg.terminateServer
    ensures Run(w, [NewDisplay(b, true, Permanent, cfg), Reaped(12, ExNormal, NO_PID)]) ==
      World([b, a], map[a := NewRec(true, Permanent, cfg).(serverPid := 11),
                        b := NewRec(true, Permanent, cfg)],
            null, Never, 0, false, false)
  {
    var w1 := Step(w, NewDisplay(b, true, Permanent, cfg));
    assert w1.list == [b, a];
    assert ByPid(w1, 12) == a by {
      assert FindBy(w1, [a], (r: Rec) => r.pid == 12) == a;
    }
    Unroll(w, [NewDisplay(b, true, Permanent, cfg), Reaped(12, ExNormal, NO_PID)]);
  }

  // ----------------------------------------------------- nothing alive is lost

  predicate Gone(r: Rec) {
    r.pid == NO_PID && r.serverPid == NO_PID
  }

  /** The timer relaunches a server whose predecessor could not be killed, and fork() fails. */
  ghost predicate RelaunchFails(w: World, e: Event, d: Display)
    requires d in w.recs
  {
    var r := w.recs[d];
    && e.TimerFired? && e.fork == NO_PID && w.timer.At? && w.now >= w.timer.time
    && d == w.starting && r.serverStatus == Pausing
    && r.cfg.serverAttempts != 0 && r.startTries + 1 >= r.cfg.serverAttempts
  }

  lemma {:induction false} RStopRemoves(w: World, d: Display, es: EndState, fork: int, x: Display)
    requires d in w.recs && x in w.recs
    ensures x !in RStop(w, d, es, fork).recs ==> x == d && Gone(w.recs[d])
    ensures es == DsRemove && x == d && Gone(w.recs[d]) ==> x !in RStop(w, d, es, fork).recs
  {
  }

  lemma {:induction false} StartServerFailedRemoves(w: World, x: Display)
    requires HasStarting(w) && x in w.recs
    ensures var r := w.recs[w.starting];
      x !in StartServerFailed(w).recs <==>
        x == w.starting && Gone(r) && r.cfg.serverAttempts != 0 && r.startTries >= r.cfg.serverAttempts
  {
    hide RStop;
    var r := w.recs[w.starting].(serverStatus := Ignore);
    RStopRemoves(Put(w, w.starting, r).(timer := Never, starting := null), w.starting, DsRemove, NO_PID, x);
  }

  lemma {:induction false} RestartRemoves(w: World, d: Display, cmd: ServerCmd, x: Display)
    requires d in w.recs && x in w.recs
    ensures x !in Restart(w, d, cmd).recs ==> x == d && Gone(w.recs[d])
  {
    hide RStop;
    var r := w.recs[d];
    var tries := if cmd != XsRetry then 0
                 else if r.isLocal then r.startTries else r.startTries + 1;
    RStopRemoves(Put(w, d, r.(startTries := tries)), d, DsRemove, NO_PID, x);
  }

  lemma {:induction false} ExitDisplayRemoves(w: World, d: Display, es: EndState, cmd: ServerCmd, fork: int, x: Display)
    requires d in w.recs && x in w.recs
    ensures x !in ExitDisplay(w, d, es, cmd, fork).recs ==> x == d && Gone(w.recs[d])
  {
    hide RStop, Restart;
    var w1 := Put(w, d, w.recs[d].(userSess := -1));
    RStopRemoves(w1, d, w1.recs[d].zstatus, fork, x);
    RStopRemoves(w1, d, DsRemove, fork, x);
    RStopRemoves(w1, d, DsRemove, NO_PID, x);
    RStopRemoves(w1, d, es, fork, x);
    RestartRemoves(w1, d, cmd, x);
    RestartRemoves(w1, d, XsKeep, x);
  }

  lemma {:induction false} StartServerOnceRemoves(w: World, fork: int, x: Display)
    requires HasStarting(w) && x in w.recs
    ensures var r := w.recs[w.starting];
      x !in StartServerOnce(w, fork).recs <==>
        x == w.starting && fork == NO_PID && r.pid == NO_PID &&
        r.cfg.serverAttempts != 0 && r.startTries + 1 >= r.cfg.serverAttempts
  {
    hide RStop, StartServerFailed;
    var r := w.recs[w.starting].(startTries := w.recs[w.starting].startTries + 1,
                                 serverStatus := Starting, serverPid := fork);
    StartServerFailedRemoves(Put(w, w.starting, r), x);
  }

  lemma {:induction false} KickRemoves(w: World, d: Display, fork: int, vtPending: bool, x: Display)
    requires d in w.recs && x in w.recs && !w.stopping && RecOk(w.recs[d])
    ensures x !in Kick(w, d, fork, vtPending).recs ==> x == d && Gone(w.recs[d])
  {
    hide StartServerOnce;
    var w1 := if w.recs[d].status == NotRunning then StartDisplay(w, d, fork, vtPending) else w;
    StartServerOnceRemoves(Put(w1, d, w1.recs[d].(startTries := 0)).(starting := d), fork, x);
  }

  lemma {:induction false} TimeoutRemoves(w: World, fork: int, x: Display)
    requires HasStarting(w) && x in w.recs
    ensures var r := w.recs[w.starting];
      x !in StartServerTimeout(w, fork).recs <==>
        x == w.starting && r.pid == NO_PID && r.cfg.serverAttempts != 0 &&
        (if r.serverStatus == Killed then
           r.serverPid == NO_PID && r.startTries >= r.cfg.serverAttempts
         else
           r.serverStatus == Pausing && fork == NO_PID && r.startTries + 1 >= r.cfg.serverAttempts)
  {
    hide StartServerOnce, StartServerFailed;
    StartServerOnceRemoves(w, fork, x);
    StartServerFailedRemoves(w, x);
  }

  lemma {:induction false} ReapRemoves(w: World, pid: int, code: ExitCode, fork: int, x: Display)
    requires x in w.recs && x !in Reap(w, pid, code, fork).recs
    ensures w.recs[x].pid == NO_PID || w.recs[x].pid == pid
    ensures w.recs[x].serverPid == NO_PID || w.recs[x].serverPid == pid
  {
    hide RStop, ExitDisplay, StartServerFailed;
    FindByOk(w, w.list, (r: Rec) => r.pid == pid);
    FindByOk(w, w.list, (r: Rec) => r.serverPid == pid);
    var d := ByPid(w, pid);
    var sd := ByServerPid(w, pid);
    if d != null {
      var w1 := Put(w, d, w.recs[d].(pid := NO_PID));
      forall es, cmd ensures x !in ExitDisplay(w1, d, es, cmd, fork).recs ==> x == d && Gone(w1.recs[d]) {
        ExitDisplayRemoves(w1, d, es, cmd, fork, x);
      }
    } else if sd != null {
      var w1 := Put(w, sd, w.recs[sd].(serverPid := NO_PID));
      RStopRemoves(w1, sd, w1.recs[sd].zstatus, fork, x);
      if w1.starting == sd {
        StartServerFailedRemoves(w1, x);
      }
    }
  }

  /**
   A record is only removed when the processes that it knows are gone or being reaped.
   The one exception is a server that survived SIGKILL: it is there when the record goes
   exactly if its relaunch cannot fork and was the last attempt. Servers that the record
   has forgotten before are the subject of `ForgottenServers`.
   */
  lemma {:induction false} RemovedIsDead(w: World, e: Event, d: Display)
    requires Inv(w) && Enabled(w, e) && d in w.recs
    ensures d !in Step(w, e).recs ==> w.recs[d].pid == NO_PID || (e.Reaped? && w.recs[d].pid == e.pid)
    ensures w.recs[d].serverPid != NO_PID && !(e.Reaped? && w.recs[d].serverPid == e.pid) ==>
              (d !in Step(w, e).recs <==> RelaunchFails(w, e, d))
  {
    hide ListOk, PidsOk, Fresh, Kick, Reap, StartServerTimeout, RStop, LastReserve;
    assert RecOk(w.recs[d]);
    match e
    case KickDpy(k, fork, vtPending) =>
      if k in w.recs && !w.stopping {
        KickRemoves(w, k, fork, vtPending, d);
      }
    case Reaped(pid, code, fork) =>
      if d !in Step(w, e).recs {
        ReapRemoves(w, pid, code, fork, d);
      }
    case TimerFired(fork) =>
      if w.timer.At? {
        TimeoutRemoves(w.(timer := Never), fork, d);
      }
    case StopDpy(k) =>
      if k in w.recs {
        RStopRemoves(w, k, DsRemove, NO_PID, d);
      }
    case _ =>
  }

  // ------------------------------------------------------------------ zombies

  lemma {:induction false} PidOwner(w: World, d: Display)
    requires ListOk(w.list, w.recs) && PidsOk(w.recs) && d in w.recs && OneRole(w.recs[d])
    ensures w.recs[d].pid != NO_PID ==> ByPid(w, w.recs[d].pid) == d
    ensures w.recs[d].serverPid != NO_PID ==>
      ByPid(w, w.recs[d].serverPid) == null && ByServerPid(w, w.recs[d].serverPid) == d
  {
    var p, q := w.recs[d].pid, w.recs[d].serverPid;
    FindByOk(w, w.list, (r: Rec) => r.pid == p);
    FindByOk(w, w.list, (r: Rec) => r.pid == q);
    FindByOk(w, w.list, (r: Rec) => r.serverPid == q);
    assert forall x :: x in w.recs && x != d ==> Apart(w.recs[d], w.recs[x]);
  }

  /** Where a display whose processes are gone ends up when it was stopped towards `z`. */
  ghost predicate Ended(w: World, d: Display, z: EndState, fork: int) {
    if z == DsReserve then d in w.recs && w.recs[d].status == Reserve
    else if z == DsRemote then
      d in w.recs && w.recs[d].serverPid == fork &&
      w.recs[d].status == if fork == NO_PID then NotRunning else RemoteLogin
    else d !in w.recs
  }

  /** The world without the record of `d`, and with `d` not being launched. */
  ghost predicate OthersSame(w: World, w2: World, d: Display) {
    && w2.recs - {d} == w.recs - {d}
    && w2.starting == (if w.starting == d then null else w.starting)
    && w2.(recs := w.recs, list := w.list, starting := w.starting, timer := w.timer) == w
    && (w.starting != d ==> w2.timer == w.timer)
  }

  lemma {:induction false} ReapZombieSession(w: World, d: Display, code: ExitCode, fork: int)
    requires Inv(w) && d in w.recs && w.recs[d].status == Zombie && w.recs[d].pid != NO_PID
    ensures var r := w.recs[d].(pid := NO_PID, userSess := -1);
      Reap(w, w.recs[d].pid, code, fork) == RStop(Put(w, d, r), d, r.zstatus, fork)
  {
    hide RStop;
    assert RecOk(w.recs[d]);
    PidOwner(w, d);
    var r := w.recs[d].(pid := NO_PID);
    assert Put(Put(w, d, r), d, r.(userSess := -1)) == Put(w, d, r.(userSess := -1));
  }

  lemma {:induction false} ReapZombieServer(w: World, d: Display, code: ExitCode, fork: int)
    requires Inv(w) && d in w.recs && w.recs[d].status == Zombie && w.recs[d].serverPid != NO_PID
    ensures var r := w.recs[d].(serverPid := NO_PID);
      Reap(w, w.recs[d].serverPid, code, fork) == RStop(Put(w, d, r), d, r.zstatus, fork)
  {
    hide RStop;
    assert RecOk(w.recs[d]);
    PidOwner(w, d);
  }

  /** Stopping a zombie again towards its own end changes nothing while a process lives. */
  lemma {:induction false} RStopAgain(w: World, d: Display, r: Rec, fork: int)
    requires d in w.recs && r.status == Zombie && r.serverStatus == Ignore && !Gone(r)
    ensures RStop(Put(w, d, r), d, r.zstatus, fork) ==
      Put(w, d, r).(starting := if w.starting == d then null else w.starting)
  {
    assert Put(Put(w, d, r), d, r.(status := Zombie, zstatus := r.zstatus)) == Put(w, d, r);
  }

  function BothReaped(w: World, d: Display, fork: int): World
    requires d in w.recs
  {
    var r := w.recs[d].(pid := NO_PID, serverPid := NO_PID, userSess := -1);
    RStop(Put(w, d, r), d, r.zstatus, fork)
  }

  lemma {:induction false} SessionThenServer(w: World, d: Display, c1: ExitCode, c2: ExitCode, f1: int, fork: int)
    requires Inv(w) && d in w.recs && w.recs[d].status == Zombie
    requires w.recs[d].pid != NO_PID && w.recs[d].serverPid != NO_PID
    requires Fresh(w.recs, f1, w.recs[d].pid)
    ensures Reap(Reap(w, w.recs[d].pid, c1, f1), w.recs[d].serverPid, c2, fork) == BothReaped(w, d, fork)
  {
    hide ListOk, PidsOk, Fresh, Reap;
    var r := w.recs[d];
    assert RecOk(r);
    ReapOk(w, r.pid, c1, f1);
    ReapZombieSession(w, d, c1, f1);
    var r1 := r.(pid := NO_PID, userSess := -1);
    RStopAgain(w, d, r1, f1);
    var w1 := Reap(w, r.pid, c1, f1);
    ReapZombieServer(w1, d, c2, fork);
    EndAfter(w, w1, d, r1, r1.(serverPid := NO_PID), fork);
  }

  lemma {:induction false} ServerThenSession(w: World, d: Display, c1: ExitCode, c2: ExitCode, f1: int, fork: int)
    requires Inv(w) && d in w.recs && w.recs[d].status == Zombie
    requires w.recs[d].pid != NO_PID && w.recs[d].serverPid != NO_PID
    requires Fresh(w.recs, f1, w.recs[d].serverPid)
    ensures Reap(Reap(w, w.recs[d].serverPid, c1, f1), w.recs[d].pid, c2, fork) == BothReaped(w, d, fork)
  {
    hide ListOk, PidsOk, Fresh, Reap;
    var r := w.recs[d];
    assert RecOk(r);
    ReapOk(w, r.serverPid, c1, f1);
    ReapZombieServer(w, d, c1, f1);
    var r1 := r.(serverPid := NO_PID);
    RStopAgain(w, d, r1, f1);
    var w1 := Reap(w, r.serverPid, c1, f1);
    ReapZombieSession(w1, d, c2, fork);
    EndAfter(w, w1, d, r1, r1.(pid := NO_PID, userSess := -1), fork);
  }

  lemma {:induction false} EndAfter(w: World, w1: World, d: Display, r1: Rec, r2: Rec, fork: int)
    requires d in w.recs && r2.serverStatus == Ignore
    requires w1 == Put(w, d, r1).(starting := if w.starting == d then null else w.starting)
    ensures RStop(Put(w1, d, r2), d, r2.zstatus, fork) == RStop(Put(w, d, r2), d, r2.zstatus, fork)
  {
    assert Put(w1, d, r2).recs == Put(w, d, r2).recs;
  }

  /**
   The two processes of a zombie may be reaped in either order: the result is the same
   world, in which the display has reached the state it was last stopped towards and
   nothing else has changed.
   */
  lemma {:induction false} ZombieConfluence(w: World, d: Display, c1: ExitCode, c2: ExitCode, c3: ExitCode, c4: ExitCode,
                         f1: int, f2: int, fork: int)
    requires Inv(w) && d in w.recs && w.recs[d].status == Zombie
    requires w.recs[d].pid != NO_PID && w.recs[d].serverPid != NO_PID
    requires Fresh(w.recs, f1, w.recs[d].pid) && Fresh(w.recs, f2, w.recs[d].serverPid)
    ensures var p, q := w.recs[d].pid, w.recs[d].serverPid;
      var w1 := Run(w, [Reaped(p, c1, f1), Reaped(q, c2, fork)]);
      && w1 == Run(w, [Reaped(q, c3, f2), Reaped(p, c4, fork)])
      && Ended(w1, d, w.recs[d].zstatus, fork)
      && OthersSame(w, w1, d)
  {
    hide ListOk, PidsOk, Fresh, Reap;
    var p, q := w.recs[d].pid, w.recs[d].serverPid;
    SessionThenServer(w, d, c1, c2, f1, fork);
    ServerThenSession(w, d, c3, c4, f2, fork);
    Unroll(w, [Reaped(p, c1, f1), Reaped(q, c2, fork)]);
    Unroll(w, [Reaped(q, c3, f2), Reaped(p, c4, fork)]);
    BothReapedEnds(w, d, fork);
  }

  lemma {:induction false} BothReapedEnds(w: World, d: Display, fork: int)
    requires d in w.recs && w.recs[d].serverStatus == Ignore
    ensures Ended(BothReaped(w, d, fork), d, w.recs[d].zstatus, fork)
    ensures OthersSame(w, BothReaped(w, d, fork), d)
  {
    assert BothReaped(w, d, fork).recs - {d} == w.recs - {d};
  }

  // -------------------------------------------- one event handles one display

  /** The display an event is about. */
  function Target(w: World, e: Event): Display? {
    match e
    case Reaped(pid, _, _) => if ByPid(w, pid) != null then ByPid(w, pid) else ByServerPid(w, pid)
    case ServerReady(_) => w.starting
    case TimerFired(_) => w.starting
    case WakeReserve => LastReserve(w, w.list)
    case SetStopping(_) => null
    case SetShutdownNow(_) => null
    case Tick(_) => null
    case XConnOk(_) => null
    case _ => e.d
  }

  predicate Kept(w: World, w2: World, x: Display) {
    x in w.recs ==> x in w2.recs && w2.recs[x] == w.recs[x]
  }

  lemma {:induction false} RStopKeeps(w: World, d: Display, es: EndState, fork: int, x: Display)
    requires d in w.recs && x != d
    ensures Kept(w, RStop(w, d, es, fork), x)
  {
  }

  lemma {:induction false} StartServerFailedKeeps(w: World, x: Display)
    requires HasStarting(w) && x != w.starting
    ensures Kept(w, StartServerFailed(w), x)
  {
    hide RStop;
    var w1 := Put(w, w.starting, w.recs[w.starting].(serverStatus := Ignore)).(timer := Never, starting := null);
    RStopKeeps(w1, w.starting, DsRemove, NO_PID, x);
  }

  lemma {:induction false} StartServerOnceKeeps(w: World, fork: int, x: Display)
    requires HasStarting(w) && x != w.starting
    ensures Kept(w, StartServerOnce(w, fork), x)
  {
    hide StartServerFailed;
    var r := w.recs[w.starting].(startTries := w.recs[w.starting].startTries + 1,
                                 serverStatus := Starting, serverPid := fork);
    StartServerFailedKeeps(Put(w, w.starting, r), x);
  }

  lemma {:induction false} KickKeeps(w: World, d: Display, fork: int, vtPending: bool, x: Display)
    requires d in w.recs && x != d && !w.stopping
    ensures Kept(w, Kick(w, d, fork, vtPending), x)
  {
    hide StartServerOnce;
    var w1 := if w.recs[d].status == NotRunning then StartDisplay(w, d, fork, vtPending) else w;
    StartServerOnceKeeps(Put(w1, d, w1.recs[d].(startTries := 0)).(starting := d), fork, x);
  }

  lemma {:induction false} TimeoutKeeps(w: World, fork: int, x: Display)
    requires HasStarting(w) && x != w.starting
    ensures Kept(w, StartServerTimeout(w, fork), x)
  {
    hide StartServerOnce, StartServerFailed;
    StartServerOnceKeeps(w, fork, x);
    StartServerFailedKeeps(w, x);
  }

  lemma {:induction false} ExitDisplayKeeps(w: World, d: Display, es: EndState, cmd: ServerCmd, fork: int, x: Display)
    requires d in w.recs && x != d
    ensures Kept(w, ExitDisplay(w, d, es, cmd, fork), x)
  {
    hide RStop;
    var w1 := Put(w, d, w.recs[d].(userSess := -1));
    RStopKeeps(w1, d, w1.recs[d].zstatus, fork, x);
    RStopKeeps(w1, d, DsRemove, NO_PID, x);
    RStopKeeps(w1, d, DsRemove, fork, x);
    RStopKeeps(w1, d, es, fork, x);
    var r := w1.recs[d];
    RStopKeeps(Put(w1, d, r.(startTries := r.startTries)), d, DsRemove, NO_PID, x);
    RStopKeeps(Put(w1, d, r.(startTries := r.startTries + 1)), d, DsRemove, NO_PID, x);
  }

  lemma {:induction false} ReapKeeps(w: World, pid: int, code: ExitCode, fork: int, x: Display)
    requires x != Target(w, Reaped(pid, code, fork))
    ensures Kept(w, Reap(w, pid, code, fork), x)
  {
    hide RStop, ExitDisplay, StartServerFailed;
    FindByOk(w, w.list, (r: Rec) => r.pid == pid);
    FindByOk(w, w.list, (r: Rec) => r.serverPid == pid);
    var d := ByPid(w, pid);
    var sd := ByServerPid(w, pid);
    if d != null {
      var w1 := Put(w, d, w.recs[d].(pid := NO_PID));
      forall es, cmd ensures Kept(w1, ExitDisplay(w1, d, es, cmd, fork), x) {
        ExitDisplayKeeps(w1, d, es, cmd, fork, x);
      }
    } else if sd != null {
      var w1 := Put(w, sd, w.recs[sd].(serverPid := NO_PID));
      RStopKeeps(w1, sd, w1.recs[sd].zstatus, fork, x);
      if w1.starting == sd {
        StartServerFailedKeeps(w1, x);
      }
    }
  }

  /** No event changes the record of a display it is not about. */
  lemma {:induction false} StepKeeps(w: World, e: Event, x: Display)
    requires x != Target(w, e)
    ensures Kept(w, Step(w, e), x)
  {
    hide Kick, Reap, StartServerTimeout, RStop, LastReserve;
    match e
    case KickDpy(d, fork, vtPending) =>
      if d in w.recs && !w.stopping {
        KickKeeps(w, d, fork, vtPending, x);
      }
    case Reaped(pid, code, fork) => ReapKeeps(w, pid, code, fork, x);
    case TimerFired(fork) =>
      if HasStarting(w) {
        TimeoutKeeps(w.(timer := Never), fork, x);
      }
    case StopDpy(d) =>
      if d in w.recs {
        RStopKeeps(w, d, DsRemove, NO_PID, x);
      }
    case _ =>
  }

  // -------------------------------------------------------- zombies, continued

  predicate IsZombie(w: World, d: Display) {
    d in w.recs && w.recs[d].status == Zombie
  }

  /** The end state last asked for `d`, `z` being the one asked for before the events. */
  function LastAsked(d: Display, z: EndState, es: seq<Event>): EndState
    decreases |es|
  {
    if es == [] then z
    else LastAsked(d, if es[0] == StopDpy(d) then DsRemove else z, es[1..])
  }

  /** A zombie stays one, towards the end last asked for, until its last process is reaped. */
  lemma {:induction false} ZombieStep(w: World, e: Event, d: Display)
    requires Inv(w) && Enabled(w, e) && IsZombie(w, d)
    ensures var w2 := Step(w, e);
      if IsZombie(w2, d) then
        w2.recs[d].zstatus == (if e == StopDpy(d) then DsRemove else w.recs[d].zstatus)
      else
        e.Reaped? && Ended(w2, d, w.recs[d].zstatus, e.fork) &&
        w.recs[d].pid in {NO_PID, e.pid} && w.recs[d].serverPid in {NO_PID, e.pid}
  {
    hide ListOk, PidsOk, Fresh, Reap, LastReserve;
    assert RecOk(w.recs[d]);
    if d != Target(w, e) {
      StepKeeps(w, e, d);
    } else if e.Reaped? {
      ReapZombie(w, e.pid, e.code, e.fork, d);
    } else if e.WakeReserve? {
      LastReserveOk(w, w.list);
    }
  }

  lemma {:induction false} ReapZombie(w: World, pid: int, code: ExitCode, fork: int, d: Display)
    requires Inv(w) && IsZombie(w, d) && pid > 0 && d == Target(w, Reaped(pid, code, fork))
    ensures var w2 := Reap(w, pid, code, fork);
      if IsZombie(w2, d) then w2.recs[d].zstatus == w.recs[d].zstatus
      else
        Ended(w2, d, w.recs[d].zstatus, fork) &&
        w.recs[d].pid in {NO_PID, pid} && w.recs[d].serverPid in {NO_PID, pid}
  {
    hide ListOk, PidsOk, Fresh, Reap, RStop;
    FindByOk(w, w.list, (r: Rec) => r.pid == pid);
    FindByOk(w, w.list, (r: Rec) => r.serverPid == pid);
    var r := w.recs[d];
    assert RecOk(r);
    if ByPid(w, pid) != null {
      ReapZombieSession(w, d, code, fork);
      RStopEnds(Put(w, d, r.(pid := NO_PID, userSess := -1)), d, r.zstatus, fork);
    } else {
      ReapZombieServer(w, d, code, fork);
      RStopEnds(Put(w, d, r.(serverPid := NO_PID)), d, r.zstatus, fork);
    }
  }

  lemma {:induction false} RStopEnds(w: World, d: Display, z: EndState, fork: int)
    requires d in w.recs
    ensures var w2 := RStop(w, d, z, fork);
      if Gone(w.recs[d]) then Ended(w2, d, z, fork) && !IsZombie(w2, d)
      else IsZombie(w2, d) && w2.recs[d].zstatus == z
  {
  }

  /**
   Over a whole run: a zombie stays a zombie, always towards the end last asked for,
   up to some event `k` that reaps its last process and puts it there.
   */
  lemma {:induction false} ZombieRun(w: World, es: seq<Event>, d: Display) returns (k: nat)
    requires Inv(w) && RunOk(w, es) && IsZombie(w, d)
    ensures k <= |es|
    ensures forall i | 0 <= i <= k ::
      IsZombie(Run(w, es[..i]), d) &&
      Run(w, es[..i]).recs[d].zstatus == LastAsked(d, w.recs[d].zstatus, es[..i])
    ensures k < |es| ==>
      es[k].Reaped? &&
      Ended(Step(Run(w, es[..k]), es[k]), d, LastAsked(d, w.recs[d].zstatus, es[..k]), es[k].fork)
    decreases |es|
  {
    hide Step, Inv;
    if es == [] {
      return 0;
    }
    ZombieStep(w, es[0], d);
    var w2 := Step(w, es[0]);
    if !IsZombie(w2, d) {
      return 0;
    }
    StepOk(w, es[0]);
    var k2 := ZombieRun(w2, es[1..], d);
    k := k2 + 1;
    forall i | 1 <= i <= k
      ensures Run(w, es[..i]) == Run(w2, es[1..][..i - 1])
      ensures LastAsked(d, w.recs[d].zstatus, es[..i]) == LastAsked(d, w2.recs[d].zstatus, es[1..][..i - 1])
    {
      assert es[..i][0] == es[0] && es[..i][1..] == es[1..][..i - 1];
    }
  }
}
