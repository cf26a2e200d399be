/**
 What the exit code of a session means for its display: which ends are followed by another
 session, and which of those on a new server.
 */
module SessionEnds {
  import opened DisplayRecord
  import opened Lifecycle
  import opened LifecycleInvariant
  import opened LifecycleTheorems
  import opened ServerProcesses

  // ------------------------------------------------------------ what codes ask for

  /** The display could not be opened, or the session was killed before it was. */
  predicate IsFailure(code: ExitCode) {
    code in {ExOpenFailed, SigTerm}
  }

  /** The server is not fit for another session. */
  predicate SpoilsServer(code: ExitCode) {
    code in {ExReserver, ExAlReserver, ExOpenFailed, SigTerm}
  }

  /** There is to be another session on a display of that kind. */
  predicate WantsAnother(code: ExitCode, lifetime: Lifetime) {
    SpoilsServer(code) || (code == ExNormal && lifetime != ReserveDpy)
  }

  /** What is to become of the display if there is not. */
  predicate WantsEnd(code: ExitCode, lifetime: Lifetime, es: EndState) {
    match es
    case DsRemove => code in {ExUnmanage, ExOther}
    case DsRemote => code == ExRemote
    case DsReserve => code == ExReserve || (code == ExNormal && lifetime == ReserveDpy)
    case DsRestart => false
  }

  /** A failure that is one too many: within two minutes on a local display, or after enough tries on another. */
  predicate GivesUp(r: Rec, code: ExitCode, now: int) {
    IsFailure(code) && if r.isLocal then now < r.lastStart + 120 else r.startTries >= r.cfg.startAttempts
  }

  /** The record with its session gone and counted. */
  predicate SameButEnded(r: Rec, r2: Rec) {
    r2.(status := r.status, zstatus := r.zstatus, startTries := r.startTries, serverPid := r.serverPid) ==
    r.(pid := NO_PID, userSess := -1)
  }

  /** The display has ended: with its server alive it waits as a zombie, else it is where it was to be. */
  ghost predicate EndsIn(w: World, w2: World, d: Display, es: EndState, fork: int)
    requires d in w.recs
  {
    var r := w.recs[d];
    if r.serverPid != NO_PID then
      && d in w2.recs && SameButEnded(r, w2.recs[d]) && w2.recs[d].serverPid == r.serverPid
      && w2.recs[d].status == Zombie && w2.recs[d].zstatus == es
    else if es == DsReserve then
      d in w2.recs && SameButEnded(r, w2.recs[d]) && w2.recs[d].status == Reserve && w2.recs[d].serverPid == NO_PID
    else if es == DsRemote then
      && d in w2.recs && SameButEnded(r, w2.recs[d]) && w2.recs[d].serverPid == fork
      && w2.recs[d].status == if fork == NO_PID then NotRunning else RemoteLogin
    else d !in w2.recs
  }

  /** The display goes on: idle, or as a phoenix if its server has to go first. */
  ghost predicate GoesOn(w: World, w2: World, d: Display, newServer: bool, tries: int)
    requires d in w.recs
  {
    var r := w.recs[d];
    && d in w2.recs && SameButEnded(r, w2.recs[d]) && w2.recs[d].serverPid == r.serverPid
    && w2.recs[d].zstatus == r.zstatus && w2.recs[d].startTries == tries
    && w2.recs[d].status == if newServer && r.serverPid != NO_PID then Phoenix else NotRunning
  }

  // ---------------------------------------------------------------- the exit codes

  lemma {:induction false} SessionFound(w: World, d: Display, code: ExitCode, fork: int)
    requires Inv(w) && d in w.recs && w.recs[d].pid != NO_PID
    ensures Step(w, Reaped(w.recs[d].pid, code, fork)) == ReapSession(w, d, code, fork)
    ensures w.recs[d].serverStatus == Ignore
  {
    hide ReapSession;
    assert RecOk(w.recs[d]);
    PidOwner(w, d);
  }

  /** A record like that of `d`, but for the session and the tries, is stopped towards `es`. */
  lemma {:induction false} StoppedEnds(w: World, d: Display, r1: Rec, es: EndState, fork: int)
    requires d in w.recs && w.recs[d].serverStatus == Ignore
    requires r1 == w.recs[d].(pid := NO_PID, userSess := -1, startTries := r1.startTries)
    ensures EndsIn(w, RStop(Put(w, d, r1), d, es, fork), d, es, fork)
  {
  }

  lemma {:induction false} ExitFirst(w: World, d: Display, es: EndState, cmd: ServerCmd, fork: int)
    requires d in w.recs && w.recs[d].serverStatus == Ignore
    ensures var r := w.recs[d];
      var r1 := r.(pid := NO_PID, userSess := -1);
      var es' := if w.shutdownNow then DsRemove else es;
      ExitDisplay(Put(w, d, r.(pid := NO_PID)), d, es, cmd, fork) ==
        if r.status == Zombie then RStop(Put(w, d, r1), d, r.zstatus, fork)
        else if w.stopping then RStop(Put(w, d, r1), d, DsRemove, NO_PID)
        else if es' != DsRestart || r.lifetime == Transient then RStop(Put(w, d, r1), d, es', fork)
        else Restart(Put(w, d, r1), d, if r.status == Raiser then XsKeep else cmd)
  {
    hide RStop, Restart;
    var r := w.recs[d];
    assert Put(Put(w, d, r.(pid := NO_PID)), d, r.(pid := NO_PID, userSess := -1)) ==
           Put(w, d, r.(pid := NO_PID, userSess := -1));
  }

  /** A display that is started again, on a server that is kept or not. */
  lemma {:induction false} RestartGoesOn(w: World, d: Display, cmd: ServerCmd, now: int)
    requires d in w.recs && w.recs[d].serverStatus == Ignore && now == w.now
    ensures var r := w.recs[d];
      var w2 := Restart(Put(w, d, r.(pid := NO_PID, userSess := -1)), d, cmd);
      && (cmd != XsRetry ==> GoesOn(w, w2, d, cmd == XsRestart || r.cfg.terminateServer, 0))
      && (cmd == XsRetry && GivesUp(r, SigTerm, now) ==> EndsIn(w, w2, d, DsRemove, NO_PID))
      && (cmd == XsRetry && !GivesUp(r, SigTerm, now) ==>
            GoesOn(w, w2, d, true, if r.isLocal then r.startTries else r.startTries + 1))
  {
    hide RStop, EndsIn;
    var r := w.recs[d];
    var r1 := r.(pid := NO_PID, userSess := -1);
    var tries := if cmd != XsRetry then 0 else if r.isLocal then r.startTries else r.startTries + 1;
    StoppedEnds(w, d, r1.(startTries := tries), DsRemove, NO_PID);
    assert Put(Put(w, d, r1), d, r1.(startTries := tries)) == Put(w, d, r1.(startTries := tries));
  }

  /** Nothing but the exit code decides about the display. */
  predicate Undisturbed(w: World, d: Display) {
    && d in w.recs && w.recs[d].pid != NO_PID && w.recs[d].serverStatus == Ignore
    && w.recs[d].lifetime != Transient && !w.stopping && !w.shutdownNow
  }

  lemma {:induction false} ToEnd(w: World, d: Display, es: EndState, cmd: ServerCmd, fork: int)
    requires Undisturbed(w, d) && w.recs[d].status in {Running, Raiser} && es != DsRestart
    ensures EndsIn(w, ExitDisplay(Put(w, d, w.recs[d].(pid := NO_PID)), d, es, cmd, fork), d, es, fork)
  {
    hide RStop, Restart, ExitDisplay, EndsIn;
    ExitFirst(w, d, es, cmd, fork);
    StoppedEnds(w, d, w.recs[d].(pid := NO_PID, userSess := -1), es, fork);
  }

  lemma {:induction false} ToRestart(w: World, d: Display, cmd: ServerCmd, fork: int)
    requires Undisturbed(w, d) && w.recs[d].status in {Running, Raiser}
    ensures var r := w.recs[d];
      var w2 := ExitDisplay(Put(w, d, r.(pid := NO_PID)), d, DsRestart, cmd, fork);
      var c := if r.status == Raiser then XsKeep else cmd;
      && (c != XsRetry ==> GoesOn(w, w2, d, c == XsRestart || r.cfg.terminateServer, 0))
      && (c == XsRetry && GivesUp(r, SigTerm, w.now) ==> EndsIn(w, w2, d, DsRemove, fork))
      && (c == XsRetry && !GivesUp(r, SigTerm, w.now) ==>
            GoesOn(w, w2, d, true, if r.isLocal then r.startTries else r.startTries + 1))
  {
    hide RStop, Restart, ExitDisplay, EndsIn, GoesOn;
    ExitFirst(w, d, DsRestart, cmd, fork);
    var c := if w.recs[d].status == Raiser then XsKeep else cmd;
    RestartGoesOn(w, d, c, w.now);
    var w2 := Restart(Put(w, d, w.recs[d].(pid := NO_PID, userSess := -1)), d, c);
    if EndsIn(w, w2, d, DsRemove, NO_PID) {
      RemovalForksNot(w, w2, d, fork);
    }
  }

  /** It does not matter what a fork for a removal would have given. */
  lemma {:induction false} RemovalForksNot(w: World, w2: World, d: Display, fork: int)
    requires d in w.recs && EndsIn(w, w2, d, DsRemove, NO_PID)
    ensures EndsIn(w, w2, d, DsRemove, fork)
  {
  }

  lemma {:induction false} InvUndisturbed(w: World, d: Display)
    requires Inv(w) && d in w.recs && w.recs[d].pid != NO_PID
    ensures w.recs[d].serverStatus == Ignore
  {
    assert RecOk(w.recs[d]);
  }

  /** The wishes exclude each other, and every code has one. */
  lemma {:induction false} OneWish(code: ExitCode, lifetime: Lifetime)
    ensures WantsAnother(code, lifetime) <==> forall es :: !WantsEnd(code, lifetime, es)
    ensures forall es, fs :: WantsEnd(code, lifetime, es) && WantsEnd(code, lifetime, fs) ==> es == fs
  {
    assert code == ExRemote ==> WantsEnd(code, lifetime, DsRemote);
    assert code == ExReserve || (code == ExNormal && lifetime == ReserveDpy) ==> WantsEnd(code, lifetime, DsReserve);
    assert code in {ExUnmanage, ExOther} ==> WantsEnd(code, lifetime, DsRemove);
  }

  /** What the code decides for a running display. */
  ghost predicate Decided(w: World, w2: World, d: Display, code: ExitCode, fork: int)
    requires d in w.recs
  {
    var r := w.recs[d];
    && (WantsAnother(code, r.lifetime) && !GivesUp(r, code, w.now) ==>
          GoesOn(w, w2, d, SpoilsServer(code) || r.cfg.terminateServer,
                 if !IsFailure(code) then 0 else if r.isLocal then r.startTries else r.startTries + 1))
    && (WantsAnother(code, r.lifetime) && GivesUp(r, code, w.now) ==> EndsIn(w, w2, d, DsRemove, fork))
    && (forall es :: WantsEnd(code, r.lifetime, es) ==> EndsIn(w, w2, d, es, fork))
  }

  lemma {:induction false} EndDecided(w: World, d: Display, code: ExitCode, fork: int)
    requires Undisturbed(w, d) && w.recs[d].status == Running && code in {ExRemote, ExReserve, ExUnmanage, ExOther}
    ensures Decided(w, ReapSession(w, d, code, fork), d, code, fork)
  {
    hide ExitDisplay, EndsIn, GoesOn, GivesUp;
    assert !WantsAnother(code, w.recs[d].lifetime);
    var es := if code == ExRemote then DsRemote else if code == ExReserve then DsReserve else DsRemove;
    ToEnd(w, d, es, XsKeep, fork);
    assert forall fs :: WantsEnd(code, w.recs[d].lifetime, fs) ==> fs == es;
  }

  lemma {:induction false} NormalDecided(w: World, d: Display, fork: int)
    requires Undisturbed(w, d) && w.recs[d].status == Running
    ensures Decided(w, ReapSession(w, d, ExNormal, fork), d, ExNormal, fork)
  {
    hide ExitDisplay, EndsIn, GoesOn;
    if w.recs[d].lifetime == ReserveDpy {
      ToEnd(w, d, DsReserve, XsKeep, fork);
    } else {
      ToRestart(w, d, XsKeep, fork);
    }
  }

  lemma {:induction false} SpoiledDecided(w: World, d: Display, code: ExitCode, fork: int)
    requires Undisturbed(w, d) && w.recs[d].status == Running && SpoilsServer(code)
    ensures Decided(w, ReapSession(w, d, code, fork), d, code, fork)
  {
    hide ExitDisplay, EndsIn, GoesOn;
    assert forall es :: !WantsEnd(code, w.recs[d].lifetime, es);
    ToRestart(w, d, if IsFailure(code) then XsRetry else XsRestart, fork);
  }

  /**
   A running display that may go on: what follows from the exit code of its session, and
   from nothing else but its kind, its server, its failures so far and `terminateServer`.
   */
  lemma {:induction false} CodeDecides(w: World, d: Display, code: ExitCode, fork: int)
    requires Inv(w) && d in w.recs && w.recs[d].pid != NO_PID && w.recs[d].status == Running
    requires w.recs[d].lifetime != Transient && !w.stopping && !w.shutdownNow
    ensures Decided(w, Step(w, Reaped(w.recs[d].pid, code, fork)), d, code, fork)
  {
    InvUndisturbed(w, d);
    hide Inv, ReapSession, Decided, Step;
    SessionFound(w, d, code, fork);
    if SpoilsServer(code) {
      SpoiledDecided(w, d, code, fork);
    } else if code == ExNormal {
      NormalDecided(w, d, fork);
    } else {
      EndDecided(w, d, code, fork);
    }
  }

  /** In particular: when its server has to go before the next session. */
  lemma {:induction false} PhoenixExactly(w: World, d: Display, code: ExitCode, fork: int)
    requires Inv(w) && d in w.recs && w.recs[d].pid != NO_PID && w.recs[d].status == Running
    requires w.recs[d].lifetime != Transient && !w.stopping && !w.shutdownNow
    ensures var r, w2 := w.recs[d], Step(w, Reaped(w.recs[d].pid, code, fork));
      d in w2.recs && w2.recs[d].status == Phoenix <==>
        && r.serverPid != NO_PID && WantsAnother(code, r.lifetime) && !GivesUp(r, code, w.now)
        && (r.cfg.terminateServer || SpoilsServer(code))
  {
    CodeDecides(w, d, code, fork);
    hide Inv, Step;
    if !WantsAnother(code, w.recs[d].lifetime) {
      OneWish(code, w.recs[d].lifetime);
      var es :| WantsEnd(code, w.recs[d].lifetime, es);
    }
  }

  /** A session that was asked to end is no failure, and leaves its server unless all have to go. */
  lemma {:induction false} RaiserGoesOn(w: World, d: Display, code: ExitCode, fork: int)
    requires Inv(w) && d in w.recs && w.recs[d].pid != NO_PID && w.recs[d].status == Raiser
    requires w.recs[d].lifetime != Transient && !w.stopping && !w.shutdownNow
    ensures var r, w2 := w.recs[d], Step(w, Reaped(w.recs[d].pid, code, fork));
      && (WantsAnother(code, r.lifetime) ==> GoesOn(w, w2, d, r.cfg.terminateServer, 0))
      && forall es :: WantsEnd(code, r.lifetime, es) ==> EndsIn(w, w2, d, es, fork)
  {
    InvUndisturbed(w, d);
    hide Inv, Step, ReapSession, EndsIn, GoesOn;
    SessionFound(w, d, code, fork);
    if WantsAnother(code, w.recs[d].lifetime) {
      OneWish(code, w.recs[d].lifetime);
      RaiserRestarts(w, d, code, fork);
    } else {
      RaiserStops(w, d, code, fork);
    }
  }

  lemma {:induction false} RaiserRestarts(w: World, d: Display, code: ExitCode, fork: int)
    requires Undisturbed(w, d) && w.recs[d].status == Raiser && WantsAnother(code, w.recs[d].lifetime)
    ensures GoesOn(w, ReapSession(w, d, code, fork), d, w.recs[d].cfg.terminateServer, 0)
  {
    hide ExitDisplay, EndsIn, GoesOn;
    ToRestart(w, d, if IsFailure(code) then XsRetry else if SpoilsServer(code) then XsRestart else XsKeep, fork);
  }

  lemma {:induction false} RaiserStops(w: World, d: Display, code: ExitCode, fork: int)
    requires Undisturbed(w, d) && w.recs[d].status == Raiser && !WantsAnother(code, w.recs[d].lifetime)
    ensures forall es :: WantsEnd(code, w.recs[d].lifetime, es) ==> EndsIn(w, ReapSession(w, d, code, fork), d, es, fork)
  {
    hide ExitDisplay, EndsIn, GoesOn;
    forall es | WantsEnd(code, w.recs[d].lifetime, es)
      ensures EndsIn(w, ReapSession(w, d, code, fork), d, es, fork)
    {
      ToEnd(w, d, es, XsKeep, fork);
    }
  }

  /** With a stop or a due shutdown, or on a transient display, there is no next session, whatever the code. */
  lemma {:induction false} NoneFollows(w: World, d: Display, code: ExitCode, fork: int)
    requires Inv(w) && d in w.recs && w.recs[d].pid != NO_PID && w.recs[d].status in {Running, Raiser}
    ensures var r, w2 := w.recs[d], Step(w, Reaped(w.recs[d].pid, code, fork));
      && (w.stopping || w.shutdownNow ==> EndsIn(w, w2, d, DsRemove, fork))
      && (!w.stopping && !w.shutdownNow && r.lifetime == Transient ==>
            forall es :: (if WantsAnother(code, r.lifetime) then es == DsRestart else WantsEnd(code, r.lifetime, es)) ==>
              EndsIn(w, w2, d, es, fork))
  {
    InvUndisturbed(w, d);
    hide Inv, EndsIn, Step, RStop, Restart, ExitDisplay;
    SessionFound(w, d, code, fork);
    var r1 := w.recs[d].(pid := NO_PID, userSess := -1);
    StoppedEnds(w, d, r1, DsRemove, NO_PID);
    RemovalForksNot(w, RStop(Put(w, d, r1), d, DsRemove, NO_PID), d, fork);
    forall es, cmd
      ensures EndsAs(w, d, es, cmd, fork)
    {
      ExitFirst(w, d, es, cmd, fork);
      StoppedEnds(w, d, r1, if w.shutdownNow then DsRemove else es, fork);
    }
    assert code == ExNormal && w.recs[d].lifetime == Transient ==> WantsAnother(code, w.recs[d].lifetime);
    hide EndsAs;
    NoneByCode(w, d, code, fork);
  }

  /** The session is told to end in `es`, and none follows. */
  ghost predicate EndsAs(w: World, d: Display, es: EndState, cmd: ServerCmd, fork: int)
    requires d in w.recs
  {
    var w2 := ExitDisplay(Put(w, d, w.recs[d].(pid := NO_PID)), d, es, cmd, fork);
    w.stopping || w.shutdownNow || w.recs[d].lifetime == Transient ==>
      EndsIn(w, w2, d, if w.stopping || w.shutdownNow then DsRemove else es, fork)
  }

  lemma {:induction false} NoneByCode(w: World, d: Display, code: ExitCode, fork: int)
    requires d in w.recs && forall es, cmd :: EndsAs(w, d, es, cmd, fork)
    ensures var r, w2 := w.recs[d], ReapSession(w, d, code, fork);
      && (w.stopping || w.shutdownNow ==> EndsIn(w, w2, d, DsRemove, fork))
      && (!w.stopping && !w.shutdownNow && r.lifetime == Transient ==>
            forall es :: (if WantsAnother(code, r.lifetime) then es == DsRestart else WantsEnd(code, r.lifetime, es)) ==>
              EndsIn(w, w2, d, es, fork))
  {
    hide EndsIn, ExitDisplay;
    match code
    case ExRemote => assert EndsAs(w, d, DsRemote, XsKeep, fork);
    case ExNormal =>
      assert EndsAs(w, d, DsReserve, XsKeep, fork);
      assert EndsAs(w, d, DsRestart, XsKeep, fork);
    case ExReserve => assert EndsAs(w, d, DsReserve, XsKeep, fork);
    case ExOpenFailed => assert EndsAs(w, d, DsRestart, XsRetry, fork);
    case SigTerm => assert EndsAs(w, d, DsRestart, XsRetry, fork);
    case ExAlReserver => assert EndsAs(w, d, DsRestart, XsRestart, fork);
    case ExReserver => assert EndsAs(w, d, DsRestart, XsRestart, fork);
    case ExUnmanage => assert EndsAs(w, d, DsRemove, XsKeep, fork);
    case ExOther => assert EndsAs(w, d, DsRemove, XsKeep, fork);
  }

  // ------------------------------------------------------ no session on a spoilt server

  /** The display waits for its old server to die, without a session. */
  predicate WaitsFor(w: World, d: Display, server: int) {
    && d in w.recs && w.recs[d].serverPid == server && w.recs[d].pid == NO_PID
    && w.recs[d].status in {Phoenix, Zombie}
  }

  /** That is so when its server is spoilt, whatever else is going on. */
  lemma {:induction false} SpoiltWaits(w: World, d: Display, code: ExitCode, fork: int)
    requires Inv(w) && d in w.recs && w.recs[d].pid != NO_PID && w.recs[d].serverPid != NO_PID
    requires w.recs[d].status == Running && SpoilsServer(code)
    ensures WaitsFor(Step(w, Reaped(w.recs[d].pid, code, fork)), d, w.recs[d].serverPid)
  {
    hide Inv, Step;
    if w.stopping || w.shutdownNow || w.recs[d].lifetime == Transient {
      NoneFollows(w, d, code, fork);
      assert WantsAnother(code, w.recs[d].lifetime);
      assert EndsIn(w, Step(w, Reaped(w.recs[d].pid, code, fork)), d, DsRemove, fork)
          || EndsIn(w, Step(w, Reaped(w.recs[d].pid, code, fork)), d, DsRestart, fork);
    } else {
      CodeDecides(w, d, code, fork);
    }
  }

  lemma {:induction false} WaitsKicked(w: World, d: Display, server: int, fork: int, vtPending: bool)
    requires Inv(w) && WaitsFor(w, d, server) && !w.stopping
    ensures Kick(w, d, fork, vtPending) == w
  {
    assert RecOk(w.recs[d]);
    hide StartServer, StartDisplay;
  }

  lemma {:induction false} WaitsStopped(w: World, d: Display, server: int)
    requires WaitsFor(w, d, server) && server != NO_PID
    ensures WaitsFor(Stop(w, d), d, server)
  {
  }

  /** It goes on waiting as long as the server is not reaped. */
  lemma {:induction false} WaitsStep(w: World, e: Event, d: Display, server: int)
    requires Inv(w) && Enabled(w, e) && WaitsFor(w, d, server) && server != NO_PID && !Reaps(e, server)
    ensures WaitsFor(Step(w, e), d, server)
  {
    hide ListOk, PidsOk, Fresh, Kick, Reap, StartServerTimeout, StartServerSuccess, RStop, LastReserve;
    assert RecOk(w.recs[d]);
    if d != Target(w, e) {
      StepKeeps(w, e, d);
    } else {
      WaitsTarget(w, e, d, server);
    }
  }

  lemma {:induction false} WaitsTarget(w: World, e: Event, d: Display, server: int)
    requires Inv(w) && Enabled(w, e) && WaitsFor(w, d, server) && server != NO_PID && !Reaps(e, server)
    requires d == Target(w, e)
    ensures WaitsFor(Step(w, e), d, server)
  {
    hide ListOk, PidsOk, Fresh, Kick, Reap, StartServerTimeout, StartServerSuccess, RStop, LastReserve, Target;
    assert RecOk(w.recs[d]);
    if e.Reaped? {
      ReapSources(w, e.pid, e.code, e.fork, d);
    } else if e.KickDpy? {
      assert e.d == d by { TargetIs(w, e); }
      if !w.stopping {
        WaitsKicked(w, d, server, e.fork, e.vtPending);
      }
    } else if e.StopDpy? {
      assert e.d == d by { TargetIs(w, e); }
      WaitsStopped(w, d, server);
    } else if e.TimerFired? || e.ServerReady? {
      assert d == w.starting by { TargetIs(w, e); }
      WaitsNotStarted(w, e, d, server);
    } else {
      WaitsTouched(w, e, d, server);
    }
  }

  lemma {:induction false} WaitsNotStarted(w: World, e: Event, d: Display, server: int)
    requires Inv(w) && WaitsFor(w, d, server) && d == w.starting && (e.TimerFired? || e.ServerReady?)
    ensures Step(w, e) == w
  {
    hide ListOk, PidsOk, StartServerTimeout, StartServerSuccess;
    assert RecOk(w.recs[d]);
  }

  lemma {:induction false} TargetIs(w: World, e: Event)
    ensures e.KickDpy? || e.StopDpy? ==> Target(w, e) == e.d
    ensures e.TimerFired? || e.ServerReady? ==> Target(w, e) == w.starting
  {
  }

  lemma {:induction false} WaitsTouched(w: World, e: Event, d: Display, server: int)
    requires WaitsFor(w, d, server) && !e.Reaped? && !e.KickDpy? && !e.StopDpy? && !e.TimerFired? && !e.ServerReady?
    ensures WaitsFor(Step(w, e), d, server)
  {
    hide LastReserve, RStop, Kick, Reap, StartServerTimeout, StartServerSuccess;
    LastReserveOk(w, w.list);
  }

  lemma {:induction false} WaitsRun(w: World, es: seq<Event>, d: Display, server: int)
    requires Inv(w) && RunOk(w, es) && WaitsFor(w, d, server) && server != NO_PID
    requires forall e :: e in es ==> !Reaps(e, server)
    ensures WaitsFor(Run(w, es), d, server)
    decreases |es|
  {
    hide Inv, Step, Enabled, Orderly, WaitsFor, Reaps;
    if es != [] {
      WaitsStep(w, es[0], d, server);
      StepOk(w, es[0]);
      WaitsRun(Step(w, es[0]), es[1..], d, server);
    }
  }

  /**
   Over every run: after an end that spoils the server, the display has no session as long
   as that server has not been reaped. So none is ever started on it.
   */
  lemma {:induction false} NoneOnSpoilt(w: World, d: Display, code: ExitCode, fork: int, es: seq<Event>)
    requires Inv(w) && d in w.recs && w.recs[d].pid != NO_PID && w.recs[d].serverPid != NO_PID
    requires w.recs[d].status == Running && SpoilsServer(code)
    requires var e := Reaped(w.recs[d].pid, code, fork);
      Enabled(w, e) && RunOk(Step(w, e), es)
    ensures var w2 := Run(Step(w, Reaped(w.recs[d].pid, code, fork)), es);
      d in w2.recs && w2.recs[d].pid != NO_PID ==> exists e :: e in es && Reaps(e, w.recs[d].serverPid)
  {
    hide Step, Enabled, RunOk, Run, Reaps;
    var e, server := Reaped(w.recs[d].pid, code, fork), w.recs[d].serverPid;
    SpoiltWaits(w, d, code, fork);
    StepOk(w, e);
    if forall x :: x in es ==> !Reaps(x, server) {
      WaitsRun(Step(w, e), es, d, server);
    }
  }
}
