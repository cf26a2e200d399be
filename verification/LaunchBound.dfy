/**
 How often one startServer() call launches the X server.
 */
module LaunchBound {
  import opened DisplayRecord
  import opened Lifecycle
  import opened LifecycleInvariant
  import opened LifecycleTheorems

  predicate InPhase(w: World, d: Display) {
    d in w.recs && InStart(w.recs[d].serverStatus)
  }

  predicate TimerDue(w: World, e: Event) {
    e.TimerFired? && w.timer.At? && w.now >= w.timer.time
  }

  /** The event runs startServerOnce(), and so fork(), for `d`. */
  predicate Launches(w: World, e: Event, d: Display)
  {
    d in w.recs &&
    ((TimerDue(w, e) && w.starting == d && w.recs[d].serverStatus == Pausing) ||
     CallsStartServer(w, e, d))
  }

  /** The event runs startServer() for `d`. */
  predicate CallsStartServer(w: World, e: Event, d: Display) {
    && e.KickDpy? && e.d == d && d in w.recs && !w.stopping && w.starting == null
    && (var w1 := if w.recs[d].status == NotRunning then StartDisplay(w, d, e.fork, e.vtPending) else w;
        d in w1.recs && w1.recs[d].serverStatus == Awaiting)
  }

  function CountLaunches(w: World, es: seq<Event>, d: Display): nat
    decreases |es|
  {
    if es == [] then 0
    else (if Launches(w, es[0], d) then 1 else 0) + CountLaunches(Step(w, es[0]), es[1..], d)
  }

  /** The timer or the death of the server drives the launch of `d` on. */
  predicate Drives(w: World, e: Event, d: Display)
    requires d in w.recs
  {
    (TimerDue(w, e) && w.starting == d) || (e.Reaped? && e.pid == w.recs[d].serverPid)
  }

  function CountDrives(w: World, es: seq<Event>, d: Display): nat
    decreases |es|
  {
    if es == [] || !InPhase(w, d) then 0
    else (if Drives(w, es[0], d) then 1 else 0) + CountDrives(Step(w, es[0]), es[1..], d)
  }

  /** Attempts left, then the phase, then whether the last server still lives. */
  function Rank(r: Rec): int {
    (r.cfg.serverAttempts - r.startTries) * 8 +
    (match r.serverStatus
     case Starting => 6
     case Terminated => 4
     case Killed => 2
     case _ => 0) +
    (if r.serverPid != NO_PID then 1 else 0)
  }

  lemma {:induction false} StartServerFailedRank(w: World, d: Display)
    requires HasStarting(w) && d == w.starting && w.recs[d].cfg.serverAttempts > 0
    ensures InPhase(StartServerFailed(w), d) ==>
      StartServerFailed(w).recs[d] == w.recs[d].(serverStatus := Pausing)
  {
  }

  lemma {:induction false} StartServerOnceRank(w: World, fork: int, d: Display)
    requires HasStarting(w) && d == w.starting && w.recs[d].cfg.serverAttempts > 0
    ensures var w2 := StartServerOnce(w, fork);
      InPhase(w2, d) ==>
        w2.recs[d].startTries == w.recs[d].startTries + 1 && w2.recs[d].cfg == w.recs[d].cfg &&
        Rank(w2.recs[d]) < (w.recs[d].cfg.serverAttempts - w.recs[d].startTries) * 8
  {
    hide StartServerFailed;
    var r := w.recs[d].(startTries := w.recs[d].startTries + 1, serverStatus := Starting,
                        serverPid := fork);
    StartServerFailedRank(Put(w, d, r), d);
  }

  /** How the record of a display being launched changes: `launch` and `drive` say what happened. */
  predicate Progress(r: Rec, r2: Rec, launch: bool, drive: bool) {
    && r2.cfg == r.cfg
    && r2.startTries == r.startTries + (if launch then 1 else 0)
    && Rank(r2) <= Rank(r) - (if drive then 1 else 0)
  }

  lemma {:induction false} TimerProgress(w: World, fork: int, d: Display)
    requires HasStarting(w) && d == w.starting && InPhase(w, d) && RecOk(w.recs[d])
    requires w.recs[d].cfg.serverAttempts > 0
    requires InPhase(StartServerTimeout(w, fork), d)
    ensures Progress(w.recs[d], StartServerTimeout(w, fork).recs[d],
                     w.recs[d].serverStatus == Pausing, true)
  {
    hide StartServerOnce, StartServerFailed;
    StartServerOnceRank(w, fork, d);
    StartServerFailedRank(w, d);
  }

  lemma {:induction false} ReapProgress(w: World, pid: int, code: ExitCode, fork: int, d: Display)
    requires Inv(w) && InPhase(w, d) && w.recs[d].cfg.serverAttempts > 0
    requires pid > 0 && d == Target(w, Reaped(pid, code, fork))
    requires InPhase(Reap(w, pid, code, fork), d)
    ensures pid == w.recs[d].serverPid
    ensures Progress(w.recs[d], Reap(w, pid, code, fork).recs[d], false, true)
  {
    hide ListOk, PidsOk, StartServerFailed;
    assert RecOk(w.recs[d]);
    FindByOk(w, w.list, (r: Rec) => r.pid == pid);
    FindByOk(w, w.list, (r: Rec) => r.serverPid == pid);
    StartServerFailedRank(Put(w, d, w.recs[d].(serverPid := NO_PID)), d);
  }

  /** While `d` is being launched, an event either drives the launch on or leaves it alone. */
  lemma {:induction false} PhaseStep(w: World, e: Event, d: Display)
    requires Inv(w) && Enabled(w, e) && InPhase(w, d) && w.recs[d].cfg.serverAttempts > 0
    requires InPhase(Step(w, e), d)
    ensures Progress(w.recs[d], Step(w, e).recs[d], Launches(w, e, d), Drives(w, e, d))
  {
    hide ListOk, PidsOk, Fresh, Reap, LastReserve, StartServerOnce, StartServerFailed, StartServerTimeout;
    assert RecOk(w.recs[d]);
    PidOwner(w, d);
    if e.TimerFired? {
      if TimerDue(w, e) {
        TimerProgress(w.(timer := Never), e.fork, d);
      }
    } else if d != Target(w, e) {
      StepKeeps(w, e, d);
    } else if e.Reaped? {
      ReapProgress(w, e.pid, e.code, e.fork, d);
    } else {
      QuietProgress(w, e, d);
    }
  }

  lemma {:induction false} QuietProgress(w: World, e: Event, d: Display)
    requires Inv(w) && InPhase(w, d) && d == Target(w, e) && !e.TimerFired? && !e.Reaped?
    requires InPhase(Step(w, e), d)
    ensures Progress(w.recs[d], Step(w, e).recs[d], false, false) && !Launches(w, e, d)
  {
    hide Inv, Kick, RStop, StartServerSuccess, StartDisplay, LastReserve, Progress;
    SameProgress(w.recs[d]);
    if e.KickDpy? {
      KickWaits(w, e, d);
    } else if e.ServerReady? || e.StopDpy? {
      PhaseEnds(w, e, d);
    } else {
      TouchProgress(w, e, d);
    }
  }

  lemma {:induction false} SameProgress(r: Rec)
    ensures Progress(r, r, false, false)
  {
  }

  /** A display that is being launched is not kicked into anything. */
  lemma {:induction false} KickWaits(w: World, e: Event, d: Display)
    requires Inv(w) && InPhase(w, d) && e.KickDpy? && e.d == d
    ensures Step(w, e) == w && !Launches(w, e, d)
  {
    hide ListOk, PidsOk, StartDisplay, StartServer;
    assert RecOk(w.recs[d]);
  }

  lemma {:induction false} PhaseEnds(w: World, e: Event, d: Display)
    requires Inv(w) && InPhase(w, d) && d == Target(w, e) && (e.ServerReady? || e.StopDpy?)
    requires InPhase(Step(w, e), d)
    ensures Step(w, e) == w && !Launches(w, e, d)
  {
    hide ListOk, PidsOk;
  }

  /** The other events touch nothing that a launch depends on. */
  lemma {:induction false} TouchProgress(w: World, e: Event, d: Display)
    requires Inv(w) && InPhase(w, d) && d == Target(w, e)
    requires !e.TimerFired? && !e.Reaped? && !e.KickDpy? && !e.ServerReady? && !e.StopDpy?
    requires InPhase(Step(w, e), d)
    ensures Progress(w.recs[d], Step(w, e).recs[d], false, false) && !Launches(w, e, d)
  {
    hide ListOk, PidsOk, LastReserve;
    assert RecOk(w.recs[d]);
    LastReserveOk(w, w.list);
  }

  /** All states of the run, but possibly the last, have `d` being launched. */
  ghost predicate Throughout(w: World, es: seq<Event>, d: Display)
    decreases |es|
  {
    es != [] ==> InPhase(w, d) && Throughout(Step(w, es[0]), es[1..], d)
  }

  /** The launches of a run that stays in the phases fit into the attempts that are left. */
  lemma {:induction false} LaunchesLeft(w: World, es: seq<Event>, d: Display)
    requires Inv(w) && RunOk(w, es) && Throughout(w, es, d)
    requires es != [] ==> w.recs[d].cfg.serverAttempts > 0
    ensures es != [] ==>
      CountLaunches(w, es, d) <= w.recs[d].cfg.serverAttempts - w.recs[d].startTries
    decreases |es|
  {
    hide Step, Launches, CallsStartServer, ListOk, PidsOk, Fresh;
    if es != [] {
      var w2 := Step(w, es[0]);
      StepOk(w, es[0]);
      LaunchLeavesRoom(w, es[0], d);
      if InPhase(w2, d) {
        PhaseStep(w, es[0], d);
        LaunchesLeft(w2, es[1..], d);
        assert RecOk(w2.recs[d]);
      } else {
        assert es[1..] == [];
      }
    }
  }

  lemma {:induction false} LaunchLeavesRoom(w: World, e: Event, d: Display)
    requires Inv(w) && InPhase(w, d) && w.recs[d].cfg.serverAttempts > 0
    ensures w.recs[d].startTries + (if Launches(w, e, d) then 1 else 0) <= w.recs[d].cfg.serverAttempts
  {
    assert RecOk(w.recs[d]);
  }

  /**
   One startServer() call launches the server at most `serverAttempts` times before it
   succeeds or the display is stopped: `es[0]` is the call, the rest is what happens
   until the display leaves the start phases.
   */
  lemma {:induction false} AttemptBound(w: World, es: seq<Event>, d: Display)
    requires Inv(w) && RunOk(w, es) && es != [] && CallsStartServer(w, es[0], d)
    requires Throughout(Step(w, es[0]), es[1..], d)
    requires w.recs[d].cfg.serverAttempts > 0
    ensures CountLaunches(w, es, d) <= w.recs[d].cfg.serverAttempts
  {
    hide ListOk, PidsOk, Fresh, StartServerOnce;
    var w2 := Step(w, es[0]);
    StepOk(w, es[0]);
    FirstLaunch(w, es[0], d);
    LaunchesLeft(w2, es[1..], d);
  }

  lemma {:induction false} FirstLaunch(w: World, e: Event, d: Display)
    requires Inv(w) && CallsStartServer(w, e, d) && w.recs[d].cfg.serverAttempts > 0
    ensures InPhase(Step(w, e), d) ==>
      Step(w, e).recs[d].startTries == 1 && Step(w, e).recs[d].cfg == w.recs[d].cfg
  {
    hide ListOk, PidsOk, Fresh, StartServerOnce;
    assert RecOk(w.recs[d]);
    var w1 := if w.recs[d].status == NotRunning then StartDisplay(w, d, e.fork, e.vtPending) else w;
    StartServerOnceRank(Put(w1, d, w1.recs[d].(startTries := 0)).(starting := d), e.fork, d);
  }

  /** ... and the timer and the server's deaths can drive it on only so many times. */
  lemma {:induction false} DriveBound(w: World, es: seq<Event>, d: Display)
    requires Inv(w) && RunOk(w, es)
    requires InPhase(w, d) && w.recs[d].cfg.serverAttempts > 0
    ensures CountDrives(w, es, d) <= Rank(w.recs[d]) + 1 <= 8 * w.recs[d].cfg.serverAttempts
    decreases |es|
  {
    hide Step, Drives, ListOk, PidsOk, Fresh;
    assert RecOk(w.recs[d]);
    if es != [] {
      var w2 := Step(w, es[0]);
      StepOk(w, es[0]);
      if InPhase(w2, d) {
        PhaseStep(w, es[0], d);
        DriveBound(w2, es[1..], d);
      }
    }
  }
}
