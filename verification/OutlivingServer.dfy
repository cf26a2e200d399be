/**
 Two runs in which a display leaves the table while a server of it has not been reaped:
 the server does not react to SIGKILL, and the display is launched again over it.
 */
module OutlivingServer {
  import opened DisplayRecord
  import opened Lifecycle
  import opened LifecycleInvariant
  import opened LifecycleTheorems
  import opened LaunchBound
  import opened ServerProcesses
  import opened ForgottenServers

  // ---------------------------------------------- process IDs that are all new

  lemma {:induction false} NextFrom(w: World, ps: Procs, e: Event, q: (int, Display))
    requires Inv(w) && Enabled(w, e) && q in NextProcs(w, ps, e)
    ensures q in ps || (q.0 == ForkOf(e) && q.0 != NO_PID)
  {
    hide Inv, Enabled, Step;
    if q !in ps {
      NewIsFork(w, e, q.1);
    }
  }

  /** No process of the run has the ID of another one. */
  ghost predicate ForksDiffer(ps: Procs, es: seq<Event>) {
    && (forall i, j :: 0 <= i < j < |es| && ForkOf(es[i]) != NO_PID ==> ForkOf(es[i]) != ForkOf(es[j]))
    && (forall q, i :: q in ps && 0 <= i < |es| && ForkOf(es[i]) != NO_PID ==> q.0 != ForkOf(es[i]))
  }

  /** A run whose processes all have different IDs gives out none that is in use. */
  lemma {:induction false} DifferentAreNew(w: World, ps: Procs, es: seq<Event>)
    requires Inv(w) && RunOk(w, es) && ForksDiffer(ps, es)
    ensures ForksNew(w, ps, es)
    decreases |es|
  {
    hide Inv, Step, NextProcs, Enabled, Orderly;
    if es != [] {
      StepOk(w, es[0]);
      var ps2 := NextProcs(w, ps, es[0]);
      forall q, i | q in ps2 && 0 <= i < |es[1..]| && ForkOf(es[1..][i]) != NO_PID
        ensures q.0 != ForkOf(es[1..][i])
      {
        NextFrom(w, ps, es[0], q);
        assert es[1..][i] == es[i + 1];
      }
      DifferentAreNew(Step(w, es[0]), ps2, es[1..]);
    }
  }

  lemma {:induction false} RunConcat(w: World, es: seq<Event>, fs: seq<Event>)
    ensures Run(w, es + fs) == Run(Run(w, es), fs)
    ensures RunOk(w, es) && RunOk(Run(w, es), fs) ==> RunOk(w, es + fs)
    decreases |es|
  {
    hide Step, Enabled, Orderly;
    if es == [] {
      assert es + fs == fs;
    } else {
      assert (es + fs)[1..] == es[1..] + fs;
      RunConcat(Step(w, es[0]), es[1..], fs);
    }
  }

  lemma {:induction false} ProcsConcat(w: World, ps: Procs, es: seq<Event>, fs: seq<Event>)
    ensures RunProcs(w, ps, es + fs) == RunProcs(Run(w, es), RunProcs(w, ps, es), fs)
    ensures ForksNew(w, ps, es + fs) <==>
      ForksNew(w, ps, es) && ForksNew(Run(w, es), RunProcs(w, ps, es), fs)
    decreases |es|
  {
    hide Step, ForkNew, NextProcs;
    if es == [] {
      assert es + fs == fs;
    } else {
      assert (es + fs)[1..] == es[1..] + fs;
      ProcsConcat(Step(w, es[0]), NextProcs(w, ps, es[0]), es[1..], fs);
    }
  }

  /** Events that ask nothing of the operating system. */
  predicate Plain(e: Event) {
    (e.TimerFired? && e.fork == NO_PID) || e.Tick? || e.NewDisplay?
  }

  lemma {:induction false} PlainRun(w: World, es: seq<Event>)
    requires forall i :: 0 <= i < |es| ==> Plain(es[i])
    ensures RunOk(w, es)
    decreases |es|
  {
    hide Step;
    if es != [] {
      assert Plain(es[0]);
      PlainRun(Step(w, es[0]), es[1..]);
    }
  }

  // ------------------------------------------------------- a server that is stuck

  /** Two attempts, 15 seconds for the server, 5 seconds between the attempts. */
  const TWICE := Config(2, 15, 5, 4, false)

  /** `a` is being launched: its first server has PID 11. */
  function Launched(a: Display, phase: ServerStatus, expires: int, now: int): World {
    World([a], map[a := NewRec(true, Permanent, TWICE).(
                     status := Running, serverPid := 11, serverStatus := phase, startTries := 1)],
          a, At(expires), now, false, false)
  }

  function LaunchRun(a: Display): seq<Event> {
    [NewDisplay(a, true, Permanent, TWICE), KickDpy(a, 11, false)]
  }

  /** The server neither reports ready nor dies, not even of SIGKILL. */
  function StuckRun(): seq<Event> {
    [Tick(15), TimerFired(NO_PID), Tick(30), TimerFired(NO_PID)] + PauseRun()
  }

  function PauseRun(): seq<Event> {
    [Tick(40), TimerFired(NO_PID)] + [Tick(45)]
  }

  lemma {:induction false} LaunchState(a: Display)
    ensures Run(Initial(0), LaunchRun(a)) == Launched(a, Starting, 15, 0)
    ensures RunOk(Initial(0), LaunchRun(a))
  {
    var es := LaunchRun(a);
    Unroll(Initial(0), es);
    var w := Step(Initial(0), es[0]);
    assert w == World([a], map[a := NewRec(true, Permanent, TWICE)], null, Never, 0, false, false);
    assert RunOk(Step(w, es[1]), es[1..][1..]);
    assert RunOk(w, es[1..]);
  }

  lemma {:induction false} StuckState(a: Display)
    ensures Run(Launched(a, Starting, 15, 0), StuckRun()) == Launched(a, Pausing, 45, 45)
    ensures RunOk(Launched(a, Starting, 15, 0), StuckRun())
  {
    hide Run, RunOk, Launched, PauseRun, Step;
    StuckPlain();
    PlainRun(Launched(a, Starting, 15, 0), StuckRun());
    StuckKilled(a);
    StuckPaused(a);
    RunConcat(Launched(a, Starting, 15, 0),
              [Tick(15), TimerFired(NO_PID), Tick(30), TimerFired(NO_PID)], PauseRun());
  }

  lemma {:induction false} StuckPlain()
    ensures forall i :: 0 <= i < |StuckRun()| ==> Plain(StuckRun()[i])
  {
  }

  lemma {:induction false} StuckKilled(a: Display)
    ensures Run(Launched(a, Starting, 15, 0), [Tick(15), TimerFired(NO_PID), Tick(30), TimerFired(NO_PID)]) ==
      Launched(a, Killed, 40, 30)
  {
    hide Run, Step;
    Unroll(Launched(a, Starting, 15, 0), [Tick(15), TimerFired(NO_PID), Tick(30), TimerFired(NO_PID)]);
    StuckAsked(a);
    hide Launched;
    StuckStill(a);
  }

  lemma {:induction false} StuckAsked(a: Display)
    ensures Step(Step(Launched(a, Starting, 15, 0), Tick(15)), TimerFired(NO_PID)) == Launched(a, Terminated, 30, 15)
  {
  }

  lemma {:induction false} StuckStill(a: Display)
    ensures Step(Step(Launched(a, Terminated, 30, 15), Tick(30)), TimerFired(NO_PID)) == Launched(a, Killed, 40, 30)
  {
  }

  lemma {:induction false} StuckPaused(a: Display)
    ensures Run(Launched(a, Killed, 40, 30), PauseRun()) == Launched(a, Pausing, 45, 45)
  {
    Unroll(Launched(a, Killed, 40, 30), PauseRun());
    assert Step(Step(Launched(a, Killed, 40, 30), Tick(40)), TimerFired(NO_PID)) == Launched(a, Pausing, 45, 40);
  }

  function ToPausing(a: Display): seq<Event> {
    LaunchRun(a) + StuckRun()
  }

  lemma {:induction false} PausingState(a: Display)
    ensures Run(Initial(0), ToPausing(a)) == Launched(a, Pausing, 45, 45)
    ensures RunOk(Initial(0), ToPausing(a))
  {
    hide *;
    LaunchState(a);
    StuckState(a);
    RunConcat(Initial(0), LaunchRun(a), StuckRun());
    assert ToPausing(a) == LaunchRun(a) + StuckRun() by { hide *; ToPausingIs(a); }
  }

  lemma {:induction false} ToPausingIs(a: Display)
    ensures ToPausing(a) == LaunchRun(a) + StuckRun()
    ensures forall i :: 0 <= i < |ToPausing(a)| && ForkOf(ToPausing(a)[i]) != NO_PID ==>
      i == 1 && ForkOf(ToPausing(a)[i]) == 11
  {
  }

  // --------------------------------------------------------------- the two ends

  /** A run that goes on from there, with processes that are all new. */
  lemma {:induction false} GoesOn(a: Display, fs: seq<Event>)
    requires RunOk(Launched(a, Pausing, 45, 45), fs)
    requires forall i, j :: 0 <= i < j < |fs| && ForkOf(fs[i]) != NO_PID ==> ForkOf(fs[i]) != ForkOf(fs[j])
    requires forall i :: 0 <= i < |fs| ==> ForkOf(fs[i]) != 11
    ensures var es := ToPausing(a) + fs;
      RunOk(Initial(0), es) && ForksNew(Initial(0), {}, es)
      && Run(Initial(0), es) == Run(Launched(a, Pausing, 45, 45), fs)
  {
    hide Step, Run, RunOk, ToPausing, ForksNew, ForkOf, Initial, Launched;
    PausingState(a);
    ToPausingIs(a);
    RunConcat(Initial(0), ToPausing(a), fs);
    InitialInv(0);
    DifferentAreNew(Initial(0), {}, ToPausing(a) + fs);
  }

  /** The stuck server is there when the display is about to be launched again. */
  lemma {:induction false} StuckIsThere(a: Display)
    ensures (11, a) in RunProcs(Initial(0), {}, ToPausing(a))
    ensures Run(Initial(0), ToPausing(a)) == Launched(a, Pausing, 45, 45)
    ensures RunOk(Initial(0), ToPausing(a)) && ForksNew(Initial(0), {}, ToPausing(a))
  {
    hide Step, Run, RunOk, ToPausing, ForksNew, ForkOf, Initial, RunProcs;
    PausingState(a);
    PlainRun(Launched(a, Pausing, 45, 45), []);
    GoesOn(a, []);
    assert ToPausing(a) + [] == ToPausing(a);
    TrackedStart(0);
    TrackedRun(Initial(0), {}, ToPausing(a));
    assert Launched(a, Pausing, 45, 45).recs[a].serverPid == 11;
  }

  /** The last relaunch cannot fork: the record goes, and its server stays. */
  lemma {:induction false} RelaunchCannotFork(a: Display)
    ensures var es, e := ToPausing(a), TimerFired(NO_PID);
      var w, ps := Run(Initial(0), es), RunProcs(Initial(0), {}, es);
      && RunOk(Initial(0), es + [e]) && ForksNew(Initial(0), {}, es + [e])
      && a in w.recs && a !in Step(w, e).recs && RelaunchFails(w, e, a)
      && (11, a) in NextProcs(w, ps, e)
  {
    StuckIsThere(a);
    hide Run, RunOk, ToPausing, ForksNew, Initial, RunProcs;
    CannotForkStep(a);
    GoesOn(a, [TimerFired(NO_PID)]);
  }

  lemma {:induction false} CannotForkStep(a: Display)
    ensures var w := Launched(a, Pausing, 45, 45);
      a in w.recs && a !in Step(w, TimerFired(NO_PID)).recs && RelaunchFails(w, TimerFired(NO_PID), a)
      && RunOk(w, [TimerFired(NO_PID)])
  {
  }

  /**
   The last relaunch does fork, which makes the record forget the stuck server. The new
   server dies, the record goes, and the stuck server stays.
   */
  lemma {:induction false} SecondServerDies(a: Display)
    ensures var es, e := ToPausing(a) + [TimerFired(12)], Reaped(12, ExOther, NO_PID);
      var w, ps := Run(Initial(0), es), RunProcs(Initial(0), {}, es);
      && RunOk(Initial(0), es + [e]) && ForksNew(Initial(0), {}, es + [e])
      && a in w.recs && a !in Step(w, e).recs
      && (11, a) in Forgotten(w, ps) && (11, a) in NextProcs(w, ps, e)
      && !RelaunchFails(w, e, a)
    ensures var w := Run(Initial(0), ToPausing(a));
      a in w.recs && Relaunches(w, TimerFired(12), a) && !RelaunchFails(w, TimerFired(12), a)
  {
    var es1, e, e2 := ToPausing(a), TimerFired(12), Reaped(12, ExOther, NO_PID);
    StuckIsThere(a);
    RelaunchSteps(a);
    hide Run, RunOk, ToPausing, ForksNew, Initial, RunProcs, Launched, Step, RelaunchFails, NextProcs;
    GoesOn(a, [e]);
    GoesOn(a, [e, e2]);
    assert es1 + [e] + [e2] == es1 + [e, e2];
    OneMore(Initial(0), {}, es1, e);
    hide Forgotten;
    ForgottenInRuns(0, es1, e, (11, a));
    OnlyReapedGoes(Run(Initial(0), es1 + [e]), RunProcs(Initial(0), {}, es1 + [e]), e2, (11, a));
  }

  lemma {:induction false} OnlyReapedGoes(w: World, ps: Procs, e: Event, q: (int, Display))
    requires q in Forgotten(w, ps) && !Reaps(e, q.0)
    ensures q in NextProcs(w, ps, e)
  {
    hide Step;
  }

  lemma {:induction false} OneMore(w: World, ps: Procs, es: seq<Event>, e: Event)
    ensures RunProcs(w, ps, es + [e]) == NextProcs(Run(w, es), RunProcs(w, ps, es), e)
    ensures ForksNew(w, ps, es + [e]) ==> ForkNew(RunProcs(w, ps, es), e)
    ensures Run(w, es + [e]) == Step(Run(w, es), e)
  {
    hide Step, ForkNew, NextProcs;
    ProcsConcat(w, ps, es, [e]);
    RunConcat(w, es, [e]);
  }

  /** The state after the second launch. */
  function Relaunched(a: Display): World {
    World([a], map[a := NewRec(true, Permanent, TWICE).(
                     status := Running, serverPid := 12, serverStatus := Starting, startTries := 2)],
          a, At(60), 45, false, false)
  }

  lemma {:induction false} RelaunchStep(a: Display)
    ensures var w, e := Launched(a, Pausing, 45, 45), TimerFired(12);
      && Enabled(w, e) && a in w.recs && Relaunches(w, e, a) && !RelaunchFails(w, e, a)
      && w.recs[a].serverPid == 11 && Step(w, e) == Relaunched(a)
  {
  }

  lemma {:induction false} DiesStep(a: Display)
    ensures var w, e := Relaunched(a), Reaped(12, ExOther, NO_PID);
      Enabled(w, e) && a in w.recs && a !in Step(w, e).recs && !RelaunchFails(w, e, a)
  {
    var w := Relaunched(a);
    assert ByPid(w, 12) == null by {
      assert FindBy(w, [a], (r: Rec) => r.pid == 12) == FindBy(w, [], (r: Rec) => r.pid == 12);
    }
    assert ByServerPid(w, 12) == a by {
      assert FindBy(w, [a], (r: Rec) => r.serverPid == 12) == a;
    }
    hide ByPid, ByServerPid;
  }

  lemma {:induction false} RelaunchSteps(a: Display)
    ensures var w, e, e2 := Launched(a, Pausing, 45, 45), TimerFired(12), Reaped(12, ExOther, NO_PID);
      && Enabled(w, e) && RunOk(w, [e]) && RunOk(w, [e, e2]) && a in w.recs && w.recs[a].serverPid == 11
      && Relaunches(w, e, a) && !RelaunchFails(w, e, a)
      && a in Step(w, e).recs && a !in Step(Step(w, e), e2).recs && !RelaunchFails(Step(w, e), e2, a)
  {
    hide Step, Relaunches, RelaunchFails, Launched, Relaunched, Enabled;
    RelaunchStep(a);
    DiesStep(a);
    var w, e, e2 := Launched(a, Pausing, 45, 45), TimerFired(12), Reaped(12, ExOther, NO_PID);
    assert RunOk(Step(w, e), [e2]);
    assert [e, e2][1..] == [e2];
  }
}
