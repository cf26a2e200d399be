/**
 The server processes behind the table of displays: every one that was launched and has
 not been reaped, whether or not a record still knows it.
 */
module ForgottenServers {
  import opened DisplayRecord
  import opened Lifecycle
  import opened LifecycleInvariant
  import opened LifecycleTheorems
  import opened LaunchBound
  import opened ServerProcesses

  /** Processes, each with the display that it was launched for. */
  type Procs = set<(int, Display)>

  /** Display `d` has a server after the event that it did not have before. */
  ghost predicate NewServer(w: World, e: Event, d: Display) {
    var w2 := Step(w, e);
    && d in w2.recs && w2.recs[d].serverPid != NO_PID
    && (d in w.recs && w.recs[d].serverPid == w2.recs[d].serverPid ==> Reaps(e, w2.recs[d].serverPid))
  }

  /** The processes after an event: the reaped one is gone, and a launched one is there. */
  ghost function NextProcs(w: World, ps: Procs, e: Event): Procs {
    (set q | q in ps && !Reaps(e, q.0))
    + (set d | d in Step(w, e).recs && NewServer(w, e, d) :: (Step(w, e).recs[d].serverPid, d))
  }

  /** The processes that no record knows any more. */
  ghost function Forgotten(w: World, ps: Procs): Procs {
    set q | q in ps && !Known(w, q)
  }

  /** The operating system does not give out the number of a process that has not been reaped. */
  ghost predicate ForkNew(ps: Procs, e: Event) {
    ForkOf(e) == NO_PID || Reaps(e, ForkOf(e)) || forall q :: q in ps ==> q.0 != ForkOf(e)
  }

  /** What the processes have to do with the records. */
  ghost predicate Tracked(w: World, ps: Procs) {
    && (forall d :: d in w.recs && w.recs[d].serverPid != NO_PID ==> (w.recs[d].serverPid, d) in ps)
    && (forall q, d :: q in ps && d in w.recs ==> Owned(w.recs[d], d, q))
    && (forall q :: q in ps ==> q.0 > 0)
  }

  predicate Owned(r: Rec, d: Display, q: (int, Display)) {
    r.pid != q.0 && (r.serverPid == q.0 ==> d == q.1)
  }

  // ------------------------------------------------------- the records' share

  /** Nobody but the reaped process gives up its ID to a launched one. */
  lemma {:induction false} ReapedGone(w: World, e: Event, d: Display)
    requires Inv(w) && Enabled(w, e) && e.Reaped? && d in Step(w, e).recs
    ensures d in w.recs
    ensures var r2 := Step(w, e).recs[d];
      (r2.pid == e.pid ==> e.pid == e.fork) && (r2.serverPid == e.pid ==> e.pid == e.fork)
  {
    hide ListOk, PidsOk, Reap, Target, Fresh;
    TargetOf(w, e);
    var x := Target(w, e);
    if x != null {
      ReapSources(w, e.pid, e.code, e.fork, x);
    }
    if d != x {
      Untouched(w, e, d);
    }
  }

  lemma {:induction false} Untouched(w: World, e: Event, d: Display)
    requires Inv(w) && Enabled(w, e) && e.Reaped? && d in Step(w, e).recs && d != Target(w, e)
    ensures d in w.recs && Step(w, e).recs[d] == w.recs[d]
    ensures w.recs[d].pid != e.pid && w.recs[d].serverPid != e.pid
  {
    hide ListOk, Reap, Fresh;
    TargetOf(w, e);
    var x := Target(w, e);
    if x != null {
      ReapSources(w, e.pid, e.code, e.fork, x);
      StepKeeps(w, e, d);
      assert Apart(w.recs[x], w.recs[d]);
    } else {
      NobodyHas(w, e, d);
    }
  }

  lemma {:induction false} NobodyHas(w: World, e: Event, d: Display)
    requires Inv(w) && e.Reaped? && Target(w, e) == null && d in w.recs
    ensures w.recs[d].pid != e.pid && w.recs[d].serverPid != e.pid
  {
    hide PidsOk;
    FindByOk(w, w.list, (r: Rec) => r.pid == e.pid);
    FindByOk(w, w.list, (r: Rec) => r.serverPid == e.pid);
    assert d in w.list;
  }

  lemma {:induction false} RecIds(w: World, d: Display)
    requires Inv(w) && d in w.recs
    ensures OneRole(w.recs[d]) && PidOk(w.recs[d].pid) && PidOk(w.recs[d].serverPid)
    ensures forall x :: x in w.recs && x != d ==> Apart(w.recs[d], w.recs[x])
  {
    assert RecOk(w.recs[d]);
  }

  /** A server that is new was launched by the event. */
  lemma {:induction false} NewIsFork(w: World, e: Event, d: Display)
    requires Inv(w) && Enabled(w, e) && NewServer(w, e, d)
    ensures Step(w, e).recs[d].serverPid == ForkOf(e)
  {
    hide Inv, Enabled, Step;
    StepSources(w, e, d);
    if e.Reaped? {
      ReapedGone(w, e, d);
    }
  }

  lemma {:induction false} OldOwned(w: World, ps: Procs, e: Event, q: (int, Display), x: Display)
    requires Inv(w) && Enabled(w, e) && Tracked(w, ps) && ForkNew(ps, e)
    requires q in ps && !Reaps(e, q.0) && x in Step(w, e).recs
    ensures Owned(Step(w, e).recs[x], x, q)
  {
    hide Inv, Enabled, Step;
    StepSources(w, e, x);
    if x in w.recs {
      assert Owned(w.recs[x], x, q);
    }
  }

  lemma {:induction false} NewOwned(w: World, w2: World, d: Display, x: Display)
    requires Inv(w2) && d in w2.recs && x in w2.recs && w2.recs[d].serverPid != NO_PID
    ensures Owned(w2.recs[x], x, (w2.recs[d].serverPid, d)) && w2.recs[d].serverPid > 0
  {
    RecIds(w2, d);
    hide Inv;
  }

  /** The processes keep up with the records. */
  lemma {:induction false} TrackedStep(w: World, ps: Procs, e: Event)
    requires Inv(w) && Enabled(w, e) && Inv(Step(w, e)) && Tracked(w, ps) && ForkNew(ps, e)
    ensures Tracked(Step(w, e), NextProcs(w, ps, e))
  {
    hide Inv, Enabled, Step, ForkNew, Owned;
    var w2, ps2 := Step(w, e), NextProcs(w, ps, e);
    forall d | d in w2.recs && w2.recs[d].serverPid != NO_PID
      ensures (w2.recs[d].serverPid, d) in ps2
    {
      if !NewServer(w, e, d) {
        assert (w.recs[d].serverPid, d) in ps;
      }
    }
    forall q | q in ps2
      ensures q.0 > 0 && forall x :: x in w2.recs ==> Owned(w2.recs[x], x, q)
    {
      forall x | x in w2.recs
        ensures Owned(w2.recs[x], x, q)
      {
        if q in ps && !Reaps(e, q.0) {
          OldOwned(w, ps, e, q, x);
        } else {
          NewOwned(w, w2, q.1, x);
        }
      }
      if !(q in ps && !Reaps(e, q.0)) {
        NewOwned(w, w2, q.1, q.1);
      }
    }
  }

  // ------------------------------------------------------ how servers get lost

  /** A process becomes forgotten exactly when its display is launched anew over it. */
  lemma {:induction false} ForgottenGrows(w: World, ps: Procs, e: Event, q: (int, Display))
    requires Inv(w) && Enabled(w, e) && Inv(Step(w, e)) && Tracked(w, ps) && ForkNew(ps, e)
    ensures q in Forgotten(Step(w, e), NextProcs(w, ps, e)) && q !in Forgotten(w, ps) <==>
      Relaunches(w, e, q.1) && q.0 == w.recs[q.1].serverPid
  {
    hide Inv, Enabled, Step, ForkNew, Owned, Relaunches;
    RelaunchKnows(w, e, q.1);
    if Known(w, q) && q.0 != NO_PID {
      assert q in ps;
      if !Reaps(e, q.0) {
        ForgottenExactly(w, e, q.1);
      }
    }
  }

  lemma {:induction false} RelaunchKnows(w: World, e: Event, d: Display)
    ensures Relaunches(w, e, d) ==> d in w.recs && w.recs[d].serverPid != NO_PID && !e.Reaped?
  {
  }

  /** Some process of the display is there. */
  ghost predicate HasProc(ps: Procs, d: Display) {
    exists q :: q in ps && q.1 == d
  }

  /** When a record goes, a process of its own stays behind exactly if one was forgotten, or is with that event. */
  lemma {:induction false} RemovedLeaves(w: World, ps: Procs, e: Event, d: Display)
    requires Inv(w) && Enabled(w, e) && Inv(Step(w, e)) && Tracked(w, ps) && ForkNew(ps, e)
    requires d in w.recs && d !in Step(w, e).recs
    ensures HasProc(NextProcs(w, ps, e), d) <==>
      HasProc(Forgotten(w, ps), d) || (w.recs[d].serverPid != NO_PID && RelaunchFails(w, e, d))
    ensures w.recs[d].pid == NO_PID || Reaps(e, w.recs[d].pid)
  {
    hide Inv, Enabled, Step, ForkNew, RelaunchFails, Tracked;
    RemovedIsDead(w, e, d);
    TrackedAt(w, ps, d);
    if e.Reaped? {
      LostNotReaped(w, ps, e, d);
    }
    var ps2 := NextProcs(w, ps, e);
    assert forall q :: q in ps2 && q.1 == d ==> q in ps && !Reaps(e, q.0);
    if w.recs[d].serverPid != NO_PID && RelaunchFails(w, e, d) {
      FailIsTimer(w, e, d);
      assert (w.recs[d].serverPid, d) in ps2;
    }
    if q :| q in Forgotten(w, ps) && q.1 == d {
      assert q in ps2;
    }
    if q :| q in ps2 && q.1 == d {
      assert Known(w, q) ==> q.0 == w.recs[d].serverPid;
    }
  }

  lemma {:induction false} FailIsTimer(w: World, e: Event, d: Display)
    requires d in w.recs && RelaunchFails(w, e, d)
    ensures !e.Reaped?
  {
  }

  lemma {:induction false} TrackedAt(w: World, ps: Procs, d: Display)
    requires Tracked(w, ps) && d in w.recs
    ensures w.recs[d].serverPid != NO_PID ==> (w.recs[d].serverPid, d) in ps
    ensures forall q :: q in ps ==> q.0 > 0
  {
  }

  /** Reaping a forgotten process finds no display, and so removes none. */
  lemma {:induction false} LostNotReaped(w: World, ps: Procs, e: Event, d: Display)
    requires Inv(w) && Enabled(w, e) && Tracked(w, ps) && e.Reaped?
    requires d in w.recs && d !in Step(w, e).recs
    ensures forall q :: q in Forgotten(w, ps) && q.1 == d ==> !Reaps(e, q.0)
  {
    hide Reap, ListOk, PidsOk, Fresh, Target;
    TargetOf(w, e);
    var x := Target(w, e);
    if x != null {
      if x != d {
        StepKeeps(w, e, d);
      }
      TargetHas(w, e);
    }
    forall q | q in Forgotten(w, ps) && q.1 == d
      ensures !Reaps(e, q.0)
    {
      assert x in w.recs ==> Owned(w.recs[x], x, q);
    }
  }

  lemma {:induction false} TargetHas(w: World, e: Event)
    requires Inv(w) && Enabled(w, e) && e.Reaped? && Target(w, e) != null
    ensures var x := Target(w, e); x in w.recs && (w.recs[x].pid == e.pid || w.recs[x].serverPid == e.pid)
  {
    hide Reap, ListOk, PidsOk, Fresh, Target;
    TargetOf(w, e);
    ReapSources(w, e.pid, e.code, e.fork, Target(w, e));
  }

  // --------------------------------------------------------------------- runs

  ghost function RunProcs(w: World, ps: Procs, es: seq<Event>): Procs
    decreases |es|
  {
    if es == [] then ps else RunProcs(Step(w, es[0]), NextProcs(w, ps, es[0]), es[1..])
  }

  /** Over the run no process ID is given out that still belongs to a server. */
  ghost predicate ForksNew(w: World, ps: Procs, es: seq<Event>)
    decreases |es|
  {
    es != [] ==> ForkNew(ps, es[0]) && ForksNew(Step(w, es[0]), NextProcs(w, ps, es[0]), es[1..])
  }

  lemma {:induction false} TrackedRun(w: World, ps: Procs, es: seq<Event>)
    requires Inv(w) && Tracked(w, ps) && RunOk(w, es) && ForksNew(w, ps, es)
    ensures Inv(Run(w, es)) && Tracked(Run(w, es), RunProcs(w, ps, es))
    decreases |es|
  {
    hide Inv, Step, Tracked, NextProcs, Enabled, Orderly, ForkNew;
    if es != [] {
      StepOk(w, es[0]);
      TrackedStep(w, ps, es[0]);
      TrackedRun(Step(w, es[0]), NextProcs(w, ps, es[0]), es[1..]);
    }
  }

  lemma {:induction false} TrackedStart(now: int)
    ensures Inv(Initial(now)) && Tracked(Initial(now), {})
  {
    InitialInv(now);
  }

  /**
   In every reachable state: a record is removed while a server that was launched for it
   has not been reaped exactly if a server of it was forgotten before, or the last
   relaunch forgets one now and cannot fork. Its session is gone in any case.
   */
  lemma {:induction false} RemovedWithServer(now: int, es: seq<Event>, e: Event, d: Display)
    requires RunOk(Initial(now), es) && ForksNew(Initial(now), {}, es)
    requires var w, ps := Run(Initial(now), es), RunProcs(Initial(now), {}, es);
      && Enabled(w, e) && Orderly(w, e) && ForkNew(ps, e)
      && d in w.recs && d !in Step(w, e).recs
    ensures var w, ps := Run(Initial(now), es), RunProcs(Initial(now), {}, es);
      && (HasProc(NextProcs(w, ps, e), d) <==>
            HasProc(Forgotten(w, ps), d) || (w.recs[d].serverPid != NO_PID && RelaunchFails(w, e, d)))
      && (w.recs[d].pid == NO_PID || Reaps(e, w.recs[d].pid))
  {
    hide Inv, Step, Tracked, NextProcs, Enabled, Orderly, ForkNew, Run, RunProcs, RunOk, ForksNew, Forgotten, HasProc;
    TrackedStart(now);
    TrackedRun(Initial(now), {}, es);
    StepOk(Run(Initial(now), es), e);
    RemovedLeaves(Run(Initial(now), es), RunProcs(Initial(now), {}, es), e, d);
  }

  /** ... and servers are forgotten in no other way. */
  lemma {:induction false} ForgottenInRuns(now: int, es: seq<Event>, e: Event, q: (int, Display))
    requires RunOk(Initial(now), es) && ForksNew(Initial(now), {}, es)
    requires var w, ps := Run(Initial(now), es), RunProcs(Initial(now), {}, es);
      Enabled(w, e) && Orderly(w, e) && ForkNew(ps, e)
    ensures var w, ps := Run(Initial(now), es), RunProcs(Initial(now), {}, es);
      q in Forgotten(Step(w, e), NextProcs(w, ps, e)) && q !in Forgotten(w, ps) <==>
        Relaunches(w, e, q.1) && q.0 == w.recs[q.1].serverPid
  {
    hide Inv, Step, Tracked, NextProcs, Enabled, Orderly, ForkNew, Run, RunProcs, RunOk, ForksNew, Forgotten;
    TrackedStart(now);
    TrackedRun(Initial(now), {}, es);
    StepOk(Run(Initial(now), es), e);
    ForgottenGrows(Run(Initial(now), es), RunProcs(Initial(now), {}, es), e, q);
  }
}
