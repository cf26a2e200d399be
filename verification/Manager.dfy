/**
 The daemon's handlers as they are written: globals and display records are updated
 in place, step by step. Each method is proved to do to the whole table of displays
 what its specification in Lifecycle says.
 */
module Manager {
  import opened DisplayRecord
  import opened Lifecycle
  import opened LifecycleInvariant
  import opened LifecycleTheorems

  class Manager {
    var displays: seq<Display>       // the linked list, newest first
    var startingServer: Display?
    var serverTimer: Timer
    var now: int
    var stopping: bool
    var shutdownNow: bool

    ghost predicate Valid()
      reads this
    {
      forall i, j :: 0 <= i < j < |displays| ==> displays[i] != displays[j]
    }

    /** The state as a value. */
    ghost function Snap(): World
      reads this, displays
    {
      World(displays, map d | d in displays :: d.Value(), startingServer, serverTimer, now,
            stopping, shutdownNow)
    }

    constructor (now: int)
      ensures Valid() && Snap() == Initial(now)
    {
      displays, startingServer, serverTimer := [], null, Never;
      this.now, stopping, shutdownNow := now, false, false;
    }

    method NewDisplay(isLocal: bool, lifetime: Lifetime, cfg: Config) returns (d: Display)
      requires Valid()
      modifies this
      ensures Valid() && fresh(d)
      ensures Snap() == Put(old(Snap()), d, NewRec(isLocal, lifetime, cfg)).(list := [d] + old(displays))
    {
      d := new Display(isLocal, lifetime, cfg);
      displays := [d] + displays;
    }

    method RemoveDisplay(d: Display)
      requires Valid() && d in displays
      modifies this
      ensures Valid() && Snap() == Remove(old(Snap()), d)
    {
      var i := 0;
      while displays[i] != d
        invariant 0 <= i < |displays|
        invariant d !in displays[..i]
        decreases |displays| - i
      {
        i := i + 1;
      }
      WithoutAt(displays, d, i);
      displays := displays[..i] + displays[i + 1..];
      Removed(d);
    }

    twostate lemma {:induction false} Removed(d: Display)
      requires old(Valid()) && displays == Without(old(displays), d)
      requires forall e :: e in old(displays) ==> unchanged(e)
      ensures Valid() && Snap().recs == old(Snap()).recs - {d}
    {
      hide Without;
      WithoutOk(old(displays), d);
      SnapKeys();
      hide Snap;
      forall e | e in displays
        ensures Snap().recs[e] == old(Snap()).recs[e]
      {
        assert e in old(displays);
        SameValue(e);
      }
      SameRecs(Snap().recs, old(Snap()).recs - {d});
    }

    twostate lemma {:induction false} SnapKeys()
      ensures forall e :: e in Snap().recs <==> e in displays
      ensures forall e :: e in old(Snap()).recs <==> e in old(displays)
    {
    }

    twostate lemma {:induction false} SameValue(e: Display)
      requires e in displays && e in old(displays) && unchanged(e)
      ensures e in Snap().recs && e in old(Snap()).recs && Snap().recs[e] == old(Snap()).recs[e]
    {
    }

    /** Only the record of `d` has changed. */
    twostate lemma {:induction false} Changed(d: Display)
      requires displays == old(displays) && d in displays
      requires forall e :: e in displays && e != d ==> unchanged(e)
      ensures Snap().recs == old(Snap()).recs[d := d.Value()]
    {
    }

    /** The fields behind the snapshot. */
    lemma {:induction false} SnapAt(d: Display)
      requires d in displays
      ensures d in Snap().recs && Snap().recs[d] == d.Value()
      ensures Snap().now == now && Snap().starting == startingServer && Snap().timer == serverTimer
    {
    }

    method AbortStartServer(d: Display)
      requires Valid() && d in displays
      modifies this, d
      ensures Valid() && displays == old(displays)
      ensures Snap() == AbortStart(old(Snap()), d)
    {
      if startingServer == d {
        if d.serverStatus != Ignore {
          d.serverStatus := Ignore;
          serverTimer := Never;
        }
        startingServer := null;
      }
    }

    method StartRemoteLogin(d: Display, fork: int)
      requires Valid() && d in displays
      modifies d
      ensures Snap() == Lifecycle.StartRemoteLogin(old(Snap()), d, fork)
    {
      d.serverPid := fork;
      if fork == NO_PID {
        d.status := NotRunning;
        return;
      }
      d.status := RemoteLogin;
    }

    method RStopDisplay(d: Display, endState: EndState, fork: int)
      requires Valid() && d in displays
      modifies this, d
      ensures Valid() && Snap() == RStop(old(Snap()), d, endState, fork)
    {
      AbortStartServer(d);
      label Aborted:
      if d.serverPid != NO_PID || d.pid != NO_PID {
        d.status := Zombie;
        d.zstatus := endState;
        Changed@Aborted(d);
      } else if endState == DsReserve {
        d.status := Reserve;
        Changed@Aborted(d);
      } else if endState == DsRemote {
        StartRemoteLogin(d, fork);
      } else {
        RemoveDisplay(d);
      }
    }

    method StopDisplay(d: Display)
      requires Valid() && d in displays
      modifies this, d
      ensures Valid() && Snap() == Stop(old(Snap()), d)
    {
      RStopDisplay(d, DsRemove, NO_PID);
    }

    method StartServerFailed()
      requires Valid() && startingServer != null && startingServer in displays
      modifies this, startingServer
      ensures Valid() && Snap() == Lifecycle.StartServerFailed(old(Snap()))
    {
      var d := startingServer;
      if d.cfg.serverAttempts == 0 || d.startTries < d.cfg.serverAttempts {
        d.serverStatus := Pausing;
        serverTimer := At(d.cfg.openDelay + now);
        Changed(d);
      } else {
        d.serverStatus := Ignore;
        serverTimer := Never;
        startingServer := null;
        Changed(d);
        StopDisplay(d);
      }
    }

    method SetTimer(t: Timer)
      requires Valid()
      modifies this`serverTimer
      ensures Valid() && Snap() == old(Snap()).(timer := t)
    {
      serverTimer := t;
    }

    /** One launch of the server is counted and recorded. */
    method RecordLaunch(d: Display, fork: int)
      requires Valid() && d in displays
      modifies d
      ensures var r := old(Snap()).recs[d];
        Snap() == Put(old(Snap()), d, r.(startTries := r.startTries + 1, serverStatus := Starting, serverPid := fork))
    {
      d.startTries := d.startTries + 1;
      d.serverStatus := Starting;
      d.serverPid := fork;
      Changed(d);
    }

    method StartServerOnce(fork: int)
      requires Valid() && startingServer != null && startingServer in displays
      modifies this, startingServer
      ensures Valid() && Snap() == Lifecycle.StartServerOnce(old(Snap()), fork)
    {
      hide Lifecycle.StartServerFailed, Snap;
      var d := startingServer;
      SnapAt(d);
      RecordLaunch(d, fork);
      SnapAt(d);
      if fork == NO_PID {
        StartServerFailed();
      } else {
        SetTimer(At(d.cfg.serverTimeout + now));
      }
    }

    method StartServer(d: Display, fork: int)
      requires Valid() && d in displays
      modifies this, d
      ensures Valid() && Snap() == Lifecycle.StartServer(old(Snap()), d, fork)
    {
      hide Lifecycle.StartServerOnce;
      startingServer := d;
      d.startTries := 0;
      Changed(d);
      StartServerOnce(fork);
    }

    method StartDisplayP2(d: Display, fork: int)
      requires Valid() && d in displays
      modifies d
      ensures Snap() == Lifecycle.StartDisplayP2(old(Snap()), d, fork)
    {
      d.pid := fork;
      if fork == NO_PID {
        d.status := NotRunning;
      } else {
        d.lastStart := now;
      }
      Changed(d);
    }

    /** SIGUSR1: the server that is being launched is ready. */
    method StartServerSuccess(fork: int)
      requires Valid() && startingServer != null && startingServer in displays
      modifies this, startingServer
      ensures Valid() && Snap() == Lifecycle.StartServerSuccess(old(Snap()), fork)
    {
      var d := startingServer;
      d.serverStatus := Ignore;
      serverTimer := Never;
      Changed(d);
      StartDisplayP2(d, fork);
    }

    method StartServerTimeout(fork: int)
      requires Valid() && startingServer != null && startingServer in displays
      modifies this, startingServer
      ensures Valid() && Snap() == Lifecycle.StartServerTimeout(old(Snap()), fork)
    {
      hide Lifecycle.StartServerFailed, Lifecycle.StartServerOnce;
      var d := startingServer;
      match d.serverStatus
      case Ignore =>
      case Awaiting =>
      case Starting =>
        d.serverStatus := Terminated;
        serverTimer := At(d.cfg.serverTimeout + now);
        Changed(d);
      case Terminated =>
        d.serverStatus := Killed;
        serverTimer := At(10 + now);
        Changed(d);
      case Killed =>
        StartServerFailed();
      case Pausing =>
        StartServerOnce(fork);
    }

    method StartDisplay(d: Display, fork: int, vtPending: bool)
      requires Valid() && d in displays
      modifies this, d
      ensures Valid() && Snap() == Lifecycle.StartDisplay(old(Snap()), d, fork, vtPending)
    {
      hide Stop, Lifecycle.StartDisplayP2;
      if stopping {
        StopDisplay(d);
        return;
      }
      if vtPending {
        return;
      }
      d.status := Running;
      if d.isLocal {
        if d.serverPid == NO_PID {
          d.serverStatus := Awaiting;
          Changed(d);
          return;
        }
      }
      Changed(d);
      StartDisplayP2(d, fork);
    }

    method KickDisplay(d: Display, fork: int, vtPending: bool)
      requires Valid() && d in displays && !stopping
      modifies this, d
      ensures Valid() && Snap() == Kick(old(Snap()), d, fork, vtPending)
    {
      hide Lifecycle.StartServer;
      if d.status == NotRunning {
        StartDisplay(d, fork, vtPending);
      }
      if d.serverStatus == Awaiting && startingServer == null {
        StartServer(d, fork);
      }
    }

    method ExitDisplay(d: Display, endState: EndState, serverCmd: ServerCmd, fork: int)
      requires Valid() && d in displays
      modifies this, d
      ensures Valid() && Snap() == Lifecycle.ExitDisplay(old(Snap()), d, endState, serverCmd, fork)
    {
      hide RStop, Restart;
      var cmd, es := serverCmd, endState;
      if d.status == Raiser {
        cmd := XsKeep;
      }
      d.userSess := -1;
      Changed(d);
      if shutdownNow {
        es := DsRemove;
      }
      if d.status == Zombie {
        RStopDisplay(d, d.zstatus, fork);
      } else {
        if stopping {
          StopDisplay(d);
          return;
        }
        if es != DsRestart || d.lifetime == Transient {
          RStopDisplay(d, es, fork);
        } else {
          RestartDisplay(d, cmd);
        }
      }
    }

    /** The part of exitDisplay() for a display that is to be started again. */
    method RestartDisplay(d: Display, serverCmd: ServerCmd)
      requires Valid() && d in displays
      modifies this, d
      ensures Valid() && Snap() == Restart(old(Snap()), d, serverCmd)
    {
      hide RStop, Snap;
      SnapAt(d);
      if serverCmd == XsRetry {
        var stop := CountRetry(d);
        if stop {
          StopDisplay(d);
          return;
        }
      } else {
        SetTries(d, 0);
      }
      SnapAt(d);
      SetStatus(d, if d.serverPid != NO_PID && (serverCmd != XsKeep || d.cfg.terminateServer) then Phoenix else NotRunning);
    }

    /** The session wants to try again: a local display not too soon, another one not too often. */
    method CountRetry(d: Display) returns (stop: bool)
      requires Valid() && d in displays
      modifies d`startTries
      ensures var r := old(Snap()).recs[d];
        var tries := if r.isLocal then r.startTries else r.startTries + 1;
        && Snap() == Put(old(Snap()), d, r.(startTries := tries))
        && stop == (if r.isLocal then now - r.lastStart < 120 else tries > r.cfg.startAttempts)
    {
      if d.isLocal {
        stop := now - d.lastStart < 120;
      } else {
        d.startTries := d.startTries + 1;
        stop := d.startTries > d.cfg.startAttempts;
      }
      Changed(d);
    }

    method SetTries(d: Display, tries: int)
      requires Valid() && d in displays
      modifies d`startTries
      ensures Snap() == Put(old(Snap()), d, old(Snap()).recs[d].(startTries := tries))
    {
      d.startTries := tries;
      Changed(d);
    }

    method SetStatus(d: Display, status: Status)
      requires Valid() && d in displays
      modifies d`status
      ensures Snap() == Put(old(Snap()), d, old(Snap()).recs[d].(status := status))
    {
      d.status := status;
      Changed(d);
    }

    method ReapSession(d: Display, code: ExitCode, fork: int)
      requires Valid() && d in displays
      modifies this, d
      ensures Valid() && Snap() == Lifecycle.ReapSession(old(Snap()), d, code, fork)
    {
      hide Lifecycle.ExitDisplay;
      d.pid := NO_PID;
      Changed(d);
      match code
      case ExRemote =>
        ExitDisplay(d, DsRemote, XsKeep, fork);
      case ExNormal =>
        if d.lifetime == ReserveDpy {
          ExitDisplay(d, DsReserve, XsKeep, fork);
        } else {
          ExitDisplay(d, DsRestart, XsKeep, fork);
        }
      case ExReserve =>
        ExitDisplay(d, DsReserve, XsKeep, fork);
      case ExOpenFailed =>
        ExitDisplay(d, DsRestart, XsRetry, fork);
      case SigTerm =>
        ExitDisplay(d, DsRestart, XsRetry, fork);
      case ExAlReserver =>
        ExitDisplay(d, DsRestart, XsRestart, fork);
      case ExReserver =>
        ExitDisplay(d, DsRestart, XsRestart, fork);
      case ExUnmanage =>
        ExitDisplay(d, DsRemove, XsKeep, fork);
      case ExOther =>
        ExitDisplay(d, DsRemove, XsKeep, fork);
    }

    method ReapServer(d: Display, fork: int)
      requires Valid() && d in displays
      modifies this, d
      ensures Valid() && Snap() == Lifecycle.ReapServer(old(Snap()), d, fork)
    {
      hide RStop, Lifecycle.StartServerFailed;
      d.serverPid := NO_PID;
      Changed(d);
      label Reaped:
      match d.status
      case Zombie =>
        RStopDisplay(d, d.zstatus, fork);
      case Phoenix =>
        d.status := NotRunning;
        Changed@Reaped(d);
      case RemoteLogin =>
        d.status := if d.lifetime == ReserveDpy then Reserve else NotRunning;
        Changed@Reaped(d);
      case Raiser =>
      case Running =>
        if startingServer == d && d.serverStatus != Ignore {
          StartServerFailed();
        }
      case NotRunning =>
      case Reserve =>
    }

    /** One round of reapChildren(). */
    method Reap(pid: int, code: ExitCode, fork: int)
      requires Valid()
      modifies this, displays
      ensures Valid() && Snap() == Lifecycle.Reap(old(Snap()), pid, code, fork)
    {
      hide Lifecycle.ReapSession, Lifecycle.ReapServer;
      FindByOk(Snap(), displays, (r: Rec) => r.pid == pid);
      FindByOk(Snap(), displays, (r: Rec) => r.serverPid == pid);
      var d := FindDisplayByPid(pid);
      if d != null {
        ReapSession(d, code, fork);
      } else {
        d := FindDisplayByServerPid(pid);
        if d != null {
          ReapServer(d, fork);
        }
      }
    }

    /** SIGUSR1 in the main loop. */
    method HandleReady(fork: int)
      requires Valid() && (startingServer != null ==> startingServer in displays)
      modifies this, displays
      ensures Valid() && Snap() == Step(old(Snap()), ServerReady(fork))
    {
      if startingServer != null && startingServer.serverStatus == Starting {
        StartServerSuccess(fork);
      }
    }

    /** The timer check in the main loop. */
    method HandleTimer(fork: int)
      requires Valid()
      requires serverTimer.At? ==> startingServer != null && startingServer in displays
      modifies this, displays
      ensures Valid() && Snap() == Step(old(Snap()), TimerFired(fork))
    {
      hide Lifecycle.StartServerTimeout;
      if serverTimer.At? && now >= serverTimer.time {
        serverTimer := Never;
        assert Snap().recs == old(Snap()).recs;
        StartServerTimeout(fork);
      }
    }

    /** D_XConnOk: whoever sends it, the start slot is free. */
    method ReadyMessage(d: Display)
      requires Valid()
      modifies this`startingServer
      ensures Valid() && Snap() == Step(old(Snap()), XConnOk(d))
    {
      startingServer := null;
    }

    /** D_User, and D_UnUser with -1. */
    method SetUserSess(d: Display, uid: int)
      requires Valid() && d in displays
      modifies d`userSess
      ensures Valid() && Snap() == Step(old(Snap()), LoggedIn(d, uid))
    {
      d.userSess := uid;
      Changed(d);
    }

    /** The command with which a session asks for its own end and a new one. */
    method SuicideCommand(d: Display)
      requires Valid() && d in displays
      modifies d`status
      ensures Valid() && Snap() == Step(old(Snap()), Suicide(d))
    {
      SnapAt(d);
      if d.status == Running && d.pid != NO_PID {
        d.status := Raiser;
      }
      Changed(d);
    }

    /** The command that asks for another login on a display. */
    method LoginCommand(d: Display, nuke: bool)
      requires Valid() && d in displays
      modifies d`status
      ensures Valid() && Snap() == Step(old(Snap()), Login(d, nuke))
    {
      SnapAt(d);
      match d.status
      case Running =>
        if d.pid != NO_PID && (d.userSess < 0 || nuke) {
          d.status := Raiser;
        }
        Changed(d);
      case Reserve =>
        d.status := NotRunning;
        Changed(d);
      case _ =>
    }

    /** A rescan finds the display in the list of servers again, permanent or in reserve. */
    method FoundServer(d: Display, lifetime: Lifetime)
      requires Valid() && d in displays
      modifies d`lifetime, d`status
      ensures Valid() && Snap() == Step(old(Snap()), Rescan(d, lifetime))
    {
      SnapAt(d);
      d.lifetime := lifetime;
      if lifetime == ReserveDpy {
        if d.status == NotRunning {
          d.status := Reserve;
        }
      } else {
        if d.status == Reserve {
          d.status := NotRunning;
        }
      }
      Changed(d);
    }

    /** The configuration of a display is read anew while it is not running. */
    method LoadDisplayResources(d: Display, cfg: Config)
      requires Valid() && d in displays
      modifies d`cfg
      ensures Valid() && Snap() == Step(old(Snap()), Configure(d, cfg))
    {
      SnapAt(d);
      if d.status == NotRunning {
        d.cfg := cfg;
      }
      Changed(d);
    }

    /** forEachDisplay(kickDisplay): `forks` are the results of the forks on the way. */
    method KickDisplays(forks: seq<int>, vtPending: seq<bool>)
      requires Valid() && !stopping && |forks| == |vtPending| == |displays|
      modifies this, displays
      ensures Valid() && Snap() == Run(old(Snap()), Kicks(old(displays), forks, vtPending))
    {
      hide Kick, Run;
      var list := displays;
      ghost var w0 := Snap();
      RunNil(w0);
      assert Kicks(list[..0], forks[..0], vtPending[..0]) == [];
      var i := 0;
      while i < |list|
        invariant 0 <= i <= |list| && Valid() && !stopping
        invariant forall d :: d in list[i..] ==> d in Snap().recs
        invariant Snap() == Run(w0, Kicks(list[..i], forks[..i], vtPending[..i]))
      {
        ghost var w := Snap();
        var d := list[i];
        assert d in list[i..];
        KickDisplay(d, forks[i], vtPending[i]);
        KicksStep(w0, w, list, forks, vtPending, i, Snap());
        i := i + 1;
      }
      assert list[..i] == list && forks[..i] == forks && vtPending[..i] == vtPending;
    }

    /** stoppen(True): every display is stopped, and nothing is started any more. */
    method StopAll()
      requires Valid()
      modifies this, displays
      ensures Valid() && Snap() == Run(old(Snap()), Stops(old(displays)) + [SetStopping(true)])
    {
      hide RStop, Run;
      var list := displays;
      ghost var w0 := Snap();
      RunNil(w0);
      assert Stops(list[..0]) == [];
      var i := 0;
      while i < |list|
        invariant 0 <= i <= |list| && Valid()
        invariant forall d :: d in list[i..] ==> d in Snap().recs
        invariant Snap() == Run(w0, Stops(list[..i]))
      {
        ghost var w := Snap();
        var d := list[i];
        assert d in list[i..];
        StopDisplay(d);
        StopsStep(w0, w, list, i, Snap());
        i := i + 1;
      }
      assert list[..i] == list;
      RunSnoc(w0, Stops(list), SetStopping(true));
      stopping := true;
      assert Snap().recs == Run(w0, Stops(list)).recs;
    }

    /** startReserveDisplay(): the last idle reserve display of the list is woken. */
    method StartReserveDisplay() returns (found: bool)
      requires Valid()
      modifies displays
      ensures Snap() == Step(old(Snap()), WakeReserve)
      ensures found <==> exists d :: d in displays && old(d.status) == Reserve
    {
      var rd: Display? := null;
      var i := 0;
      while i < |displays|
        invariant 0 <= i <= |displays|
        invariant rd != null ==> rd in displays && rd.status == Reserve
        invariant rd == null ==> forall j :: 0 <= j < i ==> displays[j].status != Reserve
        invariant LastReserve(Snap(), displays) ==
          (if LastReserve(Snap(), displays[i..]) != null then LastReserve(Snap(), displays[i..]) else rd)
      {
        if displays[i].status == Reserve {
          rd := displays[i];
        }
        i := i + 1;
      }
      if rd == null {
        return false;
      }
      rd.status := NotRunning;
      Changed(rd);
      return true;
    }

    method FindDisplayByPid(pid: int) returns (d: Display?)
      ensures d == ByPid(Snap(), pid)
    {
      var i := 0;
      while i < |displays|
        invariant 0 <= i <= |displays|
        invariant ByPid(Snap(), pid) == FindBy(Snap(), displays[i..], (r: Rec) => r.pid == pid)
      {
        if displays[i].pid == pid {
          return displays[i];
        }
        i := i + 1;
      }
      return null;
    }

    method FindDisplayByServerPid(pid: int) returns (d: Display?)
      ensures d == ByServerPid(Snap(), pid)
    {
      var i := 0;
      while i < |displays|
        invariant 0 <= i <= |displays|
        invariant ByServerPid(Snap(), pid) == FindBy(Snap(), displays[i..], (r: Rec) => r.serverPid == pid)
      {
        if displays[i].serverPid == pid {
          return displays[i];
        }
        i := i + 1;
      }
      return null;
    }
  }

  lemma {:induction false} SameRecs(a: map<Display, Rec>, b: map<Display, Rec>)
    requires forall e :: e in a <==> e in b
    requires forall e :: e in a ==> a[e] == b[e]
    ensures a == b
  {
  }

  lemma {:induction false} WithoutAt(list: seq<Display>, d: Display, i: nat)
    requires i < |list| && list[i] == d && d !in list[..i]
    ensures Without(list, d) == list[..i] + list[i + 1..]
  {
    if i > 0 {
      assert list[0] == list[..i][0];
      assert list[1..][..i - 1] == list[..i][1..];
      WithoutAt(list[1..], d, i - 1);
    }
  }

  function Kicks(list: seq<Display>, forks: seq<int>, vtPending: seq<bool>): seq<Event>
    requires |forks| == |vtPending| == |list|
  {
    seq(|list|, i requires 0 <= i < |list| => KickDpy(list[i], forks[i], vtPending[i]))
  }

  function Stops(list: seq<Display>): seq<Event> {
    seq(|list|, i requires 0 <= i < |list| => StopDpy(list[i]))
  }

  lemma {:induction false} RunNil(w: World)
    ensures Run(w, []) == w
  {
  }

  lemma {:induction false} RunSnoc(w: World, es: seq<Event>, e: Event)
    ensures Run(w, es + [e]) == Step(Run(w, es), e)
    decreases |es|
  {
    hide Step;
    if es == [] {
      assert Run(w, [e]) == Run(Step(w, e), [e][1..]);
    } else {
      assert (es + [e])[1..] == es[1..] + [e];
      RunSnoc(Step(w, es[0]), es[1..], e);
    }
  }

  /** The loop of KickDisplays goes on: later displays of the list are still there. */
  lemma {:induction false} KicksStep(w0: World, w: World, list: seq<Display>, forks: seq<int>, vtPending: seq<bool>,
                  i: nat, w2: World)
    requires i < |list| == |forks| == |vtPending| && !w.stopping
    requires forall j, k :: 0 <= j < k < |list| ==> list[j] != list[k]
    requires forall d :: d in list[i..] ==> d in w.recs
    requires w == Run(w0, Kicks(list[..i], forks[..i], vtPending[..i]))
    requires w2 == Kick(w, list[i], forks[i], vtPending[i])
    ensures w2 == Run(w0, Kicks(list[..i + 1], forks[..i + 1], vtPending[..i + 1]))
    ensures !w2.stopping
    ensures forall d :: d in list[i + 1..] ==> d in w2.recs
  {
    hide Kick, Run;
    var e := KickDpy(list[i], forks[i], vtPending[i]);
    assert Kicks(list[..i + 1], forks[..i + 1], vtPending[..i + 1]) ==
           Kicks(list[..i], forks[..i], vtPending[..i]) + [e];
    RunSnoc(w0, Kicks(list[..i], forks[..i], vtPending[..i]), e);
    KickStopping(w, list[i], forks[i], vtPending[i]);
    forall d | d in list[i + 1..]
      ensures d in w2.recs
    {
      assert d in list[i..];
      KickKeeps(w, list[i], forks[i], vtPending[i], d);
    }
  }

  lemma {:induction false} KickStopping(w: World, d: Display, fork: int, vtPending: bool)
    requires d in w.recs && !w.stopping
    ensures !Kick(w, d, fork, vtPending).stopping
  {
  }

  lemma {:induction false} StopsStep(w0: World, w: World, list: seq<Display>, i: nat, w2: World)
    requires i < |list|
    requires forall j, k :: 0 <= j < k < |list| ==> list[j] != list[k]
    requires forall d :: d in list[i..] ==> d in w.recs
    requires w == Run(w0, Stops(list[..i])) && w2 == Stop(w, list[i])
    ensures w2 == Run(w0, Stops(list[..i + 1]))
    ensures forall d :: d in list[i + 1..] ==> d in w2.recs
  {
    hide RStop, Run;
    var e := StopDpy(list[i]);
    assert Stops(list[..i + 1]) == Stops(list[..i]) + [e];
    RunSnoc(w0, Stops(list[..i]), e);
    forall d | d in list[i + 1..]
      ensures d in w2.recs
    {
      assert d in list[i..];
      RStopKeeps(w, list[i], DsRemove, NO_PID, d);
    }
  }
}
