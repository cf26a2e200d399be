/**
 Display lifecycle and X server start as a state machine on values: what one call
 of each handler in dm.c and server.c does to the whole table of displays.
 Fork results, exit codes, the clock and the pending-VT test are inputs.
 */
module Lifecycle {
  import opened DisplayRecord

  /** A timer that may be off (TO_INF). */
  datatype Timer = Never | At(time: int)

  /** `list` is the order of the linked list of displays, `recs` what it links. */
  datatype World = World(
    list: seq<Display>, recs: map<Display, Rec>,
    starting: Display?, timer: Timer, now: int,
    stopping: bool,
    shutdownNow: bool)   // a global shutdown is recorded and its start time has passed

  // ---------------------------------------------------------------- handlers

  function Put(w: World, d: Display, r: Rec): World {
    w.(recs := w.recs[d := r])
  }

  function Without(list: seq<Display>, d: Display): seq<Display> {
    if list == [] then []
    else if list[0] == d then list[1..]
    else [list[0]] + Without(list[1..], d)
  }

  function Remove(w: World, d: Display): World {
    w.(list := Without(w.list, d), recs := w.recs - {d})
  }

  function AbortStart(w: World, d: Display): World
    requires d in w.recs
  {
    if w.starting != d then w
    else if w.recs[d].serverStatus != Ignore then
      Put(w, d, w.recs[d].(serverStatus := Ignore)).(timer := Never, starting := null)
    else w.(starting := null)
  }

  function StartRemoteLogin(w: World, d: Display, fork: int): World
    requires d in w.recs
  {
    Put(w, d, w.recs[d].(serverPid := fork,
                         status := if fork == NO_PID then NotRunning else RemoteLogin))
  }

  function RStop(w: World, d: Display, es: EndState, fork: int): World
    requires d in w.recs
  {
    var w1 := AbortStart(w, d);
    var r := w1.recs[d];
    if r.serverPid != NO_PID || r.pid != NO_PID then
      Put(w1, d, r.(status := Zombie, zstatus := es))
    else if es == DsReserve then Put(w1, d, r.(status := Reserve))
    else if es == DsRemote then StartRemoteLogin(w1, d, fork)
    else Remove(w1, d)
  }

  function Stop(w: World, d: Display): World
    requires d in w.recs
  {
    RStop(w, d, DsRemove, NO_PID)
  }

  function StartDisplayP2(w: World, d: Display, fork: int): World
    requires d in w.recs
  {
    if fork == NO_PID then Put(w, d, w.recs[d].(pid := NO_PID, status := NotRunning))
    else Put(w, d, w.recs[d].(pid := fork, lastStart := w.now))
  }

  ghost predicate HasStarting(w: World) {
    w.starting != null && w.starting in w.recs
  }

  function StartServerFailed(w: World): World
    requires HasStarting(w)
  {
    var r := w.recs[w.starting];
    if r.cfg.serverAttempts == 0 || r.startTries < r.cfg.serverAttempts then
      Put(w, w.starting, r.(serverStatus := Pausing)).(timer := At(r.cfg.openDelay + w.now))
    else
      Stop(Put(w, w.starting, r.(serverStatus := Ignore)).(timer := Never, starting := null),
           w.starting)
  }

  function StartServerOnce(w: World, fork: int): World
    requires HasStarting(w)
  {
    var r := w.recs[w.starting];
    var w1 := Put(w, w.starting, r.(startTries := r.startTries + 1, serverStatus := Starting,
                                    serverPid := fork));
    if fork == NO_PID then StartServerFailed(w1)
    else w1.(timer := At(r.cfg.serverTimeout + w.now))
  }

  function StartServer(w: World, d: Display, fork: int): World
    requires d in w.recs
  {
    StartServerOnce(Put(w, d, w.recs[d].(startTries := 0)).(starting := d), fork)
  }

  function StartServerSuccess(w: World, fork: int): World
    requires HasStarting(w)
  {
    StartDisplayP2(Put(w, w.starting, w.recs[w.starting].(serverStatus := Ignore)).(timer := Never),
                   w.starting, fork)
  }

  function StartServerTimeout(w: World, fork: int): World
    requires HasStarting(w)
  {
    var r := w.recs[w.starting];
    match r.serverStatus
    case Ignore => w     // "cannot happen"
    case Awaiting => w   // "cannot happen"
    case Starting =>
      Put(w, w.starting, r.(serverStatus := Terminated)).(timer := At(r.cfg.serverTimeout + w.now))
    case Terminated =>
      Put(w, w.starting, r.(serverStatus := Killed)).(timer := At(10 + w.now))
    case Killed => StartServerFailed(w)
    case Pausing => StartServerOnce(w, fork)
  }

  function StartDisplay(w: World, d: Display, fork: int, vtPending: bool): World
    requires d in w.recs
  {
    if w.stopping then Stop(w, d)
    else if vtPending then w
    else
      var r := w.recs[d].(status := Running);
      if r.isLocal && r.serverPid == NO_PID then Put(w, d, r.(serverStatus := Awaiting))
      else StartDisplayP2(Put(w, d, r), d, fork)
  }

  function Kick(w: World, d: Display, fork: int, vtPending: bool): World
    requires d in w.recs && !w.stopping
  {
    var w1 := if w.recs[d].status == NotRunning then StartDisplay(w, d, fork, vtPending) else w;
    if w1.recs[d].serverStatus == Awaiting && w1.starting == null
    then StartServer(w1, d, fork) else w1
  }

  /** What exitDisplay is told to do with the X server. */
  datatype ServerCmd = XsKeep | XsRestart | XsRetry

  function ExitDisplay(w: World, d: Display, es: EndState, cmd: ServerCmd, fork: int): World
    requires d in w.recs
  {
    var cmd' := if w.recs[d].status == Raiser then XsKeep else cmd;
    var w1 := Put(w, d, w.recs[d].(userSess := -1));
    var r := w1.recs[d];
    var es' := if w.shutdownNow then DsRemove else es;
    if r.status == Zombie then RStop(w1, d, r.zstatus, fork)
    else if w.stopping then Stop(w1, d)
    else if es' != DsRestart || r.lifetime == Transient then RStop(w1, d, es', fork)
    else Restart(w1, d, cmd')
  }

  /** The display is to be started again, after its server has died if that is killed. */
  function Restart(w: World, d: Display, cmd: ServerCmd): World
    requires d in w.recs
  {
    var r := w.recs[d];
    var tries := if cmd != XsRetry then 0
                 else if r.isLocal then r.startTries else r.startTries + 1;
    var w1 := Put(w, d, r.(startTries := tries));
    if cmd == XsRetry && r.isLocal && w.now - r.lastStart < 120 then Stop(w1, d)
    else if cmd == XsRetry && !r.isLocal && tries > r.cfg.startAttempts then Stop(w1, d)
    else
      var kill := r.serverPid != NO_PID && (cmd != XsKeep || r.cfg.terminateServer);
      Put(w1, d, w1.recs[d].(status := if kill then Phoenix else NotRunning))
  }

  /** Exit codes of a session process. */
  datatype ExitCode =
    | ExRemote | ExNormal | ExReserve | ExOpenFailed | SigTerm
    | ExAlReserver | ExReserver | ExUnmanage | ExOther

  function ReapSession(w: World, d: Display, code: ExitCode, fork: int): World
    requires d in w.recs
  {
    var w1 := Put(w, d, w.recs[d].(pid := NO_PID));
    match code
    case ExRemote => ExitDisplay(w1, d, DsRemote, XsKeep, fork)
    case ExNormal =>
      if w1.recs[d].lifetime == ReserveDpy then ExitDisplay(w1, d, DsReserve, XsKeep, fork)
      else ExitDisplay(w1, d, DsRestart, XsKeep, fork)
    case ExReserve => ExitDisplay(w1, d, DsReserve, XsKeep, fork)
    case ExOpenFailed => ExitDisplay(w1, d, DsRestart, XsRetry, fork)
    case SigTerm => ExitDisplay(w1, d, DsRestart, XsRetry, fork)
    case ExAlReserver => ExitDisplay(w1, d, DsRestart, XsRestart, fork)
    case ExReserver => ExitDisplay(w1, d, DsRestart, XsRestart, fork)
    case ExUnmanage => ExitDisplay(w1, d, DsRemove, XsKeep, fork)
    case ExOther => ExitDisplay(w1, d, DsRemove, XsKeep, fork)
  }

  function ReapServer(w: World, d: Display, fork: int): World
    requires d in w.recs
  {
    var w1 := Put(w, d, w.recs[d].(serverPid := NO_PID));
    var r := w1.recs[d];
    match r.status
    case Zombie => RStop(w1, d, r.zstatus, fork)
    case Phoenix => Put(w1, d, r.(status := NotRunning))
    case RemoteLogin =>
      Put(w1, d, r.(status := if r.lifetime == ReserveDpy then Reserve else NotRunning))
    case Running =>
      if w1.starting == d && r.serverStatus != Ignore then StartServerFailed(w1)
      else w1   // terminates the session, if any
    case Raiser => w1
    case NotRunning => w1
    case Reserve => w1
  }

  /** The first listed display for which `p` holds, if any. */
  function FindBy(w: World, list: seq<Display>, p: Rec -> bool): Display? {
    if list == [] then null
    else if list[0] in w.recs && p(w.recs[list[0]]) then list[0]
    else FindBy(w, list[1..], p)
  }

  function ByPid(w: World, pid: int): Display? {
    FindBy(w, w.list, (r: Rec) => r.pid == pid)
  }

  function ByServerPid(w: World, pid: int): Display? {
    FindBy(w, w.list, (r: Rec) => r.serverPid == pid)
  }

  function Reap(w: World, pid: int, code: ExitCode, fork: int): World {
    var d := ByPid(w, pid);
    if d != null && d in w.recs then ReapSession(w, d, code, fork)
    else
      var sd := ByServerPid(w, pid);
      if sd != null && sd in w.recs then ReapServer(w, sd, fork) else w
  }

  /** startReserveDisplay: wake the last idle reserve display of the list. */
  function LastReserve(w: World, list: seq<Display>): Display? {
    if list == [] then null
    else
      var rest := LastReserve(w, list[1..]);
      if rest != null then rest
      else if list[0] in w.recs && w.recs[list[0]].status == Reserve then list[0]
      else null
  }

  // ------------------------------------------------------------------ events

  datatype Event =
    | NewDisplay(d: Display, isLocal: bool, lifetime: Lifetime, cfg: Config)
    | Configure(d: Display, newCfg: Config)          // reload while notRunning
    | Rescan(d: Display, newLifetime: Lifetime)      // listed again in the servers file
    | KickDpy(d: Display, fork: int, vtPending: bool)
    | Reaped(pid: int, code: ExitCode, fork: int)
    | ServerReady(fork: int)                         // SIGUSR1
    | TimerFired(fork: int)
    | StopDpy(d: Display)
    | XConnOk(d: Display)                            // message of d's session
    | Suicide(d: Display)
    | Login(d: Display, nuke: bool)
    | WakeReserve
    | LoggedIn(d: Display, uid: int)
    | SetStopping(on: bool)
    | SetShutdownNow(pending: bool)
    | Tick(time: int)

  function Step(w: World, e: Event): World {
    match e
    case NewDisplay(d, isLocal, lifetime, cfg) =>
      if d in w.recs then w
      else Put(w, d, NewRec(isLocal, lifetime, cfg)).(list := [d] + w.list)
    case Configure(d, cfg) =>
      if d in w.recs && w.recs[d].status == NotRunning then Put(w, d, w.recs[d].(cfg := cfg)) else w
    case Rescan(d, lifetime) =>
      if d !in w.recs then w
      else
        var r := w.recs[d].(lifetime := lifetime);
        if lifetime == ReserveDpy then
          Put(w, d, if r.status == NotRunning then r.(status := Reserve) else r)
        else
          Put(w, d, if r.status == Reserve then r.(status := NotRunning) else r)
    case KickDpy(d, fork, vtPending) =>
      if d in w.recs && !w.stopping then Kick(w, d, fork, vtPending) else w
    case Reaped(pid, code, fork) => Reap(w, pid, code, fork)
    case ServerReady(fork) =>
      if w.starting != null && w.starting in w.recs && w.recs[w.starting].serverStatus == Starting
      then StartServerSuccess(w, fork) else w
    case TimerFired(fork) =>
      if w.timer.At? && w.now >= w.timer.time && w.starting != null && w.starting in w.recs
      then StartServerTimeout(w.(timer := Never), fork) else w
    case StopDpy(d) => if d in w.recs then Stop(w, d) else w
    case XConnOk(d) => w.(starting := null)
    case Suicide(d) =>
      if d in w.recs && w.recs[d].status == Running && w.recs[d].pid != NO_PID
      then Put(w, d, w.recs[d].(status := Raiser)) else w
    case Login(d, nuke) =>
      if d !in w.recs then w
      else
        var r := w.recs[d];
        if r.status == Running && r.pid != NO_PID && (r.userSess < 0 || nuke)
        then Put(w, d, r.(status := Raiser))
        else if r.status == Reserve then Put(w, d, r.(status := NotRunning))
        else w
    case WakeReserve =>
      var d := LastReserve(w, w.list);
      if d != null && d in w.recs then Put(w, d, w.recs[d].(status := NotRunning)) else w
    case LoggedIn(d, uid) =>
      if d in w.recs then Put(w, d, w.recs[d].(userSess := uid)) else w
    case SetStopping(on) => w.(stopping := on)
    case SetShutdownNow(pending) => w.(shutdownNow := pending)
    case Tick(time) => w.(now := time)
  }

  function Run(w: World, es: seq<Event>): World
    decreases |es|
  {
    if es == [] then w else Run(Step(w, es[0]), es[1..])
  }

  function Initial(now: int): World {
    World([], map[], null, Never, now, false, false)
  }
}
