/**
 The record the daemon keeps for one display (struct display), as the object the
 handlers update in place, and as the value they update it to.
 Console (text) mode and VT hand-over are not part of this model.
 */
module DisplayRecord {

  /** What the daemon is doing with a display. */
  datatype Status =
    | NotRunning    // idle: the next round of kicks starts it
    | Running       // has its session, or waits for the server to have one
    | Zombie        // being stopped; its last process takes it to `zstatus`
    | Phoenix       // its server has to die before it is idle again
    | Raiser        // its session has to die before it is idle again
    | Reserve       // parked until a login asks for one more display
    | RemoteLogin   // its server shows the login of another host

  /** How far the launch of its server has come. */
  datatype ServerStatus =
    | Ignore        // no launch: a dying server is nobody's concern here
    | Awaiting      // in line for the start slot
    | Starting      // forked; it has until the timer to report ready
    | Terminated    // it was too slow and was asked to go
    | Killed        // it did not go and was killed
    | Pausing       // a while between two attempts

  /** Where a stopped display has to end up. */
  datatype EndState = DsRestart | DsReserve | DsRemote | DsRemove

  datatype Lifetime = Permanent | ReserveDpy | Transient

  /** The part of the configuration the state machine looks at. */
  datatype Config = Config(serverAttempts: nat, serverTimeout: nat, openDelay: nat,
                           startAttempts: int, terminateServer: bool)

  const NO_PID := -1

  datatype Rec = Rec(
    isLocal: bool, lifetime: Lifetime, cfg: Config,
    status: Status, zstatus: EndState, pid: int, serverPid: int,
    serverStatus: ServerStatus, startTries: int, lastStart: int, userSess: int)

  /** A record fresh from newDisplay(). */
  function NewRec(isLocal: bool, lifetime: Lifetime, cfg: Config): Rec {
    Rec(isLocal, lifetime, cfg, NotRunning, DsRestart, NO_PID, NO_PID, Ignore, 0, 0, -1)
  }

  class Display {
    const isLocal: bool
    var lifetime: Lifetime
    var cfg: Config
    var status: Status
    var zstatus: EndState
    var pid: int
    var serverPid: int
    var serverStatus: ServerStatus
    var startTries: int
    var lastStart: int
    var userSess: int

    constructor (isLocal: bool, lifetime: Lifetime, cfg: Config)
      ensures Value() == NewRec(isLocal, lifetime, cfg)
    {
      this.isLocal, this.lifetime, this.cfg := isLocal, lifetime, cfg;
      status, zstatus, pid, serverPid := NotRunning, DsRestart, NO_PID, NO_PID;
      serverStatus, startTries, lastStart, userSess := Ignore, 0, 0, -1;
    }

    ghost function Value(): Rec
      reads this
    {
      Rec(isLocal, lifetime, cfg, status, zstatus, pid, serverPid,
          serverStatus, startTries, lastStart, userSess)
    }
  }
}
