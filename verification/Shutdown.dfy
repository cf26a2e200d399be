/**
 The scheduled shutdown: the shutdown command of the control sockets, the end of a
 session, and the main loop.
 */
module Shutdown {
  import opened Wrappers

  const TO_INF := 0x7fffffff

  datatype How = NoShutdown | Reboot | Halt

  datatype Force = CancelIt | ForceMy | ForceAll | Ask

  /** Who is allowed to. */
  datatype Allow = Nobody | RootOnly | Everybody

  datatype Rec = Rec(how: How, force: Force, uid: int, start: int, timeout: int, osname: Option<string>)

  const NONE_YET := Rec(NoShutdown, CancelIt, 0, TO_INF, TO_INF, None)

  /** What a display has to do with shutdowns. `userSess` is the user logged in, or negative. */
  datatype Dpy = Dpy(allowShutdown: Allow, allowNuke: Allow, userSess: int, sdRec: Rec)

  /** A parsed command: to cancel (globally or not), or to shut down. */
  datatype Command =
    | Cancel(global: bool)
    | Shut(how: How, start: int, timeout: int, force: Force, osname: Option<string>)

  datatype State = State(sdRec: Rec, displays: seq<Dpy>, fifoAllowShutdown: bool, fifoAllowNuke: bool)

  datatype Reply = Ok | Perm | Busy

  /** What a step does to the global record. */
  datatype Effect = Kept | Replaced | Cancelled

  predicate IsForced(r: Rec) {
    r.how != NoShutdown && r.force == ForceAll
  }

  /** The record that a command asks for. */
  function Asked(c: Command, uid: int): Rec {
    match c
    case Cancel(global) => Rec(NoShutdown, CancelIt, uid, if global then TO_INF else 0, 0, None)
    case Shut(how, start, timeout, force, osname) => Rec(how, force, uid, start, timeout, osname)
  }

  /** Nobody is logged in at the greeter of a display: it speaks as root. */
  function UidOf(d: Dpy): int {
    if d.userSess >= 0 then d.userSess else 0
  }

  predicate MayShutdown(d: Dpy, sdr: Rec) {
    !(d.allowShutdown == Nobody || (d.allowShutdown == RootOnly && sdr.uid != 0 && sdr.force != Ask))
  }

  /** The display may override the forced record `r` in the name of `uid`. */
  predicate MayOverride(d: Dpy, r: Rec, uid: int) {
    !((d.allowNuke == Nobody && r.uid != uid) || (d.allowNuke == RootOnly && uid != 0))
  }

  /** The display may force a shutdown in the name of `uid`. */
  predicate MayForce(d: Dpy, uid: int) {
    !(d.allowNuke == Nobody || (d.allowNuke == RootOnly && uid != 0))
  }

  function CancelShutdown(s: State): State {
    s.(sdRec := s.sdRec.(how := NoShutdown, osname := None))
  }

  function SetLocal(s: State, i: nat, r: Rec): State
    requires i < |s.displays|
  {
    s.(displays := s.displays[i := s.displays[i].(sdRec := r)])
  }

  /** The command on the socket of display `i`. */
  function DisplayCommand(s: State, i: nat, c: Command): (State, Reply, Effect)
    requires i < |s.displays|
  {
    var d := s.displays[i];
    var sdr := Asked(c, UidOf(d));
    if !MayShutdown(d, sdr) then (s, Perm, Kept)
    else if sdr.how == NoShutdown && sdr.start == 0 then (SetLocal(s, i, sdr), Ok, Kept)
    else if IsForced(s.sdRec) && !MayOverride(d, s.sdRec, sdr.uid) then (s, Perm, Kept)
    else if sdr.force == ForceAll && !MayForce(d, sdr.uid) then (s, Perm, Kept)
    else if sdr.start == 0 then (SetLocal(s, i, sdr), Ok, Kept)
    else if sdr.how == NoShutdown then (CancelShutdown(s), Ok, Cancelled)
    else (s.(sdRec := sdr), Ok, Replaced)
  }

  /** The command on the global socket; `logins`: somebody is logged in. */
  function GlobalCommand(s: State, c: Command, logins: bool): (State, Reply, Effect) {
    var sdr := Asked(c, -1);
    if !s.fifoAllowShutdown then (s, Perm, Kept)
    else if IsForced(s.sdRec) && s.sdRec.uid != -1 && !s.fifoAllowNuke then (s, Perm, Kept)
    else if sdr.how == NoShutdown then (CancelShutdown(s), Ok, Cancelled)
    else if sdr.force != CancelIt && !s.fifoAllowNuke then (s, Perm, Kept)
    else if sdr.force == CancelIt && sdr.start == 0 && sdr.timeout == 0 && logins then (s, Busy, Kept)
    else (s.(sdRec := sdr), Ok, Replaced)
  }

  /** The user of display `i` is gone: what was scheduled for then becomes the global record. */
  function SessionEnd(s: State, i: nat, logins: bool): (State, Effect)
    requires i < |s.displays|
  {
    var d := s.displays[i].(userSess := -1);
    var s1 := s.(displays := s.displays[i := d]);
    if d.sdRec.how == NoShutdown || (d.sdRec.force == Ask && (logins || d.allowShutdown == RootOnly)) then (s1, Kept)
    else
      var s2 := SetLocal(s1, i, d.sdRec.(how := NoShutdown, osname := None));
      if !IsForced(s.sdRec) || MayOverride(d, s.sdRec, d.sdRec.uid) then (s2.(sdRec := d.sdRec), Replaced)
      else (s2, Kept)
  }

  /** A new session on display `i` has not scheduled anything. */
  function Forget(s: State, i: nat): State
    requires i < |s.displays|
  {
    SetLocal(s, i, s.displays[i].sdRec.(how := NoShutdown))
  }

  /** Who is logged in, as the main loop asks. */
  datatype Logins = Logins(anybody: bool, other: bool)   // other: somebody but the owner of the record

  predicate WouldShutdown(r: Rec, l: Logins) {
    match r.force
    case ForceAll => true
    case ForceMy => !l.other
    case _ => !l.anybody
  }

  /** It is time to look at the scheduled shutdown. */
  predicate Due(r: Rec, now: int) {
    r.how != NoShutdown && (r.start == TO_INF || now >= r.start)
  }

  /** One turn of the main loop. */
  function Tick(s: State, now: int, l: Logins): (State, Effect) {
    if !Due(s.sdRec, now) then (s, Kept)
    else
      var s1 := s.(sdRec := s.sdRec.(start := TO_INF));
      if now < s.sdRec.timeout then (s1, Kept)
      else
        var s2 := s1.(sdRec := s1.sdRec.(timeout := TO_INF));
        if WouldShutdown(s.sdRec, l) then (s2, Kept) else (CancelShutdown(s2), Cancelled)
  }

  datatype Event =
    | FromDisplay(i: nat, c: Command)
    | FromSocket(c: Command, logins: bool)
    | FromGreeter(r: Rec)
    | SessionStart(i: nat)
    | UserIn(i: nat, uid: int)
    | UserOut(i: nat, logins: bool)
    | Turn(now: int, l: Logins)
    | Fresh(i: nat, allowShutdown: Allow, allowNuke: Allow)    // a new display takes the place

  function Step(s: State, e: Event): (State, Effect) {
    match e
    case FromDisplay(i, c) =>
      if i < |s.displays| then var r := DisplayCommand(s, i, c); (r.0, r.2) else (s, Kept)
    case FromSocket(c, logins) => var r := GlobalCommand(s, c, logins); (r.0, r.2)
    case FromGreeter(r) => (s.(sdRec := r), Replaced)
    case SessionStart(i) => (if i < |s.displays| then Forget(s, i) else s, Kept)
    case UserIn(i, uid) =>
      (if i < |s.displays| then s.(displays := s.displays[i := s.displays[i].(userSess := uid)]) else s, Kept)
    case UserOut(i, logins) => if i < |s.displays| then SessionEnd(s, i, logins) else (s, Kept)
    case Turn(now, l) => Tick(s, now, l)
    case Fresh(i, allowShutdown, allowNuke) =>
      var d := Dpy(allowShutdown, allowNuke, -1, NONE_YET);
      (if i < |s.displays| then s.(displays := s.displays[i := d]) else s.(displays := s.displays + [d]), Kept)
  }

  function Run(s: State, es: seq<Event>): State
    decreases |es|
  {
    if es == [] then s else Run(Step(s, es[0]).0, es[1..])
  }

  // ----------------------------------------------------------------- the code

  class Daemon {
    var sdRec: Rec
    var displays: seq<Dpy>
    const fifoAllowShutdown: bool
    const fifoAllowNuke: bool

    constructor (fifoAllowShutdown: bool, fifoAllowNuke: bool)
      ensures Now() == State(NONE_YET, [], fifoAllowShutdown, fifoAllowNuke)
    {
      sdRec, displays := NONE_YET, [];
      this.fifoAllowShutdown, this.fifoAllowNuke := fifoAllowShutdown, fifoAllowNuke;
    }

    ghost function Now(): State
      reads this
    {
      State(sdRec, displays, fifoAllowShutdown, fifoAllowNuke)
    }

    /** The record that the words of the command describe. */
    method Describe(c: Command) returns (sdr: Rec)
      ensures sdr == Asked(c, -1)
    {
      sdr := Rec(NoShutdown, CancelIt, -1, 0, 0, None);
      match c {
        case Cancel(global) =>
          if global {
            sdr := sdr.(start := TO_INF);
          }
        case Shut(how, start, timeout, force, osname) =>
          sdr := Rec(how, force, -1, start, timeout, osname);
      }
    }

    /** The shutdown command of processCtrl(), behind the parsing; `i` is none for the global socket. */
    method ShutdownCommand(i: Option<nat>, c: Command, logins: bool) returns (reply: Reply)
      requires i.Some? ==> i.value < |displays|
      modifies this
      ensures i.Some? ==> var r := DisplayCommand(old(Now()), i.value, c); Now() == r.0 && reply == r.1
      ensures i.None? ==> var r := GlobalCommand(old(Now()), c, logins); Now() == r.0 && reply == r.1
    {
      hide DisplayCommand, GlobalCommand;
      var sdr := Describe(c);
      if i.Some? {
        reply := FromDisplaySocket(i.value, c, sdr);
      } else {
        reply := FromGlobalSocket(c, sdr, logins);
      }
    }

    method FromDisplaySocket(i: nat, ghost c: Command, sdr0: Rec) returns (reply: Reply)
      requires i < |displays| && sdr0 == Asked(c, -1)
      modifies this
      ensures var r := DisplayCommand(old(Now()), i, c); Now() == r.0 && reply == r.1
    {
      var d := displays[i];
      var sdr := sdr0.(uid := if d.userSess >= 0 then d.userSess else 0);
      assert sdr == Asked(c, UidOf(d));
      hide Asked;
      if d.allowShutdown == Nobody || (d.allowShutdown == RootOnly && sdr.uid != 0 && sdr.force != Ask) {
        return Perm;
      }
      if sdr.how == NoShutdown && sdr.start == 0 {
        displays := displays[i := d.(sdRec := sdr)];
      } else {
        if sdRec.how != NoShutdown && sdRec.force == ForceAll
           && ((d.allowNuke == Nobody && sdRec.uid != sdr.uid) || (d.allowNuke == RootOnly && sdr.uid != 0)) {
          return Perm;
        }
        if sdr.force == ForceAll && (d.allowNuke == Nobody || (d.allowNuke == RootOnly && sdr.uid != 0)) {
          return Perm;
        }
        if sdr.start == 0 {
          displays := displays[i := d.(sdRec := sdr)];
        } else if sdr.how == NoShutdown {
          CancelShutdown();
        } else {
          sdRec := sdr;
        }
      }
      reply := Ok;
    }

    method FromGlobalSocket(ghost c: Command, sdr: Rec, logins: bool) returns (reply: Reply)
      requires sdr == Asked(c, -1)
      modifies this`sdRec
      ensures var r := GlobalCommand(old(Now()), c, logins); Now() == r.0 && reply == r.1
    {
      hide Asked;
      if !fifoAllowShutdown {
        return Perm;
      }
      if sdRec.how != NoShutdown && sdRec.force == ForceAll && sdRec.uid != -1 && !fifoAllowNuke {
        return Perm;
      }
      if sdr.how == NoShutdown {
        CancelShutdown();
      } else {
        if sdr.force != CancelIt {
          if !fifoAllowNuke {
            return Perm;
          }
        } else if sdr.start == 0 && sdr.timeout == 0 && logins {
          return Busy;
        }
        sdRec := sdr;
      }
      reply := Ok;
    }

    method CancelShutdown()
      modifies this`sdRec
      ensures sdRec == old(sdRec).(how := NoShutdown, osname := None)
    {
      sdRec := sdRec.(how := NoShutdown, osname := None);
    }

    /** G_Shutdown of processGPipe(): the greeter has asked whoever is there, the daemon does not. */
    method GreeterShutdown(r: Rec)
      modifies this`sdRec
      ensures Now() == Step(old(Now()), FromGreeter(r)).0
    {
      sdRec := r;
    }

    /** The end of startDisplayP2(), when the session is forked. */
    method SessionForked(i: nat)
      requires i < |displays|
      modifies this`displays
      ensures Now() == Forget(old(Now()), i)
    {
      displays := displays[i := displays[i].(sdRec := displays[i].sdRec.(how := NoShutdown))];
    }

    /** D_UnUser of processDPipe(). */
    method UnUser(i: nat, logins: bool) returns (ask: bool)
      requires i < |displays|
      modifies this
      ensures Now() == SessionEnd(old(Now()), i, logins).0
      ensures var r := old(displays)[i].sdRec;
        ask <==> r.how != NoShutdown && r.force == Ask && (logins || old(displays)[i].allowShutdown == RootOnly)
    {
      displays := displays[i := displays[i].(userSess := -1)];
      var d := displays[i];
      ask := false;
      if d.sdRec.how != NoShutdown {
        if d.sdRec.force == Ask && (logins || d.allowShutdown == RootOnly) {
          ask := true;
        } else {
          if sdRec.how == NoShutdown || sdRec.force != ForceAll
             || !((d.allowNuke == Nobody && sdRec.uid != d.sdRec.uid)
                  || (d.allowNuke == RootOnly && d.sdRec.uid != 0)) {
            sdRec := d.sdRec;
          }
          displays := displays[i := d.(sdRec := d.sdRec.(how := NoShutdown, osname := None))];
        }
      }
    }

    /** One look of the main loop at the record; the result says if all displays are told to stop, and if by force. */
    method MainLoopTurn(now: int, l: Logins) returns (stop: Option<bool>)
      modifies this`sdRec
      ensures Now() == Tick(old(Now()), now, l).0
      ensures var r := old(sdRec);
        var due := r.how != NoShutdown && (r.start == 0x7fffffff || now >= r.start);
        var hindered := (r.force == ForceMy && l.other) || ((r.force == CancelIt || r.force == Ask) && l.anybody);
        && (stop == Some(false) <==> due && now < r.timeout)
        && (stop == Some(true) <==> due && now >= r.timeout && !hindered)
    {
      stop := None;
      if sdRec.how != NoShutdown {
        if !(sdRec.start != TO_INF && now < sdRec.start) {
          sdRec := sdRec.(start := TO_INF);
          if now >= sdRec.timeout {
            sdRec := sdRec.(timeout := TO_INF);
            if WouldShutdown(sdRec, l) {
              stop := Some(true);
            } else {
              CancelShutdown();
            }
          } else {
            stop := Some(false);
          }
        }
      }
    }
  }
}
