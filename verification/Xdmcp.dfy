/**
 XDMCP session establishment (X Display Manager Control Protocol 1.1, sections 5 and 7):
 the two tables, the session counter, and what a packet does to them.
 */
module Xdmcp {
  import opened Wrappers
  import DR = DisplayRecord

  const PROTO_TIMEOUT := 30 * 60
  const ID_LIMIT := 0x1_0000_0000          // session IDs are CARD32
  const DATE_LIMIT := 0x1_0000_0000_0000_0000

  type Addr = seq<int>
  type AuthId = nat

  /** A pending session. The authorizations are records of which there is one each. */
  datatype Proto = Proto(address: Addr, number: nat, date: nat, connType: int, connAddress: Addr,
                         id: nat, file: Option<AuthId>, xdmcp: Option<AuthId>)

  /** A display. Only displays from XDMCP have a session ID; `live`: a session or server process is there. */
  datatype Disp = Disp(name: string, fromXdmcp: bool, id: nat, from: Addr, number: nat,
                       status: DR.Status, live: bool, auth: Option<AuthId>)

  /** Both tables, newest first, the session counter, and a supply of authorizations. */
  datatype State = State(protos: seq<Proto>, displays: seq<Disp>, counter: nat, nextAuth: AuthId)

  datatype Request = Request(
    from: Addr, number: nat, now: nat,
    lengthOk: bool,                        // the packet is as long as its fields say
    addressesOk: bool,                     // as many addresses as connection types, at least one
    accepting: bool,                       // isAccepting() has no objection
    conn: Option<(int, Addr)>,             // the connection type and address that is selected
    names: nat, chosen: Option<nat>,       // authorization names offered, and the one selected
    authentic: bool,                       // checkAuthentication()
    gotFile: bool, gotXdmcp: bool)         // which authorizations are generated

  datatype Reply =
    | Silent
    | Accept(id: nat)
    | Decline
    | Refuse(id: nat)
    | Failed(id: nat)
    | Alive(isRunning: bool, id: nat)

  /** The name for a display: connection type and address, sender, display number. */
  type Naming = (int, Addr, Addr, nat) -> Option<string>

  // -------------------------------------------------------------------- tables

  /** The first pending session for the display, or the length of the list. */
  function FindProto(ps: seq<Proto>, from: Addr, number: nat): (k: nat)
    ensures k <= |ps|
    ensures k < |ps| ==> ps[k].address == from && ps[k].number == number
    ensures forall i :: 0 <= i < k ==> !(ps[i].address == from && ps[i].number == number)
  {
    if ps == [] then 0
    else if ps[0].number == number && ps[0].address == from then 0
    else 1 + FindProto(ps[1..], from, number)
  }

  function FindByAddress(ds: seq<Disp>, from: Addr, number: nat): (k: nat)
    ensures k <= |ds|
    ensures k < |ds| ==> ds[k].fromXdmcp && ds[k].from == from && ds[k].number == number
    ensures forall i :: 0 <= i < k ==> !(ds[i].fromXdmcp && ds[i].from == from && ds[i].number == number)
  {
    if ds == [] then 0
    else if ds[0].fromXdmcp && ds[0].number == number && ds[0].from == from then 0
    else 1 + FindByAddress(ds[1..], from, number)
  }

  function FindById(ds: seq<Disp>, id: nat): (k: nat)
    ensures k <= |ds|
    ensures k < |ds| ==> ds[k].id == id
    ensures forall i :: 0 <= i < k ==> ds[i].id != id
  {
    if ds == [] then 0 else if ds[0].id == id then 0 else 1 + FindById(ds[1..], id)
  }

  function FindByName(ds: seq<Disp>, name: string): (k: nat)
    ensures k <= |ds|
    ensures k < |ds| ==> ds[k].name == name
    ensures forall i :: 0 <= i < k ==> ds[i].name != name
  {
    if ds == [] then 0 else if ds[0].name == name then 0 else 1 + FindByName(ds[1..], name)
  }

  function Without<T>(xs: seq<T>, k: nat): (r: seq<T>)
    requires k < |xs|
    ensures |r| == |xs| - 1
    ensures forall i :: 0 <= i < |r| ==> r[i] == xs[if i < k then i else i + 1]
  {
    xs[..k] + xs[k + 1..]
  }

  /** `now - PROTO_TIMEOUT` as an unsigned long. */
  function Oldest(now: nat): nat {
    (now - PROTO_TIMEOUT) % DATE_LIMIT
  }

  /** The pending sessions that are not too old. */
  function Timeout(ps: seq<Proto>, now: nat): (r: seq<Proto>)
    ensures forall p :: p in r <==> p in ps && p.date >= Oldest(now)
  {
    if ps == [] then []
    else (if ps[0].date < Oldest(now) then [] else [ps[0]]) + Timeout(ps[1..], now)
  }

  // ------------------------------------------------------------------- packets

  function NewProto(r: Request, conn: (int, Addr), id: nat): Proto {
    Proto(r.from, r.number, r.now, conn.0, conn.1, id, None, None)
  }

  /** The pending session with new authorizations; the old ones are forgotten. */
  function Authorized(p: Proto, r: Request, nextAuth: AuthId): Proto {
    p.(file := if r.gotFile then Some(nextAuth) else None, xdmcp := if r.gotXdmcp then Some(nextAuth + 1) else None)
  }

  /** The second half of a REQUEST, for the pending session `k`. */
  function Answer(s: State, k: nat, r: Request): (State, Reply)
    requires k < |s.protos|
  {
    if (r.names > 0 && r.chosen.None?) || !r.authentic then
      (s.(protos := Without(s.protos, k)), Decline)
    else if r.names > 0 then
      (s.(protos := s.protos[k := Authorized(s.protos[k], r, s.nextAuth)], nextAuth := s.nextAuth + 2),
       Accept(s.protos[k].id))
    else
      (s, Accept(s.protos[k].id))
  }

  function AddProto(s: State, r: Request, conn: (int, Addr)): State {
    s.(protos := [NewProto(r, conn, (s.counter + 1) % ID_LIMIT)] + Timeout(s.protos, r.now), counter := s.counter + 1)
  }

  function HandleRequest(s: State, r: Request): (State, Reply) {
    if !r.lengthOk then (s, Silent)
    else if !r.addressesOk then (s, Decline)
    else
      var k := FindProto(s.protos, r.from, r.number);
      if k < |s.protos| then Answer(s, k, r)
      else if !r.accepting || r.conn.None? then (s, Decline)
      else Answer(AddProto(s, r, r.conn.value), 0, r)
  }

  /** stopDisplay(): gone at once if no process is left, else a zombie. */
  function StopAt(ds: seq<Disp>, k: nat): seq<Disp>
    requires k < |ds|
  {
    if ds[k].live then ds[k := ds[k].(status := DR.Zombie)] else Without(ds, k)
  }

  function StopNamed(ds: seq<Disp>, name: string): seq<Disp> {
    var k := FindByName(ds, name);
    if k < |ds| then StopAt(ds, k) else ds
  }

  function NewDisp(p: Proto, from: Addr, name: string): Disp {
    Disp(name, true, p.id, from, p.number, DR.NotRunning, false, p.file)
  }

  function HandleManage(s: State, from: Addr, number: nat, id: nat, lengthOk: bool, naming: Naming): (State, Reply) {
    if !lengthOk then (s, Silent)
    else
      var k := FindProto(s.protos, from, number);
      if k == |s.protos| || s.protos[k].id != id then
        var j := FindByAddress(s.displays, from, number);
        if k == |s.protos| && j < |s.displays| && s.displays[j].id == id then (s, Silent)
        else (s, Refuse(id))
      else
        var p := s.protos[k];
        match naming(p.connType, p.connAddress, from, p.number)
        case None => (s, Failed(id))
        case Some(name) =>
          (s.(protos := Without(s.protos, k), displays := [NewDisp(p, from, name)] + StopNamed(s.displays, name)), Silent)
  }

  function HandleKeepAlive(s: State, from: Addr, number: nat, id: nat, lengthOk: bool): Reply {
    if !lengthOk then Silent
    else
      var i := FindById(s.displays, id);
      var k := if i < |s.displays| then i else FindByAddress(s.displays, from, number);
      if k < |s.displays| && s.displays[k].status == DR.Running
      then Alive(s.displays[k].id == id, s.displays[k].id)
      else Alive(false, 0)
  }

  // ---------------------------------------------------------------------- runs

  /** A packet, or something that happens to a display. */
  datatype Event =
    | GotRequest(r: Request)
    | GotManage(from: Addr, number: nat, id: nat, lengthOk: bool)
    | GotKeepAlive(from: Addr, number: nat, id: nat, lengthOk: bool)
    | Changed(k: nat, status: DR.Status, live: bool)
    | Gone(k: nat)
    | OtherDisplay(name: string)         // a display that is not from XDMCP

  function Step(s: State, e: Event, naming: Naming): (State, Reply) {
    match e
    case GotRequest(r) => HandleRequest(s, r)
    case GotManage(from, number, id, lengthOk) => HandleManage(s, from, number, id, lengthOk, naming)
    case GotKeepAlive(from, number, id, lengthOk) => (s, HandleKeepAlive(s, from, number, id, lengthOk))
    case Changed(k, status, live) =>
      if k < |s.displays|
      then (s.(displays := s.displays[k := s.displays[k].(status := status, live := live)]), Silent)
      else (s, Silent)
    case Gone(k) => (if k < |s.displays| then s.(displays := Without(s.displays, k)) else s, Silent)
    case OtherDisplay(name) =>
      (s.(displays := [Disp(name, false, 0, [], 0, DR.NotRunning, false, None)] + s.displays), Silent)
  }

  function Run(s: State, es: seq<Event>, naming: Naming): State
    decreases |es|
  {
    if es == [] then s else Run(Step(s, es[0], naming).0, es[1..], naming)
  }

  /** initXdmcp(): the counter starts somewhere, the tables are empty. */
  predicate Initial(s: State) {
    s.protos == [] && s.displays == []
  }
}
