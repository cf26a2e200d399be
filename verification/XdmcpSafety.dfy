/**
 What all runs of the session establishment keep.
 */
module XdmcpSafety {
  import opened Wrappers
  import opened Xdmcp
  import DR = DisplayRecord

  function OptSet(a: Option<AuthId>): set<AuthId> {
    if a.Some? then {a.value} else {}
  }

  function Held(p: Proto): set<AuthId> {
    OptSet(p.file) + OptSet(p.xdmcp)
  }

  predicate Apart(p: Proto, q: Proto) {
    && !(p.address == q.address && p.number == q.number)
    && p.id != q.id && Held(p) !! Held(q)
  }

  predicate DispApart(d: Disp, e: Disp) {
    (d.id != 0 ==> d.id != e.id) && OptSet(d.auth) !! OptSet(e.auth)
  }

  predicate Across(p: Proto, d: Disp) {
    p.id != d.id && Held(p) !! OptSet(d.auth)
  }

  ghost predicate ProtosApart(ps: seq<Proto>) {
    forall i, j :: 0 <= i < j < |ps| ==> Apart(ps[i], ps[j])
  }

  ghost predicate DispsApart(ds: seq<Disp>) {
    forall i, j :: 0 <= i < j < |ds| ==> DispApart(ds[i], ds[j])
  }

  ghost predicate AllAcross(ps: seq<Proto>, ds: seq<Disp>) {
    forall p, d :: p in ps && d in ds ==> Across(p, d)
  }

  predicate ProtoOk(p: Proto, counter: nat, nextAuth: AuthId) {
    0 < p.id <= counter && (forall a :: a in Held(p) ==> a < nextAuth)
  }

  predicate DispOk(d: Disp, counter: nat, nextAuth: AuthId) {
    && d.id <= counter && (d.id != 0 <==> d.fromXdmcp)
    && (forall a :: a in OptSet(d.auth) ==> a < nextAuth)
  }

  ghost predicate InBounds(s: State) {
    && (forall p :: p in s.protos ==> ProtoOk(p, s.counter, s.nextAuth))
    && (forall d :: d in s.displays ==> DispOk(d, s.counter, s.nextAuth))
  }

  /**
   At most one pending session for an address and display number; session IDs are not
   zero and no two are equal; an authorization has one owner.
   */
  ghost predicate Inv(s: State) {
    ProtosApart(s.protos) && DispsApart(s.displays) && AllAcross(s.protos, s.displays) && InBounds(s)
  }

  lemma {:induction false} InitialInv(s: State)
    requires Initial(s)
    ensures Inv(s)
  {
  }

  // -------------------------------------------------------------- list changes

  lemma {:induction false} WithoutIn<T>(xs: seq<T>, k: nat)
    requires k < |xs|
    ensures forall x :: x in Without(xs, k) ==> x in xs
  {
    var r := Without(xs, k);
    assert forall i :: 0 <= i < |r| ==> r[i] == xs[if i < k then i else i + 1];
  }

  lemma {:induction false} TimeoutApart(ps: seq<Proto>, now: nat)
    requires ProtosApart(ps)
    ensures ProtosApart(Timeout(ps, now))
  {
    hide Apart, Oldest;
    if ps != [] {
      var rest := ps[1..];
      assert forall i :: 0 <= i < |rest| ==> rest[i] == ps[i + 1];
      TimeoutApart(rest, now);
      var t := Timeout(rest, now);
      assert forall q :: q in t ==> Apart(ps[0], q);
      var r := [ps[0]] + t;
      assert forall i :: 0 < i < |r| ==> r[i] == t[i - 1] && r[i] in t;
    }
  }

  lemma {:induction false} DropProto(s: State, k: nat)
    requires Inv(s) && k < |s.protos|
    ensures Inv(s.(protos := Without(s.protos, k)))
  {
    hide Apart, DispApart, Across, ProtoOk, DispOk;
    WithoutIn(s.protos, k);
  }

  lemma {:induction false} AuthorizedApart(p: Proto, q: Proto, r: Request, counter: nat, nextAuth: AuthId)
    requires ProtoOk(q, counter, nextAuth) && Apart(p, q)
    ensures Apart(Authorized(p, r, nextAuth), q) && Apart(q, Authorized(p, r, nextAuth))
  {
  }

  lemma {:induction false} ApartSym(p: Proto, q: Proto)
    ensures Apart(p, q) <==> Apart(q, p)
  {
  }

  lemma {:induction false} NewAuths(s: State, k: nat, r: Request)
    requires Inv(s) && k < |s.protos|
    ensures Inv(s.(protos := s.protos[k := Authorized(s.protos[k], r, s.nextAuth)], nextAuth := s.nextAuth + 2))
  {
    var p := Authorized(s.protos[k], r, s.nextAuth);
    var ps := s.protos[k := p];
    forall q | q in s.protos
      ensures ProtoOk(q, s.counter, s.nextAuth) && ProtoOk(q, s.counter, s.nextAuth + 2)
    {
    }
    forall d | d in s.displays
      ensures DispOk(d, s.counter, s.nextAuth + 2) && Across(p, d)
    {
      assert s.protos[k] in s.protos;
      assert Across(s.protos[k], d) && DispOk(d, s.counter, s.nextAuth);
    }
    assert ProtoOk(p, s.counter, s.nextAuth + 2) by {
      assert s.protos[k] in s.protos;
    }
    forall i, j | 0 <= i < j < |ps|
      ensures Apart(ps[i], ps[j])
    {
      ApartSym(s.protos[i], s.protos[j]);
      if i == k || j == k {
        AuthorizedApart(s.protos[k], s.protos[if i == k then j else i], r, s.counter, s.nextAuth);
      }
    }
    assert forall q :: q in ps ==> q == p || q in s.protos;
  }

  lemma {:induction false} AddInv(s: State, r: Request, conn: (int, Addr))
    requires Inv(s) && s.counter + 1 < ID_LIMIT && FindProto(s.protos, r.from, r.number) == |s.protos|
    ensures Inv(AddProto(s, r, conn))
    ensures AddProto(s, r, conn).protos[0].id == s.counter + 1
  {
    hide Timeout, Oldest;
    TimeoutApart(s.protos, r.now);
    var p := NewProto(r, conn, s.counter + 1);
    var t := Timeout(s.protos, r.now);
    var ps := [p] + t;
    assert Held(p) == {};
    forall q | q in t
      ensures Apart(p, q) && ProtoOk(q, s.counter + 1, s.nextAuth)
    {
      assert q in s.protos && ProtoOk(q, s.counter, s.nextAuth);
    }
    forall d | d in s.displays
      ensures Across(p, d) && DispOk(d, s.counter + 1, s.nextAuth)
    {
      assert DispOk(d, s.counter, s.nextAuth);
    }
    assert forall i :: 0 < i < |ps| ==> ps[i] == t[i - 1] && ps[i] in t;
    assert AddProto(s, r, conn).protos == ps;
  }

  lemma {:induction false} AnswerInv(s: State, k: nat, r: Request)
    requires Inv(s) && k < |s.protos|
    ensures Inv(Answer(s, k, r).0) && Answer(s, k, r).0.counter == s.counter
  {
    hide Inv;
    DropProto(s, k);
    NewAuths(s, k, r);
  }

  lemma {:induction false} RequestInv(s: State, r: Request)
    requires Inv(s) && HandleRequest(s, r).0.counter < ID_LIMIT
    ensures Inv(HandleRequest(s, r).0)
  {
    hide Inv, FindProto, Answer, AddProto;
    var k := FindProto(s.protos, r.from, r.number);
    if r.lengthOk && r.addressesOk {
      if k < |s.protos| {
        AnswerInv(s, k, r);
      } else if r.accepting && r.conn.Some? {
        CounterUp(s, r);
        AddInv(s, r, r.conn.value);
        AnswerInv(AddProto(s, r, r.conn.value), 0, r);
      }
    }
  }

  lemma {:induction false} CounterUp(s: State, r: Request)
    requires r.conn.Some?
    ensures var s2 := AddProto(s, r, r.conn.value);
      s2.counter == s.counter + 1 && s2.protos != [] && Answer(s2, 0, r).0.counter == s2.counter
  {
  }

  lemma {:induction false} DropDisp(s: State, k: nat)
    requires Inv(s) && k < |s.displays|
    ensures Inv(s.(displays := Without(s.displays, k)))
  {
    hide Apart, DispApart, Across, ProtoOk, DispOk;
    WithoutIn(s.displays, k);
  }

  /** A display whose ID and authorization stay. */
  lemma {:induction false} ChangeDisp(s: State, k: nat, d: Disp)
    requires Inv(s) && k < |s.displays|
    requires d == s.displays[k].(status := d.status, live := d.live)
    ensures Inv(s.(displays := s.displays[k := d]))
  {
    var was := s.displays[k];
    var ds := s.displays[k := d];
    assert was in s.displays;
    assert DispOk(d, s.counter, s.nextAuth) by {
      assert DispOk(was, s.counter, s.nextAuth);
    }
    forall p | p in s.protos
      ensures Across(p, d)
    {
      assert Across(p, was);
    }
    hide DispOk, Across, Apart, ProtoOk;
    assert forall e :: e in ds ==> e == d || e in s.displays;
    forall i, j | 0 <= i < j < |ds|
      ensures DispApart(ds[i], ds[j])
    {
      assert DispApart(s.displays[i], s.displays[j]);
    }
  }

  lemma {:induction false} StopInv(s: State, name: string)
    requires Inv(s)
    ensures Inv(s.(displays := StopNamed(s.displays, name)))
    ensures forall d :: d in StopNamed(s.displays, name) ==>
      exists e :: e in s.displays && d.id == e.id && d.auth == e.auth
  {
    hide Inv, FindByName;
    var k := FindByName(s.displays, name);
    if k < |s.displays| {
      var d := s.displays[k];
      assert d in s.displays;
      DropDisp(s, k);
      ChangeDisp(s, k, d.(status := DR.Zombie));
      WithoutIn(s.displays, k);
    }
  }

  /** The pending session becomes a display: ID and authorization go over to it. */
  lemma {:induction false} MoveInv(s: State, k: nat, from: Addr, name: string)
    requires Inv(s) && k < |s.protos|
    ensures var p := s.protos[k];
      Inv(s.(protos := Without(s.protos, k), displays := [NewDisp(p, from, name)] + s.displays))
  {
    var p := s.protos[k];
    var d := NewDisp(p, from, name);
    var ps, ds := Without(s.protos, k), [d] + s.displays;
    WithoutIn(s.protos, k);
    assert p in s.protos && ProtoOk(p, s.counter, s.nextAuth);
    forall q | q in ps
      ensures Across(q, d)
    {
      var i :| 0 <= i < |ps| && ps[i] == q;
      var j := if i < k then i else i + 1;
      assert Apart(s.protos[if j < k then j else k], s.protos[if j < k then k else j]);
    }
    forall e | e in s.displays
      ensures DispApart(d, e)
    {
      assert Across(p, e);
    }
    hide Across, Apart, ProtoOk;
    assert forall i :: 0 < i < |ds| ==> ds[i] == s.displays[i - 1] && ds[i] in s.displays;
    assert forall e :: e in ds ==> e == d || e in s.displays;
  }

  lemma {:induction false} ManageInv(s: State, from: Addr, number: nat, id: nat, lengthOk: bool, naming: Naming)
    requires Inv(s)
    ensures Inv(HandleManage(s, from, number, id, lengthOk, naming).0)
    ensures HandleManage(s, from, number, id, lengthOk, naming).0.counter == s.counter
  {
    hide Inv, FindProto, FindByAddress, StopNamed, NewDisp;
    var k := FindProto(s.protos, from, number);
    if k < |s.protos| {
      var p := s.protos[k];
      var n := naming(p.connType, p.connAddress, from, p.number);
      if n.Some? {
        StopInv(s, n.value);
        MoveInv(s.(displays := StopNamed(s.displays, n.value)), k, from, n.value);
      }
    }
  }

  lemma {:induction false} OtherInv(s: State, name: string, naming: Naming)
    requires Inv(s)
    ensures Inv(Step(s, OtherDisplay(name), naming).0)
  {
    var d := Disp(name, false, 0, [], 0, DR.NotRunning, false, None);
    var ds := [d] + s.displays;
    assert forall e :: e in s.displays ==> DispApart(d, e) && DispApart(e, d);
    assert forall p :: p in s.protos ==> ProtoOk(p, s.counter, s.nextAuth) && Across(p, d);
    hide Apart, Across, DispApart, ProtoOk;
    assert forall i :: 0 < i < |ds| ==> ds[i] == s.displays[i - 1] && ds[i] in s.displays;
    assert forall e :: e in ds ==> e == d || e in s.displays;
  }

  lemma {:induction false} StepInv(s: State, e: Event, naming: Naming)
    requires Inv(s) && Step(s, e, naming).0.counter < ID_LIMIT
    ensures Inv(Step(s, e, naming).0)
  {
    hide Inv, HandleRequest, HandleManage, HandleKeepAlive;
    match e {
      case GotRequest(r) => RequestInv(s, r);
      case GotManage(from, number, id, lengthOk) => ManageInv(s, from, number, id, lengthOk, naming);
      case GotKeepAlive(_, _, _, _) =>
      case Changed(k, status, live) =>
        if k < |s.displays| {
          ChangeDisp(s, k, s.displays[k].(status := status, live := live));
        }
      case Gone(k) =>
        if k < |s.displays| {
          DropDisp(s, k);
        }
      case OtherDisplay(name) => OtherInv(s, name, naming);
    }
  }

  lemma {:induction false} StepCounter(s: State, e: Event, naming: Naming)
    ensures s.counter <= Step(s, e, naming).0.counter <= s.counter + 1
  {
    hide FindProto, FindByAddress, StopNamed, Timeout;
  }

  lemma {:induction false} RunCounter(s: State, es: seq<Event>, naming: Naming)
    ensures s.counter <= Run(s, es, naming).counter
    decreases |es|
  {
    hide Step;
    if es != [] {
      StepCounter(s, es[0], naming);
      RunCounter(Step(s, es[0], naming).0, es[1..], naming);
    }
  }

  lemma {:induction false} RunKeeps(s: State, es: seq<Event>, naming: Naming)
    requires Inv(s) && Run(s, es, naming).counter < ID_LIMIT
    ensures Inv(Run(s, es, naming))
    decreases |es|
  {
    hide Inv, Step;
    if es != [] {
      var s2 := Step(s, es[0], naming).0;
      RunCounter(s2, es[1..], naming);
      StepInv(s, es[0], naming);
      RunKeeps(s2, es[1..], naming);
    }
  }
}
