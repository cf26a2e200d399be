/**
 Session IDs over whole runs, and what one MANAGE or KEEPALIVE packet does.
 */
module XdmcpTheorems {
  import opened Wrappers
  import opened Xdmcp
  import opened XdmcpSafety
  import DR = DisplayRecord

  // --------------------------------------------------------------- issued IDs

  /** The session ID that a step takes from the counter. */
  function Issues(s: State, e: Event, naming: Naming): Option<nat> {
    var s2 := Step(s, e, naming).0;
    if s2.counter > s.counter then Some(s2.counter % ID_LIMIT) else None
  }

  function Issued(s: State, es: seq<Event>, naming: Naming): seq<nat>
    decreases |es|
  {
    if es == [] then []
    else
      var id := Issues(s, es[0], naming);
      (if id.Some? then [id.value] else []) + Issued(Step(s, es[0], naming).0, es[1..], naming)
  }

  predicate Increasing(xs: seq<nat>, low: nat, high: nat) {
    && (forall i :: 0 <= i < |xs| ==> low < xs[i] <= high)
    && (forall i, j :: 0 <= i < j < |xs| ==> xs[i] < xs[j])
  }

  lemma {:induction false} IncreasingCons(x: nat, xs: seq<nat>, low: nat, high: nat)
    requires Increasing(xs, x, high) && low < x <= high
    ensures Increasing([x] + xs, low, high)
  {
    var ys := [x] + xs;
    assert forall i :: 0 < i < |ys| ==> ys[i] == xs[i - 1];
  }

  /** Below 2^32 an issued ID is never issued again, and it is not zero. */
  lemma {:induction false} NeverReissued(s: State, es: seq<Event>, naming: Naming)
    requires Run(s, es, naming).counter < ID_LIMIT
    ensures Increasing(Issued(s, es, naming), s.counter, Run(s, es, naming).counter)
    decreases |es|
  {
    hide Step, Increasing;
    if es == [] {
      IncreasingNone(s.counter, s.counter);
    } else {
      var s2 := Step(s, es[0], naming).0;
      StepCounter(s, es[0], naming);
      RunCounter(s2, es[1..], naming);
      NeverReissued(s2, es[1..], naming);
      var rest := Issued(s2, es[1..], naming);
      if s2.counter > s.counter {
        IncreasingCons(s2.counter, rest, s.counter, Run(s, es, naming).counter);
      } else {
        assert [] + rest == rest;
      }
    }
  }

  lemma {:induction false} IncreasingNone(low: nat, high: nat)
    ensures Increasing([], low, high)
  {
  }

  /** An accepted REQUEST names the one pending session of the display, which is new if there was none. */
  lemma {:induction false} AcceptNamesPending(s: State, r: Request)
    requires Inv(s) && HandleRequest(s, r).0.counter < ID_LIMIT && HandleRequest(s, r).1.Accept?
    ensures var (s2, reply) := HandleRequest(s, r);
      && (exists p :: p in s2.protos && p.address == r.from && p.number == r.number && p.id == reply.id)
      && (if FindProto(s.protos, r.from, r.number) < |s.protos|
          then s2.counter == s.counter && reply.id == s.protos[FindProto(s.protos, r.from, r.number)].id
          else s2.counter == s.counter + 1 && reply.id == s2.counter)
      && s2.displays == s.displays
  {
    hide Inv, FindProto, Timeout;
    var k := FindProto(s.protos, r.from, r.number);
    if k < |s.protos| {
      AnswerPending(s, k, r);
    } else {
      CounterUp(s, r);
      AddInv(s, r, r.conn.value);
      AnswerPending(AddProto(s, r, r.conn.value), 0, r);
    }
  }

  lemma {:induction false} AnswerPending(s: State, k: nat, r: Request)
    requires k < |s.protos| && Answer(s, k, r).1.Accept?
    ensures var (s2, reply) := Answer(s, k, r);
      && k < |s2.protos| && s2.protos[k] in s2.protos
      && s2.protos[k].address == s.protos[k].address && s2.protos[k].number == s.protos[k].number
      && s2.protos[k].id == s.protos[k].id == reply.id
      && s2.counter == s.counter && s2.displays == s.displays
  {
  }

  // -------------------------------------------------------------- started IDs

  /** The session ID that a step turns into a display. */
  function Starts(s: State, e: Event, naming: Naming): Option<nat> {
    if e.GotManage? && |Step(s, e, naming).0.protos| < |s.protos| then Some(e.id) else None
  }

  function Started(s: State, es: seq<Event>, naming: Naming): seq<nat>
    decreases |es|
  {
    if es == [] then []
    else
      var id := Starts(s, es[0], naming);
      (if id.Some? then [id.value] else []) + Started(Step(s, es[0], naming).0, es[1..], naming)
  }

  /** The ID has been issued, and no session is pending under it. */
  ghost predicate Spent(s: State, id: nat) {
    id <= s.counter && forall p :: p in s.protos ==> p.id != id
  }

  lemma {:induction false} AnswerSpent(s: State, k: nat, r: Request, id: nat)
    requires k < |s.protos| && Spent(s, id)
    ensures Spent(Answer(s, k, r).0, id)
  {
    WithoutIn(s.protos, k);
    var ps := s.protos[k := Authorized(s.protos[k], r, s.nextAuth)];
    assert s.protos[k] in s.protos;
    assert forall p :: p in ps ==> p == ps[k] || p in s.protos;
  }

  lemma {:induction false} RequestSpent(s: State, r: Request, id: nat)
    requires Spent(s, id) && HandleRequest(s, r).0.counter < ID_LIMIT
    ensures Spent(HandleRequest(s, r).0, id)
  {
    hide FindProto, Answer, Timeout, Oldest;
    var k := FindProto(s.protos, r.from, r.number);
    if k < |s.protos| {
      AnswerSpent(s, k, r, id);
    } else if r.conn.Some? {
      CounterUp(s, r);
      if r.lengthOk && r.addressesOk && r.accepting {
        var s2 := AddProto(s, r, r.conn.value);
        assert forall p :: p in s2.protos ==> p == s2.protos[0] || p in s.protos;
        AnswerSpent(s2, 0, r, id);
      }
    }
  }

  lemma {:induction false} StepSpent(s: State, e: Event, naming: Naming, id: nat)
    requires Spent(s, id) && Step(s, e, naming).0.counter < ID_LIMIT
    ensures Spent(Step(s, e, naming).0, id)
  {
    hide FindProto, FindByAddress, StopNamed, HandleRequest, HandleKeepAlive;
    match e {
      case GotRequest(r) => RequestSpent(s, r, id);
      case GotManage(from, number, _, _) =>
        var k := FindProto(s.protos, from, number);
        if k < |s.protos| {
          WithoutIn(s.protos, k);
        }
      case _ =>
    }
  }

  /** A step that makes a display consumes a pending session with that ID. */
  lemma {:induction false} StartSpends(s: State, e: Event, naming: Naming)
    requires Inv(s) && Starts(s, e, naming).Some?
    ensures (exists p :: p in s.protos && p.id == e.id) && Spent(Step(s, e, naming).0, e.id)
  {
    hide FindByAddress, StopNamed, NewDisp;
    var k := FindProto(s.protos, e.from, e.number);
    assert k < |s.protos| && s.protos[k].id == e.id && s.protos[k] in s.protos;
    assert ProtoOk(s.protos[k], s.counter, s.nextAuth);
    var ps := Without(s.protos, k);
    forall q | q in ps
      ensures q.id != e.id
    {
      var i :| 0 <= i < |ps| && ps[i] == q;
      var j := if i < k then i else i + 1;
      assert Apart(s.protos[if j < k then j else k], s.protos[if j < k then k else j]);
    }
  }

  lemma {:induction false} SpentNotStarted(s: State, es: seq<Event>, naming: Naming, id: nat)
    requires Inv(s) && Spent(s, id) && Run(s, es, naming).counter < ID_LIMIT
    ensures id !in Started(s, es, naming)
    decreases |es|
  {
    hide Inv, Step, Starts;
    if es != [] {
      var s2 := Step(s, es[0], naming).0;
      RunCounter(s2, es[1..], naming);
      StepInv(s, es[0], naming);
      StepSpent(s, es[0], naming, id);
      SpentNotStarted(s2, es[1..], naming, id);
      StartsIs(s, es[0], naming);
      if Starts(s, es[0], naming).Some? {
        StartSpends(s, es[0], naming);
      }
    }
  }

  lemma {:induction false} StartsIs(s: State, e: Event, naming: Naming)
    ensures Starts(s, e, naming).Some? ==> e.GotManage? && Starts(s, e, naming).value == e.id
  {
    hide Step;
  }

  ghost predicate AllDistinct(ids: seq<nat>) {
    forall i, j :: 0 <= i < j < |ids| ==> ids[i] != ids[j]
  }

  lemma {:induction false} DistinctCons(x: nat, xs: seq<nat>)
    requires x !in xs && AllDistinct(xs)
    ensures AllDistinct([x] + xs)
  {
    var ys := [x] + xs;
    assert forall i :: 0 < i < |ys| ==> ys[i] == xs[i - 1] && ys[i] in xs;
  }

  /** Over a whole run each session ID becomes at most one display. */
  lemma {:induction false} StartedOnce(s: State, es: seq<Event>, naming: Naming)
    requires Inv(s) && Run(s, es, naming).counter < ID_LIMIT
    ensures AllDistinct(Started(s, es, naming))
    decreases |es|
  {
    hide Inv, Step, Starts, Spent;
    if es != [] {
      var s2 := Step(s, es[0], naming).0;
      RunCounter(s2, es[1..], naming);
      StepInv(s, es[0], naming);
      StartedOnce(s2, es[1..], naming);
      StartsIs(s, es[0], naming);
      var rest := Started(s2, es[1..], naming);
      if Starts(s, es[0], naming).Some? {
        StartSpends(s, es[0], naming);
        SpentNotStarted(s2, es[1..], naming, es[0].id);
        DistinctCons(es[0].id, rest);
        assert Started(s, es, naming) == [es[0].id] + rest;
      } else {
        assert Started(s, es, naming) == [] + rest == rest;
      }
    }
  }

  // ------------------------------------------------------------------- MANAGE

  /** The one pending session that a MANAGE is for. */
  ghost predicate Pending(s: State, from: Addr, number: nat, id: nat, k: nat) {
    && k < |s.protos| && s.protos[k].address == from && s.protos[k].number == number && s.protos[k].id == id
    && forall i :: 0 <= i < |s.protos| && i != k ==>
         s.protos[i].id != id && !(s.protos[i].address == from && s.protos[i].number == number)
  }

  /** The newest display from XDMCP for an address and display number has this ID. */
  ghost predicate NewestHas(s: State, from: Addr, number: nat, id: nat) {
    exists j ::
      && 0 <= j < |s.displays| && s.displays[j].fromXdmcp && s.displays[j].from == from
      && s.displays[j].number == number && s.displays[j].id == id
      && forall i :: 0 <= i < j ==>
           !(s.displays[i].fromXdmcp && s.displays[i].from == from && s.displays[i].number == number)
  }

  ghost predicate NothingPending(s: State, from: Addr, number: nat) {
    forall p :: p in s.protos ==> !(p.address == from && p.number == number)
  }

  /** No pending session and no other display has an authorization of this display. */
  ghost predicate SoleOwner(s: State, k: nat)
    requires k < |s.displays|
  {
    && (forall p :: p in s.protos ==> Held(p) !! OptSet(s.displays[k].auth))
    && (forall i :: 0 <= i < |s.displays| && i != k ==> OptSet(s.displays[i].auth) !! OptSet(s.displays[k].auth))
  }

  lemma {:induction false} FindsPending(s: State, from: Addr, number: nat, id: nat, k: nat)
    requires Inv(s)
    ensures Pending(s, from, number, id, k) <==>
      k == FindProto(s.protos, from, number) && k < |s.protos| && s.protos[k].id == id
  {
    hide DispApart, Across, ProtoOk, DispOk, FindProto;
    var f := FindProto(s.protos, from, number);
    if k == f && k < |s.protos| && s.protos[k].id == id {
      forall i | 0 <= i < |s.protos| && i != k
        ensures s.protos[i].id != id && !(s.protos[i].address == from && s.protos[i].number == number)
      {
        assert Apart(s.protos[if i < k then i else k], s.protos[if i < k then k else i]);
      }
    }
  }

  /**
   A MANAGE for a pending session takes it out of the table, stops a display of the same
   name, and makes a display that owns the authorization alone ...
   */
  lemma {:induction false} ManageConsumes(s: State, from: Addr, number: nat, id: nat, naming: Naming, k: nat)
    requires Inv(s) && Pending(s, from, number, id, k)
    requires naming(s.protos[k].connType, s.protos[k].connAddress, from, number).Some?
    ensures var p := s.protos[k];
      var name := naming(p.connType, p.connAddress, from, number).value;
      var s2 := HandleManage(s, from, number, id, true, naming).0;
      && s2.protos == s.protos[..k] + s.protos[k + 1..]
      && s2.displays == [NewDisp(p, from, name)] + StopNamed(s.displays, name)
      && s2.displays[0].id == id && s2.displays[0].auth == p.file && SoleOwner(s2, 0)
      && NothingPending(s2, from, number) && NewestHas(s2, from, number, id)
  {
    FindsPending(s, from, number, id, k);
    var s2 := HandleManage(s, from, number, id, true, naming).0;
    ManageInv(s, from, number, id, true, naming);
    hide Held, OptSet, FindProto, FindByAddress, FindByName, ProtoOk, DispOk;
    assert forall i :: 0 < i < |s2.displays| ==> DispApart(s2.displays[0], s2.displays[i]);
    assert s2.displays[0] in s2.displays;
    assert forall p :: p in s2.protos ==> Across(p, s2.displays[0]);
    assert s2.displays[0].number == number;
    var ps := s2.protos;
    assert forall i :: 0 <= i < |ps| ==> ps[i] == s.protos[if i < k then i else i + 1];
  }

  /**
   ... any other MANAGE leaves both tables as they are: without an answer if it repeats
   the one that made the newest display there, and otherwise with REFUSE, or with FAILED
   if no display name can be computed.
   */
  lemma {:induction false} ManageLeaves(s: State, from: Addr, number: nat, id: nat, lengthOk: bool, naming: Naming)
    requires Inv(s)
    requires forall k: nat :: Pending(s, from, number, id, k) ==>
      !lengthOk || naming(s.protos[k].connType, s.protos[k].connAddress, from, number).None?
    ensures var (s2, reply) := HandleManage(s, from, number, id, lengthOk, naming);
      && s2 == s
      && (reply == Silent <==> !lengthOk || (NothingPending(s, from, number) && NewestHas(s, from, number, id)))
      && (reply == Failed(id) <==> lengthOk && exists k: nat :: Pending(s, from, number, id, k))
      && (reply == Silent || reply == Failed(id) || reply == Refuse(id))
  {
    hide Inv, FindProto, FindByAddress, StopNamed, NewDisp, Pending, NewestHas;
    var k := FindProto(s.protos, from, number);
    forall i: nat
      ensures Pending(s, from, number, id, i) <==> i == k && k < |s.protos| && s.protos[k].id == id
    {
      FindsPending(s, from, number, id, i);
    }
    if k < |s.protos| && s.protos[k].id == id {
      assert Pending(s, from, number, id, k);
    }
    NewestIs(s, from, number, id);
    NothingIs(s, from, number);
  }

  lemma {:induction false} NewestIs(s: State, from: Addr, number: nat, id: nat)
    ensures var j := FindByAddress(s.displays, from, number);
      NewestHas(s, from, number, id) <==> j < |s.displays| && s.displays[j].id == id
  {
    hide FindByAddress;
  }

  lemma {:induction false} NothingIs(s: State, from: Addr, number: nat)
    ensures NothingPending(s, from, number) <==> FindProto(s.protos, from, number) == |s.protos|
  {
    hide FindProto;
    var k := FindProto(s.protos, from, number);
    if k < |s.protos| {
      assert s.protos[k] in s.protos;
    }
  }

  // ---------------------------------------------------------------- KEEPALIVE

  /** For an ID that is not zero the answer is "running" exactly if the display with that ID runs. */
  lemma {:induction false} AliveIffRunning(s: State, from: Addr, number: nat, id: nat)
    requires Inv(s) && id != 0
    ensures var reply := HandleKeepAlive(s, from, number, id, true);
      && reply.Alive?
      && (reply.isRunning <==> exists d :: d in s.displays && d.id == id && d.status == DR.Running)
      && (reply.isRunning ==> reply.id == id)
  {
    hide FindById, FindByAddress, Apart, Across, ProtoOk, DispOk, OptSet;
    var k := FindById(s.displays, id);
    if k < |s.displays| {
      assert s.displays[k] in s.displays;
      assert forall i :: k < i < |s.displays| ==> DispApart(s.displays[k], s.displays[i]);
      assert forall i :: 0 <= i < |s.displays| && s.displays[i].id == id ==> i == k;
    }
  }

  // -------------------------------------------------------------- the theorem

  /** From the start of the daemon on, until the counter leaves 32 bits. */
  lemma {:induction false} SessionSafety(s: State, es: seq<Event>, naming: Naming)
    requires Initial(s) && Run(s, es, naming).counter < ID_LIMIT
    ensures var t := Run(s, es, naming);
      && (forall i, j :: 0 <= i < j < |t.protos| ==>
            !(t.protos[i].address == t.protos[j].address && t.protos[i].number == t.protos[j].number))
      && (forall i, j :: 0 <= i < j < |t.protos| ==> t.protos[i].id != t.protos[j].id)
      && (forall i, j :: 0 <= i < j < |t.displays| && t.displays[i].fromXdmcp ==> t.displays[i].id != t.displays[j].id)
      && (forall p, d :: p in t.protos && d in t.displays ==> p.id != d.id)
      && (forall p :: p in t.protos ==> p.id != 0)
      && (forall d :: d in t.displays ==> (d.id != 0 <==> d.fromXdmcp))
  {
    InitialInv(s);
    RunKeeps(s, es, naming);
    hide Run, Held, OptSet;
    var t := Run(s, es, naming);
    forall i, j | 0 <= i < j < |t.protos|
      ensures Apart(t.protos[i], t.protos[j])
    {
    }
    forall i, j | 0 <= i < j < |t.displays|
      ensures DispApart(t.displays[i], t.displays[j])
    {
      assert t.displays[i] in t.displays;
    }
    assert forall i :: 0 <= i < |t.displays| ==> t.displays[i] in t.displays;
    assert forall d :: d in t.displays ==> DispOk(d, t.counter, t.nextAuth);
    assert forall p :: p in t.protos ==> ProtoOk(p, t.counter, t.nextAuth);
    assert forall p, d :: p in t.protos && d in t.displays ==> Across(p, d);
  }
}
