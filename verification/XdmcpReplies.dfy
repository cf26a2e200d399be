/**
 When a REQUEST is accepted, what it leaves pending, and what becomes of the displays that
 a MANAGE displaces, said without the handlers' own words.
 */
module XdmcpReplies {
  import opened Wrappers
  import opened Xdmcp
  import opened XdmcpSafety
  import opened XdmcpTheorems
  import DR = DisplayRecord

  // ------------------------------------------------------------------ the reply

  /** A session is pending for the address and display number. */
  ghost predicate PendingAt(s: State, from: Addr, number: nat) {
    exists p :: p in s.protos && p.address == from && p.number == number
  }

  /** The REQUEST can be answered at all: its fields fit its length and each other. */
  predicate WellMade(r: Request) {
    r.lengthOk && r.addressesOk
  }

  /** What an accepted REQUEST has to have. */
  ghost predicate Acceptable(s: State, r: Request) {
    && WellMade(r) && r.authentic && (r.names == 0 || r.chosen.Some?)
    && (PendingAt(s, r.from, r.number) || (r.accepting && r.conn.Some?))
  }

  lemma {:induction false} PendingFound(s: State, from: Addr, number: nat)
    ensures PendingAt(s, from, number) <==> FindProto(s.protos, from, number) < |s.protos|
  {
    NothingIs(s, from, number);
  }

  /** The reply, from the fields alone. */
  lemma {:induction false} ReplyExactly(s: State, r: Request)
    ensures var reply := HandleRequest(s, r).1;
      && (reply == Silent <==> !r.lengthOk)
      && (reply.Accept? <==> Acceptable(s, r))
      && (reply == Decline <==> r.lengthOk && !Acceptable(s, r))
  {
    hide FindProto, Timeout;
    PendingFound(s, r.from, r.number);
  }

  /** The session is the one that the REQUEST is about. */
  predicate About(p: Proto, r: Request) {
    p.address == r.from && p.number == r.number
  }

  /** Nothing pending has changed except for the display that has asked. */
  ghost predicate OthersKept(s: State, s2: State, r: Request) {
    forall p :: p in s2.protos && !About(p, r) ==> p in s.protos
  }

  /** ... and none of the others is gone, but for those that are too old. */
  ghost predicate OthersStay(s: State, s2: State, r: Request) {
    forall p :: p in s.protos && !About(p, r) && p.date >= Oldest(r.now) ==> p in s2.protos
  }

  lemma {:induction false} AnswerOthers(s: State, k: nat, r: Request)
    requires k < |s.protos| && About(s.protos[k], r)
    ensures var s2 := Answer(s, k, r).0;
      && OthersKept(s, s2, r) && (forall p :: p in s.protos && !About(p, r) ==> p in s2.protos)
      && s2.displays == s.displays
  {
    WithoutIn(s.protos, k);
    var p2 := Authorized(s.protos[k], r, s.nextAuth);
    var ps, qs := s.protos[k := p2], Without(s.protos, k);
    assert forall p :: p in ps ==> p == p2 || p in s.protos;
    forall p | p in s.protos && !About(p, r)
      ensures p in ps && p in qs
    {
      var i :| 0 <= i < |s.protos| && s.protos[i] == p;
      assert ps[i] == p;
      assert qs[if i < k then i else i - 1] == p;
    }
  }

  /** Other displays' sessions are none of its business, whatever the answer. */
  lemma {:induction false} RequestOthers(s: State, r: Request)
    ensures var s2 := HandleRequest(s, r).0;
      OthersKept(s, s2, r) && OthersStay(s, s2, r) && s2.displays == s.displays
  {
    hide FindProto, Answer, Oldest;
    var k := FindProto(s.protos, r.from, r.number);
    if WellMade(r) {
      if k < |s.protos| {
        AnswerOthers(s, k, r);
      } else if r.accepting && r.conn.Some? {
        var s1 := AddProto(s, r, r.conn.value);
        AnswerOthers(s1, 0, r);
        assert forall p :: p in s1.protos ==> p == s1.protos[0] || p in Timeout(s.protos, r.now);
        assert forall p :: p in Timeout(s.protos, r.now) ==> p in s1.protos;
      }
    }
  }

  /** A REQUEST that is refused after its addresses were looked at leaves nothing pending for its display. */
  lemma {:induction false} RefusedLeavesNone(s: State, r: Request)
    requires Inv(s) && HandleRequest(s, r).0.counter < ID_LIMIT
    requires WellMade(r) && !Acceptable(s, r)
    ensures !PendingAt(HandleRequest(s, r).0, r.from, r.number)
  {
    hide FindProto, Timeout;
    PendingFound(s, r.from, r.number);
    var k := FindProto(s.protos, r.from, r.number);
    if k < |s.protos| {
      DropsOnly(s, k);
    } else if r.accepting && r.conn.Some? {
      CounterUp(s, r);
      AddInv(s, r, r.conn.value);
      DropsOnly(AddProto(s, r, r.conn.value), 0);
    }
  }

  lemma {:induction false} DropsOnly(s: State, k: nat)
    requires Inv(s) && k < |s.protos|
    ensures var p := s.protos[k]; !PendingAt(s.(protos := Without(s.protos, k)), p.address, p.number)
  {
    hide DispsApart, AllAcross, InBounds, Held;
    var p, ps := s.protos[k], Without(s.protos, k);
    forall q | q in ps
      ensures !(q.address == p.address && q.number == p.number)
    {
      var i :| 0 <= i < |ps| && ps[i] == q;
      var j := if i < k then i else i + 1;
      assert Apart(s.protos[if j < k then j else k], s.protos[if j < k then k else j]);
    }
  }

  /**
   What is pending for the display after its REQUEST was accepted: what was pending, or a
   session from now on with the selected connection; with fresh authorizations of the
   generated kinds if names were offered.
   */
  lemma {:induction false} AcceptedPends(s: State, r: Request)
    requires Inv(s) && HandleRequest(s, r).0.counter < ID_LIMIT && Acceptable(s, r)
    ensures var (s2, reply) := HandleRequest(s, r);
      exists p :: p in s2.protos && About(p, r) && reply == Accept(p.id)
        && (if PendingAt(s, r.from, r.number)
            then exists q :: q in s.protos && About(q, r) && p == q.(file := p.file, xdmcp := p.xdmcp)
                   && (r.names == 0 ==> p == q)
            else && p.date == r.now && (p.connType, p.connAddress) == r.conn.value && p.id == s.counter + 1
                 && (r.names == 0 ==> p.file.None? && p.xdmcp.None?))
        && (r.names > 0 ==>
              && (p.file.Some? <==> r.gotFile) && (p.xdmcp.Some? <==> r.gotXdmcp)
              && (p.file.Some? ==> p.file != p.xdmcp)
              && (forall a :: a in Held(p) ==> s.nextAuth <= a < s2.nextAuth))
  {
    hide FindProto, Timeout;
    PendingFound(s, r.from, r.number);
    var k := FindProto(s.protos, r.from, r.number);
    var s2 := HandleRequest(s, r).0;
    if k < |s.protos| {
      assert s.protos[k] in s.protos && s2.protos[k] in s2.protos;
    } else {
      CounterUp(s, r);
      assert s2.protos[0] in s2.protos;
    }
  }

  // ---------------------------------------------------------------------- runs

  lemma {:induction false} RunSnoc(s: State, es: seq<Event>, e: Event, naming: Naming)
    ensures Run(s, es + [e], naming) == Step(Run(s, es, naming), e, naming).0
    decreases |es|
  {
    hide Step;
    if es == [] {
      assert Run(s, [e], naming) == Run(Step(s, e, naming).0, [e][1..], naming);
    } else {
      assert (es + [e])[1..] == es[1..] + [e];
      RunSnoc(Step(s, es[0], naming).0, es[1..], e, naming);
    }
  }

  /** Event `k` is an authentic REQUEST from there, and its answer names the session. */
  ghost predicate AnsweredAt(s: State, es: seq<Event>, naming: Naming, k: nat, from: Addr, number: nat, id: nat)
    requires k < |es|
  {
    && es[k].GotRequest? && es[k].r.from == from && es[k].r.number == number && es[k].r.authentic
    && Step(Run(s, es[..k], naming), es[k], naming).1 == Accept(id)
  }

  /** A REQUEST from there that has been answered one way or the other. */
  predicate AsksAgain(e: Event, from: Addr, number: nat) {
    e.GotRequest? && e.r.from == from && e.r.number == number && WellMade(e.r)
  }

  /** ... and it was the last one. */
  ghost predicate LastAnswered(s: State, es: seq<Event>, naming: Naming, from: Addr, number: nat, id: nat) {
    exists k :: 0 <= k < |es| && AnsweredAt(s, es, naming, k, from, number, id)
      && forall j :: k < j < |es| ==> !AsksAgain(es[j], from, number)
  }

  lemma {:induction false} LastGoesOn(s: State, es: seq<Event>, e: Event, naming: Naming, from: Addr, number: nat, id: nat)
    requires LastAnswered(s, es, naming, from, number, id) && !AsksAgain(e, from, number)
    ensures LastAnswered(s, es + [e], naming, from, number, id)
  {
    hide Step, Run;
    var fs := es + [e];
    var k :| 0 <= k < |es| && AnsweredAt(s, es, naming, k, from, number, id)
             && forall j :: k < j < |es| ==> !AsksAgain(es[j], from, number);
    assert fs[..k] == es[..k] && fs[k] == es[k];
    assert AnsweredAt(s, fs, naming, k, from, number, id);
    forall j | k < j < |fs|
      ensures !AsksAgain(fs[j], from, number)
    {
      assert fs[j] == if j < |es| then es[j] else e;
    }
  }

  lemma {:induction false} LastIsNow(s: State, es: seq<Event>, e: Event, naming: Naming, from: Addr, number: nat, id: nat)
    requires e.GotRequest? && e.r.from == from && e.r.number == number && e.r.authentic
    requires Step(Run(s, es, naming), e, naming).1 == Accept(id)
    ensures LastAnswered(s, es + [e], naming, from, number, id)
  {
    hide Step, Run;
    var fs := es + [e];
    assert fs[..|es|] == es && fs[|es|] == e;
    assert AnsweredAt(s, fs, naming, |es|, from, number, id);
  }

  /** A session that is pending after a step was pending before, or the step is its REQUEST. */
  lemma {:induction false} PendingFrom(s: State, e: Event, naming: Naming, p: Proto)
    requires Inv(s) && Step(s, e, naming).0.counter < ID_LIMIT && p in Step(s, e, naming).0.protos
    ensures if AsksAgain(e, p.address, p.number) then e.r.authentic && Step(s, e, naming).1 == Accept(p.id)
            else exists q :: q in s.protos && q.address == p.address && q.number == p.number && q.id == p.id
  {
    hide HandleRequest, FindProto, FindByAddress, StopNamed, HandleKeepAlive, Inv;
    match e
    case GotRequest(r) =>
      RequestInv(s, r);
      ReplyExactly(s, r);
      RequestOthers(s, r);
      if About(p, r) {
        if !WellMade(r) {
          BadChangesNone(s, r);
        } else if !Acceptable(s, r) {
          RefusedLeavesNone(s, r);
        } else {
          AcceptedPends(s, r);
          OnlyOne(HandleRequest(s, r).0, p, r);
        }
      }
    case GotManage(from, number, _, _) =>
      var k := FindProto(s.protos, from, number);
      if k < |s.protos| {
        WithoutIn(s.protos, k);
      }
    case _ =>
  }

  lemma {:induction false} BadChangesNone(s: State, r: Request)
    requires !WellMade(r)
    ensures HandleRequest(s, r).0 == s
  {
  }

  lemma {:induction false} OnlyOne(s: State, p: Proto, r: Request)
    requires Inv(s) && p in s.protos && About(p, r)
    ensures forall q :: q in s.protos && About(q, r) ==> q == p
  {
    hide DispsApart, AllAcross, InBounds, Held;
    forall i, j | 0 <= i < j < |s.protos|
      ensures !(About(s.protos[i], r) && About(s.protos[j], r))
    {
      assert Apart(s.protos[i], s.protos[j]);
    }
  }

  /** Over every run: each pending session was named by the last REQUEST of its display, which was authentic. */
  lemma {:induction false} PendingAnswered(s: State, es: seq<Event>, naming: Naming, p: Proto)
    requires Initial(s) && Run(s, es, naming).counter < ID_LIMIT && p in Run(s, es, naming).protos
    ensures LastAnswered(s, es, naming, p.address, p.number, p.id)
    decreases |es|
  {
    hide Step, Inv, LastAnswered, AsksAgain;
    if es != [] {
      var fs, e := es[..|es| - 1], es[|es| - 1];
      assert es == fs + [e];
      var t := Run(s, fs, naming);
      RunSnoc(s, fs, e, naming);
      StepCounter(t, e, naming);
      InitialInv(s);
      RunKeeps(s, fs, naming);
      PendingFrom(t, e, naming, p);
      if AsksAgain(e, p.address, p.number) {
        AsksIs(e, p.address, p.number);
        LastIsNow(s, fs, e, naming, p.address, p.number, p.id);
      } else {
        var q :| q in t.protos && q.address == p.address && q.number == p.number && q.id == p.id;
        PendingAnswered(s, fs, naming, q);
        LastGoesOn(s, fs, e, naming, p.address, p.number, p.id);
      }
    }
  }

  lemma {:induction false} AsksIs(e: Event, from: Addr, number: nat)
    ensures AsksAgain(e, from, number) ==> e.GotRequest? && e.r.from == from && e.r.number == number
  {
  }

  /** ... and so was each ID that becomes a display, at the address and number that its MANAGE comes from. */
  lemma {:induction false} StartedAnswered(s: State, es: seq<Event>, e: Event, naming: Naming)
    requires Initial(s) && Run(s, es, naming).counter < ID_LIMIT && Starts(Run(s, es, naming), e, naming).Some?
    ensures e.GotManage? && LastAnswered(s, es, naming, e.from, e.number, e.id)
  {
    hide LastAnswered, Inv, FindByAddress, StopNamed, NewDisp, HandleKeepAlive, HandleRequest;
    var t := Run(s, es, naming);
    var k := FindProto(t.protos, e.from, e.number);
    assert k < |t.protos| && t.protos[k].id == e.id && t.protos[k] in t.protos;
    PendingAnswered(s, es, naming, t.protos[k]);
  }

  // ----------------------------------------------------------------- too old

  /** A pending session lasts 1800 seconds; in the first 1800 of the clock the difference wraps, and none lasts. */
  lemma {:induction false} TooOld(ps: seq<Proto>, now: nat, p: Proto)
    requires now < 0x1_0000_0000_0000_0000
    ensures now >= 1800 ==> (p in Timeout(ps, now) <==> p in ps && now - p.date <= 1800)
    ensures now < 1800 && p.date < 0x8000_0000_0000_0000 ==> p !in Timeout(ps, now)
  {
    hide Timeout;
    WrapBelow(now);
  }

  lemma {:induction false} WrapBelow(now: nat)
    requires now < 0x1_0000_0000_0000_0000
    ensures now >= 1800 ==> Oldest(now) == now - 1800
    ensures now < 1800 ==> Oldest(now) >= 0x8000_0000_0000_0000
  {
  }

  // ---------------------------------------------------- displays of the same name

  /** Of the displays of one name all but the newest are zombies. */
  ghost predicate OneAwake(ds: seq<Disp>) {
    forall i, j :: 0 <= i < j < |ds| && ds[i].name == ds[j].name ==> ds[j].status == DR.Zombie
  }

  /** What else happens to displays: a zombie stays one, and no other display takes a name that is in use. */
  ghost predicate Sensible(s: State, e: Event) {
    && (e.Changed? && e.k < |s.displays| && s.displays[e.k].status == DR.Zombie ==> e.status == DR.Zombie)
    && (e.OtherDisplay? ==> forall d :: d in s.displays ==> d.name != e.name)
  }

  lemma {:induction false} StoppedAwake(ds: seq<Disp>, name: string)
    requires OneAwake(ds)
    ensures OneAwake(StopNamed(ds, name))
    ensures forall d :: d in StopNamed(ds, name) && d.name == name ==> d.status == DR.Zombie
  {
    hide FindByName;
    var k := FindByName(ds, name);
    if k < |ds| {
      var r := StopNamed(ds, name);
      if ds[k].live {
        assert forall i :: 0 <= i < |r| ==> r[i].name == ds[i].name && (r[i] == ds[i] || r[i].status == DR.Zombie);
      } else {
        assert forall i :: 0 <= i < |r| ==> r[i] == ds[if i < k then i else i + 1];
      }
    }
  }

  lemma {:induction false} AwakeStep(s: State, e: Event, naming: Naming)
    requires OneAwake(s.displays) && Sensible(s, e)
    ensures OneAwake(Step(s, e, naming).0.displays)
  {
    hide HandleRequest, FindProto, FindByAddress, StopNamed, HandleKeepAlive;
    match e
    case GotRequest(r) => RequestOthers(s, r);
    case GotManage(from, number, id, lengthOk) =>
      var k := FindProto(s.protos, from, number);
      if k < |s.protos| {
        var n := naming(s.protos[k].connType, s.protos[k].connAddress, from, s.protos[k].number);
        if n.Some? {
          StoppedAwake(s.displays, n.value);
          var ds := StopNamed(s.displays, n.value);
          assert forall i :: 0 <= i < |ds| ==> ds[i] in ds;
        }
      }
    case OtherDisplay(name) =>
      assert forall i :: 0 <= i < |s.displays| ==> s.displays[i] in s.displays;
    case _ =>
  }

  ghost predicate AllSensible(s: State, es: seq<Event>, naming: Naming)
    decreases |es|
  {
    es != [] ==> Sensible(s, es[0]) && AllSensible(Step(s, es[0], naming).0, es[1..], naming)
  }

  /** Over every run no two displays of a name are awake. */
  lemma {:induction false} AwakeRun(s: State, es: seq<Event>, naming: Naming)
    requires OneAwake(s.displays) && AllSensible(s, es, naming)
    ensures OneAwake(Run(s, es, naming).displays)
    decreases |es|
  {
    hide Step, Sensible, OneAwake;
    if es != [] {
      AwakeStep(s, es[0], naming);
      AwakeRun(Step(s, es[0], naming).0, es[1..], naming);
    }
  }

  /**
   The display that a MANAGE makes waits to be started, for the display number and address
   of the packet, and is the only one of its name that is not a zombie; displays with a
   process are never dropped.
   */
  lemma {:induction false} MadeDisplay(s: State, from: Addr, number: nat, id: nat, naming: Naming, k: nat)
    requires Inv(s) && OneAwake(s.displays) && Pending(s, from, number, id, k)
    requires naming(s.protos[k].connType, s.protos[k].connAddress, from, number).Some?
    ensures var name := naming(s.protos[k].connType, s.protos[k].connAddress, from, number).value;
      var ds := HandleManage(s, from, number, id, true, naming).0.displays;
      && ds != [] && ds[0] == Disp(name, true, id, from, number, DR.NotRunning, false, s.protos[k].file)
      && (forall i :: 0 < i < |ds| && ds[i].name == name ==> ds[i].status == DR.Zombie)
      && (forall d :: d in s.displays && d.live ==> d in ds || (d.name == name && d.(status := DR.Zombie) in ds))
      && (forall d :: d in s.displays && d.name != name ==> d in ds)
  {
    FindsPending(s, from, number, id, k);
    hide Inv, FindProto, FindByAddress, Pending, OneAwake;
    var name := naming(s.protos[k].connType, s.protos[k].connAddress, from, number).value;
    StoppedAwake(s.displays, name);
    StoppedKeeps(s.displays, name);
    hide StopNamed;
    var ds := StopNamed(s.displays, name);
    assert forall i :: 0 <= i < |ds| ==> ds[i] in ds;
  }

  lemma {:induction false} StoppedKeeps(ds: seq<Disp>, name: string)
    ensures var r := StopNamed(ds, name);
      && (forall d :: d in ds && d.live ==> d in r || (d.name == name && d.(status := DR.Zombie) in r))
      && (forall d :: d in ds && d.name != name ==> d in r)
  {
    hide FindByName;
    var k, r := FindByName(ds, name), StopNamed(ds, name);
    if k < |ds| {
      forall d | d in ds && (d.live || d.name != name)
        ensures d in r || (d.name == name && d.(status := DR.Zombie) in r)
      {
        var i :| 0 <= i < |ds| && ds[i] == d;
        assert i == k ==> d.live && d.name == name;
        if ds[k].live {
          assert r[i] == if i == k then d.(status := DR.Zombie) else d;
        } else {
          assert i != k;
          assert r[if i < k then i else i - 1] == d;
        }
      }
    }
  }

  // ---------------------------------------------------------------- KEEPALIVE

  /** Display `j` is the newest from XDMCP for the address and number. */
  ghost predicate NewestThere(s: State, from: Addr, number: nat, j: nat) {
    && j < |s.displays| && s.displays[j].fromXdmcp && s.displays[j].from == from && s.displays[j].number == number
    && forall i :: 0 <= i < j ==>
         !(s.displays[i].fromXdmcp && s.displays[i].from == from && s.displays[i].number == number)
  }

  /** A KEEPALIVE for an ID that no display has is told about the newest display there, if that runs. */
  lemma {:induction false} AliveElsewhere(s: State, from: Addr, number: nat, id: nat)
    requires forall d :: d in s.displays ==> d.id != id
    ensures var reply := HandleKeepAlive(s, from, number, id, true);
      && (forall j: nat :: NewestThere(s, from, number, j) && s.displays[j].status == DR.Running ==>
            reply == Alive(false, s.displays[j].id))
      && ((forall j: nat :: NewestThere(s, from, number, j) ==> s.displays[j].status != DR.Running) ==>
            reply == Alive(false, 0))
    ensures HandleKeepAlive(s, from, number, id, false) == Silent
  {
    hide FindById, FindByAddress;
    var k := FindById(s.displays, id);
    var j := FindByAddress(s.displays, from, number);
    if j < |s.displays| {
      assert NewestThere(s, from, number, j);
    }
    assert forall i: nat :: NewestThere(s, from, number, i) ==> i == j;
  }
}
