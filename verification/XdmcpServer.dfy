/**
 The packet handlers as they run: two lists and a counter, searched and changed in place.
 */
module XdmcpServer {
  import opened Wrappers
  import opened Xdmcp
  import DR = DisplayRecord

  lemma {:induction false} FindProtoIs(ps: seq<Proto>, from: Addr, number: nat, k: nat)
    requires k <= |ps| && (k < |ps| ==> ps[k].address == from && ps[k].number == number)
    requires forall i :: 0 <= i < k ==> !(ps[i].address == from && ps[i].number == number)
    ensures FindProto(ps, from, number) == k
  {
  }

  lemma {:induction false} FindByAddressIs(ds: seq<Disp>, from: Addr, number: nat, k: nat)
    requires k <= |ds| && (k < |ds| ==> ds[k].fromXdmcp && ds[k].from == from && ds[k].number == number)
    requires forall i :: 0 <= i < k ==> !(ds[i].fromXdmcp && ds[i].from == from && ds[i].number == number)
    ensures FindByAddress(ds, from, number) == k
  {
  }

  lemma {:induction false} FindByIdIs(ds: seq<Disp>, id: nat, k: nat)
    requires k <= |ds| && (k < |ds| ==> ds[k].id == id) && forall i :: 0 <= i < k ==> ds[i].id != id
    ensures FindById(ds, id) == k
  {
  }

  lemma {:induction false} FindByNameIs(ds: seq<Disp>, name: string, k: nat)
    requires k <= |ds| && (k < |ds| ==> ds[k].name == name) && forall i :: 0 <= i < k ==> ds[i].name != name
    ensures FindByName(ds, name) == k
  {
  }

  lemma {:induction false} TimeoutStep(ps: seq<Proto>, i: nat, now: nat)
    requires i < |ps|
    ensures Timeout(ps[i..], now) ==
      (if ps[i].date < Oldest(now) then [] else [ps[i]]) + Timeout(ps[i + 1..], now)
  {
    assert ps[i..][1..] == ps[i + 1..];
  }

  class Server {
    var protos: seq<Proto>
    var displays: seq<Disp>
    var globalSessionID: nat
    var nextAuth: AuthId

    /** initXdmcp(): `start` comes from the clock. */
    constructor (start: nat)
      ensures Initial(Tables()) && globalSessionID == start % 0x8000 * 16000
    {
      protos, displays, globalSessionID, nextAuth := [], [], start % 0x8000 * 16000, 0;
    }

    ghost function Tables(): State
      reads this
    {
      State(protos, displays, globalSessionID, nextAuth)
    }

    method FindProtoDisplay(from: Addr, number: nat) returns (k: nat)
      ensures k == FindProto(protos, from, number)
    {
      k := 0;
      while k < |protos| && !(protos[k].number == number && protos[k].address == from)
        invariant k <= |protos|
        invariant forall i :: 0 <= i < k ==> !(protos[i].address == from && protos[i].number == number)
      {
        k := k + 1;
      }
      FindProtoIs(protos, from, number, k);
    }

    method FindDisplayByAddress(from: Addr, number: nat) returns (k: nat)
      ensures k == FindByAddress(displays, from, number)
    {
      k := 0;
      while k < |displays| && !(displays[k].fromXdmcp && displays[k].number == number && displays[k].from == from)
        invariant k <= |displays|
        invariant forall i :: 0 <= i < k ==>
          !(displays[i].fromXdmcp && displays[i].from == from && displays[i].number == number)
      {
        k := k + 1;
      }
      FindByAddressIs(displays, from, number, k);
    }

    method FindDisplayBySessionID(id: nat) returns (k: nat)
      ensures k == FindById(displays, id)
    {
      k := 0;
      while k < |displays| && displays[k].id != id
        invariant k <= |displays| && forall i :: 0 <= i < k ==> displays[i].id != id
      {
        k := k + 1;
      }
      FindByIdIs(displays, id, k);
    }

    method FindDisplayByName(name: string) returns (k: nat)
      ensures k == FindByName(displays, name)
    {
      k := 0;
      while k < |displays| && displays[k].name != name
        invariant k <= |displays| && forall i :: 0 <= i < k ==> displays[i].name != name
      {
        k := k + 1;
      }
      FindByNameIs(displays, name, k);
    }

    method DisposeProtoDisplay(k: nat)
      requires k < |protos|
      modifies this`protos
      ensures protos == Without(old(protos), k)
    {
      protos := protos[..k] + protos[k + 1..];
    }

    /** The loop goes on behind an entry that it disposes of. */
    method TimeoutProtoDisplays(now: nat)
      modifies this`protos
      ensures protos == Timeout(old(protos), now)
    {
      hide Timeout, Oldest;
      ghost var was := protos;
      ghost var next := 0;
      var k := 0;
      TimeoutNone(now);
      assert was[0..] == was;
      while k < |protos|
        invariant k <= |protos| && next <= |was| && protos[k..] == was[next..]
        invariant protos[..k] + Timeout(was[next..], now) == Timeout(was, now)
        decreases |protos| - k
      {
        TimeoutStep(was, next, now);
        assert protos[k] == protos[k..][0] == was[next];
        ghost var head, tail := protos[..k], protos[k + 1..];
        assert tail == protos[k..][1..] == was[next + 1..];
        if protos[k].date < Oldest(now) {
          DisposeProtoDisplay(k);
          assert protos == head + tail;
        } else {
          k := k + 1;
          assert protos[..k] == head + [was[next]];
        }
        next := next + 1;
      }
    }

    method NewProtoDisplay(r: Request, conn: (int, Addr), sessionID: nat)
      modifies this`protos
      ensures protos == [NewProto(r, conn, sessionID)] + Timeout(old(protos), r.now)
    {
      TimeoutProtoDisplays(r.now);
      protos := [Proto(r.from, r.number, r.now, conn.0, conn.1, sessionID, None, None)] + protos;
    }

    method RequestRespond(r: Request) returns (reply: Reply)
      modifies this`protos, this`globalSessionID, this`nextAuth
      ensures (Tables(), reply) == HandleRequest(old(Tables()), r)
    {
      hide FindProto, Timeout;
      if !r.lengthOk {
        return Silent;
      }
      if !r.addressesOk {
        return Decline;
      }
      var k := FindProtoDisplay(r.from, r.number);
      if k == |protos| {
        if !r.accepting || r.conn.None? {
          return Decline;
        }
        globalSessionID := globalSessionID + 1;
        NewProtoDisplay(r, r.conn.value, globalSessionID % ID_LIMIT);
        k := 0;
      }
      if r.names > 0 && r.chosen.None? {
        DisposeProtoDisplay(k);
        return Decline;
      }
      if !r.authentic {
        DisposeProtoDisplay(k);
        return Decline;
      }
      if r.names > 0 {
        SetProtoDisplayAuthorization(k, r);
      }
      reply := Accept(protos[k].id);
    }

    /** Whatever authorizations the entry had are dropped from it. */
    method SetProtoDisplayAuthorization(k: nat, r: Request)
      requires k < |protos|
      modifies this`protos, this`nextAuth
      ensures protos == old(protos)[k := Authorized(old(protos)[k], r, old(nextAuth))] && nextAuth == old(nextAuth) + 2
    {
      var p := protos[k].(file := None, xdmcp := None);
      if r.gotFile {
        p := p.(file := Some(nextAuth));
      }
      if r.gotXdmcp {
        p := p.(xdmcp := Some(nextAuth + 1));
      }
      protos, nextAuth := protos[k := p], nextAuth + 2;
    }

    /** stopDisplay() */
    method StopDisplay(k: nat)
      requires k < |displays|
      modifies this`displays
      ensures displays == StopAt(old(displays), k)
    {
      if displays[k].live {
        displays := displays[k := displays[k].(status := DR.Zombie)];
      } else {
        displays := displays[..k] + displays[k + 1..];
      }
    }

    method Manage(from: Addr, number: nat, id: nat, lengthOk: bool, naming: Naming) returns (reply: Reply)
      modifies this`protos, this`displays
      ensures (Tables(), reply) == HandleManage(old(Tables()), from, number, id, lengthOk, naming)
    {
      hide FindProto, FindByAddress, FindByName, StopAt;
      if !lengthOk {
        return Silent;
      }
      var k := FindProtoDisplay(from, number);
      if k == |protos| || protos[k].id != id {
        if k == |protos| {
          var j := FindDisplayByAddress(from, number);
          if j < |displays| && displays[j].id == id {
            return Silent;
          }
        }
        return Refuse(id);
      }
      var p := protos[k];
      var name := naming(p.connType, p.connAddress, from, p.number);
      if name.None? {
        return Failed(id);
      }
      var j := FindDisplayByName(name.value);
      if j < |displays| {
        StopDisplay(j);
      }
      var d := Disp(name.value, true, p.id, from, p.number, DR.NotRunning, false, None);
      if p.file.Some? {
        d := d.(auth := p.file);
        protos := protos[k := p.(file := None)];
      }
      displays := [d] + displays;
      DisposeProtoDisplay(k);
      reply := Silent;
    }

    method SendAlive(from: Addr, number: nat, id: nat, lengthOk: bool) returns (reply: Reply)
      ensures reply == HandleKeepAlive(Tables(), from, number, id, lengthOk)
    {
      hide FindByAddress, FindById;
      if !lengthOk {
        return Silent;
      }
      var k := FindDisplayBySessionID(id);
      if k == |displays| {
        k := FindDisplayByAddress(from, number);
      }
      var sendRunning, sendSessionID := false, 0;
      if k < |displays| && displays[k].status == DR.Running {
        if displays[k].id == id {
          sendRunning := true;
        }
        sendSessionID := displays[k].id;
      }
      reply := Alive(sendRunning, sendSessionID);
    }
  }

  lemma {:induction false} TimeoutNone(now: nat)
    ensures Timeout([], now) == []
  {
  }
}
