/**
 The access table on its way from the configuration reader to the daemon, which stores
 it in one block whose size the reader has announced.
 */
module AccessTransport {
  import opened Wrappers
  import opened Glob
  import opened AccessTable
  import opened Access
  import opened AccessReader
  import opened Wire

  /** A short int of the daemon. */
  function Short(n: int): int {
    (n + 0x8000) % 0x10000 - 0x8000
  }

  lemma {:induction false} ShortFits(n: int)
    ensures Short(n) == n <==> -0x8000 <= n < 0x8000
  {
  }

  /** The address families that the daemon tells apart, as XDMCP connection types. */
  function ConnectionType(family: int): int {
    match family
    case 2 => 0      // AF_INET: FamilyInternet
    case 10 => 6     // AF_INET6: FamilyInternet6
    case 12 => 1     // AF_DECnet: FamilyDECnet
    case _ => 256    // FamilyLocal
  }

  // ------------------------------------------------------------------ sending

  function HostItems(h: Host): seq<Item> {
    match h
    case Alias(pattern) => [Num(0), Text(pattern)]
    case Address(family, address) => [Num(1), Data(address), Num(family)]
    case Pattern(pattern) => [Num(2), Text(pattern)]
    case Broadcast => [Num(3)]
  }

  function ListenItems(e: ListenEntry): seq<Item> {
    [Num(e.iface), Num(e.mcasts), Num(e.nmcasts)]
  }

  function AliasItems(e: AliasEntry): seq<Item> {
    [Text(e.name), Num(e.hosts), Num(e.nhosts)]
  }

  function Flags(e: AclEntry): int {
    (if e.notAllowed then 1 else 0) + if e.keyword then 2 else 0
  }

  function AclItems(e: AclEntry): seq<Item> {
    [Num(e.entries), Num(e.nentries), Num(e.hosts), Num(e.nhosts), Num(Flags(e))]
  }

  /** What is sent for all of `xs`. */
  function AllItems<T>(xs: seq<T>, items: T -> seq<Item>): seq<Item> {
    if xs == [] then [] else items(xs[0]) + AllItems(xs[1..], items)
  }

  function CountItems(t: Table, nChars: nat): seq<Item> {
    [Num(|t.hosts|), Num(|t.listens|), Num(|t.aliases|), Num(|t.acls|), Num(nChars)]
  }

  function TableItems(t: Table, nChars: nat): seq<Item> {
    CountItems(t, nChars)
    + AllItems(t.hosts, HostItems) + AllItems(t.listens, ListenItems)
    + AllItems(t.aliases, AliasItems) + AllItems(t.acls, AclItems)
  }

  /** One of the loops of the sender. */
  method SendAll<T>(q: seq<Item>, xs: seq<T>, items: T -> seq<Item>) returns (q2: seq<Item>)
    ensures q2 == q + AllItems(xs, items)
  {
    hide AllItems;
    q2 := q;
    var i := 0;
    AllItemsEnd(xs, items);
    while i < |xs|
      invariant i <= |xs| && q2 + AllItems(xs[i..], items) == q + AllItems(xs, items)
    {
      AllItemsAt(xs, i, items);
      assert q2 + AllItems(xs[i..], items) == q2 + items(xs[i]) + AllItems(xs[i + 1..], items);
      q2 := q2 + items(xs[i]);
      i := i + 1;
    }
    AllItemsEnd(xs, items);
  }

  /** The end of readAccessFile(). */
  method SendTable(t: Table, nChars: nat) returns (items: seq<Item>)
    ensures items == TableItems(t, nChars)
  {
    hide AllItems;
    items := SendAll(CountItems(t, nChars), t.hosts, HostItems);
    items := SendAll(items, t.listens, ListenItems);
    items := SendAll(items, t.aliases, AliasItems);
    items := SendAll(items, t.acls, AclItems);
  }

  lemma {:induction false} AllItemsAt<T>(xs: seq<T>, i: nat, items: T -> seq<Item>)
    requires i < |xs|
    ensures AllItems(xs[i..], items) == items(xs[i]) + AllItems(xs[i + 1..], items)
  {
    assert xs[i..][1..] == xs[i + 1..];
  }

  lemma {:induction false} AllItemsEnd<T>(xs: seq<T>, items: T -> seq<Item>)
    ensures AllItems(xs[|xs|..], items) == [] && xs[0..] == xs
  {
  }

  // ---------------------------------------------------------------- the daemon

  datatype DListen = DListen(iface: int, mcasts: int, nmcasts: int)

  datatype DAlias = DAlias(name: string, hosts: int, nhosts: int)

  datatype DAcl = DAcl(entries: int, nentries: int, hosts: int, nhosts: int, notAllowed: bool, keyword: bool)

  /** What the daemon stores: its numbers can be anything that a short int can be. */
  datatype DTable = DTable(hosts: seq<Host>, listens: seq<DListen>, aliases: seq<DAlias>, acls: seq<DAcl>)

  /** The messages left, and how much of the block for characters is filled. */
  datatype Feed = Feed(queue: seq<Item>, used: nat)

  /** No number is where the daemon reads one: it is out of step with the sender. */
  function TakeInt(f: Feed): Option<(int, Feed)> {
    if f.queue != [] && f.queue[0].Num? then Some((f.queue[0].n, Feed(f.queue[1..], f.used))) else None
  }

  function TakeStr(f: Feed): Option<(string, Feed)> {
    if f.queue != [] && f.queue[0].Text? && |f.queue[0].s| + 1 < MAX_LENGTH
    then Some((f.queue[0].s, Feed(f.queue[1..], f.used + |f.queue[0].s| + 1))) else None
  }

  function TakeData(f: Feed): Option<(seq<int>, Feed)> {
    if f.queue != [] && f.queue[0].Data? && |f.queue[0].b| < MAX_LENGTH
    then Some((f.queue[0].b, Feed(f.queue[1..], f.used + |f.queue[0].b|))) else None
  }

  /** `n` short ints in a row. */
  function TakeShorts(f: Feed, n: nat): (r: Option<(seq<int>, Feed)>)
    ensures r.Some? ==> |r.value.0| == n
    decreases n
  {
    if n == 0 then Some(([], f))
    else
      match TakeInt(f)
      case None => None
      case Some(a) =>
        match TakeShorts(a.1, n - 1)
        case None => None
        case Some(more) => Some(([Short(a.0)] + more.0, more.1))
  }

  function TakeHost(f: Feed): Option<(Host, Feed)> {
    match TakeInt(f)
    case None => None
    case Some(kind) =>
      if Short(kind.0) == 0 then
        match TakeStr(kind.1)
        case None => None
        case Some(s) => Some((Alias(s.0), s.1))
      else if Short(kind.0) == 2 then
        match TakeStr(kind.1)
        case None => None
        case Some(s) => Some((Pattern(s.0), s.1))
      else if Short(kind.0) == 1 then
        match TakeData(kind.1)
        case None => None
        case Some(b) => TakeFamily(b.0, b.1)
      else if Short(kind.0) == 3 then Some((Broadcast, kind.1))
      else None
  }

  function TakeFamily(address: seq<int>, f: Feed): Option<(Host, Feed)> {
    match TakeInt(f)
    case None => None
    case Some(family) => Some((Address(ConnectionType(family.0), address), family.1))
  }

  function TakeListen(f: Feed): Option<(DListen, Feed)> {
    match TakeShorts(f, 3)
    case None => None
    case Some(a) => Some((DListen(a.0[0], a.0[1], a.0[2]), a.1))
  }

  function TakeAlias(f: Feed): Option<(DAlias, Feed)> {
    match TakeStr(f)
    case None => None
    case Some(name) =>
      match TakeShorts(name.1, 2)
      case None => None
      case Some(a) => Some((DAlias(name.0, a.0[0], a.0[1]), a.1))
  }

  function TakeAcl(f: Feed): Option<(DAcl, Feed)> {
    match TakeShorts(f, 5)
    case None => None
    case Some(a) =>
      Some((DAcl(a.0[0], a.0[1], a.0[2], a.0[3], a.0[4] % 2 == 1, a.0[4] / 2 % 2 == 1), a.1))
  }

  function TakeAll<T>(take: Feed -> Option<(T, Feed)>, f: Feed, n: nat, acc: seq<T>): (r: Option<(seq<T>, Feed)>)
    ensures r.Some? ==> |r.value.0| == |acc| + n
    decreases n
  {
    if n == 0 then Some((acc, f))
    else
      match take(f)
      case None => None
      case Some(x) => TakeAll(take, x.1, n - 1, acc + [x.0])
  }

  /** What has arrived: the table, the size that was announced for its characters, and what is filled of it. */
  datatype Arrival = Arrival(table: DTable, nChars: int, used: nat)

  /** A count that is taken for a negative one. */
  predicate HasNegative(ns: seq<int>) {
    exists i :: 0 <= i < |ns| && ns[i] < 0
  }

  /**
   All that scanAccessDatabase() reads. With a negative count there is no table: the size
   of its block wraps and cannot be allocated, or the lists would lie in front of it.
   */
  function TakeTable(items: seq<Item>): Option<Arrival> {
    match TakeShorts(Feed(items, 0), 4)
    case None => None
    case Some(n) =>
      match TakeInt(n.1)
      case None => None
      case Some(nChars) => if HasNegative(n.0) then None else TakeEntries(n.0, nChars.0, nChars.1)
  }

  function TakeEntries(n: seq<int>, nChars: int, f: Feed): Option<Arrival>
    requires |n| == 4 && !HasNegative(n)
  {
    match TakeAll(TakeHost, f, n[0], [])
    case None => None
    case Some(hosts) =>
      match TakeAll(TakeListen, hosts.1, n[1], [])
      case None => None
      case Some(listens) =>
        match TakeAll(TakeAlias, listens.1, n[2], [])
        case None => None
        case Some(aliases) =>
          match TakeAll(TakeAcl, aliases.1, n[3], [])
          case None => None
          case Some(acls) => Some(Arrival(DTable(hosts.0, listens.0, aliases.0, acls.0), nChars, acls.1.used))
  }

  /** The pipe and the block, as the daemon goes through them. */
  class Scanner {
    var queue: seq<Item>
    var used: nat

    constructor (items: seq<Item>)
      ensures Now() == Feed(items, 0)
    {
      queue, used := items, 0;
    }

    ghost function Now(): Feed
      reads this
    {
      Feed(queue, used)
    }

    method RecvInt() returns (n: Option<int>)
      modifies this`queue
      ensures n.Some? <==> TakeInt(old(Now())).Some?
      ensures n.Some? ==> TakeInt(old(Now())) == Some((n.value, Now()))
    {
      if queue == [] || !queue[0].Num? {
        return None;
      }
      n, queue := Some(queue[0].n), queue[1..];
    }

    method RecvStrBuf() returns (s: Option<string>)
      modifies this
      ensures s.Some? <==> TakeStr(old(Now())).Some?
      ensures s.Some? ==> TakeStr(old(Now())) == Some((s.value, Now()))
    {
      if queue == [] || !queue[0].Text? || |queue[0].s| + 1 >= MAX_LENGTH {
        return None;
      }
      s := Some(queue[0].s);
      queue, used := queue[1..], used + |queue[0].s| + 1;
    }

    method RecvArrBuf() returns (b: Option<seq<int>>)
      modifies this
      ensures b.Some? <==> TakeData(old(Now())).Some?
      ensures b.Some? ==> TakeData(old(Now())) == Some((b.value, Now()))
    {
      if queue == [] || !queue[0].Data? || |queue[0].b| >= MAX_LENGTH {
        return None;
      }
      b := Some(queue[0].b);
      queue, used := queue[1..], used + |queue[0].b|;
    }

    /** A number that is stored in a short int. */
    method RecvShorts(n: nat) returns (r: Option<seq<int>>)
      modifies this`queue
      ensures r.Some? <==> TakeShorts(old(Now()), n).Some?
      ensures r.Some? ==> TakeShorts(old(Now()), n) == Some((r.value, Now()))
      decreases n
    {
      hide TakeInt, Short;
      if n == 0 {
        return Some([]);
      }
      var a := RecvInt();
      if a.None? {
        return None;
      }
      var more := RecvShorts(n - 1);
      if more.None? {
        return None;
      }
      r := Some([Short(a.value)] + more.value);
    }

    /** One turn of the switch over the host type. */
    method RecvHost() returns (h: Option<Host>)
      modifies this
      ensures h.Some? <==> TakeHost(old(Now())).Some?
      ensures h.Some? ==> TakeHost(old(Now())) == Some((h.value, Now()))
    {
      hide TakeInt, TakeStr, TakeData, ConnectionType, Short;
      var kind := RecvInt();
      if kind.None? {
        return None;
      }
      var k := Short(kind.value);
      if k == 0 || k == 2 {
        var s := RecvStrBuf();
        if s.None? {
          return None;
        }
        h := Some(if k == 0 then Alias(s.value) else Pattern(s.value));
      } else if k == 1 {
        var b := RecvArrBuf();
        if b.None? {
          return None;
        }
        var family := RecvInt();
        if family.None? {
          return None;
        }
        h := Some(Address(ConnectionType(family.value), b.value));
      } else if k == 3 {
        h := Some(Broadcast);
      } else {
        h := None;
      }
    }

    method RecvHosts(n: nat) returns (hosts: Option<seq<Host>>)
      modifies this
      ensures hosts.Some? <==> TakeAll(TakeHost, old(Now()), n, []).Some?
      ensures hosts.Some? ==> TakeAll(TakeHost, old(Now()), n, []) == Some((hosts.value, Now()))
    {
      hide TakeHost;
      var hs := [];
      var i := 0;
      while i < n
        invariant i <= n && TakeAll(TakeHost, old(Now()), n, []) == TakeAll(TakeHost, Now(), n - i, hs)
      {
        var h := RecvHost();
        if h.None? {
          return None;
        }
        hs := hs + [h.value];
        i := i + 1;
      }
      hosts := Some(hs);
    }

    method RecvListens(n: nat) returns (listens: Option<seq<DListen>>)
      modifies this`queue
      ensures listens.Some? <==> TakeAll(TakeListen, old(Now()), n, []).Some?
      ensures listens.Some? ==> TakeAll(TakeListen, old(Now()), n, []) == Some((listens.value, Now()))
    {
      hide TakeShorts;
      var es := [];
      var i := 0;
      while i < n
        invariant i <= n && TakeAll(TakeListen, old(Now()), n, []) == TakeAll(TakeListen, Now(), n - i, es)
      {
        var a := RecvShorts(3);
        if a.None? {
          return None;
        }
        es := es + [DListen(a.value[0], a.value[1], a.value[2])];
        i := i + 1;
      }
      listens := Some(es);
    }

    method RecvAliases(n: nat) returns (aliases: Option<seq<DAlias>>)
      modifies this
      ensures aliases.Some? <==> TakeAll(TakeAlias, old(Now()), n, []).Some?
      ensures aliases.Some? ==> TakeAll(TakeAlias, old(Now()), n, []) == Some((aliases.value, Now()))
    {
      hide TakeShorts, TakeStr;
      var es := [];
      var i := 0;
      while i < n
        invariant i <= n && TakeAll(TakeAlias, old(Now()), n, []) == TakeAll(TakeAlias, Now(), n - i, es)
      {
        var name := RecvStrBuf();
        if name.None? {
          return None;
        }
        var a := RecvShorts(2);
        if a.None? {
          return None;
        }
        es := es + [DAlias(name.value, a.value[0], a.value[1])];
        i := i + 1;
      }
      aliases := Some(es);
    }

    method RecvAcls(n: nat) returns (acls: Option<seq<DAcl>>)
      modifies this`queue
      ensures acls.Some? <==> TakeAll(TakeAcl, old(Now()), n, []).Some?
      ensures acls.Some? ==> TakeAll(TakeAcl, old(Now()), n, []) == Some((acls.value, Now()))
    {
      hide TakeShorts;
      var es := [];
      var i := 0;
      while i < n
        invariant i <= n && TakeAll(TakeAcl, old(Now()), n, []) == TakeAll(TakeAcl, Now(), n - i, es)
      {
        var a := RecvShorts(5);
        if a.None? {
          return None;
        }
        var f := a.value[4];
        es := es + [DAcl(a.value[0], a.value[1], a.value[2], a.value[3], f % 2 == 1, f / 2 % 2 == 1)];
        i := i + 1;
      }
      acls := Some(es);
    }
  }

  /**
   scanAccessDatabase(), for whatever messages there are; no result if the daemon has no
   block for the table, or gets out of step with the messages.
   */
  method ScanAccessDatabase(items: seq<Item>) returns (r: Option<Arrival>)
    ensures r == TakeTable(items)
  {
    hide TakeShorts, TakeInt, TakeAll, TakeHost, TakeListen, TakeAlias, TakeAcl;
    r := None;
    var s := new Scanner(items);
    var n := s.RecvShorts(4);
    if n.Some? {
      var nChars := s.RecvInt();
      if nChars.Some? && n.value[0] >= 0 && n.value[1] >= 0 && n.value[2] >= 0 && n.value[3] >= 0 {
        var hosts := s.RecvHosts(n.value[0]);
        if hosts.Some? {
          var listens := s.RecvListens(n.value[1]);
          if listens.Some? {
            var aliases := s.RecvAliases(n.value[2]);
            if aliases.Some? {
              var acls := s.RecvAcls(n.value[3]);
              if acls.Some? {
                var t := DTable(hosts.value, listens.value, aliases.value, acls.value);
                r := Some(Arrival(t, nChars.value, s.used));
              }
            }
          }
        }
      }
    }
  }

  // ------------------------------------------------------------ what arrives

  function ReceivedHost(h: Host): Host {
    if h.Address? then Address(ConnectionType(h.family), h.address) else h
  }

  function Mapped<T, U>(xs: seq<T>, image: T -> U): (r: seq<U>)
    ensures |r| == |xs| && forall i :: 0 <= i < |xs| ==> r[i] == image(xs[i])
  {
    seq(|xs|, i requires 0 <= i < |xs| => image(xs[i]))
  }

  /** Whether an alias has lost hosts is not sent. */
  function ReceivedAlias(e: AliasEntry): AliasEntry {
    e.(hasBad := false)
  }

  /** The table as it should arrive. */
  function Received(t: Table): Table {
    Table(Mapped(t.hosts, ReceivedHost), t.listens, Mapped(t.aliases, ReceivedAlias), t.acls)
  }

  function PlainListen(e: ListenEntry): DListen {
    DListen(e.iface, e.mcasts, e.nmcasts)
  }

  function PlainAlias(e: AliasEntry): DAlias {
    DAlias(e.name, e.hosts, e.nhosts)
  }

  function PlainAcl(e: AclEntry): DAcl {
    DAcl(e.entries, e.nentries, e.hosts, e.nhosts, e.notAllowed, e.keyword)
  }

  /** A table of the reader as one of the daemon. */
  function Embed(t: Table): DTable {
    DTable(t.hosts, Mapped(t.listens, PlainListen), Mapped(t.aliases, PlainAlias), Mapped(t.acls, PlainAcl))
  }

  function ShortListen(e: ListenEntry): DListen {
    DListen(Short(e.iface), Short(e.mcasts), Short(e.nmcasts))
  }

  function ShortAlias(e: AliasEntry): DAlias {
    DAlias(e.name, Short(e.hosts), Short(e.nhosts))
  }

  function ShortAcl(e: AclEntry): DAcl {
    DAcl(Short(e.entries), Short(e.nentries), Short(e.hosts), Short(e.nhosts), e.notAllowed, e.keyword)
  }

  /** The table with every number cut down to a short int. */
  function Shortened(t: Table): DTable {
    DTable(Mapped(t.hosts, ReceivedHost), Mapped(t.listens, ShortListen), Mapped(t.aliases, ShortAlias),
           Mapped(t.acls, ShortAcl))
  }

  predicate CountsFit(t: Table) {
    |t.hosts| < 0x8000 && |t.listens| < 0x8000 && |t.aliases| < 0x8000 && |t.acls| < 0x8000
  }

  predicate HostFits(h: Host) {
    StoredHost(h) < MAX_LENGTH
  }

  predicate NameFits(e: AliasEntry) {
    |e.name| + 1 < MAX_LENGTH
  }

  /** The strings and addresses go through the pipe. */
  predicate StringsFit(t: Table) {
    && (forall i :: 0 <= i < |t.hosts| ==> HostFits(t.hosts[i]))
    && (forall i :: 0 <= i < |t.aliases| ==> NameFits(t.aliases[i]))
  }

  predicate NumbersFit(t: Table) {
    && (forall i :: 0 <= i < |t.listens| ==> ShortListen(t.listens[i]) == PlainListen(t.listens[i]))
    && (forall i :: 0 <= i < |t.aliases| ==> ShortAlias(t.aliases[i]) == PlainAlias(t.aliases[i]))
    && (forall i :: 0 <= i < |t.acls| ==> ShortAcl(t.acls[i]) == PlainAcl(t.acls[i]))
  }

  predicate Fits(t: Table) {
    CountsFit(t) && StringsFit(t) && NumbersFit(t)
  }

  function Sum<T>(xs: seq<T>, stored: T -> nat): nat {
    if xs == [] then 0 else stored(xs[0]) + Sum(xs[1..], stored)
  }

  function StoredName(e: AliasEntry): nat {
    |e.name| + 1
  }

  function Nothing<T>(x: T): nat {
    0
  }

  function Always<T>(x: T): bool {
    true
  }

  /** One entry is read off the messages that were sent for it, unless it does not fit. */
  ghost predicate Reads<T(!new), U(!new)>(items: T -> seq<Item>, take: Feed -> Option<(U, Feed)>,
                              fits: T -> bool, image: T -> U, stored: T -> nat) {
    forall x: T, rest: seq<Item>, used: nat :: take(Feed(items(x) + rest, used)) ==
      if fits(x) then Some((image(x), Feed(rest, used + stored(x)))) else None
  }

  predicate AllFit<T>(xs: seq<T>, fits: T -> bool) {
    forall i :: 0 <= i < |xs| ==> fits(xs[i])
  }

  /** ... and so are all of them. */
  lemma {:induction false} TakeAllOf<T(!new), U(!new)>(xs: seq<T>, items: T -> seq<Item>, take: Feed -> Option<(U, Feed)>,
                                           fits: T -> bool, image: T -> U, stored: T -> nat,
                                           rest: seq<Item>, used: nat, acc: seq<U>)
    requires Reads(items, take, fits, image, stored)
    ensures TakeAll(take, Feed(AllItems(xs, items) + rest, used), |xs|, acc) ==
      if AllFit(xs, fits) then Some((acc + Mapped(xs, image), Feed(rest, used + Sum(xs, stored)))) else None
    decreases |xs|
  {
    if xs == [] {
      assert AllItems(xs, items) + rest == rest && acc + Mapped(xs, image) == acc;
    } else {
      hide Reads, Mapped, AllItems, Sum, AllFit;
      EntryRead(xs[0], items, take, fits, image, stored, AllItems(xs[1..], items) + rest, used);
      ItemsHead(xs, items, stored, rest);
      FitHead(xs, fits);
      MappedHead(xs, image, acc);
      if fits(xs[0]) {
        TakeAllOf(xs[1..], items, take, fits, image, stored, rest, used + stored(xs[0]), acc + [image(xs[0])]);
      }
    }
  }

  lemma {:induction false} EntryRead<T(!new), U(!new)>(x: T, items: T -> seq<Item>, take: Feed -> Option<(U, Feed)>,
                                           fits: T -> bool, image: T -> U, stored: T -> nat, rest: seq<Item>, used: nat)
    requires Reads(items, take, fits, image, stored)
    ensures take(Feed(items(x) + rest, used)) ==
      if fits(x) then Some((image(x), Feed(rest, used + stored(x)))) else None
  {
  }

  lemma {:induction false} ItemsHead<T>(xs: seq<T>, items: T -> seq<Item>, stored: T -> nat, rest: seq<Item>)
    requires xs != []
    ensures AllItems(xs, items) + rest == items(xs[0]) + (AllItems(xs[1..], items) + rest)
    ensures Sum(xs, stored) == stored(xs[0]) + Sum(xs[1..], stored)
  {
    var a, b := items(xs[0]), AllItems(xs[1..], items);
    assert AllItems(xs, items) == a + b;
    hide AllItems;
    assert a + b + rest == a + (b + rest);
  }

  lemma {:induction false} FitHead<T>(xs: seq<T>, fits: T -> bool)
    requires xs != []
    ensures AllFit(xs, fits) <==> fits(xs[0]) && AllFit(xs[1..], fits)
  {
    assert forall i :: 1 <= i < |xs| ==> xs[i] == xs[1..][i - 1];
  }

  lemma {:induction false} MappedHead<T, U>(xs: seq<T>, image: T -> U, acc: seq<U>)
    requires xs != []
    ensures acc + Mapped(xs, image) == acc + [image(xs[0])] + Mapped(xs[1..], image)
  {
    hide Mapped;
    assert Mapped(xs, image) == [image(xs[0])] + Mapped(xs[1..], image);
  }

  lemma {:induction false} NumFirst(n: int, rest: seq<Item>, used: nat)
    ensures TakeInt(Feed([Num(n)] + rest, used)) == Some((n, Feed(rest, used)))
  {
  }

  function Nums(ns: seq<int>): (r: seq<Item>)
    ensures |r| == |ns| && forall i :: 0 <= i < |ns| ==> r[i] == Num(ns[i])
  {
    if ns == [] then [] else [Num(ns[0])] + Nums(ns[1..])
  }

  lemma {:induction false} ShortsOf(ns: seq<int>, rest: seq<Item>, used: nat)
    ensures TakeShorts(Feed(Nums(ns) + rest, used), |ns|) == Some((Mapped(ns, Short), Feed(rest, used)))
    decreases |ns|
  {
    hide Short;
    if ns == [] {
      assert Nums(ns) + rest == rest;
    } else {
      assert Nums(ns) + rest == [Num(ns[0])] + (Nums(ns[1..]) + rest);
      NumFirst(ns[0], Nums(ns[1..]) + rest, used);
      ShortsOf(ns[1..], rest, used);
      assert [Short(ns[0])] + Mapped(ns[1..], Short) == Mapped(ns, Short);
    }
  }

  lemma {:induction false} HostsRead()
    ensures Reads(HostItems, TakeHost, HostFits, ReceivedHost, StoredHost)
  {
    forall h: Host, rest: seq<Item>, used: nat
      ensures TakeHost(Feed(HostItems(h) + rest, used)) ==
        if HostFits(h) then Some((ReceivedHost(h), Feed(rest, used + StoredHost(h)))) else None
    {
      HostRead(h, rest, used);
    }
  }

  lemma {:induction false} HostRead(h: Host, rest: seq<Item>, used: nat)
    ensures TakeHost(Feed(HostItems(h) + rest, used)) ==
      if HostFits(h) then Some((ReceivedHost(h), Feed(rest, used + StoredHost(h)))) else None
  {
    hide ConnectionType, Short, TakeInt, TakeStr, TakeData, TakeFamily;
    SmallShorts();
    match h
    case Alias(pattern) =>
      assert HostItems(h) + rest == [Num(0)] + ([Text(pattern)] + rest);
      NumFirst(0, [Text(pattern)] + rest, used);
      TextFirst(pattern, rest, used);
    case Pattern(pattern) =>
      assert HostItems(h) + rest == [Num(2)] + ([Text(pattern)] + rest);
      NumFirst(2, [Text(pattern)] + rest, used);
      TextFirst(pattern, rest, used);
    case Address(family, address) =>
      var more := [Num(family)] + rest;
      assert HostItems(h) + rest == [Num(1)] + ([Data(address)] + more);
      NumFirst(1, [Data(address)] + more, used);
      DataFirst(address, more, used);
      FamilyRead(family, address, rest, used + |address|);
    case Broadcast =>
      assert HostItems(h) + rest == [Num(3)] + rest;
      NumFirst(3, rest, used);
  }

  lemma {:induction false} SmallShorts()
    ensures Short(0) == 0 && Short(1) == 1 && Short(2) == 2 && Short(3) == 3
  {
  }

  lemma {:induction false} TextFirst(t: string, rest: seq<Item>, used: nat)
    ensures TakeStr(Feed([Text(t)] + rest, used)) ==
      if |t| + 1 < MAX_LENGTH then Some((t, Feed(rest, used + |t| + 1))) else None
  {
  }

  lemma {:induction false} DataFirst(b: seq<int>, rest: seq<Item>, used: nat)
    ensures TakeData(Feed([Data(b)] + rest, used)) ==
      if |b| < MAX_LENGTH then Some((b, Feed(rest, used + |b|))) else None
  {
  }

  lemma {:induction false} FamilyRead(family: int, address: seq<int>, rest: seq<Item>, used: nat)
    ensures TakeFamily(address, Feed([Num(family)] + rest, used)) ==
      Some((Address(ConnectionType(family), address), Feed(rest, used)))
  {
    hide ConnectionType, TakeInt;
    NumFirst(family, rest, used);
  }

  lemma {:induction false} ListensRead()
    ensures Reads(ListenItems, TakeListen, Always, ShortListen, Nothing)
  {
    hide Short, TakeShorts, Nums;
    forall e: ListenEntry, rest: seq<Item>, used: nat
      ensures TakeListen(Feed(ListenItems(e) + rest, used)) == Some((ShortListen(e), Feed(rest, used)))
    {
      var ns := [e.iface, e.mcasts, e.nmcasts];
      assert ListenItems(e) == Nums(ns);
      ShortsOf(ns, rest, used);
    }
  }

  lemma {:induction false} AliasesRead()
    ensures Reads(AliasItems, TakeAlias, NameFits, ShortAlias, StoredName)
  {
    hide Short, TakeShorts, Nums;
    forall e: AliasEntry, rest: seq<Item>, used: nat
      ensures TakeAlias(Feed(AliasItems(e) + rest, used)) ==
        if NameFits(e) then Some((ShortAlias(e), Feed(rest, used + StoredName(e)))) else None
    {
      var ns := [e.hosts, e.nhosts];
      assert AliasItems(e) == [Text(e.name)] + Nums(ns);
      assert AliasItems(e) + rest == [Text(e.name)] + (Nums(ns) + rest);
      ShortsOf(ns, rest, used + |e.name| + 1);
    }
  }

  lemma {:induction false} AclsRead()
    ensures Reads(AclItems, TakeAcl, Always, ShortAcl, Nothing)
  {
    hide AclItems, TakeAcl, ShortAcl;
    forall e: AclEntry, rest: seq<Item>, used: nat
      ensures TakeAcl(Feed(AclItems(e) + rest, used)) == Some((ShortAcl(e), Feed(rest, used)))
    {
      AclRead(e, rest, used);
    }
  }

  lemma {:induction false} AclRead(e: AclEntry, rest: seq<Item>, used: nat)
    ensures TakeAcl(Feed(AclItems(e) + rest, used)) == Some((ShortAcl(e), Feed(rest, used)))
  {
    hide Short, TakeShorts, Flags, Nums;
    var ns := [e.entries, e.nentries, e.hosts, e.nhosts, Flags(e)];
    assert AclItems(e) == Nums(ns);
    ShortsOf(ns, rest, used);
    FlagsBack(e);
  }

  lemma {:induction false} FlagsBack(e: AclEntry)
    ensures Short(Flags(e)) % 2 == 1 <==> e.notAllowed
    ensures Short(Flags(e)) / 2 % 2 == 1 <==> e.keyword
  {
  }

  lemma {:induction false} SumNothing<T>(xs: seq<T>)
    ensures Sum(xs, Nothing) == 0
    decreases |xs|
  {
    if xs != [] {
      SumNothing(xs[1..]);
    }
  }

  lemma {:induction false} SumSnoc<T>(xs: seq<T>, x: T, stored: T -> nat)
    ensures Sum(xs + [x], stored) == Sum(xs, stored) + stored(x)
    decreases |xs|
  {
    if xs == [] {
      assert [x][1..] == [] && xs + [x] == [x];
    } else {
      assert (xs + [x])[1..] == xs[1..] + [x];
      SumSnoc(xs[1..], x, stored);
    }
  }

  lemma {:induction false} SumHosts(hs: seq<Host>)
    ensures Sum(hs, StoredHost) == StoredHosts(hs)
    decreases |hs|
  {
    hide StoredHost;
    if hs != [] {
      SumHosts(hs[..|hs| - 1]);
      SumSnoc(hs[..|hs| - 1], hs[|hs| - 1], StoredHost);
      assert hs[..|hs| - 1] + [hs[|hs| - 1]] == hs;
    }
  }

  lemma {:induction false} SumNames(es: seq<AliasEntry>)
    ensures Sum(es, StoredName) == StoredNames(es)
    decreases |es|
  {
    if es != [] {
      SumNames(es[..|es| - 1]);
      SumSnoc(es[..|es| - 1], es[|es| - 1], StoredName);
      assert es[..|es| - 1] + [es[|es| - 1]] == es;
    }
  }

  lemma {:induction false} CountsRead(t: Table, nChars: nat)
    ensures var rest := AllItems(t.hosts, HostItems)
                        + (AllItems(t.listens, ListenItems) + (AllItems(t.aliases, AliasItems) + AllItems(t.acls, AclItems)));
      var counts := [Short(|t.hosts|), Short(|t.listens|), Short(|t.aliases|), Short(|t.acls|)];
      TakeTable(TableItems(t, nChars)) ==
        if HasNegative(counts) then None else TakeEntries(counts, nChars, Feed(rest, 0))
  {
    hide AllItems, TakeEntries, Short, TakeShorts, Nums, HasNegative;
    var rest := AllItems(t.hosts, HostItems)
                + (AllItems(t.listens, ListenItems) + (AllItems(t.aliases, AliasItems) + AllItems(t.acls, AclItems)));
    var ns := [|t.hosts|, |t.listens|, |t.aliases|, |t.acls|];
    assert CountItems(t, nChars) == Nums(ns) + [Num(nChars)];
    assert TableItems(t, nChars) == Nums(ns) + ([Num(nChars)] + rest);
    ShortsOf(ns, [Num(nChars)] + rest, 0);
    assert Mapped(ns, Short) == [Short(|t.hosts|), Short(|t.listens|), Short(|t.aliases|), Short(|t.acls|)];
    NumFirst(nChars, rest, 0);
  }

  lemma {:induction false} HostsArrive(hs: seq<Host>, rest: seq<Item>)
    ensures TakeAll(TakeHost, Feed(AllItems(hs, HostItems) + rest, 0), |hs|, []) ==
      if forall i :: 0 <= i < |hs| ==> HostFits(hs[i])
      then Some((Mapped(hs, ReceivedHost), Feed(rest, StoredHosts(hs)))) else None
  {
    hide HostItems, TakeHost, HostFits, ReceivedHost, StoredHost, StoredHosts, Reads;
    HostsRead();
    SumHosts(hs);
    TakeAllOf(hs, HostItems, TakeHost, HostFits, ReceivedHost, StoredHost, rest, 0, []);
    assert [] + Mapped(hs, ReceivedHost) == Mapped(hs, ReceivedHost);
  }

  lemma {:induction false} ListensArrive(es: seq<ListenEntry>, rest: seq<Item>, used: nat)
    ensures TakeAll(TakeListen, Feed(AllItems(es, ListenItems) + rest, used), |es|, []) ==
      Some((Mapped(es, ShortListen), Feed(rest, used)))
  {
    hide ListenItems, TakeListen, ShortListen, Reads;
    ListensRead();
    SumNothing(es);
    TakeAllOf(es, ListenItems, TakeListen, Always, ShortListen, Nothing, rest, used, []);
    assert [] + Mapped(es, ShortListen) == Mapped(es, ShortListen);
  }

  lemma {:induction false} AliasesArrive(es: seq<AliasEntry>, rest: seq<Item>, used: nat)
    ensures TakeAll(TakeAlias, Feed(AllItems(es, AliasItems) + rest, used), |es|, []) ==
      if forall i :: 0 <= i < |es| ==> NameFits(es[i])
      then Some((Mapped(es, ShortAlias), Feed(rest, used + StoredNames(es)))) else None
  {
    hide AliasItems, TakeAlias, NameFits, ShortAlias, StoredName, StoredNames, Reads;
    AliasesRead();
    SumNames(es);
    TakeAllOf(es, AliasItems, TakeAlias, NameFits, ShortAlias, StoredName, rest, used, []);
    assert [] + Mapped(es, ShortAlias) == Mapped(es, ShortAlias);
  }

  lemma {:induction false} AclsArrive(es: seq<AclEntry>, used: nat)
    ensures TakeAll(TakeAcl, Feed(AllItems(es, AclItems), used), |es|, []) == Some((Mapped(es, ShortAcl), Feed([], used)))
  {
    hide AclItems, TakeAcl, ShortAcl, Reads;
    AclsRead();
    SumNothing(es);
    TakeAllOf(es, AclItems, TakeAcl, Always, ShortAcl, Nothing, [], used, []);
    assert [] + Mapped(es, ShortAcl) == Mapped(es, ShortAcl);
    assert AllItems(es, AclItems) + [] == AllItems(es, AclItems);
  }

  /** With counts that fit, all arrives, cut down to short ints, or the daemon gets out of step at a string that is too long. */
  lemma {:induction false} CountedArrival(t: Table, nChars: nat)
    requires CountsFit(t)
    ensures TakeTable(TableItems(t, nChars)) ==
      if StringsFit(t) then Some(Arrival(Shortened(t), nChars, StoredHosts(t.hosts) + StoredNames(t.aliases))) else None
  {
    hide AllItems, TakeAll, TakeTable, TableItems, TakeHost, TakeListen, TakeAlias, TakeAcl, StoredHosts, StoredNames,
      Mapped, HostFits, NameFits, Short;
    CountsRead(t, nChars);
    ShortFits(|t.hosts|);
    ShortFits(|t.listens|);
    ShortFits(|t.aliases|);
    ShortFits(|t.acls|);
    var r4 := AllItems(t.acls, AclItems);
    var r3 := AllItems(t.aliases, AliasItems) + r4;
    HostsArrive(t.hosts, AllItems(t.listens, ListenItems) + r3);
    ListensArrive(t.listens, r3, StoredHosts(t.hosts));
    AliasesArrive(t.aliases, r4, StoredHosts(t.hosts));
    AclsArrive(t.acls, StoredHosts(t.hosts) + StoredNames(t.aliases));
  }

  /** A count that does not fit is taken for a negative one, or for one that is smaller by a multiple of 65536. */
  lemma {:induction false} CountWraps(n: nat)
    ensures Short(n) < 0 <==> n % 0x10000 >= 0x8000
    ensures Short(n) >= 0 ==> Short(n) == n % 0x10000
  {
  }

  /** From 32768 entries of a kind on, up to 65535, there is no table at all; and so on beyond. */
  lemma {:induction false} NegativeCount(t: Table, nChars: nat)
    requires |t.hosts| % 0x10000 >= 0x8000 || |t.listens| % 0x10000 >= 0x8000
             || |t.aliases| % 0x10000 >= 0x8000 || |t.acls| % 0x10000 >= 0x8000
    ensures TakeTable(TableItems(t, nChars)).None?
  {
    hide AllItems, TakeTable, TableItems, Short;
    CountsRead(t, nChars);
    CountWraps(|t.hosts|);
    CountWraps(|t.listens|);
    CountWraps(|t.aliases|);
    CountWraps(|t.acls|);
    var counts := [Short(|t.hosts|), Short(|t.listens|), Short(|t.aliases|), Short(|t.acls|)];
    assert counts[0] < 0 || counts[1] < 0 || counts[2] < 0 || counts[3] < 0;
  }

  lemma {:induction false} CountsMatter(t: Table, nChars: nat)
    requires TakeTable(TableItems(t, nChars)).Some?
    requires var r := TakeTable(TableItems(t, nChars)).value.table;
      |r.hosts| == |t.hosts| && |r.listens| == |t.listens| && |r.aliases| == |t.aliases| && |r.acls| == |t.acls|
    ensures CountsFit(t)
  {
    hide AllItems, TakeAll, TakeTable, TableItems;
    CountsRead(t, nChars);
  }

  lemma {:induction false} MappedSame<T, U>(xs: seq<T>, f: T -> U, g: T -> U)
    ensures Mapped(xs, f) == Mapped(xs, g) <==> forall i :: 0 <= i < |xs| ==> f(xs[i]) == g(xs[i])
  {
    assert forall i :: 0 <= i < |xs| ==> Mapped(xs, f)[i] == f(xs[i]) && Mapped(xs, g)[i] == g(xs[i]);
  }

  lemma {:induction false} MappedAliases(es: seq<AliasEntry>)
    ensures Mapped(Mapped(es, ReceivedAlias), PlainAlias) == Mapped(es, PlainAlias)
  {
  }

  lemma {:induction false} ShortenedFits(t: Table)
    ensures Shortened(t) == Embed(Received(t)) <==> NumbersFit(t)
  {
    hide Mapped, ShortListen, ShortAlias, ShortAcl, PlainListen, PlainAlias, PlainAcl;
    MappedAliases(t.aliases);
    MappedSame(t.listens, ShortListen, PlainListen);
    MappedSame(t.aliases, ShortAlias, PlainAlias);
    MappedSame(t.acls, ShortAcl, PlainAcl);
  }

  /** What arrives is the table if and only if it fits. */
  lemma {:induction false} ArrivesExactly(t: Table, nChars: nat)
    ensures var r := TakeTable(TableItems(t, nChars));
      && (r.Some? && r.value.table == Embed(Received(t)) <==> Fits(t))
      && (Fits(t) ==> r.value.nChars == nChars && r.value.used == StoredHosts(t.hosts) + StoredNames(t.aliases))
  {
    hide TakeTable, TableItems, Shortened, StoredHosts, StoredNames, NumbersFit, StringsFit, CountsFit, Received, Embed;
    var r := TakeTable(TableItems(t, nChars));
    if r.Some? && r.value.table == Embed(Received(t)) {
      SameCounts(t);
      CountsMatter(t, nChars);
    }
    if CountsFit(t) {
      CountedArrival(t, nChars);
      ShortenedFits(t);
    }
  }

  lemma {:induction false} SameCounts(t: Table)
    ensures var r := Embed(Received(t));
      |r.hosts| == |t.hosts| && |r.listens| == |t.listens| && |r.aliases| == |t.aliases| && |r.acls| == |t.acls|
  {
  }

  // --------------------------------------------------- the daemon can rely on it

  lemma {:induction false} NamesReceived(t: Table, h: nat, a: nat)
    ensures Names(Received(t), h, a) <==> Names(t, h, a)
  {
    hide Code, WellFormed;
  }

  lemma {:induction false} BoundedReceived(t: Table, first: nat, n: nat, d: nat)
    requires Bounded(t, first, n, d)
    ensures Bounded(Received(t), first, n, d)
    decreases d
  {
    hide Names;
    var r := Received(t);
    forall h: nat | first <= h < first + n && h < |r.hosts| && r.hosts[h].Alias?
      ensures d > 0
      ensures forall a: nat :: Names(r, h, a) ==> Bounded(r, r.aliases[a].hosts, r.aliases[a].nhosts, d - 1)
    {
      forall a: nat | Names(r, h, a)
        ensures Bounded(r, r.aliases[a].hosts, r.aliases[a].nhosts, d - 1)
      {
        NamesReceived(t, h, a);
        BoundedReceived(t, t.aliases[a].hosts, t.aliases[a].nhosts, d - 1);
      }
    }
  }

  lemma {:induction false} HostReceived(t: Table, h: nat, name: Option<string>)
    requires h < |t.hosts| && HostInside(t, h, name)
    ensures HostInside(Received(t), h, name)
  {
    hide Answer;
  }

  lemma {:induction false} InsideReceived(t: Table, first: nat, n: nat, d: nat, name: Option<string>)
    requires Inside(t, first, n, d, name)
    ensures Inside(Received(t), first, n, d, name)
    decreases d
  {
    hide Names, HostInside;
    var r := Received(t);
    forall h: nat | first <= h < first + n && h < |r.hosts| && !(r.hosts[h].Alias? && d == 0)
      ensures HostInside(r, h, name)
      ensures forall a: nat :: Names(r, h, a) ==> Inside(r, r.aliases[a].hosts, r.aliases[a].nhosts, d - 1, name)
    {
      assert t.hosts[h].Alias? <==> r.hosts[h].Alias?;
      HostReceived(t, h, name);
      forall a: nat | Names(r, h, a)
        ensures Inside(r, r.aliases[a].hosts, r.aliases[a].nhosts, d - 1, name)
      {
        NamesReceived(t, h, a);
        InsideReceived(t, t.aliases[a].hosts, t.aliases[a].nhosts, d - 1, name);
      }
    }
  }

  /** What the matchers ask of a table survives the way to the daemon. */
  lemma {:induction false} ReceivedUsable(t: Table, name: Option<string>)
    requires Sound(t) && BoundedTable(t) && TableInside(t, name)
    ensures Sound(Received(t)) && BoundedTable(Received(t)) && TableInside(Received(t), name)
  {
    hide Bounded, Inside;
    var r := Received(t);
    forall i | 0 <= i < |r.acls|
      ensures Bounded(r, r.acls[i].entries, r.acls[i].nentries, MAX_DEPTH)
      ensures Bounded(r, r.acls[i].hosts, r.acls[i].nhosts, MAX_DEPTH)
      ensures RuleInside(r, i, name)
    {
      assert RuleInside(t, i, name);
      BoundedReceived(t, t.acls[i].entries, t.acls[i].nentries, MAX_DEPTH);
      BoundedReceived(t, t.acls[i].hosts, t.acls[i].nhosts, MAX_DEPTH);
      InsideReceived(t, t.acls[i].entries, t.acls[i].nentries, MAX_DEPTH, name);
      InsideReceived(t, t.acls[i].hosts, t.acls[i].nhosts, MAX_DEPTH, None);
    }
  }

  // ----------------------------------------------------- from the file to the daemon

  /** The counts of what the file says fit, and so do its strings. */
  predicate RecordsFit(rs: seq<Record>) {
    && |AllAdded(rs)| < 0x8000 && |Listens(rs)| < 0x8000 && |Aliases(rs)| < 0x8000 && |Acls(rs)| < 0x8000
    && (forall i :: 0 <= i < |AllAdded(rs)| ==> HostFits(AllAdded(rs)[i]))
    && (forall i :: 0 <= i < |Aliases(rs)| && Aliases(rs)[i].AliasRecord? ==> |Aliases(rs)[i].name| + 1 < MAX_LENGTH)
  }

  /** With few enough hosts every range is made of short ints. */
  lemma {:induction false} RangesFit(t: Table, rs: seq<Record>)
    requires Says(t, rs) && CountsFit(t)
    ensures NumbersFit(t)
  {
    hide AllAdded, Aliases, Listens, Acls, Short;
    forall n | -1 <= n < 0x8000
      ensures Short(n) == n
    {
      ShortFits(n);
    }
    assert forall i :: 0 <= i < |t.aliases| ==> AliasIs(t.hosts, t.aliases[i], Aliases(rs)[i]);
    assert forall i :: 0 <= i < |t.listens| ==> ListenIs(t.hosts, t.listens[i], Listens(rs)[i]);
    assert forall i :: 0 <= i < |t.acls| ==> AclIs(t.hosts, t.acls[i], Acls(rs)[i]);
  }

  lemma {:induction false} SaysStrings(t: Table, rs: seq<Record>)
    requires Says(t, rs)
    ensures RecordsFit(rs) <==> CountsFit(t) && StringsFit(t)
  {
    hide AllAdded, Aliases, Listens, Acls, HostFits, ListenIs, AclIs;
    assert forall i :: 0 <= i < |t.aliases| ==> AliasIs(t.hosts, t.aliases[i], Aliases(rs)[i]);
    assert forall i :: 0 <= i < |t.aliases| ==> (NameFits(t.aliases[i]) <==> |Aliases(rs)[i].name| + 1 < MAX_LENGTH);
  }

  lemma {:induction false} SaysFits(t: Table, rs: seq<Record>)
    requires Says(t, rs)
    ensures Fits(t) <==> RecordsFit(rs)
  {
    SaysStrings(t, rs);
    hide Says, RecordsFit, CountsFit, StringsFit, NumbersFit;
    if CountsFit(t) {
      RangesFit(t, rs);
    }
  }

  lemma {:induction false} NothingFits()
    ensures Fits(NOTHING) && Received(NOTHING) == NOTHING
  {
  }

  /**
   The whole way of an access file. What the daemon has is what the file says if and only
   if that fits; its matchers can then rely on the table, and its strings on the block.
   A file that is not accepted leaves it with nothing; one whose check leaves its texts
   is not sent.
   */
  method TransferAccess(text: Option<string>, group: Option<string>, resolve: Resolver)
    returns (r: Option<Arrival>, ghost full: Table)
    ensures text.None? ==> r == Some(Arrival(Embed(NOTHING), 0, 0))
    ensures text.Some? ==>
      var rs := RecordsOf(text.value, group, resolve);
      && Says(full, rs)
      && (!Accepted(full, rs) ==>
            r == Some(Arrival(Embed(NOTHING), 0, 0)) || (r.None? && !TableInside(full, None)))
      && (Accepted(full, rs) && !TableInside(full, None) ==> r.None?)
      && (Accepted(full, rs) && TableInside(full, None) ==>
            && (r.Some? && r.value.table == Embed(Received(full)) <==> RecordsFit(rs))
            && Sound(Received(full)) && BoundedTable(Received(full)) && TableInside(Received(full), None)
            && (RecordsFit(rs) ==> r.value.used <= r.value.nChars))
  {
    hide Sound, BoundedTable, TableInside, Says, StoredHosts, StoredNames, Accepted, RecordsOf,
      TakeTable, TableItems, Received, Embed, Fits, RecordsFit;
    var sent, nChars;
    sent, nChars, full := ReadAccessFile(text, group, resolve);
    if sent.None? {
      return None, full;
    }
    var t := sent.value;
    var items := SendTable(t, nChars);
    r := ScanAccessDatabase(items);
    ArrivesExactly(t, nChars);
    ReceivedUsable(t, None);
    NothingFits();
    NothingSound();
    if text.Some? {
      SaysFits(full, RecordsOf(text.value, group, resolve));
    }
  }

  // -------------------------------------------------------------- too many hosts

  lemma {:induction false} Broadcasts(n: nat)
    requires n >= 3
    ensures AllItems(seq(n, _ => Broadcast), HostItems) ==
      [Num(3), Num(3), Num(3)] + AllItems(seq(n - 3, _ => Broadcast), HostItems)
  {
    var hs := seq(n, _ => Broadcast);
    assert hs[1..][1..][1..] == seq(n - 3, _ => Broadcast);
    assert AllItems(hs, HostItems) == [Num(3)] + AllItems(hs[1..], HostItems);
    assert AllItems(hs[1..], HostItems) == [Num(3)] + AllItems(hs[1..][1..], HostItems);
    assert AllItems(hs[1..][1..], HostItems) == [Num(3)] + AllItems(hs[1..][1..][1..], HostItems);
  }

  /**
   A rule of 65536 hosts, dropped because its client is not known, is enough: the daemon
   takes the count for zero, and the first hosts for a LISTEN line that refers to a host
   it does not have.
   */
  lemma {:induction false} TooManyHosts()
    ensures var hs := seq(0x10000, _ => Broadcast);
      var t := Table(hs, [ListenEntry(-1, 0x10000, 0)], [], []);
      && Says(t, [AclRecord(None, hs, false, false), ListenRecord(None, [])])
      && TakeTable(TableItems(t, 0)) == Some(Arrival(DTable([], [DListen(3, 3, 3)], [], []), 0, 0))
  {
    var hs := seq(0x10000, _ => Broadcast);
    var t := Table(hs, [ListenEntry(-1, 0x10000, 0)], [], []);
    TooManySaid(hs, t);
    hide Says;
    TooManyTaken(hs, t);
  }

  lemma {:induction false} TooManySaid(hs: seq<Host>, t: Table)
    requires t == Table(hs, [ListenEntry(-1, |hs|, 0)], [], [])
    ensures Says(t, [AclRecord(None, hs, false, false), ListenRecord(None, [])])
  {
    hide AllAdded, Aliases, Listens, Acls, LostDenial;
    var a, l := AclRecord(None, hs, false, false), ListenRecord(None, []);
    NoRecords();
    RecordSnoc([], a);
    RecordSnoc([a], l);
    assert [] + [a] == [a] && [a] + [l] == [a, l];
    assert AllAdded([a, l]) == hs;
  }

  lemma {:induction false} TooManyTaken(hs: seq<Host>, t: Table)
    requires hs == seq(0x10000, _ => Broadcast) && t == Table(hs, [ListenEntry(-1, 0x10000, 0)], [], [])
    ensures TakeTable(TableItems(t, 0)) == Some(Arrival(DTable([], [DListen(3, 3, 3)], [], []), 0, 0))
  {
    hide AllItems, TakeTable, TableItems, TakeShorts, Nums;
    CountsRead(t, 0);
    assert Short(0x10000) == 0;
    Broadcasts(0x10000);
    var more := AllItems(seq(0xfffd, _ => Broadcast), HostItems)
                + (AllItems(t.listens, ListenItems) + (AllItems(t.aliases, AliasItems) + AllItems(t.acls, AclItems)));
    var f := Feed(Nums([3, 3, 3]) + more, 0);
    assert Nums([3, 3, 3]) == [Num(3), Num(3), Num(3)];
    assert [Num(3), Num(3), Num(3)] + more ==
      AllItems(hs, HostItems)
      + (AllItems(t.listens, ListenItems) + (AllItems(t.aliases, AliasItems) + AllItems(t.acls, AclItems)));
    ShortsOf([3, 3, 3], more, 0);
    assert TakeListen(f) == Some((DListen(3, 3, 3), Feed(more, 0)));
    assert [] + [DListen(3, 3, 3)] == [DListen(3, 3, 3)];
  }
}
