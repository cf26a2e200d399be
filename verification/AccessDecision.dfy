/**
 From the access file to the decision: whom the daemon lets in, said of the table that the
 reader has made of the file.
 */
module AccessDecision {
  import opened Wrappers
  import opened Glob
  import opened AccessTable
  import opened Access
  import opened AccessReader
  import T = AccessTransport

  /** The socket families and the XDMCP connection types that stand for each other. */
  const FAMILY_PAIRS: set<(int, int)> := {(2, 0), (10, 6), (12, 1)}

  /** A client of that connection type comes from the family; any family without a type of its own is local. */
  predicate OfFamily(connType: int, family: int) {
    (family, connType) in FAMILY_PAIRS
    || (connType == 256 && forall pair :: pair in FAMILY_PAIRS ==> pair.0 != family)
  }

  /** A host of the file is the client's: its address in its family, or a pattern for its name. */
  ghost predicate Means(x: Host, c: Client) {
    match x
    case Address(family, address) => OfFamily(c.family, family) && address == c.address
    case Pattern(pattern) => Answer(NameOf(c), pattern) == Some(true)
    case Alias(_) => false
    case Broadcast => false
  }

  /** The daemon matches the received host if and only if the file means the client by it. */
  lemma {:induction false} MatchIsMeant(x: Host, c: Client)
    ensures HostMatches(T.ReceivedHost(x), c) <==> Means(x, c)
  {
    hide Answer;
    assert (2, 0) in FAMILY_PAIRS && (10, 6) in FAMILY_PAIRS && (12, 1) in FAMILY_PAIRS;
  }

  // ------------------------------------------------------------ the received table

  lemma {:induction false} ChainReceived(t: Table, first: nat, n: nat, links: seq<Link>, h: nat)
    ensures Chain(T.Received(t), first, n, links, h) <==> Chain(t, first, n, links, h)
    decreases |links|
  {
    hide Names;
    if links != [] {
      T.NamesReceived(t, links[0].host, links[0].entry);
      if Names(t, links[0].host, links[0].entry) {
        var e := t.aliases[links[0].entry];
        ChainReceived(t, e.hosts, e.nhosts, links[1..], h);
      }
    }
  }

  /** A chain leads to a host that the file means the client by. */
  ghost predicate Meant(t: Table, first: nat, n: nat, c: Client) {
    exists x :: Leads(t, first, n, x) && Means(x, c)
  }

  lemma {:induction false} ReachedIsMeant(t: Table, first: nat, n: nat, c: Client)
    ensures Reached(T.Received(t), first, n, c) <==> Meant(t, first, n, c)
  {
    hide Chain, HostMatches, Means;
    var r := T.Received(t);
    if Reached(r, first, n, c) {
      var y :| Leads(r, first, n, y) && HostMatches(y, c);
      var links, h: nat :| Chain(r, first, n, links, h) && r.hosts[h] == y && !y.Alias?;
      ChainReceived(t, first, n, links, h);
      MatchIsMeant(t.hosts[h], c);
      assert Leads(t, first, n, t.hosts[h]);
    }
    if Meant(t, first, n, c) {
      var x :| Leads(t, first, n, x) && Means(x, c);
      var links, h: nat :| Chain(t, first, n, links, h) && t.hosts[h] == x && !x.Alias?;
      ChainReceived(t, first, n, links, h);
      MatchIsMeant(x, c);
      assert Leads(r, first, n, T.ReceivedHost(x));
    }
  }

  // ---------------------------------------------------------------- the decision

  /** Rule `i` is of the kind asked for and means the client. */
  ghost predicate RuleMeans(t: Table, i: nat, c: Client, direct: bool)
    requires i < |t.acls|
  {
    (t.acls[i].nhosts == 0) == direct && Meant(t, t.acls[i].entries, t.acls[i].nentries, c)
  }

  /** ... and no rule before it is and does. */
  ghost predicate FirstMeans(t: Table, k: nat, c: Client, direct: bool) {
    k < |t.acls| && RuleMeans(t, k, c, direct) && forall i :: 0 <= i < k ==> !RuleMeans(t, i, c, direct)
  }

  /** Whom the file lets in: the first rule without a host list that means the client does not deny it. */
  ghost predicate LetsIn(t: Table, c: Client, query: Query) {
    query == Indirect ||
    exists k: nat :: FirstMeans(t, k, c, true) && !t.acls[k].notAllowed && (query == BroadcastQuery ==> !t.acls[k].keyword)
  }

  /** Whom the file sends to the chooser. */
  ghost predicate Chooses(t: Table, c: Client) {
    exists k: nat :: FirstMeans(t, k, c, false) && !t.acls[k].notAllowed && t.acls[k].keyword
  }

  lemma {:induction false} FirstIsMeant(t: Table, k: nat, c: Client, direct: bool)
    ensures FirstFit(T.Received(t), c, direct, Some(k)) <==> FirstMeans(t, k, c, direct)
  {
    hide Reached, Meant;
    forall i | 0 <= i < |t.acls|
      ensures Fits(T.Received(t), i, c, direct) <==> RuleMeans(t, i, c, direct)
    {
      ReachedIsMeant(t, t.acls[i].entries, t.acls[i].nentries, c);
    }
    hide Fits, RuleMeans;
  }

  /** The decisions on the table that has arrived are those that the file means. */
  lemma {:induction false} DecisionIsMeant(t: Table, c: Client, query: Query)
    ensures Acceptable(T.Received(t), c, query) <==> LetsIn(t, c, query)
    ensures SentToChooser(T.Received(t), c) <==> Chooses(t, c)
  {
    hide FirstFit, FirstMeans;
    forall k: nat, direct
      ensures FirstFit(T.Received(t), c, direct, Some(k)) <==> FirstMeans(t, k, c, direct)
    {
      FirstIsMeant(t, k, c, direct);
    }
    assert forall k: nat, direct :: FirstMeans(t, k, c, direct) ==> k < |t.acls| by {
      FirstInTable(t, c);
    }
  }

  lemma {:induction false} FirstInTable(t: Table, c: Client)
    ensures forall k: nat, direct :: FirstMeans(t, k, c, direct) ==> k < |t.acls|
  {
    hide RuleMeans;
  }

  // --------------------------------------------------------- with the daemon's table

  predicate NonNegative(d: T.DTable) {
    && (forall i :: 0 <= i < |d.listens| ==> d.listens[i].mcasts >= 0 && d.listens[i].nmcasts >= 0)
    && (forall i :: 0 <= i < |d.aliases| ==> d.aliases[i].hosts >= 0 && d.aliases[i].nhosts >= 0)
    && (forall i :: 0 <= i < |d.acls| ==>
          d.acls[i].entries >= 0 && d.acls[i].nentries >= 0 && d.acls[i].hosts >= 0 && d.acls[i].nhosts >= 0)
  }

  /** The daemon's table, as the matchers read it. */
  function AsTable(d: T.DTable): Table
    requires NonNegative(d)
  {
    Table(d.hosts,
          seq(|d.listens|, i requires 0 <= i < |d.listens| =>
            ListenEntry(d.listens[i].iface, d.listens[i].mcasts, d.listens[i].nmcasts)),
          seq(|d.aliases|, i requires 0 <= i < |d.aliases| =>
            AliasEntry(d.aliases[i].name, d.aliases[i].hosts, d.aliases[i].nhosts, false)),
          seq(|d.acls|, i requires 0 <= i < |d.acls| =>
            AclEntry(d.acls[i].entries, d.acls[i].nentries, d.acls[i].hosts, d.acls[i].nhosts,
                     d.acls[i].notAllowed, d.acls[i].keyword)))
  }

  lemma {:induction false} ReadBack(t: Table)
    ensures var d := T.Embed(T.Received(t)); NonNegative(d) && AsTable(d) == T.Received(t)
  {
    var r := T.Received(t);
    var u := AsTable(T.Embed(r));
    assert u.hosts == r.hosts && u.listens == r.listens && u.aliases == r.aliases && u.acls == r.acls;
  }

  /**
   The daemon decides about a client with the table that has arrived: it lets in whom the
   file means to, whatever the family of its address.
   */
  method Decide(arrived: T.Arrival, ghost full: Table, c: Client, query: Query) returns (ok: bool, chooser: bool)
    requires arrived.table == T.Embed(T.Received(full))
    requires Sound(full) && BoundedTable(full) && TableInside(full, Some(NameOf(c)))
    ensures ok <==> LetsIn(full, c, query)
    ensures chooser <==> Chooses(full, c)
  {
    hide Sound, BoundedTable, TableInside, Acceptable, SentToChooser, LetsIn, Chooses, T.Received, T.Embed, AsTable, NonNegative;
    ReadBack(full);
    T.ReceivedUsable(full, Some(NameOf(c)));
    DecisionIsMeant(full, c, query);
    var t := AsTable(arrived.table);
    ok := AcceptableDisplayAddress(t, c, query);
    chooser := UseChooser(t, c);
  }
}
