/**
 XDMCP access tables: what the alias expansions of a range of hosts reach, and when they
 stay within the recursion bound.
 */
module AccessTable {
  import opened Wrappers
  import opened Glob

  const MAX_DEPTH: nat := 32

  type Bytes = seq<int>

  datatype Host =
    | Alias(pattern: string)
    | Pattern(pattern: string)
    | Address(family: int, address: Bytes)
    | Broadcast

  datatype AliasEntry = AliasEntry(name: string, hosts: nat, nhosts: nat, hasBad: bool)

  /** `iface` is -1 for every interface. */
  datatype ListenEntry = ListenEntry(iface: int, mcasts: nat, nmcasts: nat)

  /**
   A rule. `keyword` is the flag with value 2: in a rule without hosts it means "no
   broadcast queries", in one with hosts "use the chooser".
   */
  datatype AclEntry = AclEntry(entries: nat, nentries: nat, hosts: nat, nhosts: nat, notAllowed: bool, keyword: bool)

  datatype Table = Table(hosts: seq<Host>, listens: seq<ListenEntry>, aliases: seq<AliasEntry>, acls: seq<AclEntry>)

  /** All ranges are inside the host list. */
  ghost predicate Sound(t: Table) {
    && (forall i :: 0 <= i < |t.aliases| ==> t.aliases[i].hosts + t.aliases[i].nhosts <= |t.hosts|)
    && (forall i :: 0 <= i < |t.acls| ==>
          && t.acls[i].entries + t.acls[i].nentries <= |t.hosts|
          && t.acls[i].hosts + t.acls[i].nhosts <= |t.hosts|)
  }

  predicate InRange(t: Table, first: nat, n: nat) {
    first + n <= |t.hosts|
  }

  /** Alias `a` is one of those that the alias pattern of host `h` names. */
  predicate Names(t: Table, h: nat, a: nat): (b: bool)
    ensures b ==> h < |t.hosts| && t.hosts[h].Alias? && a < |t.aliases|
  {
    && h < |t.hosts| && t.hosts[h].Alias? && WellFormed(t.hosts[h].pattern)
    && a < |t.aliases| && Code(t.aliases[a].name, t.hosts[h].pattern)
  }

  // ------------------------------------------------------------------- chains

  /** One alias expansion: the alias pattern and the alias. */
  datatype Link = Link(host: nat, entry: nat)

  /** The expansions lead from the range to host `h`. */
  ghost predicate Chain(t: Table, first: nat, n: nat, links: seq<Link>, h: nat): (b: bool)
    ensures b ==> h < |t.hosts|
    decreases |links|
  {
    if links == [] then first <= h < first + n && h < |t.hosts|
    else
      && first <= links[0].host < first + n
      && Names(t, links[0].host, links[0].entry)
      && Chain(t, t.aliases[links[0].entry].hosts, t.aliases[links[0].entry].nhosts, links[1..], h)
  }

  /** No alias pattern is met more than `d` expansions deep. */
  ghost predicate Bounded(t: Table, first: nat, n: nat, d: nat)
    decreases d
  {
    forall h: nat :: first <= h < first + n && h < |t.hosts| && t.hosts[h].Alias? ==>
      && d > 0
      && forall a: nat :: Names(t, h, a) ==>
           Bounded(t, t.aliases[a].hosts, t.aliases[a].nhosts, d - 1)
  }

  /** Every alias pattern names an alias, and none of those named has lost a host. */
  ghost predicate Clean(t: Table, first: nat, n: nat, d: nat)
    decreases d
  {
    forall h: nat :: first <= h < first + n && h < |t.hosts| && t.hosts[h].Alias? ==>
      && d > 0
      && (exists a: nat :: Names(t, h, a))
      && forall a: nat :: Names(t, h, a) ==>
           !t.aliases[a].hasBad && Clean(t, t.aliases[a].hosts, t.aliases[a].nhosts, d - 1)
  }

  // ------------------------------------------------- the bound, as chains

  /** Every chain that ends at an alias pattern is shorter than `d`. */
  ghost predicate ChainsShort(t: Table, first: nat, n: nat, d: nat) {
    forall links, h: nat :: Chain(t, first, n, links, h) && t.hosts[h].Alias? ==> |links| < d
  }

  /** Every alias pattern at the end of a chain names aliases, all of them complete. */
  ghost predicate ChainsClean(t: Table, first: nat, n: nat) {
    forall links, h: nat :: Chain(t, first, n, links, h) && t.hosts[h].Alias? ==>
      && (exists a: nat :: Names(t, h, a))
      && forall a: nat :: Names(t, h, a) ==> !t.aliases[a].hasBad
  }

  lemma {:induction false} ChainCons(t: Table, first: nat, n: nat, h: nat, a: nat, links: seq<Link>, g: nat)
    requires first <= h < first + n && Names(t, h, a)
    requires Chain(t, t.aliases[a].hosts, t.aliases[a].nhosts, links, g)
    ensures Chain(t, first, n, [Link(h, a)] + links, g)
  {
    assert ([Link(h, a)] + links)[1..] == links;
  }

  lemma {:induction false} ChainEmpty(t: Table, first: nat, n: nat, h: nat)
    ensures Chain(t, first, n, [], h) <==> first <= h < first + n && h < |t.hosts|
  {
  }

  lemma {:induction false} ChainHead(t: Table, first: nat, n: nat, links: seq<Link>, h: nat)
    requires Chain(t, first, n, links, h) && links != []
    ensures first <= links[0].host < first + n && Names(t, links[0].host, links[0].entry)
    ensures var a := t.aliases[links[0].entry]; Chain(t, a.hosts, a.nhosts, links[1..], h)
  {
  }

  lemma {:induction false} BoundedAt(t: Table, first: nat, n: nat, d: nat, h: nat)
    requires Bounded(t, first, n, d) && first <= h < first + n && h < |t.hosts| && t.hosts[h].Alias?
    ensures d > 0
    ensures forall a: nat :: Names(t, h, a) ==>
      Bounded(t, t.aliases[a].hosts, t.aliases[a].nhosts, d - 1)
  {
  }

  lemma {:induction false} BoundedShort(t: Table, first: nat, n: nat, d: nat, links: seq<Link>, h: nat)
    requires Bounded(t, first, n, d) && Chain(t, first, n, links, h) && t.hosts[h].Alias?
    ensures |links| < d
    decreases d
  {
    hide Bounded, Chain, Names;
    if links == [] {
      ChainEmpty(t, first, n, h);
      BoundedAt(t, first, n, d, h);
    } else {
      ChainHead(t, first, n, links, h);
      BoundedAt(t, first, n, d, links[0].host);
      var a := t.aliases[links[0].entry];
      BoundedShort(t, a.hosts, a.nhosts, d - 1, links[1..], h);
    }
  }

  lemma {:induction false} ShortNext(t: Table, first: nat, n: nat, d: nat, h: nat, a: nat)
    requires ChainsShort(t, first, n, d) && first <= h < first + n && Names(t, h, a) && d > 0
    ensures ChainsShort(t, t.aliases[a].hosts, t.aliases[a].nhosts, d - 1)
  {
    hide Chain, Names;
    forall links, g: nat | Chain(t, t.aliases[a].hosts, t.aliases[a].nhosts, links, g) && t.hosts[g].Alias?
      ensures |links| < d - 1
    {
      ChainCons(t, first, n, h, a, links, g);
    }
  }

  lemma {:induction false} ShortBounded(t: Table, first: nat, n: nat, d: nat)
    requires ChainsShort(t, first, n, d)
    ensures Bounded(t, first, n, d)
    decreases d
  {
    hide Chain, Names;
    forall h: nat | first <= h < first + n && h < |t.hosts| && t.hosts[h].Alias?
      ensures d > 0
      ensures forall a: nat :: Names(t, h, a) ==>
        Bounded(t, t.aliases[a].hosts, t.aliases[a].nhosts, d - 1)
    {
      ChainEmpty(t, first, n, h);
      assert Chain(t, first, n, [], h);
      hide ChainsShort, Bounded;
      forall a: nat | Names(t, h, a)
        ensures Bounded(t, t.aliases[a].hosts, t.aliases[a].nhosts, d - 1)
      {
        ShortNext(t, first, n, d, h, a);
        ShortBounded(t, t.aliases[a].hosts, t.aliases[a].nhosts, d - 1);
      }
    }
  }

  /** The bound that the check of a list enforces is a bound on the chains. */
  lemma {:induction false} BoundIsChains(t: Table, first: nat, n: nat, d: nat)
    ensures Bounded(t, first, n, d) <==> ChainsShort(t, first, n, d)
  {
    hide Bounded, Chain;
    if Bounded(t, first, n, d) {
      forall links, h: nat | Chain(t, first, n, links, h) && t.hosts[h].Alias?
        ensures |links| < d
      {
        BoundedShort(t, first, n, d, links, h);
      }
    }
    if ChainsShort(t, first, n, d) {
      ShortBounded(t, first, n, d);
    }
  }

  lemma {:induction false} CleanAt(t: Table, first: nat, n: nat, d: nat, h: nat)
    requires Clean(t, first, n, d) && first <= h < first + n && h < |t.hosts| && t.hosts[h].Alias?
    ensures d > 0 && exists a: nat :: Names(t, h, a)
    ensures forall a: nat :: Names(t, h, a) ==>
      !t.aliases[a].hasBad && Clean(t, t.aliases[a].hosts, t.aliases[a].nhosts, d - 1)
  {
  }

  lemma {:induction false} CleanChain(t: Table, first: nat, n: nat, d: nat, links: seq<Link>, h: nat)
    requires Clean(t, first, n, d) && Chain(t, first, n, links, h) && t.hosts[h].Alias?
    ensures exists a: nat :: Names(t, h, a)
    ensures forall a: nat :: Names(t, h, a) ==> !t.aliases[a].hasBad
    decreases d
  {
    hide Clean, Chain;
    if links == [] {
      ChainEmpty(t, first, n, h);
      CleanAt(t, first, n, d, h);
    } else {
      ChainHead(t, first, n, links, h);
      CleanAt(t, first, n, d, links[0].host);
      var a := t.aliases[links[0].entry];
      CleanChain(t, a.hosts, a.nhosts, d - 1, links[1..], h);
    }
  }

  lemma {:induction false} CleanNext(t: Table, first: nat, n: nat, h: nat, a: nat)
    requires ChainsClean(t, first, n) && first <= h < first + n && Names(t, h, a)
    ensures ChainsClean(t, t.aliases[a].hosts, t.aliases[a].nhosts)
  {
    hide Chain, Names;
    var e := t.aliases[a];
    forall links, g: nat | Chain(t, e.hosts, e.nhosts, links, g) && t.hosts[g].Alias?
      ensures (exists b: nat :: Names(t, g, b)) && forall b: nat :: Names(t, g, b) ==> !t.aliases[b].hasBad
    {
      ChainCons(t, first, n, h, a, links, g);
    }
  }

  lemma {:induction false} ChainsCleanIsClean(t: Table, first: nat, n: nat, d: nat)
    requires ChainsClean(t, first, n) && ChainsShort(t, first, n, d)
    ensures Clean(t, first, n, d)
    decreases d
  {
    hide Chain;
    forall h: nat | first <= h < first + n && h < |t.hosts| && t.hosts[h].Alias?
      ensures d > 0 && exists a: nat :: Names(t, h, a)
      ensures forall a: nat :: Names(t, h, a) ==>
        !t.aliases[a].hasBad && Clean(t, t.aliases[a].hosts, t.aliases[a].nhosts, d - 1)
    {
      ChainEmpty(t, first, n, h);
      assert Chain(t, first, n, [], h);
      assert forall a: nat :: Names(t, h, a) ==> !t.aliases[a].hasBad;
      hide ChainsShort, ChainsClean, Clean;
      forall a: nat | Names(t, h, a)
        ensures Clean(t, t.aliases[a].hosts, t.aliases[a].nhosts, d - 1)
      {
        ShortNext(t, first, n, d, h, a);
        CleanNext(t, first, n, h, a);
        ChainsCleanIsClean(t, t.aliases[a].hosts, t.aliases[a].nhosts, d - 1);
      }
    }
  }

  /** What the check of a denying rule adds. */
  lemma {:induction false} CleanIsChains(t: Table, first: nat, n: nat, d: nat)
    requires Bounded(t, first, n, d)
    ensures Clean(t, first, n, d) <==> ChainsClean(t, first, n)
  {
    hide Bounded, Chain, Clean, Names;
    BoundIsChains(t, first, n, d);
    if Clean(t, first, n, d) {
      forall links, h: nat | Chain(t, first, n, links, h) && t.hosts[h].Alias?
        ensures (exists a: nat :: Names(t, h, a)) && forall a: nat :: Names(t, h, a) ==> !t.aliases[a].hasBad
      {
        CleanChain(t, first, n, d, links, h);
      }
    }
    if ChainsClean(t, first, n) {
      ChainsCleanIsClean(t, first, n, d);
    }
  }

  // -------------------------------------------------- patterns that leave their texts

  /**
   What is matched against host `h` stays inside the texts: every alias, if it is an alias
   pattern, and the name of the client, if there is one.
   */
  ghost predicate HostInside(t: Table, h: nat, name: Option<string>)
    requires h < |t.hosts|
  {
    && (t.hosts[h].Alias? ==> forall a: nat :: a < |t.aliases| ==> Answer(t.aliases[a].name, t.hosts[h].pattern).Some?)
    && (t.hosts[h].Pattern? && name.Some? ==> Answer(name.value, t.hosts[h].pattern).Some?)
  }

  /** ... and so does all that is matched for the range, `d` expansions deep. */
  ghost predicate Inside(t: Table, first: nat, n: nat, d: nat, name: Option<string>)
    decreases d
  {
    forall h: nat :: first <= h < first + n && h < |t.hosts| ==>
      (t.hosts[h].Alias? && d == 0) ||
      (HostInside(t, h, name) &&
       forall a: nat :: Names(t, h, a) ==> Inside(t, t.aliases[a].hosts, t.aliases[a].nhosts, d - 1, name))
  }

  /** No chain leads to a pattern for which something is matched outside its text. */
  ghost predicate ChainsInside(t: Table, first: nat, n: nat, name: Option<string>) {
    forall links, h: nat :: Chain(t, first, n, links, h) ==> HostInside(t, h, name)
  }

  /** A pattern names the aliases for which patternMatch() answers "yes". */
  lemma {:induction false} NamesIs(t: Table, h: nat, a: nat)
    requires h < |t.hosts| && t.hosts[h].Alias? && a < |t.aliases|
    ensures Names(t, h, a) <==> Answer(t.aliases[a].name, t.hosts[h].pattern) == Some(true)
  {
    hide Code;
  }

  lemma {:induction false} InsideAt(t: Table, first: nat, n: nat, d: nat, name: Option<string>, h: nat)
    requires Inside(t, first, n, d, name) && first <= h < first + n && h < |t.hosts|
    requires t.hosts[h].Alias? ==> d > 0
    ensures HostInside(t, h, name)
    ensures t.hosts[h].Alias? ==>
      forall a: nat :: Names(t, h, a) ==> Inside(t, t.aliases[a].hosts, t.aliases[a].nhosts, d - 1, name)
  {
  }

  lemma {:induction false} InsideTail(t: Table, first: nat, n: nat, d: nat, name: Option<string>)
    requires Inside(t, first, n, d, name) && n > 0
    ensures Inside(t, first + 1, n - 1, d, name)
  {
  }

  lemma {:induction false} InsideChain(t: Table, first: nat, n: nat, d: nat, name: Option<string>, links: seq<Link>, h: nat)
    requires Inside(t, first, n, d, name) && Bounded(t, first, n, d) && Chain(t, first, n, links, h)
    ensures HostInside(t, h, name)
    decreases d
  {
    hide Inside, Chain, Bounded, HostInside, Names;
    if links == [] {
      ChainEmpty(t, first, n, h);
      if t.hosts[h].Alias? {
        BoundedAt(t, first, n, d, h);
      }
      InsideAt(t, first, n, d, name, h);
    } else {
      var g, a := links[0].host, links[0].entry;
      ChainHead(t, first, n, links, h);
      BoundedAt(t, first, n, d, g);
      InsideAt(t, first, n, d, name, g);
      InsideChain(t, t.aliases[a].hosts, t.aliases[a].nhosts, d - 1, name, links[1..], h);
    }
  }

  lemma {:induction false} ChainsInsideNext(t: Table, first: nat, n: nat, name: Option<string>, h: nat, a: nat)
    requires ChainsInside(t, first, n, name) && first <= h < first + n && Names(t, h, a)
    ensures ChainsInside(t, t.aliases[a].hosts, t.aliases[a].nhosts, name)
  {
    hide Chain, Names, HostInside;
    var e := t.aliases[a];
    forall links, g: nat | Chain(t, e.hosts, e.nhosts, links, g)
      ensures HostInside(t, g, name)
    {
      ChainCons(t, first, n, h, a, links, g);
    }
  }

  lemma {:induction false} ChainsInsideIsInside(t: Table, first: nat, n: nat, d: nat, name: Option<string>)
    requires ChainsInside(t, first, n, name)
    ensures Inside(t, first, n, d, name)
    decreases d
  {
    hide Chain, Names, HostInside;
    forall h: nat | first <= h < first + n && h < |t.hosts| && !(t.hosts[h].Alias? && d == 0)
      ensures HostInside(t, h, name)
      ensures forall a: nat :: Names(t, h, a) ==> Inside(t, t.aliases[a].hosts, t.aliases[a].nhosts, d - 1, name)
    {
      ChainEmpty(t, first, n, h);
      assert Chain(t, first, n, [], h);
      assert HostInside(t, h, name);
      hide ChainsInside, Inside;
      forall a: nat | Names(t, h, a)
        ensures Inside(t, t.aliases[a].hosts, t.aliases[a].nhosts, d - 1, name)
      {
        ChainsInsideNext(t, first, n, name, h, a);
        ChainsInsideIsInside(t, t.aliases[a].hosts, t.aliases[a].nhosts, d - 1, name);
      }
    }
  }

  /** Matching for a list stays inside all texts, in terms of chains. */
  lemma {:induction false} InsideIsChains(t: Table, first: nat, n: nat, d: nat, name: Option<string>)
    requires Bounded(t, first, n, d)
    ensures Inside(t, first, n, d, name) <==> ChainsInside(t, first, n, name)
  {
    hide Inside, Chain, Bounded, HostInside;
    if Inside(t, first, n, d, name) {
      forall links, h: nat | Chain(t, first, n, links, h)
        ensures HostInside(t, h, name)
      {
        InsideChain(t, first, n, d, name, links, h);
      }
    }
    if ChainsInside(t, first, n, name) {
      ChainsInsideIsInside(t, first, n, d, name);
    }
  }

  // ---------------------------------------------------------------- expansion

  /** The hosts of a range, alias patterns replaced by what they stand for, to depth `d`. */
  ghost function Flatten(t: Table, first: nat, n: nat, d: nat): seq<Host>
    requires InRange(t, first, n) && Sound(t)
    decreases d, 1, n
  {
    if n == 0 then []
    else
      (if !t.hosts[first].Alias? then [t.hosts[first]]
       else if d == 0 then []
       else Expand(t, first, 0, d))
      + Flatten(t, first + 1, n - 1, d)
  }

  /** What the aliases from `a` on that host `h` names stand for. */
  ghost function Expand(t: Table, h: nat, a: nat, d: nat): seq<Host>
    requires Sound(t) && d > 0
    decreases d, 0, |t.aliases| - a
  {
    if a >= |t.aliases| then []
    else
      (if Names(t, h, a) then Flatten(t, t.aliases[a].hosts, t.aliases[a].nhosts, d - 1) else [])
      + Expand(t, h, a + 1, d)
  }

  /** Some chain leads to host `x`, which is no alias pattern. */
  ghost predicate Leads(t: Table, first: nat, n: nat, x: Host) {
    exists links, h: nat :: Chain(t, first, n, links, h) && t.hosts[h] == x && !x.Alias?
  }

  lemma {:induction false} LeadsNext(t: Table, first: nat, n: nat, h: nat, a: nat, x: Host)
    requires first <= h < first + n && Names(t, h, a)
    requires Leads(t, t.aliases[a].hosts, t.aliases[a].nhosts, x)
    ensures Leads(t, first, n, x)
  {
    hide Names, Chain;
    var links, g: nat :| Chain(t, t.aliases[a].hosts, t.aliases[a].nhosts, links, g) && t.hosts[g] == x && !x.Alias?;
    ChainCons(t, first, n, h, a, links, g);
  }

  lemma {:induction false} FlattenStep(t: Table, first: nat, n: nat, d: nat)
    requires InRange(t, first, n) && Sound(t) && n > 0
    ensures Flatten(t, first, n, d) ==
      (if !t.hosts[first].Alias? then [t.hosts[first]] else if d == 0 then [] else Expand(t, first, 0, d))
      + Flatten(t, first + 1, n - 1, d)
  {
    hide Sound;
  }

  lemma {:induction false} FlattenNothing(t: Table, first: nat, d: nat)
    requires InRange(t, first, 0) && Sound(t)
    ensures Flatten(t, first, 0, d) == []
  {
  }

  lemma {:induction false} ExpandStep(t: Table, h: nat, a: nat, d: nat)
    requires Sound(t) && d > 0
    ensures a >= |t.aliases| ==> Expand(t, h, a, d) == []
    ensures a < |t.aliases| ==> InRange(t, t.aliases[a].hosts, t.aliases[a].nhosts)
    ensures a < |t.aliases| ==>
      Expand(t, h, a, d) ==
        (if Names(t, h, a) then Flatten(t, t.aliases[a].hosts, t.aliases[a].nhosts, d - 1) else [])
        + Expand(t, h, a + 1, d)
  {
    hide Names, Flatten;
  }

  /** The expansion holds only what chains lead to ... */
  lemma {:induction false} FlattenLeads(t: Table, first: nat, n: nat, d: nat, x: Host)
    requires InRange(t, first, n) && Sound(t) && x in Flatten(t, first, n, d)
    ensures Leads(t, first, n, x)
    decreases d, 1, n
  {
    hide Sound, Flatten, Expand, Chain, Leads;
    if n == 0 {
      FlattenNothing(t, first, d);
    } else {
      FlattenStep(t, first, n, d);
      if x in Flatten(t, first + 1, n - 1, d) {
        FlattenLeads(t, first + 1, n - 1, d, x);
        LeadsWider(t, first, n, x);
      } else if !t.hosts[first].Alias? {
        LeadsHere(t, first, n, first);
      } else {
        ExpandLeads(t, first, n, first, 0, d, x);
      }
    }
  }

  lemma {:induction false} LeadsHere(t: Table, first: nat, n: nat, h: nat)
    requires first <= h < first + n && h < |t.hosts| && !t.hosts[h].Alias?
    ensures Leads(t, first, n, t.hosts[h])
  {
    assert Chain(t, first, n, [], h);
  }

  lemma {:induction false} LeadsWider(t: Table, first: nat, n: nat, x: Host)
    requires n > 0 && Leads(t, first + 1, n - 1, x)
    ensures Leads(t, first, n, x)
  {
    var links, h: nat :| Chain(t, first + 1, n - 1, links, h) && t.hosts[h] == x && !x.Alias?;
    assert Chain(t, first, n, links, h);
  }

  lemma {:induction false} ExpandLeads(t: Table, first: nat, n: nat, h: nat, a: nat, d: nat, x: Host)
    requires InRange(t, first, n) && Sound(t) && d > 0 && first <= h < first + n
    requires x in Expand(t, h, a, d)
    ensures Leads(t, first, n, x)
    decreases d, 0, |t.aliases| - a
  {
    hide Sound, Flatten, Expand, Leads, Names;
    ExpandStep(t, h, a, d);
    if x in Expand(t, h, a + 1, d) {
      ExpandLeads(t, first, n, h, a + 1, d, x);
    } else {
      FlattenLeads(t, t.aliases[a].hosts, t.aliases[a].nhosts, d - 1, x);
      LeadsNext(t, first, n, h, a, x);
    }
  }

  /** ... and, if the bound holds, all of it. */
  lemma {:induction false} LeadsFlatten(t: Table, first: nat, n: nat, d: nat, links: seq<Link>, h: nat)
    requires InRange(t, first, n) && Sound(t) && Bounded(t, first, n, d)
    requires Chain(t, first, n, links, h) && !t.hosts[h].Alias?
    ensures t.hosts[h] in Flatten(t, first, n, d)
    decreases d, 1
  {
    hide Sound, Flatten, Expand, Chain, Bounded, Names;
    if links == [] {
      ChainEmpty(t, first, n, h);
      InFlatten(t, first, n, d, h, t.hosts[h]);
    } else {
      var g, a := links[0].host, links[0].entry;
      ChainHead(t, first, n, links, h);
      BoundedAt(t, first, n, d, g);
      ExpandStep(t, g, a, d);
      LeadsFlatten(t, t.aliases[a].hosts, t.aliases[a].nhosts, d - 1, links[1..], h);
      InExpand(t, g, 0, d, a, t.hosts[h]);
      InFlatten(t, first, n, d, g, t.hosts[h]);
    }
  }

  lemma {:induction false} InFlatten(t: Table, first: nat, n: nat, d: nat, h: nat, x: Host)
    requires InRange(t, first, n) && Sound(t) && first <= h < first + n
    requires if t.hosts[h].Alias? then d > 0 && x in Expand(t, h, 0, d) else x == t.hosts[h]
    ensures x in Flatten(t, first, n, d)
    decreases n
  {
    hide Sound, Flatten, Expand;
    FlattenStep(t, first, n, d);
    if h > first {
      InFlatten(t, first + 1, n - 1, d, h, x);
    }
  }

  lemma {:induction false} InExpand(t: Table, h: nat, a: nat, d: nat, b: nat, x: Host)
    requires Sound(t) && d > 0 && a <= b < |t.aliases| && Names(t, h, b)
    requires InRange(t, t.aliases[b].hosts, t.aliases[b].nhosts)
    requires x in Flatten(t, t.aliases[b].hosts, t.aliases[b].nhosts, d - 1)
    ensures x in Expand(t, h, a, d)
    decreases b - a
  {
    hide Sound, Flatten, Expand, Names;
    ExpandStep(t, h, a, d);
    if a < b {
      InExpand(t, h, a + 1, d, b, x);
    }
  }

  lemma {:induction false} FlattenIsChains(t: Table, first: nat, n: nat, d: nat, x: Host)
    requires InRange(t, first, n) && Sound(t) && Bounded(t, first, n, d)
    ensures x in Flatten(t, first, n, d) <==> Leads(t, first, n, x)
  {
    hide Sound, Flatten, Bounded, Chain;
    if x in Flatten(t, first, n, d) {
      FlattenLeads(t, first, n, d, x);
    }
    if Leads(t, first, n, x) {
      var links, h: nat :| Chain(t, first, n, links, h) && t.hosts[h] == x && !x.Alias?;
      LeadsFlatten(t, first, n, d, links, h);
    }
  }
}
