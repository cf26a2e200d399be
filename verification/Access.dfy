/**
 The daemon's access decisions, which walk a table without looking at the recursion
 depth, and the reader's check of a list, which makes sure that they end.
 */
module Access {
  import opened Wrappers
  import opened Glob
  import opened AccessTable

  /** Who asks. The name is what a reverse lookup gives, if it gives anything. */
  datatype Client = Client(family: int, address: Bytes, name: Option<string>)

  function NameOf(c: Client): string {
    if c.name.Some? then c.name.value else ""
  }

  ghost predicate HostMatches(x: Host, c: Client) {
    match x
    case Pattern(pattern) => Answer(NameOf(c), pattern) == Some(true)
    case Address(family, address) => family == c.family && address == c.address
    case _ => false
  }

  /** Some chain of alias expansions leads to a host that matches the client. */
  ghost predicate Reached(t: Table, first: nat, n: nat, c: Client) {
    exists x :: Leads(t, first, n, x) && HostMatches(x, c)
  }

  ghost predicate AnyMatch(xs: seq<Host>, c: Client) {
    exists i :: 0 <= i < |xs| && HostMatches(xs[i], c)
  }

  lemma {:induction false} AnyMatchConcat(a: seq<Host>, b: seq<Host>, c: Client)
    ensures AnyMatch(a + b, c) <==> AnyMatch(a, c) || AnyMatch(b, c)
  {
    if AnyMatch(a, c) {
      var i :| 0 <= i < |a| && HostMatches(a[i], c);
      assert (a + b)[i] == a[i];
    }
    if AnyMatch(b, c) {
      var i :| 0 <= i < |b| && HostMatches(b[i], c);
      assert (a + b)[|a| + i] == b[i];
    }
  }

  lemma {:induction false} AnyMatchOne(x: Host, c: Client)
    ensures AnyMatch([x], c) <==> HostMatches(x, c)
    ensures !AnyMatch([], c)
  {
    assert [x][0] == x;
  }

  lemma {:induction false} AnyMatchIsReached(t: Table, first: nat, n: nat, d: nat, c: Client)
    requires InRange(t, first, n) && Sound(t) && Bounded(t, first, n, d)
    ensures AnyMatch(Flatten(t, first, n, d), c) <==> Reached(t, first, n, c)
  {
    hide Flatten, Leads, Sound, Bounded, HostMatches;
    var xs := Flatten(t, first, n, d);
    if AnyMatch(xs, c) {
      var i :| 0 <= i < |xs| && HostMatches(xs[i], c);
      FlattenIsChains(t, first, n, d, xs[i]);
    }
    if Reached(t, first, n, c) {
      var x :| Leads(t, first, n, x) && HostMatches(x, c);
      FlattenIsChains(t, first, n, d, x);
    }
  }

  lemma {:induction false} BoundedTail(t: Table, first: nat, n: nat, d: nat)
    requires Bounded(t, first, n, d) && n > 0
    ensures Bounded(t, first + 1, n - 1, d)
  {
  }

  lemma {:induction false} SoundAt(t: Table)
    requires Sound(t)
    ensures forall i :: 0 <= i < |t.aliases| ==> InRange(t, t.aliases[i].hosts, t.aliases[i].nhosts)
  {
  }

  // ------------------------------------------------------------ scanEntrylist

  /**
   scanEntrylist(): the depth is only in the proof. The name of the client is looked up
   when it is first needed.
   */
  method ScanEntrylist(t: Table, first: nat, n: nat, c: Client, cached: Option<string>, ghost d: nat)
    returns (r: bool, cached2: Option<string>)
    requires Sound(t) && InRange(t, first, n) && Bounded(t, first, n, d) && Inside(t, first, n, d, Some(NameOf(c)))
    requires cached.None? || cached == c.name
    ensures r == AnyMatch(Flatten(t, first, n, d), c)
    ensures cached2.None? || cached2 == c.name
    decreases d, 1
  {
    hide Sound, Bounded, Inside, Flatten, AnyMatch, Answer, InRange, Names;
    SoundAt(t);
    ghost var name := Some(NameOf(c));
    cached2 := cached;
    var h, nh := first, n;
    InRangeIs(t, first, n);
    while nh > 0
      invariant h + nh == first + n && Bounded(t, h, nh, d) && Inside(t, h, nh, d, name) && InRange(t, h, nh)
      invariant cached2.None? || cached2 == c.name
      invariant AnyMatch(Flatten(t, first, n, d), c) <==> AnyMatch(Flatten(t, h, nh, d), c)
    {
      InRangeIs(t, h, nh);
      InRangeIs(t, h + 1, nh - 1);
      FlattenStep(t, h, nh, d);
      BoundedTail(t, h, nh, d);
      InsideTail(t, h, nh, d, name);
      ghost var rest := Flatten(t, h + 1, nh - 1, d);
      if t.hosts[h].Alias? {
        BoundedAt(t, h, nh, d, h);
      }
      InsideAt(t, h, nh, d, name, h);
      match t.hosts[h] {
        case Alias(pattern) =>
          var b;
          b, cached2 := ScanAliases(t, h, c, cached2, d);
          AnyMatchConcat(Expand(t, h, 0, d), rest, c);
          if b {
            return true, cached2;
          }
        case Pattern(pattern) =>
          if cached2.None? {
            cached2 := c.name;
          }
          AnyMatchConcat([t.hosts[h]], rest, c);
          AnyMatchOne(t.hosts[h], c);
          var b := PatternMatch(cached2, pattern);
          if b.value {
            return true, cached2;
          }
        case Address(family, address) =>
          AnyMatchConcat([t.hosts[h]], rest, c);
          AnyMatchOne(t.hosts[h], c);
          if family == c.family && address == c.address {
            return true, cached2;
          }
        case Broadcast =>
          AnyMatchConcat([t.hosts[h]], rest, c);
          AnyMatchOne(t.hosts[h], c);
      }
      h, nh := h + 1, nh - 1;
    }
    FlattenNothing(t, h, d);
    AnyMatchOne(Broadcast, c);
    r := false;
  }

  lemma {:induction false} InRangeIs(t: Table, first: nat, n: nat)
    ensures InRange(t, first, n) <==> first + n <= |t.hosts|
  {
  }

  /** The inner loop: all aliases that the alias pattern at `h` names. */
  method ScanAliases(t: Table, h: nat, c: Client, cached: Option<string>, ghost d: nat)
    returns (r: bool, cached2: Option<string>)
    requires Sound(t) && h < |t.hosts| && t.hosts[h].Alias? && d > 0 && HostInside(t, h, Some(NameOf(c)))
    requires forall a: nat :: Names(t, h, a) ==> Bounded(t, t.aliases[a].hosts, t.aliases[a].nhosts, d - 1)
    requires forall a: nat :: Names(t, h, a) ==>
      Inside(t, t.aliases[a].hosts, t.aliases[a].nhosts, d - 1, Some(NameOf(c)))
    requires cached.None? || cached == c.name
    ensures r == AnyMatch(Expand(t, h, 0, d), c)
    ensures cached2.None? || cached2 == c.name
    decreases d, 0
  {
    hide Sound, Bounded, Inside, Flatten, Expand, AnyMatch, Answer, InRange, Names;
    SoundAt(t);
    cached2 := cached;
    var a := 0;
    while a < |t.aliases|
      invariant a <= |t.aliases|
      invariant cached2.None? || cached2 == c.name
      invariant AnyMatch(Expand(t, h, 0, d), c) <==> AnyMatch(Expand(t, h, a, d), c)
    {
      var e := t.aliases[a];
      ExpandStep(t, h, a, d);
      ghost var rest := Expand(t, h, a + 1, d);
      var m := PatternMatch(Some(e.name), t.hosts[h].pattern);
      NamesIs(t, h, a);
      if m.value {
        AnyMatchConcat(Flatten(t, e.hosts, e.nhosts, d - 1), rest, c);
        var b;
        b, cached2 := ScanEntrylist(t, e.hosts, e.nhosts, c, cached2, d - 1);
        if b {
          return true, cached2;
        }
      } else {
        assert [] + rest == rest;
      }
      a := a + 1;
    }
    ExpandStep(t, h, a, d);
    AnyMatchOne(Broadcast, c);
    r := false;
  }

  // ------------------------------------------------------------ matchAclEntry

  /** The reader has found no list too deep. */
  ghost predicate BoundedTable(t: Table) {
    forall i :: 0 <= i < |t.acls| ==>
      && Bounded(t, t.acls[i].entries, t.acls[i].nentries, MAX_DEPTH)
      && Bounded(t, t.acls[i].hosts, t.acls[i].nhosts, MAX_DEPTH)
  }

  /** What is matched for rule `i` stays inside all texts: clients are matched with its entry only. */
  ghost predicate RuleInside(t: Table, i: nat, name: Option<string>)
    requires i < |t.acls|
  {
    var e := t.acls[i];
    Inside(t, e.entries, e.nentries, MAX_DEPTH, name) && Inside(t, e.hosts, e.nhosts, MAX_DEPTH, None)
  }

  /** What the reader matches, or the daemon for a client with that name, stays inside all texts. */
  ghost predicate TableInside(t: Table, name: Option<string>) {
    forall i :: 0 <= i < |t.acls| ==> RuleInside(t, i, name)
  }

  /** Entry `i` is of the requested kind (without a host list if direct) and matches the client. */
  ghost predicate Fits(t: Table, i: nat, c: Client, direct: bool)
    requires i < |t.acls|
  {
    (t.acls[i].nhosts == 0) == direct && Reached(t, t.acls[i].entries, t.acls[i].nentries, c)
  }

  /** The first entry that fits. */
  ghost predicate FirstFit(t: Table, c: Client, direct: bool, r: Option<nat>) {
    match r
    case None => forall i :: 0 <= i < |t.acls| ==> !Fits(t, i, c, direct)
    case Some(k) => k < |t.acls| && Fits(t, k, c, direct) && forall i :: 0 <= i < k ==> !Fits(t, i, c, direct)
  }

  lemma {:induction false} AclAt(t: Table, i: nat)
    requires Sound(t) && BoundedTable(t) && i < |t.acls|
    ensures var e := t.acls[i];
      && InRange(t, e.entries, e.nentries) && Bounded(t, e.entries, e.nentries, MAX_DEPTH)
      && InRange(t, e.hosts, e.nhosts) && Bounded(t, e.hosts, e.nhosts, MAX_DEPTH)
  {
    hide Bounded;
  }

  lemma {:induction false} AclInside(t: Table, name: Option<string>, i: nat)
    requires TableInside(t, name) && i < |t.acls|
    ensures Inside(t, t.acls[i].entries, t.acls[i].nentries, MAX_DEPTH, name)
    ensures Inside(t, t.acls[i].hosts, t.acls[i].nhosts, MAX_DEPTH, None)
  {
    hide Inside;
    assert RuleInside(t, i, name);
  }

  method MatchAclEntry(t: Table, c: Client, direct: bool) returns (r: Option<nat>)
    requires Sound(t) && BoundedTable(t) && TableInside(t, Some(NameOf(c)))
    ensures FirstFit(t, c, direct, r)
  {
    hide Sound, BoundedTable, TableInside, Inside, Reached, Bounded, Flatten, AnyMatch, InRange;
    var cached: Option<string> := None;
    var i := 0;
    while i < |t.acls|
      invariant i <= |t.acls| && (cached.None? || cached == c.name)
      invariant forall j :: 0 <= j < i ==> !Fits(t, j, c, direct)
    {
      var e := t.acls[i];
      if (e.nhosts == 0) == direct {
        AclAt(t, i);
        AclInside(t, Some(NameOf(c)), i);
        AnyMatchIsReached(t, e.entries, e.nentries, MAX_DEPTH, c);
        var b;
        b, cached := ScanEntrylist(t, e.entries, e.nentries, c, cached, MAX_DEPTH);
        if b {
          return Some(i);
        }
      }
      i := i + 1;
    }
    r := None;
  }

  datatype Query = Direct | BroadcastQuery | Indirect

  /** The first rule without a host list that matches the client lets it in. */
  ghost predicate Acceptable(t: Table, c: Client, query: Query) {
    query == Indirect ||
    exists k: nat :: FirstFit(t, c, true, Some(k)) && !t.acls[k].notAllowed
                     && (query == BroadcastQuery ==> !t.acls[k].keyword)
  }

  /** acceptableDisplayAddress(): indirect queries are let through here. */
  method AcceptableDisplayAddress(t: Table, c: Client, query: Query) returns (ok: bool)
    requires Sound(t) && BoundedTable(t) && TableInside(t, Some(NameOf(c)))
    ensures ok <==> Acceptable(t, c, query)
  {
    hide Sound, BoundedTable, TableInside, Fits;
    if query == Indirect {
      return true;
    }
    var r := MatchAclEntry(t, c, true);
    FirstFitUnique(t, c, true, r);
    ok := r.Some? && !t.acls[r.value].notAllowed && (query != BroadcastQuery || !t.acls[r.value].keyword);
  }

  lemma {:induction false} FirstFitUnique(t: Table, c: Client, direct: bool, r: Option<nat>)
    requires FirstFit(t, c, direct, r)
    ensures forall r2: Option<nat> :: FirstFit(t, c, direct, r2) ==> r2 == r
  {
    hide Fits;
  }

  // ------------------------------------------------------------- scanHostlist

  /** One call of the function that is handed to scanHostlist(). */
  datatype Call = CallAddress(address: Bytes) | CallBroadcast

  /** What is called for the hosts of an expansion: the local host is only noted, if that is wanted. */
  function CallsFor(xs: seq<Host>, local: Bytes, noteLocal: bool, broadcast: bool): seq<Call> {
    if xs == [] then []
    else CallFor(xs[0], local, noteLocal, broadcast) + CallsFor(xs[1..], local, noteLocal, broadcast)
  }

  function CallFor(x: Host, local: Bytes, noteLocal: bool, broadcast: bool): seq<Call> {
    match x
    case Address(_, address) => if noteLocal && address == local then [] else [CallAddress(address)]
    case Broadcast => if broadcast then [CallBroadcast] else []
    case _ => []
  }

  predicate HasLocal(xs: seq<Host>, local: Bytes) {
    exists i :: 0 <= i < |xs| && xs[i].Address? && xs[i].address == local
  }

  lemma {:induction false} CallsConcat(a: seq<Host>, b: seq<Host>, local: Bytes, noteLocal: bool, broadcast: bool)
    ensures CallsFor(a + b, local, noteLocal, broadcast) ==
      CallsFor(a, local, noteLocal, broadcast) + CallsFor(b, local, noteLocal, broadcast)
    ensures HasLocal(a + b, local) <==> HasLocal(a, local) || HasLocal(b, local)
    decreases |a|
  {
    hide CallFor, HasLocal;
    LocalConcat(a, b, local);
    if a == [] {
      assert a + b == b;
    } else {
      assert (a + b)[1..] == a[1..] + b;
      CallsConcat(a[1..], b, local, noteLocal, broadcast);
    }
  }

  lemma {:induction false} LocalConcat(a: seq<Host>, b: seq<Host>, local: Bytes)
    ensures HasLocal(a + b, local) <==> HasLocal(a, local) || HasLocal(b, local)
  {
    if i :| 0 <= i < |b| && b[i].Address? && b[i].address == local {
      assert (a + b)[|a| + i] == b[i];
    }
    if i :| 0 <= i < |a| && a[i].Address? && a[i].address == local {
      assert (a + b)[i] == a[i];
    }
  }

  lemma {:induction false} CallsOne(x: Host, local: Bytes, noteLocal: bool, broadcast: bool)
    ensures CallsFor([], local, noteLocal, broadcast) == [] && !HasLocal([], local)
    ensures HasLocal([x], local) <==> x.Address? && x.address == local
    ensures CallsFor([x], local, noteLocal, broadcast) ==
      if x.Address? then (if noteLocal && x.address == local then [] else [CallAddress(x.address)])
      else if x.Broadcast? && broadcast then [CallBroadcast] else []
  {
    assert [x][0] == x && [x][1..] == [];
  }

  /** The rest of the switch over the host type. */
  method CallHost(x: Host, local: Bytes, noteLocal: bool, broadcast: bool) returns (calls: seq<Call>, found: bool)
    requires !x.Alias?
    ensures calls == CallsFor([x], local, noteLocal, broadcast) && found == (noteLocal && HasLocal([x], local))
  {
    hide CallsFor, HasLocal;
    CallsOne(x, local, noteLocal, broadcast);
    calls, found := [], false;
    if x.Address? {
      if noteLocal && local == x.address {
        found := true;
      } else {
        calls := [CallAddress(x.address)];
      }
    } else if x.Broadcast? && broadcast {
      calls := [CallBroadcast];
    }
  }

  /** scanHostlist(): the calls are those for the expansion of the range, in order. */
  method ScanHostlist(t: Table, first: nat, n: nat, local: Bytes, noteLocal: bool, broadcast: bool, ghost d: nat)
    returns (calls: seq<Call>, haveLocalhost: bool)
    requires Sound(t) && InRange(t, first, n) && Bounded(t, first, n, d) && Inside(t, first, n, d, None)
    ensures calls == CallsFor(Flatten(t, first, n, d), local, noteLocal, broadcast)
    ensures haveLocalhost == (noteLocal && HasLocal(Flatten(t, first, n, d), local))
    decreases d, 1
  {
    hide Sound, Bounded, Inside, Flatten, HasLocal, CallsFor, Answer, InRange, Names;
    SoundAt(t);
    calls, haveLocalhost := [], false;
    var h, nh := first, n;
    InRangeIs(t, first, n);
    ghost var all := Flatten(t, first, n, d);
    while nh > 0
      invariant h + nh == first + n && Bounded(t, h, nh, d) && Inside(t, h, nh, d, None) && InRange(t, h, nh)
      invariant CallsFor(all, local, noteLocal, broadcast) ==
        calls + CallsFor(Flatten(t, h, nh, d), local, noteLocal, broadcast)
      invariant noteLocal && HasLocal(all, local) <==> haveLocalhost || (noteLocal && HasLocal(Flatten(t, h, nh, d), local))
    {
      InRangeIs(t, h, nh);
      InRangeIs(t, h + 1, nh - 1);
      FlattenStep(t, h, nh, d);
      BoundedTail(t, h, nh, d);
      InsideTail(t, h, nh, d, None);
      var x := t.hosts[h];
      ghost var rest := Flatten(t, h + 1, nh - 1, d);
      var more, found;
      if x.Alias? {
        BoundedAt(t, h, nh, d, h);
        InsideAt(t, h, nh, d, None, h);
        CallsConcat(Expand(t, h, 0, d), rest, local, noteLocal, broadcast);
        more, found := ScanHostAliases(t, h, local, noteLocal, broadcast, d);
      } else {
        CallsConcat([x], rest, local, noteLocal, broadcast);
        more, found := CallHost(x, local, noteLocal, broadcast);
      }
      calls, haveLocalhost := calls + more, haveLocalhost || found;
      h, nh := h + 1, nh - 1;
    }
    FlattenNothing(t, h, d);
    CallsOne(Broadcast, local, noteLocal, broadcast);
  }

  method ScanHostAliases(t: Table, h: nat, local: Bytes, noteLocal: bool, broadcast: bool, ghost d: nat)
    returns (calls: seq<Call>, haveLocalhost: bool)
    requires Sound(t) && h < |t.hosts| && t.hosts[h].Alias? && d > 0 && HostInside(t, h, None)
    requires forall a: nat :: Names(t, h, a) ==> Bounded(t, t.aliases[a].hosts, t.aliases[a].nhosts, d - 1)
    requires forall a: nat :: Names(t, h, a) ==> Inside(t, t.aliases[a].hosts, t.aliases[a].nhosts, d - 1, None)
    ensures calls == CallsFor(Expand(t, h, 0, d), local, noteLocal, broadcast)
    ensures haveLocalhost == (noteLocal && HasLocal(Expand(t, h, 0, d), local))
    decreases d, 0
  {
    hide Sound, Bounded, Inside, Flatten, Expand, HasLocal, CallsFor, Answer, InRange, Names;
    SoundAt(t);
    calls, haveLocalhost := [], false;
    ghost var all := Expand(t, h, 0, d);
    var a := 0;
    while a < |t.aliases|
      invariant a <= |t.aliases|
      invariant CallsFor(all, local, noteLocal, broadcast) ==
        calls + CallsFor(Expand(t, h, a, d), local, noteLocal, broadcast)
      invariant noteLocal && HasLocal(all, local) <==> haveLocalhost || (noteLocal && HasLocal(Expand(t, h, a, d), local))
    {
      var e := t.aliases[a];
      ExpandStep(t, h, a, d);
      ghost var rest := Expand(t, h, a + 1, d);
      var m := PatternMatch(Some(e.name), t.hosts[h].pattern);
      NamesIs(t, h, a);
      if m.value {
        CallsConcat(Flatten(t, e.hosts, e.nhosts, d - 1), rest, local, noteLocal, broadcast);
        var more, found := ScanHostlist(t, e.hosts, e.nhosts, local, noteLocal, broadcast, d - 1);
        calls, haveLocalhost := calls + more, haveLocalhost || found;
      } else {
        assert [] + rest == rest;
      }
      a := a + 1;
    }
    ExpandStep(t, h, a, d);
    CallsOne(Broadcast, local, noteLocal, broadcast);
  }

  // -------------------------------------------------------------- the chooser

  /** The first rule with a host list that matches the client sends it to the chooser. */
  ghost predicate SentToChooser(t: Table, c: Client) {
    exists k: nat :: FirstFit(t, c, false, Some(k)) && !t.acls[k].notAllowed && t.acls[k].keyword
  }

  method UseChooser(t: Table, c: Client) returns (use: bool)
    requires Sound(t) && BoundedTable(t) && TableInside(t, Some(NameOf(c)))
    ensures use <==> SentToChooser(t, c)
  {
    hide Sound, BoundedTable, TableInside, Fits;
    var r := MatchAclEntry(t, c, false);
    FirstFitUnique(t, c, false, r);
    use := r.Some? && !t.acls[r.value].notAllowed && t.acls[r.value].keyword;
  }

  /** The hosts that the chooser offers. */
  method ForEachChooserHost(t: Table, c: Client, ghost k: nat) returns (calls: seq<Call>)
    requires Sound(t) && BoundedTable(t) && TableInside(t, Some(NameOf(c)))
    ensures !SentToChooser(t, c) ==> calls == []
    ensures SentToChooser(t, c) && FirstFit(t, c, false, Some(k)) ==>
      calls == CallsFor(Flatten(t, t.acls[k].hosts, t.acls[k].nhosts, MAX_DEPTH), [], false, true)
  {
    hide Sound, BoundedTable, TableInside, Fits, Flatten, CallsFor;
    var r := MatchAclEntry(t, c, false);
    FirstFitUnique(t, c, false, r);
    calls := [];
    if r.Some? && !t.acls[r.value].notAllowed && t.acls[r.value].keyword {
      AclAt(t, r.value);
      AclInside(t, Some(NameOf(c)), r.value);
      var e := t.acls[r.value];
      var local;
      calls, local := ScanHostlist(t, e.hosts, e.nhosts, [], false, true, MAX_DEPTH);
    }
  }

  /**
   Where an indirect query goes: with a chooser to the host that was chosen, or nowhere
   else if none was or it is this one; otherwise to each host of the rule.
   */
  method ForEachMatchingIndirectHost(t: Table, c: Client, local: Bytes, choice: Option<Bytes>, ghost k: nat)
    returns (calls: seq<Call>, haveLocalhost: bool)
    requires Sound(t) && BoundedTable(t) && TableInside(t, Some(NameOf(c)))
    ensures SentToChooser(t, c) ==>
      calls == (if choice.None? || choice.value == local then [] else [CallAddress(choice.value)]) &&
      (haveLocalhost <==> choice.None? || choice.value == local)
    ensures !SentToChooser(t, c) && FirstFit(t, c, false, Some(k)) && !t.acls[k].notAllowed ==>
      var xs := Flatten(t, t.acls[k].hosts, t.acls[k].nhosts, MAX_DEPTH);
      calls == CallsFor(xs, local, true, false) && haveLocalhost == HasLocal(xs, local)
    ensures FirstFit(t, c, false, None) || (FirstFit(t, c, false, Some(k)) && t.acls[k].notAllowed) ==>
      calls == [] && !haveLocalhost
  {
    hide Sound, BoundedTable, TableInside, Fits, Flatten, CallsFor, HasLocal;
    var r := MatchAclEntry(t, c, false);
    FirstFitUnique(t, c, false, r);
    calls, haveLocalhost := [], false;
    if r.Some? && !t.acls[r.value].notAllowed {
      var e := t.acls[r.value];
      if e.keyword {
        if choice.None? || local == choice.value {
          haveLocalhost := true;
        } else {
          calls := [CallAddress(choice.value)];
        }
      } else {
        AclAt(t, r.value);
        AclInside(t, Some(NameOf(c)), r.value);
        calls, haveLocalhost := ScanHostlist(t, e.hosts, e.nhosts, local, true, false, MAX_DEPTH);
      }
    }
  }

  // ------------------------------------------------------------ checkHostlist

  /** What the check of a list at `depth` accepts. */
  ghost predicate ListOk(t: Table, first: nat, n: nat, depth: nat, not: bool)
    requires depth <= MAX_DEPTH
  {
    Bounded(t, first, n, MAX_DEPTH - depth) && (not ==> Clean(t, first, n, MAX_DEPTH - depth))
  }

  /** The part of ListOk() that is about the alias pattern at `h`. */
  ghost predicate HostOk(t: Table, h: nat, depth: nat, not: bool)
    requires depth <= MAX_DEPTH && h < |t.hosts| && t.hosts[h].Alias?
  {
    && depth < MAX_DEPTH
    && (not ==> exists a: nat :: Names(t, h, a))
    && forall a: nat :: Names(t, h, a) ==>
         && (not ==> !t.aliases[a].hasBad)
         && ListOk(t, t.aliases[a].hosts, t.aliases[a].nhosts, depth + 1, not)
  }

  /** The part of Inside() that is about the alias pattern at `h`, as the check comes to it. */
  ghost predicate AliasInside(t: Table, h: nat, depth: nat)
    requires depth <= MAX_DEPTH && h < |t.hosts|
  {
    (t.hosts[h].Alias? && depth == MAX_DEPTH) ||
    (HostInside(t, h, None) &&
     forall a: nat :: Names(t, h, a) ==>
       Inside(t, t.aliases[a].hosts, t.aliases[a].nhosts, MAX_DEPTH - depth - 1, None))
  }

  lemma {:induction false} ListStep(t: Table, first: nat, n: nat, depth: nat, not: bool)
    requires depth <= MAX_DEPTH && first + n <= |t.hosts| && n > 0
    ensures ListOk(t, first, n, depth, not) <==>
      (t.hosts[first].Alias? ==> HostOk(t, first, depth, not)) && ListOk(t, first + 1, n - 1, depth, not)
  {
    hide Names;
  }

  lemma {:induction false} InsideStep(t: Table, first: nat, n: nat, depth: nat)
    requires depth <= MAX_DEPTH && first + n <= |t.hosts| && n > 0
    ensures Inside(t, first, n, MAX_DEPTH - depth, None) <==>
      (t.hosts[first].Alias? ==> AliasInside(t, first, depth)) && Inside(t, first + 1, n - 1, MAX_DEPTH - depth, None)
  {
    hide Names, Answer;
    var d := MAX_DEPTH - depth;
    if Inside(t, first, n, d, None) {
      InsideTail(t, first, n, d, None);
      if t.hosts[first].Alias? && d > 0 {
        InsideAt(t, first, n, d, None, first);
      }
    }
    if (t.hosts[first].Alias? ==> AliasInside(t, first, depth)) && Inside(t, first + 1, n - 1, d, None) {
      assert !t.hosts[first].Alias? ==> HostInside(t, first, None) && forall a: nat :: !Names(t, first, a);
    }
  }

  lemma {:induction false} ListNothing(t: Table, first: nat, depth: nat, not: bool)
    requires depth <= MAX_DEPTH
    ensures ListOk(t, first, 0, depth, not) && Inside(t, first, 0, MAX_DEPTH - depth, None)
  {
  }

  /** What is found about a list or a host: an error, none, or nothing as a match has left its texts. */
  ghost predicate Finds(bad: Option<bool>, ok: bool, inside: bool) {
    && (bad == Some(false) <==> ok && inside)
    && (bad == Some(true) ==> !ok)
    && (bad == None ==> !inside)
  }

  /** checkHostlist(): whether something is wrong with a list; no answer if a match leaves its texts first. */
  method CheckHostlist(t: Table, first: nat, n: nat, depth: nat, not: bool) returns (bad: Option<bool>)
    requires Sound(t) && InRange(t, first, n) && depth <= MAX_DEPTH
    ensures Finds(bad, ListOk(t, first, n, depth, not), Inside(t, first, n, MAX_DEPTH - depth, None))
    decreases MAX_DEPTH - depth, 1
  {
    hide Sound, ListOk, InRange, HostOk, Inside, AliasInside;
    var h, nh := first, n;
    InRangeIs(t, first, n);
    while nh > 0
      invariant h + nh == first + n && InRange(t, h, nh)
      invariant ListOk(t, first, n, depth, not) <==> ListOk(t, h, nh, depth, not)
      invariant Inside(t, first, n, MAX_DEPTH - depth, None) <==> Inside(t, h, nh, MAX_DEPTH - depth, None)
    {
      InRangeIs(t, h, nh);
      InRangeIs(t, h + 1, nh - 1);
      ListStep(t, h, nh, depth, not);
      InsideStep(t, h, nh, depth);
      if t.hosts[h].Alias? {
        HostTooDeep(t, h, depth, not);
        if depth == MAX_DEPTH {
          return Some(true);
        }
        var b := CheckAliases(t, h, depth, not);
        if b != Some(false) {
          return b;
        }
      }
      h, nh := h + 1, nh - 1;
    }
    ListNothing(t, h, depth, not);
    return Some(false);
  }

  lemma {:induction false} HostTooDeep(t: Table, h: nat, depth: nat, not: bool)
    requires depth <= MAX_DEPTH && h < |t.hosts| && t.hosts[h].Alias?
    ensures depth == MAX_DEPTH ==> !HostOk(t, h, depth, not)
  {
  }

  /** The aliases up to `n`, as far as CheckAliases() goes through them. */
  ghost predicate NamedOk(t: Table, h: nat, n: nat, depth: nat, not: bool)
    requires depth < MAX_DEPTH && h < |t.hosts| && t.hosts[h].Alias?
  {
    forall b: nat :: b < n && Names(t, h, b) ==>
      (not ==> !t.aliases[b].hasBad) && ListOk(t, t.aliases[b].hosts, t.aliases[b].nhosts, depth + 1, not)
  }

  ghost predicate NamedInside(t: Table, h: nat, n: nat, depth: nat)
    requires depth < MAX_DEPTH && h < |t.hosts| && t.hosts[h].Alias? && n <= |t.aliases|
  {
    forall b: nat :: b < n ==>
      && Answer(t.aliases[b].name, t.hosts[h].pattern).Some?
      && (Names(t, h, b) ==> Inside(t, t.aliases[b].hosts, t.aliases[b].nhosts, MAX_DEPTH - depth - 1, None))
  }

  lemma {:induction false} NamedAll(t: Table, h: nat, depth: nat, not: bool)
    requires depth < MAX_DEPTH && h < |t.hosts| && t.hosts[h].Alias?
    ensures HostOk(t, h, depth, not) <==> (not ==> exists a: nat :: Names(t, h, a)) && NamedOk(t, h, |t.aliases|, depth, not)
    ensures AliasInside(t, h, depth) <==> NamedInside(t, h, |t.aliases|, depth)
    ensures NamedOk(t, h, 0, depth, not) && NamedInside(t, h, 0, depth)
  {
    hide ListOk, Inside, Answer;
    assert forall a: nat :: Names(t, h, a) ==> a < |t.aliases|;
  }

  lemma {:induction false} NamedNext(t: Table, h: nat, n: nat, depth: nat, not: bool)
    requires depth < MAX_DEPTH && h < |t.hosts| && t.hosts[h].Alias? && n < |t.aliases|
    ensures NamedOk(t, h, n + 1, depth, not) <==>
      NamedOk(t, h, n, depth, not) &&
      (Names(t, h, n) ==>
         (not ==> !t.aliases[n].hasBad) && ListOk(t, t.aliases[n].hosts, t.aliases[n].nhosts, depth + 1, not))
    ensures NamedInside(t, h, n + 1, depth) <==>
      NamedInside(t, h, n, depth) && Answer(t.aliases[n].name, t.hosts[h].pattern).Some? &&
      (Names(t, h, n) ==> Inside(t, t.aliases[n].hosts, t.aliases[n].nhosts, MAX_DEPTH - depth - 1, None))
  {
    hide ListOk, Inside, Answer, Names;
  }

  /** What holds of all aliases holds of the first of them. */
  lemma {:induction false} NamedLess(t: Table, h: nat, n: nat, depth: nat, not: bool)
    requires depth < MAX_DEPTH && h < |t.hosts| && t.hosts[h].Alias? && n <= |t.aliases|
    ensures NamedOk(t, h, |t.aliases|, depth, not) ==> NamedOk(t, h, n, depth, not)
    ensures NamedInside(t, h, |t.aliases|, depth) ==> NamedInside(t, h, n, depth)
  {
    hide ListOk, Inside, Answer, Names;
  }

  method CheckAliases(t: Table, h: nat, depth: nat, not: bool) returns (bad: Option<bool>)
    requires Sound(t) && h < |t.hosts| && t.hosts[h].Alias? && depth < MAX_DEPTH
    ensures Finds(bad, HostOk(t, h, depth, not), AliasInside(t, h, depth))
    decreases MAX_DEPTH - depth, 0
  {
    hide Sound, ListOk, InRange, Answer, Names, Inside, HostOk, AliasInside, NamedOk, NamedInside;
    SoundAt(t);
    NamedAll(t, h, depth, not);
    var am := false;
    var a := 0;
    while a < |t.aliases|
      invariant a <= |t.aliases| && (am <==> exists b: nat :: b < a && Names(t, h, b))
      invariant NamedOk(t, h, a, depth, not) && NamedInside(t, h, a, depth)
    {
      var e := t.aliases[a];
      NamedNext(t, h, a, depth, not);
      NamedLess(t, h, a + 1, depth, not);
      var m := PatternMatch(Some(e.name), t.hosts[h].pattern);
      NamesIs(t, h, a);
      if m.None? {
        return None;
      }
      if m.value {
        am := true;
        if not && e.hasBad {
          return Some(true);
        }
        var b := CheckHostlist(t, e.hosts, e.nhosts, depth + 1, not);
        if b != Some(false) {
          return b;
        }
      }
      a := a + 1;
    }
    NamesOnly(t, h);
    return Some(not && !am);
  }

  lemma {:induction false} NamesOnly(t: Table, h: nat)
    ensures forall a: nat :: Names(t, h, a) ==> a < |t.aliases|
  {
  }

  /** An accepted list, in terms of chains. */
  lemma {:induction false} ListOkIsChains(t: Table, first: nat, n: nat, not: bool)
    ensures ListOk(t, first, n, 0, not) <==>
      ChainsShort(t, first, n, MAX_DEPTH) && (not ==> ChainsClean(t, first, n))
  {
    hide Bounded, Clean, ChainsShort, ChainsClean;
    BoundIsChains(t, first, n, MAX_DEPTH);
    if Bounded(t, first, n, MAX_DEPTH) {
      CleanIsChains(t, first, n, MAX_DEPTH);
    }
  }
}
