/**
 The two keywords of a rule, "no broadcast queries" and "use the chooser", share a flag:
 what a keyword comes to is decided by the hosts of the rule.
 */
module AccessKeywords {
  import opened Wrappers
  import opened Glob
  import opened AccessTable
  import opened Access
  import opened AccessReader

  /** For the clients of the rule, broadcast queries are refused and direct ones are not. */
  predicate RefusesBroadcasts(e: AclEntry) {
    e.nhosts == 0 && e.keyword && !e.notAllowed
  }

  /** The clients of the rule are sent to the chooser. */
  predicate OpensChooser(e: AclEntry) {
    e.nhosts != 0 && e.keyword && !e.notAllowed
  }

  /** What the daemon does for the clients for which the rule is the first that fits. */
  lemma {:induction false} RuleDecides(t: Table, c: Client, k: nat)
    requires k < |t.acls|
    ensures FirstFit(t, c, false, Some(k)) ==> (SentToChooser(t, c) <==> OpensChooser(t.acls[k]))
    ensures FirstFit(t, c, true, Some(k)) ==> !OpensChooser(t.acls[k])
    ensures FirstFit(t, c, true, Some(k)) && !t.acls[k].notAllowed ==>
      (Acceptable(t, c, BroadcastQuery) <==> !RefusesBroadcasts(t.acls[k])) && Acceptable(t, c, Direct)
  {
    hide Reached;
    FitKind(t, c, k);
    hide Fits;
    if FirstFit(t, c, false, Some(k)) {
      FirstFitUnique(t, c, false, Some(k));
    }
    if FirstFit(t, c, true, Some(k)) {
      FirstFitUnique(t, c, true, Some(k));
    }
  }

  lemma {:induction false} FitKind(t: Table, c: Client, k: nat)
    requires k < |t.acls|
    ensures forall direct :: Fits(t, k, c, direct) ==> (t.acls[k].nhosts == 0) == direct
  {
  }

  /** Some word of the rule stands for a host. */
  predicate ListsHost(words: seq<string>, resolve: Resolver) {
    exists i :: 0 <= i < |words| && !IsKeyword(words[i]) && HostOf(words[i], IN_HOSTS, resolve).Some?
  }

  lemma {:induction false} ListsHostIs(words: seq<string>, resolve: Resolver)
    ensures HostsOf(HostWords(words), IN_HOSTS, resolve) != [] <==> ListsHost(words, resolve)
    decreases |words|
  {
    hide HostOf, IsKeyword;
    if words != [] {
      ListsHostIs(words[1..], resolve);
      assert forall i :: 1 <= i < |words| ==> words[i] == words[1..][i - 1];
      assert ListsHost(words[1..], resolve) ==> ListsHost(words, resolve) by {
        if i :| 0 <= i < |words[1..]| && !IsKeyword(words[1..][i]) && HostOf(words[1..][i], IN_HOSTS, resolve).Some? {
          assert words[i + 1] == words[1..][i];
        }
      }
      HeadWord(words, resolve);
    }
  }

  lemma {:induction false} HeadWord(words: seq<string>, resolve: Resolver)
    requires words != []
    ensures var rest := HostsOf(HostWords(words[1..]), IN_HOSTS, resolve);
      HostsOf(HostWords(words), IN_HOSTS, resolve) ==
        if IsKeyword(words[0]) then rest else OptSeq(HostOf(words[0], IN_HOSTS, resolve)) + rest
  {
    hide HostOf, IsKeyword;
    var ws := HostWords(words[1..]);
    if IsKeyword(words[0]) {
      assert [] + ws == ws;
    } else {
      assert ([words[0]] + ws)[1..] == ws;
    }
  }

  predicate IsRule(line: seq<string>) {
    line != [] && !IsAlias(line[0]) && !IsListen(line[0])
  }

  /**
   What the entry of an allowing rule with a keyword comes to: which keyword it is does
   not matter, only whether the rule lists a host.
   */
  lemma {:induction false} KeywordMeans(hosts: seq<Host>, e: AclEntry, line: seq<string>, resolve: Resolver)
    requires IsRule(line) && AclIs(hosts, e, RecordOf(line, resolve))
    requires HasKeyword(line[1..]) && !e.notAllowed
    ensures RefusesBroadcasts(e) <==> !ListsHost(line[1..], resolve)
    ensures OpensChooser(e) <==> ListsHost(line[1..], resolve)
  {
    hide HostOf, HostsOf, HostWords, IsAlias, IsListen, HasKeyword, ListsHost;
    ListsHostIs(line[1..], resolve);
  }

  /** The rule asks for the one, for the other, or for both. */
  predicate AsksFor(line: seq<string>, what: string -> bool)
    requires line != []
  {
    exists i :: 1 <= i < |line| && what(line[i])
  }

  /** What a rule asks for is what the daemon does. */
  predicate Obeyed(e: AclEntry, line: seq<string>)
    requires line != []
  {
    && (RefusesBroadcasts(e) <==> AsksFor(line, IsNoBroadcast))
    && (OpensChooser(e) <==> AsksFor(line, IsChooser))
  }

  /**
   The daemon obeys an allowing rule exactly if it has no keyword, if it has only the
   chooser's and lists a host, or only the other and lists none.
   */
  lemma {:induction false} ObeyedExactly(hosts: seq<Host>, e: AclEntry, line: seq<string>, resolve: Resolver)
    requires IsRule(line) && AclIs(hosts, e, RecordOf(line, resolve)) && !e.notAllowed
    ensures Obeyed(e, line) <==>
      && (AsksFor(line, IsChooser) ==> ListsHost(line[1..], resolve))
      && (AsksFor(line, IsNoBroadcast) ==> !ListsHost(line[1..], resolve))
  {
    hide HostOf, HostsOf, HostWords, IsAlias, IsListen, ListsHost, IsChooser, IsNoBroadcast, AclIs;
    Keywords(line);
    EntryKeyword(hosts, e, line, resolve);
    hide HasKeyword, AsksFor;
    if HasKeyword(line[1..]) {
      KeywordMeans(hosts, e, line, resolve);
    }
  }

  lemma {:induction false} Keywords(line: seq<string>)
    requires line != []
    ensures HasKeyword(line[1..]) <==> AsksFor(line, IsChooser) || AsksFor(line, IsNoBroadcast)
  {
    hide IsChooser, IsNoBroadcast;
    assert forall i :: 1 <= i < |line| ==> line[i] == line[1..][i - 1];
    if HasKeyword(line[1..]) {
      var i :| 0 <= i < |line[1..]| && IsKeyword(line[1..][i]);
      assert IsKeyword(line[i + 1]);
    }
    if i :| 1 <= i < |line| && IsKeyword(line[i]) {
      assert line[1..][i - 1] == line[i];
    }
  }

  lemma {:induction false} EntryKeyword(hosts: seq<Host>, e: AclEntry, line: seq<string>, resolve: Resolver)
    requires IsRule(line) && AclIs(hosts, e, RecordOf(line, resolve))
    ensures e.keyword <==> HasKeyword(line[1..])
  {
    hide HostOf, HostsOf, HostWords, HasKeyword;
  }

  // ------------------------------------------------------------ two such rules

  /** Names that are nothing but names. */
  lemma {:induction false} PlainName(word: string, p: Parse, resolve: Resolver)
    requires word == "h" || word == "g"
    ensures HostOf(word, p, resolve) == (match resolve(word) case Some(a) => Some(Address(a.0, a.1)) case None => None)
    ensures EntryWord(word) == word && !IsKeyword(word) && !IsAlias(word) && !IsListen(word)
  {
    assert !HasGlob("h") && !HasGlob("g");
  }

  /** What a rule for "h" with one keyword and perhaps the host "g" says. */
  lemma {:induction false} OneRule(keyword: string, more: seq<string>, resolve: Resolver)
    requires IsKeyword(keyword) && (more == [] || more == ["g"])
    requires resolve("h") == Some((2, [1])) && resolve("g") == Some((2, [2]))
    ensures RecordOf(["h", keyword] + more, resolve) ==
      AclRecord(Some(Address(2, [1])), if more == [] then [] else [Address(2, [2])], false, true)
  {
    hide IsKeyword, IsAlias, IsListen, HostOf, EntryWord;
    PlainName("h", IN_ENTRY, resolve);
    PlainName("g", IN_HOSTS, resolve);
    var line := ["h", keyword] + more;
    assert line[1..] == [keyword] + more && line[1..][0] == keyword && line[1..][1..] == more;
    HeadWord(line[1..], resolve);
    MoreHosts(more, resolve);
    assert HasKeyword(line[1..]);
  }

  lemma {:induction false} MoreHosts(more: seq<string>, resolve: Resolver)
    requires (more == [] || more == ["g"]) && resolve("g") == Some((2, [2]))
    ensures HostsOf(HostWords(more), IN_HOSTS, resolve) == if more == [] then [] else [Address(2, [2])]
  {
    hide HostOf, IsKeyword;
    PlainName("g", IN_HOSTS, resolve);
    HostsNone(IN_HOSTS, resolve);
    if more != [] {
      HeadWord(more, resolve);
      assert more[1..] == [];
    }
  }

  /** The table of a file with just that rule, and the client that it is for. */
  function OneRuleTable(withHost: bool): Table {
    var hosts := [Address(2, [1])] + if withHost then [Address(2, [2])] else [];
    Table(hosts, [ListenEntry(-1, |hosts|, 0)], [], [AclEntry(0, 1, 1, if withHost then 1 else 0, false, true)])
  }

  lemma {:induction false} OneRuleSays(withHost: bool, r: Record)
    requires r == AclRecord(Some(Address(2, [1])), if withHost then [Address(2, [2])] else [], false, true)
    ensures Says(OneRuleTable(withHost), [r, ListenRecord(None, [])])
  {
    hide AllAdded, Aliases, Listens, Acls, LostDenial;
    var l := ListenRecord(None, []);
    var t := OneRuleTable(withHost);
    NoRecords();
    RecordSnoc([], r);
    RecordSnoc([r], l);
    assert [] + [r] == [r] && [r] + [l] == [r, l];
    assert Added(r) == t.hosts && Added(l) == [];
    assert AllAdded([r, l]) == t.hosts;
    assert t.hosts[0..1] == [Address(2, [1])] && t.hosts[1..] == r.hosts;
    assert AclIs(t.hosts, t.acls[0], r);
  }

  lemma {:induction false} OneRuleFits(withHost: bool)
    ensures FirstFit(OneRuleTable(withHost), Client(2, [1], None), !withHost, Some(0))
  {
    var t, c := OneRuleTable(withHost), Client(2, [1], None);
    ChainEmpty(t, 0, 1, 0);
    assert Leads(t, 0, 1, t.hosts[0]) && HostMatches(t.hosts[0], c);
  }

  /** A rule against broadcast queries that lists a host opens the chooser. */
  lemma {:induction false} NoBroadcastOpensChooser(resolve: Resolver)
    requires resolve("h") == Some((2, [1])) && resolve("g") == Some((2, [2]))
    ensures var t := OneRuleTable(true);
      && Says(t, [RecordOf(["h", "NOBROADCAST", "g"], resolve), ListenRecord(None, [])])
      && SentToChooser(t, Client(2, [1], None))
  {
    OneRule("NOBROADCAST", ["g"], resolve);
    assert ["h", "NOBROADCAST"] + ["g"] == ["h", "NOBROADCAST", "g"];
    OneRuleSays(true, RecordOf(["h", "NOBROADCAST", "g"], resolve));
    OneRuleFits(true);
  }

  /** A rule for the chooser that lists no host refuses broadcast queries. */
  lemma {:induction false} ChooserRefusesBroadcasts(resolve: Resolver)
    requires resolve("h") == Some((2, [1])) && resolve("g") == Some((2, [2]))
    ensures var t := OneRuleTable(false);
      && Says(t, [RecordOf(["h", "CHOOSER"], resolve), ListenRecord(None, [])])
      && Acceptable(t, Client(2, [1], None), Direct) && !Acceptable(t, Client(2, [1], None), BroadcastQuery)
  {
    OneRule("CHOOSER", [], resolve);
    assert ["h", "CHOOSER"] + [] == ["h", "CHOOSER"];
    OneRuleSays(false, RecordOf(["h", "CHOOSER"], resolve));
    OneRuleFits(false);
    RuleDecides(OneRuleTable(false), Client(2, [1], None), 0);
  }
}
