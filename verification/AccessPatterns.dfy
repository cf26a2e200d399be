/**
 Which access tables make patternMatch() leave the texts that it is given, in the check of
 the reader or for a client of the daemon.
 */
module AccessPatterns {
  import opened Wrappers
  import opened Glob
  import opened AccessTable
  import opened Access
  import opened AccessReader
  import AccessWords

  /** No string makes patternMatch() leave the texts. */
  predicate Harmless(pattern: string) {
    WellFormed(pattern) || EndsInStar(Front(pattern))
  }

  /** If all alias patterns are harmless the check stays inside. */
  lemma {:induction false} HarmlessInside(t: Table)
    requires forall h: nat :: h < |t.hosts| && t.hosts[h].Alias? ==> Harmless(t.hosts[h].pattern)
    ensures TableInside(t, None)
  {
    hide Inside, Answer, Harmless, Chain;
    forall h: nat | h < |t.hosts|
      ensures HostInside(t, h, None)
    {
      if t.hosts[h].Alias? {
        HarmlessStays(t.hosts[h].pattern);
      }
    }
    hide HostInside;
    forall i | 0 <= i < |t.acls|
      ensures RuleInside(t, i, None)
    {
      ChainsInsideIsInside(t, t.acls[i].entries, t.acls[i].nentries, MAX_DEPTH, None);
      ChainsInsideIsInside(t, t.acls[i].hosts, t.acls[i].nhosts, MAX_DEPTH, None);
    }
  }

  lemma {:induction false} HarmlessStays(pattern: string)
    ensures (forall s :: Answer(s, pattern).Some?) <==> Harmless(pattern)
  {
    StaysInside(pattern);
  }

  /** Some chain from the entry of a rule leads to the pattern. */
  ghost predicate MatchedWithClients(t: Table, pattern: string) {
    exists i :: 0 <= i < |t.acls| && Leads(t, t.acls[i].entries, t.acls[i].nentries, Pattern(pattern))
  }

  /** For a table that the reader accepts no client can lead outside the texts exactly if what clients are matched with is harmless. */
  lemma {:induction false} ClientsInside(t: Table)
    requires BoundedTable(t) && TableInside(t, None)
    ensures (forall s :: TableInside(t, Some(s))) <==> forall p :: MatchedWithClients(t, p) ==> Harmless(p)
  {
    hide TableInside, Leads, Harmless, MatchedWithClients, BoundedTable;
    if forall s :: TableInside(t, Some(s)) {
      forall p | MatchedWithClients(t, p)
        ensures Harmless(p)
      {
        forall s
          ensures Answer(s, p).Some?
        {
          assert TableInside(t, Some(s));
          ClientMatched(t, s, p);
        }
        HarmlessStays(p);
      }
    }
    if forall p :: MatchedWithClients(t, p) ==> Harmless(p) {
      forall s
        ensures TableInside(t, Some(s))
      {
        HarmlessForClient(t, s);
      }
    }
  }

  lemma {:induction false} ClientMatched(t: Table, s: string, p: string)
    requires BoundedTable(t) && TableInside(t, Some(s)) && MatchedWithClients(t, p)
    ensures Answer(s, p).Some?
  {
    hide Inside, Bounded, Chain, Answer;
    var i :| 0 <= i < |t.acls| && Leads(t, t.acls[i].entries, t.acls[i].nentries, Pattern(p));
    var first, n := t.acls[i].entries, t.acls[i].nentries;
    assert RuleInside(t, i, Some(s));
    InsideIsChains(t, first, n, MAX_DEPTH, Some(s));
    var links, h: nat :| Chain(t, first, n, links, h) && t.hosts[h] == Pattern(p);
    assert HostInside(t, h, Some(s));
  }

  lemma {:induction false} HarmlessForClient(t: Table, s: string)
    requires BoundedTable(t) && TableInside(t, None)
    requires forall p :: MatchedWithClients(t, p) ==> Harmless(p)
    ensures TableInside(t, Some(s))
  {
    hide Inside, Bounded, Chain, Answer, Harmless, MatchedWithClients;
    forall i | 0 <= i < |t.acls|
      ensures RuleInside(t, i, Some(s))
    {
      var first, n := t.acls[i].entries, t.acls[i].nentries;
      assert RuleInside(t, i, None);
      InsideIsChains(t, first, n, MAX_DEPTH, None);
      forall links, h: nat | Chain(t, first, n, links, h)
        ensures HostInside(t, h, Some(s))
      {
        assert HostInside(t, h, None);
        if t.hosts[h].Pattern? {
          var p := t.hosts[h].pattern;
          PatternLed(t, i, links, h, p);
          HarmlessStays(p);
        }
      }
      InsideIsChains(t, first, n, MAX_DEPTH, Some(s));
    }
  }

  lemma {:induction false} PatternLed(t: Table, i: nat, links: seq<Link>, h: nat, p: string)
    requires i < |t.acls| && Chain(t, t.acls[i].entries, t.acls[i].nentries, links, h) && t.hosts[h] == Pattern(p)
    ensures MatchedWithClients(t, p)
  {
    hide Chain;
    assert Leads(t, t.acls[i].entries, t.acls[i].nentries, Pattern(p));
  }

  // ------------------------------------------------- a file that makes the check leave

  /** An alias "ab", and a rule for the aliases that match "ab" with a backslash behind. */
  function LoneLines(): seq<seq<string>> {
    [["%ab"], ["=%ab\\"]]
  }

  function LoneAlias(): Record {
    AliasRecord("ab", [], false)
  }

  function LoneRule(): Record {
    AclRecord(Some(Alias("ab\\")), [], false, false)
  }

  function LoneListen(): Record {
    ListenRecord(None, [])
  }

  function LoneTable(): Table {
    Table([Alias("ab\\")], [ListenEntry(-1, 1, 0)], [AliasEntry("ab", 0, 0, false)], [AclEntry(0, 1, 1, 0, false, false)])
  }

  lemma {:induction false} LoneAliasRead(resolve: Resolver)
    ensures RecordOf(["%ab"], resolve) == LoneAlias()
  {
  }

  lemma {:induction false} LoneRuleRead(resolve: Resolver)
    ensures RecordOf(["=%ab\\"], resolve) == LoneRule()
  {
  }

  lemma {:induction false} LoneRecords(resolve: Resolver)
    ensures (forall i :: 0 <= i < |LoneLines()| ==> LoneLines()[i] != [])
    ensures Records(LoneLines(), resolve) == [LoneAlias(), LoneRule()]
  {
    LoneAliasRead(resolve);
    LoneRuleRead(resolve);
    hide RecordOf, LoneAlias, LoneRule;
    var ls := LoneLines();
    assert ls[..0] == [] && ls[..1 + 1] == ls;
    RecordsSnoc(ls, 0, resolve);
    RecordsSnoc(ls, 1, resolve);
  }

  lemma {:induction false} LoneDefault(resolve: Resolver)
    ensures WithDefault([LoneAlias(), LoneRule()], None, resolve) == [LoneAlias(), LoneRule(), LoneListen()]
  {
    hide Aliases, Acls, AllAdded, LostDenial, Listens;
    NoRecords();
    RecordSnoc([], LoneAlias());
    RecordSnoc([LoneAlias()], LoneRule());
    assert [] + [LoneAlias()] == [LoneAlias()] && [LoneAlias()] + [LoneRule()] == [LoneAlias(), LoneRule()];
  }

  lemma {:induction false} LonePlain()
    ensures AccessWords.PlainLines(LoneLines())
  {
  }

  lemma {:induction false} LoneText(resolve: Resolver)
    ensures RecordsOf(AccessWords.Written(LoneLines()), None, resolve) == [LoneAlias(), LoneRule(), LoneListen()]
  {
    LonePlain();
    hide Records, WithDefault, LoneLines, LoneAlias, LoneRule, LoneListen, AccessWords.PlainLines, AccessWords.Lines,
      AccessWords.Written;
    AccessWords.WrittenRead(LoneLines());
    assert SomeWords(AccessWords.Written(LoneLines())) == LoneLines();
    LoneRecords(resolve);
    LoneDefault(resolve);
  }

  lemma {:induction false} LoneSorted()
    ensures var rs := [LoneAlias(), LoneRule(), LoneListen()];
      && Aliases(rs) == [LoneAlias()] && Acls(rs) == [LoneRule()] && Listens(rs) == [LoneListen()]
      && AllAdded(rs) == LoneTable().hosts && !LostDenial(rs)
  {
    hide Aliases, Acls, Listens, AllAdded, LostDenial;
    var a, b, l := LoneAlias(), LoneRule(), LoneListen();
    NoRecords();
    LoneNotLost();
    RecordSnoc([], a);
    RecordSnoc([a], b);
    RecordSnoc([a, b], l);
    assert [] + [a] == [a] && [a] + [b] == [a, b] && [a, b] + [l] == [a, b, l];
  }

  lemma {:induction false} LoneNotLost()
    ensures !LostDenial([])
  {
  }

  lemma {:induction false} LoneEntries()
    ensures var t := LoneTable();
      && AclIs(t.hosts, t.acls[0], LoneRule()) && AliasIs(t.hosts, t.aliases[0], LoneAlias())
      && ListenIs(t.hosts, t.listens[0], LoneListen())
  {
    var t := LoneTable();
    assert t.hosts[0..1] == t.hosts && t.hosts[1..1] == [] && t.hosts[0..0] == [];
  }

  lemma {:induction false} LoneSays()
    ensures Says(LoneTable(), [LoneAlias(), LoneRule(), LoneListen()])
  {
    hide Aliases, Acls, Listens, AllAdded, LostDenial, AclIs, AliasIs, ListenIs, LoneAlias, LoneRule, LoneListen;
    LoneSorted();
    LoneEntries();
  }

  /** The name is used up where the backslash is. */
  lemma {:induction false} LoneAnswer()
    ensures Answer("ab", "ab\\") == None
  {
    hide Answer;
    var p := "ab\\";
    assert p[1..] == "b\\" && p[1..][1..] == "\\";
    AnswerStep("ab", p);
    assert "ab"[1..] == "b" && "b"[1..] == "";
    AnswerStep("b", "b\\");
    AnswerStep("", "\\");
  }

  lemma {:induction false} LoneChecked()
    ensures RuleOk(LoneTable(), 0) && !RuleInside(LoneTable(), 0, None)
  {
    hide Answer;
    LoneAnswer();
    var t := LoneTable();
    NamesIs(t, 0, 0);
    assert forall a: nat :: !Names(t, 0, a);
    assert !HostInside(t, 0, None);
    assert !Inside(t, 0, 1, MAX_DEPTH, None);
  }

  lemma {:induction false} LoneAccepted()
    ensures Accepted(LoneTable(), [LoneAlias(), LoneRule(), LoneListen()]) && !TableInside(LoneTable(), None)
  {
    LoneChecked();
    LoneSorted();
    hide RuleOk, RuleInside, LostDenial, LoneAlias, LoneRule, LoneListen;
    assert LoneTable().acls == [LoneTable().acls[0]];
  }

  /** A file that is accepted by all that the check looks for, and makes the check leave its texts. */
  lemma {:induction false} LoneBackslash(resolve: Resolver)
    ensures var rs := RecordsOf(AccessWords.Written(LoneLines()), None, resolve);
      && Says(LoneTable(), rs) && Accepted(LoneTable(), rs) && !TableInside(LoneTable(), None)
  {
    hide Says, Accepted, TableInside, RecordsOf, LoneTable, LoneLines, LoneAlias, LoneRule, LoneListen, AccessWords.Written;
    LoneText(resolve);
    LoneSays();
    LoneAccepted();
  }
}
