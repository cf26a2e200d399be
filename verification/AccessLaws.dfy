/** What comments, line ends and the places of a word in the access file mean. */
module AccessLaws {
  import opened Wrappers
  import opened Glob
  import opened AccessTable
  import Access
  import opened AccessWords
  import opened AccessReader

  // ---------------------------------------------------------------- the lines

  /** Words as they are written, with the line still open. */
  function Begun(ws: seq<string>): string {
    if ws == [] then "" else " " + Quoted(ws[0]) + Begun(ws[1..])
  }

  predicate PlainWords(ws: seq<string>) {
    forall i :: 0 <= i < |ws| ==> PlainWord(ws[i])
  }

  lemma {:induction false} BlankRead(rest: string, inWord: bool, words: seq<string>, word: string)
    ensures LinesOf(Pieces(" " + rest, inWord), words, word) == LinesOf(Pieces(rest, false), Flush(words, word), "")
  {
    hide LinesOf;
    assert (" " + rest)[0..] == " " + rest && (" " + rest)[1..] == rest;
    PiecesAt(" " + rest, 0, inWord);
    ChRead(' ', Pieces(rest, false), words, word);
  }

  lemma {:induction false} WordRead(w: string, rest: string, inWord: bool, words: seq<string>, word: string)
    requires PlainWord(w)
    ensures LinesOf(Pieces(" " + Quoted(w) + rest, inWord), words, word) ==
            LinesOf(Pieces(rest, true), Flush(words, word), w)
  {
    hide LinesOf, Pieces, Quoted, Flush, PlainWord;
    PlainIsOf(w);
    assert " " + Quoted(w) + rest == " " + (Quoted(w) + rest);
    BlankRead(Quoted(w) + rest, inWord, words, word);
    QuotedRead(w, rest, false, Flush(words, word), "");
    assert "" + w == w;
  }

  lemma {:induction false} FlushOn(pre: seq<string>, ws: seq<string>)
    requires |ws| > 1 && ws[0] != ""
    ensures Flush(pre, ws[0]) + ws[1..][..|ws| - 2] == pre + ws[..|ws| - 1]
    ensures ws[1..][|ws| - 2] == ws[|ws| - 1]
  {
  }

  lemma {:induction false} BegunRead(ws: seq<string>, rest: string, inWord: bool, words: seq<string>, word: string)
    requires ws != [] && PlainWords(ws)
    ensures LinesOf(Pieces(Begun(ws) + rest, inWord), words, word) ==
            LinesOf(Pieces(rest, true), Flush(words, word) + ws[..|ws| - 1], ws[|ws| - 1])
    decreases |ws|
  {
    hide LinesOf, Pieces, PlainWord, Quoted, Flush;
    var more := Begun(ws[1..]) + rest;
    assert Begun(ws) + rest == " " + Quoted(ws[0]) + more;
    WordRead(ws[0], more, inWord, words, word);
    if |ws| == 1 {
      assert Begun(ws[1..]) == "" && more == rest;
      assert Flush(words, word) + ws[..0] == Flush(words, word);
    } else {
      assert ws[0] != "" by { PlainIsOf(ws[0]); }
      BegunRead(ws[1..], rest, true, Flush(words, word), ws[0]);
      FlushOn(Flush(words, word), ws);
    }
  }

  lemma {:induction false} PlainIsOf(w: string)
    requires PlainWord(w)
    ensures w != "" && forall i :: 0 <= i < |w| ==> !EndsLine(w[i]) && !IsBlank(w[i])
  {
  }

  lemma {:induction false} BehindComment(comment: string, rest: string)
    requires '\n' !in comment
    ensures BehindLine(comment + "\n" + rest) == rest
    decreases |comment|
  {
    var t := comment + "\n" + rest;
    if comment == "" {
      assert t[1..] == rest;
    } else {
      assert t[0] == comment[0] && comment[0] in comment;
      assert t[1..] == comment[1..] + "\n" + rest;
      BehindComment(comment[1..], rest);
    }
  }

  lemma {:induction false} CommentPiece(comment: string, rest: string)
    requires '\n' !in comment
    ensures Pieces("#" + comment + "\n" + rest, true) == [Newline] + Pieces(rest, false)
    ensures Pieces("#" + comment, true) == []
  {
    var t, u := "#" + comment + "\n" + rest, "#" + comment;
    BehindComment(comment, rest);
    assert t[0..] == t && t[1..] == comment + "\n" + rest;
    assert u[0..] == u && u[1..] == comment;
    hide Pieces, BehindLine;
    PiecesAt(t, 0, true);
    PiecesAt(u, 0, true);
  }

  /** A comment right behind the words of a line is left out, to the end of the line or of the text. */
  lemma {:induction false} CommentLeftOut(ws: seq<string>, comment: string, rest: string)
    requires ws != [] && PlainWords(ws) && '\n' !in comment
    ensures Lines(Begun(ws) + "#" + comment + "\n" + rest) == [ws] + Lines(rest)
    ensures Lines(Begun(ws) + "#" + comment) == [ws]
  {
    hide LinesOf, Pieces, Begun, PlainWord;
    var n := |ws| - 1;
    var t, u := "#" + comment + "\n" + rest, "#" + comment;
    assert Begun(ws) + "#" + comment + "\n" + rest == Begun(ws) + t && Begun(ws) + "#" + comment == Begun(ws) + u;
    BegunRead(ws, t, false, [], "");
    BegunRead(ws, u, false, [], "");
    CommentPiece(comment, rest);
    ChRead(' ', Pieces(rest, false), ws[..n], ws[n]);
    NothingRead(true, ws[..n], ws[n]);
    assert ws[n] != "" by { PlainIsOf(ws[n]); }
    assert [] + ws[..n] == ws[..n] && ws[..n] + [ws[n]] == ws;
  }

  /** A whole line, as the end of one that may have begun before. */
  lemma {:induction false} LineEnds(vs: seq<string>, rest: string, words: seq<string>)
    requires vs != [] && PlainWords(vs)
    ensures LinesOf(Pieces(Begun(vs) + "\n" + rest, false), words, "") == [words + vs] + Lines(rest)
  {
    hide LinesOf, Pieces, Begun, PlainWord;
    var m := |vs| - 1;
    var end := "\n" + rest;
    assert Begun(vs) + "\n" + rest == Begun(vs) + end;
    BegunRead(vs, end, false, words, "");
    assert end[0..] == end && end[1..] == rest;
    PiecesAt(end, 0, true);
    ChRead(' ', Pieces(rest, false), words + vs[..m], vs[m]);
    assert vs[m] != "" by { PlainIsOf(vs[m]); }
    assert words + vs[..m] + [vs[m]] == words + vs;
  }

  lemma {:induction false} QuotedEnd(t: string, inWord: bool)
    ensures Pieces("\\\n" + t, inWord) == [if inWord then Newline else Blank] + Pieces(t, false)
  {
    var u := "\\\n" + t;
    assert u[0..] == u && u[2..] == t;
    hide Pieces;
    PiecesQuoted(u, 0, inWord);
  }

  /** A line goes on behind a backslash that stands alone at its end ... */
  lemma {:induction false} LineGoesOn(ws: seq<string>, vs: seq<string>, rest: string)
    requires ws != [] && PlainWords(ws) && vs != [] && PlainWords(vs)
    ensures Lines(Begun(ws) + " \\\n" + (Begun(vs) + "\n" + rest)) == [ws + vs] + Lines(rest)
  {
    hide LinesOf, Pieces, Begun, PlainWord;
    var n, more := |ws| - 1, Begun(vs) + "\n" + rest;
    assert Begun(ws) + " \\\n" + more == Begun(ws) + (" " + ("\\\n" + more));
    BegunRead(ws, " " + ("\\\n" + more), false, [], "");
    BlankRead("\\\n" + more, true, ws[..n], ws[n]);
    assert [] + ws[..n] == ws[..n];
    WholeLine(ws);
    QuotedEnd(more, false);
    ChRead(' ', Pieces(more, false), ws, "");
    LineEnds(vs, rest, ws);
  }

  /** ... but ends in front of one right behind a word. */
  lemma {:induction false} LineBreaksOff(ws: seq<string>, vs: seq<string>, rest: string)
    requires ws != [] && PlainWords(ws) && vs != [] && PlainWords(vs)
    ensures Lines(Begun(ws) + "\\\n" + (Begun(vs) + "\n" + rest)) == [ws, vs] + Lines(rest)
  {
    hide LinesOf, Pieces, Begun, PlainWord;
    var n, more := |ws| - 1, Begun(vs) + "\n" + rest;
    assert Begun(ws) + "\\\n" + more == Begun(ws) + ("\\\n" + more);
    BegunRead(ws, "\\\n" + more, false, [], "");
    assert [] + ws[..n] == ws[..n];
    WholeLine(ws);
    QuotedEnd(more, true);
    ChRead(' ', Pieces(more, false), ws[..n], ws[n]);
    LineEnds(vs, rest, []);
    assert [] + vs == vs && [ws] + ([vs] + Lines(rest)) == [ws, vs] + Lines(rest);
  }

  lemma {:induction false} WholeLine(ws: seq<string>)
    requires ws != [] && PlainWords(ws)
    ensures Flush(ws[..|ws| - 1], ws[|ws| - 1]) == ws
  {
    PlainIsOf(ws[|ws| - 1]);
  }

  // --------------------------------------------------------------- the places

  /** A word says what a host is. */
  ghost predicate Names(word: string, h: Host, resolve: Resolver) {
    match h
    case Broadcast => word == "BROADCAST"
    case Alias(name) => word == "%" + name
    case Pattern(p) => word == p && ('*' in p || '?' in p)
    case Address(family, bytes) => resolve(word) == Some((family, bytes))
  }

  datatype Place = InAlias | InListen | AsClient | InHosts | AsGroup

  /** Only a rule says BROADCAST, and only as a host; it has no patterns there; LISTEN has addresses only. */
  ghost predicate Fits(h: Host, place: Place) {
    match place
    case InAlias => !h.Broadcast?
    case InListen => h.Address?
    case AsClient => !h.Broadcast?
    case InHosts => !h.Pattern?
    case AsGroup => true
  }

  function ParseAt(place: Place): Parse {
    match place
    case InAlias => IN_ALIAS
    case InListen => IN_LISTEN
    case AsClient => IN_ENTRY
    case InHosts => IN_HOSTS
    case AsGroup => ALL
  }

  function Rank(h: Host): nat {
    match h
    case Broadcast => 0
    case Alias(_) => 1
    case Pattern(_) => 2
    case Address(_, _) => 3
  }

  ghost predicate CanSay(word: string, place: Place, h: Host, resolve: Resolver) {
    Names(word, h, resolve) && Fits(h, place)
  }

  lemma {:induction false} OneOfRank(word: string, place: Place, g: Host, h: Host, resolve: Resolver)
    requires CanSay(word, place, g, resolve) && CanSay(word, place, h, resolve) && Rank(g) == Rank(h)
    ensures g == h
  {
    if g.Alias? {
      assert g.pattern == word[1..] && h.pattern == word[1..];
    }
  }

  /** Of what a word can say at a place it says the first: broadcast, alias, pattern, address. */
  lemma {:induction false} SaidAt(word: string, place: Place, h: Host, resolve: Resolver)
    ensures HostOf(word, ParseAt(place), resolve) == Some(h) <==>
            && CanSay(word, place, h, resolve)
            && forall g :: CanSay(word, place, g, resolve) ==> g == h || Rank(g) > Rank(h)
  {
    var r := HostOf(word, ParseAt(place), resolve);
    if r.Some? {
      assert r.value.Alias? ==> "%" + word[1..] == word;
      assert CanSay(word, place, r.value, resolve);
    }
    forall g | CanSay(word, place, g, resolve)
      ensures r.Some? && (g == r.value || Rank(g) > Rank(r.value))
    {
      assert g.Alias? ==> word[1..] == g.pattern;
      if r.Some? && Rank(g) == Rank(r.value) {
        OneOfRank(word, place, g, r.value, resolve);
      }
    }
  }

  // ---------------------------------------------------------------- the lines

  /** What a word says at a place, before anything else that it could say there. */
  ghost predicate Said(word: string, place: Place, h: Host, resolve: Resolver) {
    && CanSay(word, place, h, resolve)
    && forall g :: CanSay(word, place, g, resolve) ==> g == h || Rank(g) > Rank(h)
  }

  ghost predicate SomeSays(words: seq<string>, first: nat, place: Place, h: Host, resolve: Resolver) {
    exists i :: first <= i < |words| && Said(words[i], place, h, resolve)
  }

  lemma {:induction false} HostsSaid(words: seq<string>, place: Place, h: Host, resolve: Resolver)
    ensures h in HostsOf(words, ParseAt(place), resolve) <==> SomeSays(words, 0, place, h, resolve)
    decreases |words|
  {
    hide HostOf, Said, ParseAt;
    if words != [] {
      HostsSaid(words[1..], place, h, resolve);
      SaidFirst(words[0], place, h, resolve);
      assert forall i :: 1 <= i < |words| ==> words[i] == words[1..][i - 1];
      assert SomeSays(words, 0, place, h, resolve) <==>
             Said(words[0], place, h, resolve) || SomeSays(words[1..], 0, place, h, resolve) by {
        assert forall i :: 0 <= i < |words| - 1 ==> words[1..][i] == words[i + 1];
      }
    }
  }

  lemma {:induction false} SaidFirst(word: string, place: Place, h: Host, resolve: Resolver)
    ensures HostOf(word, ParseAt(place), resolve) == Some(h) <==> Said(word, place, h, resolve)
  {
    SaidAt(word, place, h, resolve);
  }

  ghost predicate NothingSaid(word: string, place: Place, resolve: Resolver) {
    forall h :: !Said(word, place, h, resolve)
  }

  lemma {:induction false} NothingSaidIs(word: string, place: Place, resolve: Resolver)
    ensures HostOf(word, ParseAt(place), resolve).None? <==> NothingSaid(word, place, resolve)
  {
    var r := HostOf(word, ParseAt(place), resolve);
    if r.Some? {
      SaidFirst(word, place, r.value, resolve);
    }
    if h :| Said(word, place, h, resolve) {
      SaidFirst(word, place, h, resolve);
    }
  }

  /** A line that begins with `%` names an alias and its hosts, and whether one of them says nothing. */
  lemma {:induction false} AliasLine(name: string, words: seq<string>, resolve: Resolver)
    ensures var r := RecordOf(["%" + name] + words, resolve);
      && r.AliasRecord? && r.name == name
      && (forall h :: h in r.hosts <==> SomeSays(words, 0, InAlias, h, resolve))
      && (r.hasBad <==> exists i :: 0 <= i < |words| && NothingSaid(words[i], InAlias, resolve))
  {
    hide HostOf, HostsOf, Said;
    var line := ["%" + name] + words;
    assert line[1..] == words && ("%" + name)[1..] == name;
    forall h {:trigger SomeSays(words, 0, InAlias, h, resolve)}
      ensures h in HostsOf(words, IN_ALIAS, resolve) <==> SomeSays(words, 0, InAlias, h, resolve)
    {
      HostsSaid(words, InAlias, h, resolve);
    }
    forall i | 0 <= i < |words|
      ensures HostOf(words[i], IN_ALIAS, resolve).None? <==> NothingSaid(words[i], InAlias, resolve)
    {
      NothingSaidIs(words[i], InAlias, resolve);
    }
  }

  /** LISTEN names an interface, unless that is `*` or cannot be resolved, and the groups to join. */
  lemma {:induction false} ListenSays(words: seq<string>, resolve: Resolver)
    ensures var r := RecordOf(["LISTEN"] + words, resolve);
      && r.ListenRecord?
      && (forall h :: r.iface == Some(h) <==> words != [] && words[0] != "*" && Said(words[0], InListen, h, resolve))
      && (forall h :: h in r.mcasts <==> SomeSays(words, 1, InListen, h, resolve))
  {
    hide HostOf, HostsOf, Said;
    assert (["LISTEN"] + words)[1..] == words;
    if words != [] {
      forall h {:trigger Said(words[0], InListen, h, resolve)}
        ensures HostOf(words[0], IN_LISTEN, resolve) == Some(h) <==> Said(words[0], InListen, h, resolve)
      {
        SaidFirst(words[0], InListen, h, resolve);
      }
      forall h {:trigger SomeSays(words, 1, InListen, h, resolve)}
        ensures h in HostsOf(words[1..], IN_LISTEN, resolve) <==> SomeSays(words, 1, InListen, h, resolve)
      {
        HostsSaid(words[1..], InListen, h, resolve);
        assert forall i :: 0 <= i < |words| - 1 ==> words[1..][i] == words[i + 1];
        assert forall i :: 1 <= i < |words| ==> words[i] == words[1..][i - 1];
      }
    }
  }

  /** Without a LISTEN line one is added: for every interface, and the default group if there is one. */
  lemma {:induction false} DefaultListens(rs: seq<Record>, group: Option<string>, resolve: Resolver)
    ensures var all := WithDefault(rs, group, resolve);
      if exists r :: r in rs && r.ListenRecord? then all == rs
      else
        && |all| == |rs| + 1 && all[..|rs|] == rs && all[|rs|].ListenRecord? && all[|rs|].iface.None?
        && forall h :: h in all[|rs|].mcasts <==> group.Some? && Said(group.value, AsGroup, h, resolve)
  {
    hide HostOf, Said, Listens;
    ListensSome(rs);
    if group.Some? {
      forall h {:trigger Said(group.value, AsGroup, h, resolve)}
        ensures HostOf(group.value, ALL, resolve) == Some(h) <==> Said(group.value, AsGroup, h, resolve)
      {
        SaidFirst(group.value, AsGroup, h, resolve);
      }
    }
  }

  lemma {:induction false} ListensSome(rs: seq<Record>)
    ensures Listens(rs) == [] <==> forall r :: r in rs ==> !r.ListenRecord?
    decreases |rs|
  {
    if rs != [] {
      ListensSome(rs[..|rs| - 1]);
      assert rs == rs[..|rs| - 1] + [rs[|rs| - 1]];
    }
  }

  lemma {:induction false} HostWordsIn(words: seq<string>, w: string)
    ensures w in HostWords(words) <==> w in words && w != "CHOOSER" && w != "NOBROADCAST"
    decreases |words|
  {
    if words != [] {
      HostWordsIn(words[1..], w);
    }
  }

  /** Any other line is a rule for the client that its first word says, behind the `!` of a denying rule or a `=`. */
  lemma {:induction false} RuleLine(mark: string, client: string, words: seq<string>, resolve: Resolver)
    requires mark == "!" || mark == "=" || (mark == "" && (client == "" || client[0] !in "!=%") && client != "LISTEN")
    ensures var r := RecordOf([mark + client] + words, resolve);
      && r.AclRecord? && (r.notAllowed <==> mark == "!")
      && (forall h :: r.entry == Some(h) <==> Said(client, AsClient, h, resolve))
      && (r.keyword <==> "CHOOSER" in words || "NOBROADCAST" in words)
      && (forall h :: h in r.hosts <==>
            exists w :: w in words && w != "CHOOSER" && w != "NOBROADCAST" && Said(w, InHosts, h, resolve))
  {
    hide HostOf, HostsOf, Said;
    var line := [mark + client] + words;
    assert line[1..] == words;
    assert EntryWord(line[0]) == client && !IsAlias(line[0]) && !IsListen(line[0]);
    forall h {:trigger Said(client, AsClient, h, resolve)}
      ensures HostOf(client, IN_ENTRY, resolve) == Some(h) <==> Said(client, AsClient, h, resolve)
    {
      SaidFirst(client, AsClient, h, resolve);
    }
    var r := RecordOf(line, resolve);
    var ws := HostWords(words);
    forall h
      ensures h in r.hosts <==>
        exists w :: w in words && w != "CHOOSER" && w != "NOBROADCAST" && Said(w, InHosts, h, resolve)
    {
      HostsSaid(ws, InHosts, h, resolve);
      forall w {
        HostWordsIn(words, w);
      }
      if SomeSays(ws, 0, InHosts, h, resolve) {
        var i :| 0 <= i < |ws| && Said(ws[i], InHosts, h, resolve);
        assert ws[i] in ws;
      }
      if w :| w in ws && Said(w, InHosts, h, resolve) {
        var i :| 0 <= i < |ws| && ws[i] == w;
      }
    }
    assert r.keyword <==> "CHOOSER" in words || "NOBROADCAST" in words by {
      KeywordIn(words);
    }
  }

  lemma {:induction false} KeywordIn(words: seq<string>)
    ensures HasKeyword(words) <==> "CHOOSER" in words || "NOBROADCAST" in words
  {
    if w :| w in ["CHOOSER", "NOBROADCAST"] && w in words {
      var i :| 0 <= i < |words| && words[i] == w;
      assert IsKeyword(words[i]);
    }
  }

  // --------------------------------------------------- which files, and which hosts

  /** A rule that denies, for a client that cannot be told. */
  ghost predicate DeniesNobody(r: Record) {
    r.AclRecord? && r.notAllowed && forall h :: r.entry != Some(h)
  }

  /**
   When the reader takes a file: each rule that denies can be told whom and names complete
   aliases only, and no chain of aliases has more than 32 in it.
   */
  lemma {:induction false} TakenExactly(t: Table, rs: seq<Record>)
    ensures Accepted(t, rs) <==>
      && (forall r :: r in rs ==> !DeniesNobody(r))
      && forall i :: 0 <= i < |t.acls| ==>
           && ChainsShort(t, t.acls[i].entries, t.acls[i].nentries, 32)
           && ChainsShort(t, t.acls[i].hosts, t.acls[i].nhosts, 32)
           && (t.acls[i].notAllowed ==> ChainsClean(t, t.acls[i].entries, t.acls[i].nentries))
  {
    hide Access.ListOk, ChainsShort, ChainsClean;
    forall i | 0 <= i < |t.acls|
      ensures RuleOk(t, i) <==>
        && ChainsShort(t, t.acls[i].entries, t.acls[i].nentries, 32)
        && ChainsShort(t, t.acls[i].hosts, t.acls[i].nhosts, 32)
        && (t.acls[i].notAllowed ==> ChainsClean(t, t.acls[i].entries, t.acls[i].nentries))
    {
      Access.ListOkIsChains(t, t.acls[i].entries, t.acls[i].nentries, t.acls[i].notAllowed);
      Access.ListOkIsChains(t, t.acls[i].hosts, t.acls[i].nhosts, false);
    }
    hide RuleOk;
    LostIs(rs);
    AcceptedIs(t, rs);
  }

  lemma {:induction false} LostIs(rs: seq<Record>)
    ensures LostDenial(rs) <==> exists r :: r in rs && DeniesNobody(r)
  {
    if LostDenial(rs) {
      var i :| 0 <= i < |rs| && rs[i].AclRecord? && rs[i].entry.None? && rs[i].notAllowed;
      assert rs[i] in rs && DeniesNobody(rs[i]);
    }
    if r :| r in rs && DeniesNobody(r) {
      var i :| 0 <= i < |rs| && rs[i] == r;
    }
  }

  /** The address is that of a host at the end of a chain, in whatever family. */
  ghost predicate LeadsTo(t: Table, first: nat, n: nat, address: Bytes) {
    exists family :: Leads(t, first, n, Address(family, address))
  }

  lemma {:induction false} CallIs(xs: seq<Host>, local: Bytes, noteLocal: bool, broadcast: bool, address: Bytes)
    ensures var calls := Access.CallsFor(xs, local, noteLocal, broadcast);
      && (Access.CallAddress(address) in calls <==>
            (exists family :: Address(family, address) in xs) && !(noteLocal && address == local))
      && (Access.CallBroadcast in calls <==> broadcast && Broadcast in xs)
    decreases |xs|
  {
    if xs != [] {
      CallIs(xs[1..], local, noteLocal, broadcast, address);
      if family :| Address(family, address) in xs {
        assert Address(family, address) == xs[0] || Address(family, address) in xs[1..];
      }
      if xs[0].Address? {
        assert Address(xs[0].family, xs[0].address) in xs;
      }
    }
  }

  /** The hosts of a rule that are called: all at the end of a chain, but for this one where that is only noted. */
  lemma {:induction false} CalledExactly(t: Table, first: nat, n: nat, local: Bytes, noteLocal: bool, broadcast: bool,
                                         address: Bytes)
    requires InRange(t, first, n) && Sound(t) && Bounded(t, first, n, MAX_DEPTH)
    ensures var calls := Access.CallsFor(Flatten(t, first, n, MAX_DEPTH), local, noteLocal, broadcast);
      && (Access.CallAddress(address) in calls <==> LeadsTo(t, first, n, address) && !(noteLocal && address == local))
      && (Access.CallBroadcast in calls <==> broadcast && Leads(t, first, n, Broadcast))
    ensures Access.HasLocal(Flatten(t, first, n, MAX_DEPTH), local) <==> LeadsTo(t, first, n, local)
  {
    hide Sound, Bounded, Flatten, Leads, Access.CallsFor;
    var xs := Flatten(t, first, n, MAX_DEPTH);
    CallIs(xs, local, noteLocal, broadcast, address);
    forall x
      ensures x in xs <==> Leads(t, first, n, x)
    {
      FlattenIsChains(t, first, n, MAX_DEPTH, x);
    }
    if Access.HasLocal(xs, local) {
      var i :| 0 <= i < |xs| && xs[i].Address? && xs[i].address == local;
      assert Address(xs[i].family, local) in xs;
    }
  }
}
