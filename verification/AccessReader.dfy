/**
 The configuration reader's side of the access lists: a file of words becomes a flat host
 list with ranges into it.
 */
module AccessReader {
  import opened Wrappers
  import opened Glob
  import opened AccessTable
  import opened Access
  import AccessWords

  /** What a host name resolves to: an address family and an address. */
  type Resolver = string -> Option<(int, Bytes)>

  /** Which forms of a host are not allowed. */
  datatype Parse = Parse(noBcast: bool, noPat: bool, noAlias: bool)

  predicate IsBroadcast(word: string) {
    word == "BROADCAST"
  }

  predicate IsListen(word: string) {
    word == "LISTEN"
  }

  predicate IsWildcard(word: string) {
    word == "*"
  }

  predicate IsAlias(word: string) {
    word != "" && word[0] == '%'
  }

  predicate HasGlob(s: string) {
    '?' in s || '*' in s
  }

  /** The host that a word stands for, if it stands for one. */
  function HostOf(word: string, p: Parse, resolve: Resolver): Option<Host> {
    if !p.noBcast && IsBroadcast(word) then Some(Broadcast)
    else if !p.noAlias && IsAlias(word) then Some(Alias(word[1..]))
    else if !p.noPat && HasGlob(word) then Some(Pattern(word))
    else
      match resolve(word)
      case Some(a) => Some(Address(a.0, a.1))
      case None => None
  }

  /** The hosts of a word list; words that stand for none are skipped. */
  function HostsOf(words: seq<string>, p: Parse, resolve: Resolver): seq<Host> {
    if words == [] then []
    else (var h := HostOf(words[0], p, resolve); if h.Some? then [h.value] else []) + HostsOf(words[1..], p, resolve)
  }

  predicate AllParse(words: seq<string>, p: Parse, resolve: Resolver) {
    forall i :: 0 <= i < |words| ==> HostOf(words[i], p, resolve).Some?
  }

  const IN_ALIAS := Parse(true, false, false)
  const IN_LISTEN := Parse(true, true, true)
  const IN_ENTRY := Parse(true, false, false)
  const IN_HOSTS := Parse(false, true, false)
  const ALL := Parse(false, false, false)

  /** What one line of the file says. */
  datatype Record =
    | AliasRecord(name: string, hosts: seq<Host>, hasBad: bool)
    | ListenRecord(iface: Option<Host>, mcasts: seq<Host>)
    | AclRecord(entry: Option<Host>, hosts: seq<Host>, notAllowed: bool, keyword: bool)

  predicate IsChooser(word: string) {
    word == "CHOOSER"
  }

  predicate IsNoBroadcast(word: string) {
    word == "NOBROADCAST"
  }

  predicate IsKeyword(word: string) {
    IsChooser(word) || IsNoBroadcast(word)
  }

  /** The two keywords share one flag. */
  predicate HasKeyword(words: seq<string>) {
    exists i :: 0 <= i < |words| && IsKeyword(words[i])
  }

  function HostWords(words: seq<string>): seq<string> {
    if words == [] then [] else (if IsKeyword(words[0]) then [] else [words[0]]) + HostWords(words[1..])
  }

  function EntryWord(word: string): (w: string)
    ensures |w| <= |word|
  {
    if word != "" && (word[0] == '!' || word[0] == '=') then word[1..] else word
  }

  function IfaceOf(words: seq<string>, resolve: Resolver): Option<Host> {
    if words == [] || IsWildcard(words[0]) then None else HostOf(words[0], IN_LISTEN, resolve)
  }

  function RecordOf(line: seq<string>, resolve: Resolver): Record
    requires line != []
  {
    var word, rest := line[0], line[1..];
    if IsAlias(word) then
      AliasRecord(word[1..], HostsOf(rest, IN_ALIAS, resolve), !AllParse(rest, IN_ALIAS, resolve))
    else if IsListen(word) then
      ListenRecord(IfaceOf(rest, resolve), if rest == [] then [] else HostsOf(rest[1..], IN_LISTEN, resolve))
    else
      AclRecord(HostOf(EntryWord(word), IN_ENTRY, resolve), HostsOf(HostWords(rest), IN_HOSTS, resolve),
                word != "" && word[0] == '!', HasKeyword(rest))
  }

  function OptSeq(h: Option<Host>): seq<Host> {
    if h.Some? then [h.value] else []
  }

  /** The hosts that a record adds to the list. */
  function Added(r: Record): seq<Host> {
    match r
    case AliasRecord(_, hosts, _) => hosts
    case ListenRecord(iface, mcasts) => OptSeq(iface) + mcasts
    case AclRecord(entry, hosts, _, _) => OptSeq(entry) + hosts
  }

  /** `hosts[first..first + n]` is `xs`. */
  ghost predicate Holds(hosts: seq<Host>, first: nat, n: nat, xs: seq<Host>) {
    first + n <= |hosts| && hosts[first..first + n] == xs
  }

  ghost predicate AliasIs(hosts: seq<Host>, e: AliasEntry, r: Record) {
    r.AliasRecord? && e.name == r.name && e.hasBad == r.hasBad && Holds(hosts, e.hosts, e.nhosts, r.hosts)
  }

  ghost predicate ListenIs(hosts: seq<Host>, e: ListenEntry, r: Record) {
    && r.ListenRecord? && Holds(hosts, e.mcasts, e.nmcasts, r.mcasts)
    && (r.iface.None? ==> e.iface == -1)
    && (r.iface.Some? ==> e.iface >= 0 && Holds(hosts, e.iface, 1, [r.iface.value]))
  }

  ghost predicate AclIs(hosts: seq<Host>, e: AclEntry, r: Record) {
    && r.AclRecord? && r.entry.Some?
    && Holds(hosts, e.entries, e.nentries, [r.entry.value]) && Holds(hosts, e.hosts, e.nhosts, r.hosts)
    && e.notAllowed == r.notAllowed && e.keyword == r.keyword
  }

  function Aliases(rs: seq<Record>): seq<Record> {
    if rs == [] then [] else Aliases(rs[..|rs| - 1]) + if rs[|rs| - 1].AliasRecord? then [rs[|rs| - 1]] else []
  }

  function Listens(rs: seq<Record>): seq<Record> {
    if rs == [] then [] else Listens(rs[..|rs| - 1]) + if rs[|rs| - 1].ListenRecord? then [rs[|rs| - 1]] else []
  }

  /** The rules whose client could be parsed; the others are dropped. */
  function Acls(rs: seq<Record>): seq<Record> {
    if rs == [] then []
    else Acls(rs[..|rs| - 1]) + var r := rs[|rs| - 1]; if r.AclRecord? && r.entry.Some? then [r] else []
  }

  function AllAdded(rs: seq<Record>): seq<Host> {
    if rs == [] then [] else AllAdded(rs[..|rs| - 1]) + Added(rs[|rs| - 1])
  }

  ghost predicate AliasesAre(hosts: seq<Host>, es: seq<AliasEntry>, rs: seq<Record>) {
    |es| == |rs| && forall i :: 0 <= i < |es| ==> AliasIs(hosts, es[i], rs[i])
  }

  ghost predicate ListensAre(hosts: seq<Host>, es: seq<ListenEntry>, rs: seq<Record>) {
    |es| == |rs| && forall i :: 0 <= i < |es| ==> ListenIs(hosts, es[i], rs[i])
  }

  ghost predicate AclsAre(hosts: seq<Host>, es: seq<AclEntry>, rs: seq<Record>) {
    |es| == |rs| && forall i :: 0 <= i < |es| ==> AclIs(hosts, es[i], rs[i])
  }

  /** The table says what the records say, each in its place, and nothing else. */
  ghost predicate Says(t: Table, rs: seq<Record>) {
    && t.hosts == AllAdded(rs)
    && AliasesAre(t.hosts, t.aliases, Aliases(rs))
    && ListensAre(t.hosts, t.listens, Listens(rs))
    && AclsAre(t.hosts, t.acls, Acls(rs))
  }

  /** Some denying rule is for a client that cannot be resolved. */
  predicate LostDenial(rs: seq<Record>) {
    exists i :: 0 <= i < |rs| && rs[i].AclRecord? && rs[i].entry.None? && rs[i].notAllowed
  }

  // --------------------------------------------------------- character counts

  /** What the daemon stores of a host. */
  function StoredHost(h: Host): nat {
    match h
    case Alias(pattern) => |pattern| + 1
    case Pattern(pattern) => |pattern| + 1
    case Address(_, address) => |address|
    case Broadcast => 0
  }

  function StoredHosts(hs: seq<Host>): nat {
    if hs == [] then 0 else StoredHosts(hs[..|hs| - 1]) + StoredHost(hs[|hs| - 1])
  }

  function StoredNames(es: seq<AliasEntry>): nat {
    if es == [] then 0 else StoredNames(es[..|es| - 1]) + |es[|es| - 1].name| + 1
  }

  lemma {:induction false} StoredSnoc(hs: seq<Host>, h: Host)
    ensures StoredHosts(hs + [h]) == StoredHosts(hs) + StoredHost(h)
  {
    assert (hs + [h])[..|hs|] == hs;
  }

  lemma {:induction false} NamesSnoc(es: seq<AliasEntry>, e: AliasEntry)
    ensures StoredNames(es + [e]) == StoredNames(es) + |e.name| + 1
  {
    assert (es + [e])[..|es|] == es;
  }

  // ------------------------------------------------------------------- lemmas

  lemma {:induction false} HostsSnoc(words: seq<string>, w: string, p: Parse, resolve: Resolver)
    ensures HostsOf(words + [w], p, resolve) == HostsOf(words, p, resolve) + OptSeq(HostOf(w, p, resolve))
    decreases |words|
  {
    hide HostOf;
    if words == [] {
      assert [w][1..] == [] && words + [w] == [w];
    } else {
      assert (words + [w])[1..] == words[1..] + [w];
      HostsSnoc(words[1..], w, p, resolve);
    }
  }

  lemma {:induction false} HostWordsSnoc(words: seq<string>, w: string)
    ensures HostWords(words + [w]) == HostWords(words) + if IsKeyword(w) then [] else [w]
    decreases |words|
  {
    if words == [] {
      assert [w][1..] == [] && words + [w] == [w];
    } else {
      assert (words + [w])[1..] == words[1..] + [w];
      HostWordsSnoc(words[1..], w);
    }
  }

  lemma {:induction false} HoldsMore(hosts: seq<Host>, more: seq<Host>, first: nat, n: nat, xs: seq<Host>)
    requires Holds(hosts, first, n, xs)
    ensures Holds(hosts + more, first, n, xs)
  {
    assert (hosts + more)[first..first + n] == hosts[first..first + n];
  }

  lemma {:induction false} HoldsNew(hosts: seq<Host>, xs: seq<Host>, more: seq<Host>)
    ensures Holds(hosts + xs + more, |hosts|, |xs|, xs)
  {
  }

  /** Adding hosts at the end leaves every entry what it is. */
  lemma {:induction false} AreMore(t: Table, more: seq<Host>, rs: seq<Record>)
    requires AliasesAre(t.hosts, t.aliases, Aliases(rs)) && ListensAre(t.hosts, t.listens, Listens(rs))
    requires AclsAre(t.hosts, t.acls, Acls(rs))
    ensures AliasesAre(t.hosts + more, t.aliases, Aliases(rs)) && ListensAre(t.hosts + more, t.listens, Listens(rs))
    ensures AclsAre(t.hosts + more, t.acls, Acls(rs))
  {
    hide Holds;
    forall first: nat, n: nat, xs | Holds(t.hosts, first, n, xs)
      ensures Holds(t.hosts + more, first, n, xs)
    {
      HoldsMore(t.hosts, more, first, n, xs);
    }
  }

  lemma {:induction false} RecordSnoc(rs: seq<Record>, r: Record)
    ensures Aliases(rs + [r]) == Aliases(rs) + if r.AliasRecord? then [r] else []
    ensures Listens(rs + [r]) == Listens(rs) + if r.ListenRecord? then [r] else []
    ensures Acls(rs + [r]) == Acls(rs) + if r.AclRecord? && r.entry.Some? then [r] else []
    ensures AllAdded(rs + [r]) == AllAdded(rs) + Added(r)
    ensures LostDenial(rs + [r]) <==> LostDenial(rs) || (r.AclRecord? && r.entry.None? && r.notAllowed)
  {
    assert (rs + [r])[..|rs|] == rs;
    LostSnoc(rs, r);
  }

  lemma {:induction false} NoRecords()
    ensures AllAdded([]) == [] && Listens([]) == [] && Aliases([]) == [] && Acls([]) == []
  {
  }

  lemma {:induction false} LostSnoc(rs: seq<Record>, r: Record)
    ensures LostDenial(rs + [r]) <==> LostDenial(rs) || (r.AclRecord? && r.entry.None? && r.notAllowed)
  {
    var all := rs + [r];
    if i :| 0 <= i < |rs| && rs[i].AclRecord? && rs[i].entry.None? && rs[i].notAllowed {
      assert all[i] == rs[i];
    }
    assert all[|rs|] == r;
    assert forall i :: 0 <= i < |rs| ==> all[i] == rs[i];
  }

  /** A record more: its hosts at the end of the list, and an entry for them if it has one. */
  lemma {:induction false} SaysMore(t: Table, rs: seq<Record>, r: Record, t2: Table)
    requires Says(t, rs) && t2.hosts == t.hosts + Added(r)
    requires if r.AliasRecord? then |t2.aliases| == |t.aliases| + 1 && t2.aliases[..|t.aliases|] == t.aliases
                                    && AliasIs(t2.hosts, t2.aliases[|t.aliases|], r)
             else t2.aliases == t.aliases
    requires if r.ListenRecord? then |t2.listens| == |t.listens| + 1 && t2.listens[..|t.listens|] == t.listens
                                     && ListenIs(t2.hosts, t2.listens[|t.listens|], r)
             else t2.listens == t.listens
    requires if r.AclRecord? && r.entry.Some?
             then |t2.acls| == |t.acls| + 1 && t2.acls[..|t.acls|] == t.acls && AclIs(t2.hosts, t2.acls[|t.acls|], r)
             else t2.acls == t.acls
    ensures Says(t2, rs + [r])
  {
    hide AliasIs, ListenIs, AclIs, Added;
    AreMore(t, Added(r), rs);
    RecordSnoc(rs, r);
    hide Aliases, Listens, Acls, AllAdded;
    AliasesMore(t2.hosts, t.aliases, Aliases(rs), t2.aliases, r);
    ListensMore(t2.hosts, t.listens, Listens(rs), t2.listens, r);
    AclsMore(t2.hosts, t.acls, Acls(rs), t2.acls, r);
  }

  lemma {:induction false} AliasesMore(hosts: seq<Host>, es: seq<AliasEntry>, rs: seq<Record>,
                                       es2: seq<AliasEntry>, r: Record)
    requires AliasesAre(hosts, es, rs)
    requires if r.AliasRecord? then |es2| == |es| + 1 && es2[..|es|] == es && AliasIs(hosts, es2[|es|], r) else es2 == es
    ensures AliasesAre(hosts, es2, rs + if r.AliasRecord? then [r] else [])
  {
    hide AliasIs;
    assert forall i :: 0 <= i < |es| ==> es2[i] == es2[..|es|][i] || es2 == es;
  }

  lemma {:induction false} ListensMore(hosts: seq<Host>, es: seq<ListenEntry>, rs: seq<Record>,
                                       es2: seq<ListenEntry>, r: Record)
    requires ListensAre(hosts, es, rs)
    requires if r.ListenRecord? then |es2| == |es| + 1 && es2[..|es|] == es && ListenIs(hosts, es2[|es|], r) else es2 == es
    ensures ListensAre(hosts, es2, rs + if r.ListenRecord? then [r] else [])
  {
    hide ListenIs;
    assert forall i :: 0 <= i < |es| ==> es2[i] == es2[..|es|][i] || es2 == es;
  }

  lemma {:induction false} AclsMore(hosts: seq<Host>, es: seq<AclEntry>, rs: seq<Record>, es2: seq<AclEntry>, r: Record)
    requires AclsAre(hosts, es, rs)
    requires if r.AclRecord? && r.entry.Some? then |es2| == |es| + 1 && es2[..|es|] == es && AclIs(hosts, es2[|es|], r)
             else es2 == es
    ensures AclsAre(hosts, es2, rs + if r.AclRecord? && r.entry.Some? then [r] else [])
  {
    hide AclIs;
    assert forall i :: 0 <= i < |es| ==> es2[i] == es2[..|es|][i] || es2 == es;
  }

  // ------------------------------------------------------------------- reading

  /** The state of readAccessFile(). */
  class Reader {
    var hosts: seq<Host>
    var aliases: seq<AliasEntry>
    var listens: seq<ListenEntry>
    var acls: seq<AclEntry>
    var nChars: nat
    var error: bool

    constructor ()
      ensures hosts == [] && aliases == [] && listens == [] && acls == [] && nChars == 0 && !error
    {
      hosts, aliases, listens, acls, nChars, error := [], [], [], [], 0, false;
    }

    ghost function Tab(): Table
      reads this
    {
      Table(hosts, listens, aliases, acls)
    }

    ghost function Stored(): nat
      reads this
    {
      StoredHosts(hosts) + StoredNames(aliases)
    }

    /** parseHost(); `len` is at least the length of the word. */
    method ParseHost(word: string, len: nat, p: Parse, resolve: Resolver) returns (ok: bool)
      requires len >= |word|
      modifies this`hosts, this`nChars
      ensures hosts == old(hosts) + OptSeq(HostOf(word, p, resolve)) && ok == HostOf(word, p, resolve).Some?
      ensures nChars - old(nChars) >= StoredHosts(hosts) - StoredHosts(old(hosts))
    {
      hide StoredHosts, IsBroadcast, HasGlob;
      var h: Host;
      if !p.noBcast && IsBroadcast(word) {
        h := Broadcast;
      } else if !p.noAlias && IsAlias(word) {
        h := Alias(word[1..]);
        nChars := nChars + len;
      } else if !p.noPat && HasGlob(word) {
        h := Pattern(word);
        nChars := nChars + len + 1;
      } else {
        var a := resolve(word);
        if a.None? {
          return false;
        }
        h := Address(a.value.0, a.value.1);
        nChars := nChars + |a.value.1|;
      }
      StoredSnoc(hosts, h);
      hosts := hosts + [h];
      ok := true;
    }

    /** A loop over the rest of a line; the result counts the hosts. */
    method ParseHosts(words: seq<string>, p: Parse, resolve: Resolver) returns (n: nat, bad: bool)
      modifies this`hosts, this`nChars
      ensures hosts == old(hosts) + HostsOf(words, p, resolve) && n == |HostsOf(words, p, resolve)|
      ensures bad == !AllParse(words, p, resolve)
      ensures nChars - old(nChars) >= StoredHosts(hosts) - StoredHosts(old(hosts))
    {
      hide HostOf, HostsOf, StoredHosts;
      n, bad := 0, false;
      var i := 0;
      HostsNone(p, resolve);
      while i < |words|
        invariant i <= |words|
        invariant hosts == old(hosts) + HostsOf(words[..i], p, resolve) && n == |HostsOf(words[..i], p, resolve)|
        invariant bad == exists k :: 0 <= k < i && HostOf(words[k], p, resolve).None?
        invariant nChars - old(nChars) >= StoredHosts(hosts) - StoredHosts(old(hosts))
      {
        UpTo(words, i);
        HostsSnoc(words[..i], words[i], p, resolve);
        var ok := ParseHost(words[i], |words[i]|, p, resolve);
        if ok {
          n := n + 1;
        } else {
          bad := true;
        }
        i := i + 1;
      }
      assert words[..|words|] == words;
    }

    method ReadAlias(line: seq<string>, resolve: Resolver, ghost rs: seq<Record>)
      requires line != [] && IsAlias(line[0])
      requires Says(Tab(), rs) && nChars >= Stored()
      modifies this`hosts, this`nChars, this`aliases
      ensures Says(Tab(), rs + [RecordOf(line, resolve)]) && nChars >= Stored()
    {
      hide HostsOf, AllParse, StoredHosts, StoredNames, Says;
      ghost var t := Tab();
      ghost var xs := HostsOf(line[1..], IN_ALIAS, resolve);
      var first := |hosts|;
      nChars := nChars + |line[0]|;
      var n, bad := ParseHosts(line[1..], IN_ALIAS, resolve);
      var e := AliasEntry(line[0][1..], first, n, bad);
      NamesSnoc(aliases, e);
      aliases := aliases + [e];
      HoldsNew(t.hosts, xs, []);
      assert t.hosts + xs + [] == hosts;
      SaysMore(t, rs, RecordOf(line, resolve), Tab());
    }

    method ReadListen(line: seq<string>, resolve: Resolver, ghost rs: seq<Record>)
      requires line != [] && !IsAlias(line[0]) && IsListen(line[0])
      requires Says(Tab(), rs) && nChars >= Stored()
      modifies this`hosts, this`nChars, this`listens
      ensures Says(Tab(), rs + [RecordOf(line, resolve)]) && nChars >= Stored()
    {
      hide HostOf, HostsOf, StoredHosts, StoredNames, Says, IsListen, IsAlias, IfaceOf, RecordOf, Added, OptSeq, ListenIs;
      ghost var t := Tab();
      var words := line[1..];
      ghost var r := RecordOf(line, resolve);
      ListenLine(line, resolve);
      var iface := ReadIface(words, resolve);
      var mcasts := |hosts|;
      var n, _ := ParseHosts(if words == [] then [] else words[1..], IN_LISTEN, resolve);
      listens := listens + [ListenEntry(iface, mcasts, n)];
      HostsNone(IN_LISTEN, resolve);
      OptSeqLen(r.iface);
      ListenAdded(t.hosts, r, ListenEntry(iface, mcasts, n));
      SaysMore(t, rs, r, Tab());
    }

    /** The interface of a LISTEN line, or -1. */
    method ReadIface(words: seq<string>, resolve: Resolver) returns (iface: int)
      modifies this`hosts, this`nChars
      ensures hosts == old(hosts) + OptSeq(IfaceOf(words, resolve))
      ensures iface == if IfaceOf(words, resolve).Some? then |old(hosts)| else -1
      ensures nChars - old(nChars) >= StoredHosts(hosts) - StoredHosts(old(hosts))
    {
      hide HostOf, StoredHosts;
      iface := |hosts|;
      if words == [] || IsWildcard(words[0]) {
        iface := -1;
      } else {
        var ok := ParseHost(words[0], |words[0]|, IN_LISTEN, resolve);
        if !ok {
          iface := -1;
        }
      }
    }

    method ReadAcl(line: seq<string>, resolve: Resolver, ghost rs: seq<Record>)
      requires line != [] && !IsAlias(line[0]) && !IsListen(line[0])
      requires Says(Tab(), rs) && nChars >= Stored()
      modifies this`hosts, this`nChars, this`acls, this`error
      ensures Says(Tab(), rs + [RecordOf(line, resolve)]) && nChars >= Stored()
      ensures error == (old(error) || (RecordOf(line, resolve).entry.None? && RecordOf(line, resolve).notAllowed))
    {
      hide HostOf, HostsOf, HostWords, StoredHosts, StoredNames, Says, IsListen, IsAlias, EntryWord, HasKeyword;
      ghost var t := Tab();
      ghost var r := RecordOf(line, resolve);
      var word := line[0];
      var not := word != "" && word[0] == '!';
      var first := |hosts|;
      var good := ParseHost(EntryWord(word), |word|, IN_ENTRY, resolve);
      if !good && not {
        error := true;
      }
      var second := |hosts|;
      var n, keyword := ReadHosts(line[1..], resolve);
      if good {
        acls := acls + [AclEntry(first, 1, second, n, not, keyword)];
        AclAdded(t.hosts, r);
      }
      assert hosts == t.hosts + OptSeq(r.entry) + r.hosts == t.hosts + Added(r);
      SaysMore(t, rs, r, Tab());
    }

    /** No LISTEN line: listen on every interface, and to the default group. */
    method DefaultListen(group: Option<string>, resolve: Resolver, ghost rs: seq<Record>)
      requires Says(Tab(), rs) && nChars >= Stored()
      modifies this`hosts, this`nChars, this`listens
      ensures nChars >= Stored()
      ensures Says(Tab(), rs + [ListenRecord(None, if group.Some? then OptSeq(HostOf(group.value, ALL, resolve)) else [])])
    {
      hide HostOf, StoredHosts, StoredNames, Says;
      ghost var t := Tab();
      ghost var r := ListenRecord(None, if group.Some? then OptSeq(HostOf(group.value, ALL, resolve)) else []);
      var mcasts, n := |hosts|, 0;
      if group.Some? {
        var ok := ParseHost(group.value, |group.value|, ALL, resolve);
        if ok {
          n := 1;
        }
      }
      listens := listens + [ListenEntry(-1, mcasts, n)];
      ListenAdded(t.hosts, r, ListenEntry(-1, mcasts, n));
      assert t.hosts + OptSeq(r.iface) == t.hosts;
      SaysMore(t, rs, r, Tab());
    }

    /** The loop over the hosts and keywords of a rule. */
    method ReadHosts(words: seq<string>, resolve: Resolver) returns (n: nat, keyword: bool)
      modifies this`hosts, this`nChars
      ensures var xs := HostsOf(HostWords(words), IN_HOSTS, resolve); hosts == old(hosts) + xs && n == |xs|
      ensures keyword == HasKeyword(words)
      ensures nChars - old(nChars) >= StoredHosts(hosts) - StoredHosts(old(hosts))
    {
      hide HostOf, HostsOf, HostWords, StoredHosts, IsChooser, IsNoBroadcast;
      n, keyword := 0, false;
      var i := 0;
      HostsNone(IN_HOSTS, resolve);
      while i < |words|
        invariant i <= |words|
        invariant hosts == old(hosts) + HostsOf(HostWords(words[..i]), IN_HOSTS, resolve)
        invariant n == |HostsOf(HostWords(words[..i]), IN_HOSTS, resolve)|
        invariant keyword == exists k :: 0 <= k < i && IsKeyword(words[k])
        invariant nChars - old(nChars) >= StoredHosts(hosts) - StoredHosts(old(hosts))
      {
        UpTo(words, i);
        HostWordsSnoc(words[..i], words[i]);
        HostsSnoc(HostWords(words[..i]), words[i], IN_HOSTS, resolve);
        assert HostWords(words[..i]) + [] == HostWords(words[..i]);
        if IsChooser(words[i]) || IsNoBroadcast(words[i]) {
          keyword := true;
        } else {
          var ok := ParseHost(words[i], |words[i]|, IN_HOSTS, resolve);
          if ok {
            n := n + 1;
          }
        }
        i := i + 1;
      }
      assert words[..|words|] == words;
    }
  }

  lemma {:induction false} ListenLine(line: seq<string>, resolve: Resolver)
    requires line != [] && !IsAlias(line[0]) && IsListen(line[0])
    ensures var words := line[1..];
      RecordOf(line, resolve) ==
        ListenRecord(IfaceOf(words, resolve), if words == [] then [] else HostsOf(words[1..], IN_LISTEN, resolve))
  {
    hide IsAlias, IsListen, HostsOf, IfaceOf;
  }

  lemma {:induction false} OptSeqLen(h: Option<Host>)
    ensures |OptSeq(h)| == if h.Some? then 1 else 0
  {
  }

  lemma {:induction false} HostsNone(p: Parse, resolve: Resolver)
    ensures HostsOf([], p, resolve) == [] && HostWords([]) == []
  {
  }

  lemma {:induction false} ListenAdded(hosts: seq<Host>, r: Record, e: ListenEntry)
    requires r.ListenRecord? && e.iface == (if r.iface.Some? then |hosts| else -1)
    requires e.mcasts == |hosts| + |OptSeq(r.iface)| && e.nmcasts == |r.mcasts|
    ensures hosts + OptSeq(r.iface) + r.mcasts == hosts + Added(r) && ListenIs(hosts + Added(r), e, r)
  {
    var all := hosts + OptSeq(r.iface) + r.mcasts;
    assert all == hosts + Added(r);
    assert Holds(all, |hosts + OptSeq(r.iface)|, |r.mcasts|, r.mcasts);
    assert r.iface.Some? ==> Holds(all, |hosts|, 1, [r.iface.value]);
  }

  lemma {:induction false} AclAdded(hosts: seq<Host>, r: Record)
    requires r.AclRecord? && r.entry.Some?
    ensures var all := hosts + OptSeq(r.entry) + r.hosts;
      Holds(all, |hosts|, 1, [r.entry.value]) && Holds(all, |hosts| + 1, |r.hosts|, r.hosts)
  {
  }

  // -------------------------------------------------------------- whole files

  function Records(lines: seq<seq<string>>, resolve: Resolver): seq<Record>
    requires forall i :: 0 <= i < |lines| ==> lines[i] != []
  {
    if lines == [] then [] else Records(lines[..|lines| - 1], resolve) + [RecordOf(lines[|lines| - 1], resolve)]
  }

  /** Without a LISTEN line there is a default one, with the default group if there is one. */
  function WithDefault(rs: seq<Record>, group: Option<string>, resolve: Resolver): seq<Record> {
    if Listens(rs) != [] then rs
    else rs + [ListenRecord(None, if group.Some? then OptSeq(HostOf(group.value, ALL, resolve)) else [])]
  }

  lemma {:induction false} SaysSound(t: Table, rs: seq<Record>)
    requires Says(t, rs)
    ensures Sound(t)
  {
    hide Aliases, Listens, Acls, AllAdded;
    assert forall i :: 0 <= i < |t.aliases| ==> AliasIs(t.hosts, t.aliases[i], Aliases(rs)[i]);
    assert forall i :: 0 <= i < |t.acls| ==> AclIs(t.hosts, t.acls[i], Acls(rs)[i]);
  }

  /** The reader accepts the file: no rule that denies is lost, and every list passes the check. */
  ghost predicate Accepted(t: Table, rs: seq<Record>) {
    && !LostDenial(rs)
    && forall i :: 0 <= i < |t.acls| ==> RuleOk(t, i)
  }

  ghost predicate RuleOk(t: Table, i: nat)
    requires i < |t.acls|
  {
    var e := t.acls[i];
    && ListOk(t, e.entries, e.nentries, 0, e.notAllowed)
    && ListOk(t, e.hosts, e.nhosts, 0, false)
  }

  const NOTHING := Table([], [], [], [])

  lemma {:induction false} AcceptedBounded(t: Table, rs: seq<Record>)
    requires Accepted(t, rs)
    ensures BoundedTable(t)
  {
    hide Bounded, Clean;
    forall i | 0 <= i < |t.acls|
      ensures Bounded(t, t.acls[i].entries, t.acls[i].nentries, MAX_DEPTH)
      ensures Bounded(t, t.acls[i].hosts, t.acls[i].nhosts, MAX_DEPTH)
    {
      assert RuleOk(t, i);
    }
  }

  lemma {:induction false} AcceptedIs(t: Table, rs: seq<Record>)
    ensures Accepted(t, rs) <==> !LostDenial(rs) && forall i :: 0 <= i < |t.acls| ==> RuleOk(t, i)
  {
    hide RuleOk, LostDenial;
  }

  lemma {:induction false} NothingSound()
    ensures Sound(NOTHING) && BoundedTable(NOTHING) && TableInside(NOTHING, None) && StoredHosts([]) == 0 && StoredNames([]) == 0
  {
  }

  lemma {:induction false} SaysNothing(resolve: Resolver)
    ensures Says(NOTHING, Records([], resolve)) && !LostDenial(Records([], resolve))
  {
  }

  lemma {:induction false} RecordsSnoc(lines: seq<seq<string>>, i: nat, resolve: Resolver)
    requires i < |lines| && forall k :: 0 <= k < |lines| ==> lines[k] != []
    ensures Records(lines[..i + 1], resolve) == Records(lines[..i], resolve) + [RecordOf(lines[i], resolve)]
  {
    hide RecordOf;
    assert lines[..i + 1][..i] == lines[..i];
  }

  lemma {:induction false} RecordKind(line: seq<string>, resolve: Resolver)
    requires line != []
    ensures RecordOf(line, resolve).AliasRecord? <==> IsAlias(line[0])
    ensures RecordOf(line, resolve).ListenRecord? <==> !IsAlias(line[0]) && IsListen(line[0])
  {
    hide IsAlias, IsListen, HostOf, HostsOf;
  }

  lemma {:induction false} ListensCount(t: Table, rs: seq<Record>)
    requires Says(t, rs)
    ensures |t.listens| == |Listens(rs)|
  {
    hide Listens, AliasesAre, AclsAre, AllAdded, ListenIs;
  }

  lemma {:induction false} DefaultLosesNothing(rs: seq<Record>, group: Option<string>, resolve: Resolver)
    ensures LostDenial(WithDefault(rs, group, resolve)) <==> LostDenial(rs)
  {
    hide LostDenial, HostOf, Listens;
    LostSnoc(rs, ListenRecord(None, if group.Some? then OptSeq(HostOf(group.value, ALL, resolve)) else []));
  }

  /** The loop that checks every rule; it ends early where a match leaves its texts. */
  method CheckRules(t: Table, error: bool) returns (bad: Option<bool>)
    requires Sound(t)
    ensures Finds(bad, !error && forall i :: 0 <= i < |t.acls| ==> RuleOk(t, i), TableInside(t, None))
  {
    hide ListOk, Sound, InRange, Inside, RuleOk, RuleInside;
    bad := Some(error);
    var i := 0;
    while i < |t.acls|
      invariant i <= |t.acls| && bad.Some?
      invariant bad.value ==> error || exists k :: 0 <= k < i && !RuleOk(t, k)
      invariant !bad.value ==> !error && forall k :: 0 <= k < i ==> RuleOk(t, k) && RuleInside(t, k, None)
    {
      var e := t.acls[i];
      AclInRange(t, i);
      RuleIs(t, i);
      var b := CheckHostlist(t, e.entries, e.nentries, 0, e.notAllowed);
      if b == Some(false) {
        b := CheckHostlist(t, e.hosts, e.nhosts, 0, false);
      }
      if b.None? {
        return None;
      }
      if b.value {
        bad := Some(true);
      }
      i := i + 1;
    }
  }

  lemma {:induction false} RuleIs(t: Table, i: nat)
    requires i < |t.acls|
    ensures var e := t.acls[i];
      && (RuleOk(t, i) <==> ListOk(t, e.entries, e.nentries, 0, e.notAllowed) && ListOk(t, e.hosts, e.nhosts, 0, false))
      && (RuleInside(t, i, None) <==>
            Inside(t, e.entries, e.nentries, MAX_DEPTH, None) && Inside(t, e.hosts, e.nhosts, MAX_DEPTH, None))
  {
    hide ListOk, Inside;
  }

  lemma {:induction false} AclInRange(t: Table, i: nat)
    requires Sound(t) && i < |t.acls|
    ensures InRange(t, t.acls[i].entries, t.acls[i].nentries) && InRange(t, t.acls[i].hosts, t.acls[i].nhosts)
  {
  }

  /** What a text says, with the default LISTEN line. */
  function RecordsOf(text: string, group: Option<string>, resolve: Resolver): seq<Record> {
    WithDefault(Records(SomeWords(text), resolve), group, resolve)
  }

  function SomeWords(text: string): (lines: seq<seq<string>>)
    ensures lines == AccessWords.Lines(text) && forall i :: 0 <= i < |lines| ==> lines[i] != []
  {
    AccessWords.ReadPlain(text, false, [], "");
    AccessWords.Lines(text)
  }

  /**
   The table that is sent: the whole of what the file says, or nothing at all. There is
   none if the check of a rule leaves the texts that it matches.
   */
  method ReadAccessFile(text: Option<string>, group: Option<string>, resolve: Resolver)
    returns (sent: Option<Table>, nChars: nat, ghost full: Table)
    ensures text.None? ==> sent == Some(NOTHING) && nChars == 0
    ensures text.Some? ==>
      var rs := RecordsOf(text.value, group, resolve);
      && Says(full, rs) && Sound(full)
      && (Accepted(full, rs) ==> sent == if TableInside(full, None) then Some(full) else None)
      && (!Accepted(full, rs) ==>
            (sent == Some(NOTHING) && nChars == 0) || (sent.None? && !TableInside(full, None)))
    ensures sent.Some? ==>
      && StoredHosts(sent.value.hosts) + StoredNames(sent.value.aliases) <= nChars
      && Sound(sent.value) && BoundedTable(sent.value) && TableInside(sent.value, None)
  {
    hide Sound, BoundedTable, TableInside, Says, StoredHosts, StoredNames, HostOf, LostDenial, Accepted, Listens,
      Records, AccessWords.Lines;
    full := NOTHING;
    NothingSound();
    if text.None? {
      return Some(NOTHING), 0, full;
    }
    var lines := AccessWords.CutLines(text.value);
    assert lines == SomeWords(text.value);
    var r := ReadLines(lines, resolve);
    ghost var rs := Records(lines, resolve);
    ghost var all := WithDefault(rs, group, resolve);
    ListensCount(r.Tab(), rs);
    if r.listens == [] {
      r.DefaultListen(group, resolve, rs);
    }
    var t := Table(r.hosts, r.listens, r.aliases, r.acls);
    full := t;
    SaysSound(t, all);
    var bad := CheckRules(t, r.error);
    DefaultLosesNothing(rs, group, resolve);
    AcceptedIs(t, all);
    if bad.None? {
      return None, 0, full;
    }
    if bad.value {
      return Some(NOTHING), 0, full;
    }
    AcceptedBounded(t, all);
    sent, nChars := Some(t), r.nChars;
  }

  /** The loop over the lines of the file. */
  method ReadLines(lines: seq<seq<string>>, resolve: Resolver) returns (r: Reader)
    requires forall i :: 0 <= i < |lines| ==> lines[i] != []
    ensures fresh(r) && Says(r.Tab(), Records(lines, resolve)) && r.nChars >= r.Stored()
    ensures r.error == LostDenial(Records(lines, resolve))
  {
    hide RecordOf, Says, StoredHosts, StoredNames, LostDenial, IsAlias, IsListen, Records;
    r := new Reader();
    SaysNothing(resolve);
    NothingSound();
    var i := 0;
    while i < |lines|
      invariant i <= |lines| && fresh(r)
      invariant Says(r.Tab(), Records(lines[..i], resolve)) && r.nChars >= r.Stored()
      invariant r.error == LostDenial(Records(lines[..i], resolve))
    {
      var line := lines[i];
      ghost var rs := Records(lines[..i], resolve);
      RecordsSnoc(lines, i, resolve);
      RecordKind(line, resolve);
      LostSnoc(rs, RecordOf(line, resolve));
      if IsAlias(line[0]) {
        r.ReadAlias(line, resolve, rs);
      } else if IsListen(line[0]) {
        r.ReadListen(line, resolve, rs);
      } else {
        r.ReadAcl(line, resolve, rs);
      }
      i := i + 1;
    }
    assert lines[..i] == lines;
  }
}
