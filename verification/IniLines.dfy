/**
 How the lines that iniEntry() recognises or writes are read, and what replacing or
 inserting one does to the map of the text.
 */
module IniLines {
  import opened IniText
  import opened Wrappers

  /** How many characters of `t` the text has at `p`. */
  function CommonPrefix(s: string, p: nat, t: string): (k: nat)
    requires p <= |s|
    ensures k <= |t| && p + k <= |s|
    ensures forall i :: 0 <= i < k ==> s[p + i] == t[i]
    ensures k < |t| && p + k < |s| ==> s[p + k] != t[k]
    decreases |t|
  {
    if t != "" && p < |s| && s[p] == t[0] then 1 + CommonPrefix(s, p + 1, t[1..]) else 0
  }

  /** `s[p..e]` is a line. */
  ghost predicate IsLine(s: string, p: nat, e: nat) {
    p <= e < |s| && s[e] == '\n' && forall i :: p <= i < e ==> s[i] != '\n'
  }

  /** A comparison with a text that has no newline does not leave the line. */
  lemma {:induction false} PrefixInLine(s: string, p: nat, e: nat, t: string)
    requires IsLine(s, p, e) && '\n' !in t
    ensures p + CommonPrefix(s, p, t) <= e
    decreases |t|
  {
    if t != "" && s[p] == t[0] {
      PrefixInLine(s, p + 1, e, t[1..]);
    }
  }

  lemma {:induction false} BlanksInLine(s: string, p: nat, e: nat)
    requires IsLine(s, p, e)
    ensures SkipBlanks(s, p) <= e
    decreases |s| - p
  {
    if IsBlank(s[p]) {
      BlanksInLine(s, p + 1, e);
    }
  }

  /** Writing a key and a value makes a line that is read as just that. */
  lemma {:induction false} EntryLine(head: string, rest: string)
    requires '=' !in head
    requires TrimLeft(head) != "" ==> TrimLeft(head)[0] != '['
    ensures Classify(head + "=" + rest) == Entry(TrimRight(TrimLeft(head)), Trim(rest))
  {
    hide Find, SkipBlanks, TrimmedLen;
    var line := head + "=" + rest;
    var b := SkipBlanks(head, 0);
    SkipBlanksIs(line, 0, b);
    var t := TrimLeft(line);
    assert t == head[b..] + "=" + rest;
    FindIs(t, '=', 0, |head| - b);
    assert t[..|head| - b] == TrimLeft(head) && t[|head| - b + 1..] == rest;
  }

  lemma {:induction false} HeaderLine(section: string)
    requires ValidSection(section)
    ensures Classify("[" + section + "]") == Header(Some(section))
  {
    var t := "[" + section + "]";
    SkipBlanksIs(t, 0, 0);
    FindIs(t, ']', 0, |section| + 1);
  }

  lemma {:induction false} ValidKeyTrims(key: string)
    requires ValidKey(key)
    ensures TrimLeft(key) == key && TrimRight(key) == key
  {
    SkipBlanksIs(key, 0, 0);
    TrimmedLenIs(key, |key|);
  }

  /** Blanks before a value do not matter. */
  lemma {:induction false} BlanksBefore(blanks: string, v: string)
    requires forall i :: 0 <= i < |blanks| ==> IsBlank(blanks[i])
    ensures Trim(blanks + v) == Trim(v)
  {
    SkipBlanksIs(blanks + v, 0, |blanks| + SkipBlanks(v, 0));
    assert TrimLeft(blanks + v) == TrimLeft(v);
  }

  // ------------------------------------------------- what iniEntry() compares

  /** The line that starts at `p` and ends before `e`, without its leading blanks. */
  lemma {:induction false} LineAt(s: string, p: nat, e: nat)
    requires IsLine(s, p, e)
    ensures SkipBlanks(s, p) <= e && TrimLeft(s[p..e]) == s[SkipBlanks(s, p)..e]
    ensures Find(s, '\n', p) == e
  {
    var q := SkipBlanks(s, p);
    SkipBlanksIs(s[p..e], 0, q - p);
    FindIs(s, '\n', p, e);
  }

  /** The header test of iniEntry() recognises the section exactly. */
  lemma {:induction false} HeaderAt(s: string, q: nat, e: nat, section: string)
    requires IsLine(s, q, e) && q < e
    requires s[q] == '[' && '\n' !in section
    ensures var k := CommonPrefix(s, q + 1, section);
      && q + 1 + k <= e
      && (ValidSection(section) ==>
            (k == |section| && s[q + 1 + k] == ']' <==>
               Find(s[q..e], ']', 0) < e - q && s[q..e][1..Find(s[q..e], ']', 0)] == section))
  {
    hide Find, CommonPrefix;
    var k := CommonPrefix(s, q + 1, section);
    var t := s[q..e];
    var f := Find(t, ']', 0);
    PrefixInLine(s, q + 1, e, section);
    if k == |section| && s[q + 1 + k] == ']' && ValidSection(section) {
      assert t[1..k + 1] == s[q + 1..q + 1 + k] == section;
      FindIs(t, ']', 0, k + 1);
    }
    if f < |t| && t[1..f] == section {
      assert forall i :: 0 <= i < |section| ==> section[i] == s[q + 1 + i];
      assert s[q + 1 + |section|] == ']';
    }
  }

  /** The key test of iniEntry() finds an entry for the key ... */
  lemma {:induction false} KeyFound(s: string, q: nat, e: nat, key: string)
    requires IsLine(s, q, e) && q < e
    requires ValidKey(key) && CommonPrefix(s, q, key) == |key| && q + |key| <= e
    requires s[SkipBlanks(s, q + |key|)] == '=' && SkipBlanks(s, q + |key|) <= e
    ensures var t, f := s[q..e], SkipBlanks(s, q + |key|) - q;
      f < |t| && Find(t, '=', 0) == f && TrimRight(t[..f]) == key
  {
    hide Find, SkipBlanks, TrimmedLen, CommonPrefix;
    var t := s[q..e];
    var r := SkipBlanks(s, q + |key|);
    var k := |key|;
    assert t[..k] == key;
    forall i | 0 <= i < r - q
      ensures t[i] != '='
    {
      assert i < k ==> t[i] == t[..k][i];
    }
    FindIs(t, '=', 0, r - q);
    assert k > 0 ==> t[..r - q][k - 1] == key[k - 1];
    TrimmedLenIs(t[..r - q], k);
  }

  /** ... and every entry for the key. */
  lemma {:induction false} KeyFinds(s: string, q: nat, e: nat, key: string)
    requires IsLine(s, q, e) && q < e
    requires var t := s[q..e];
      Find(t, '=', 0) < |t| && TrimRight(t[..Find(t, '=', 0)]) == key
    ensures CommonPrefix(s, q, key) == |key|
    ensures q + |key| <= |s| && SkipBlanks(s, q + |key|) == q + Find(s[q..e], '=', 0)
  {
    hide Find, SkipBlanks, TrimmedLen, CommonPrefix;
    var t := s[q..e];
    var f := Find(t, '=', 0);
    assert forall i :: 0 <= i < |key| ==> key[i] == t[..f][i] == s[q + i];
    assert forall i :: |key| <= i < f ==> t[..f][i] == s[q + i];
    SkipBlanksIs(s, q + |key|, q + f);
  }

  lemma {:induction false} LineTail(s: string, p: nat, q: nat, e: nat)
    requires IsLine(s, p, e) && p <= q <= e
    ensures IsLine(s, q, e)
  {
  }

  /** A line whose first character, `s[q]`, does not open a header. */
  lemma {:induction false} ClassifyAt(s: string, p: nat, q: nat, e: nat)
    requires IsLine(s, p, e) && q == SkipBlanks(s, p) && q < e && s[q] != '['
    ensures var f := Find(s[q..e], '=', 0);
      Classify(s[p..e]) ==
        if f < e - q then Entry(TrimRight(s[q..e][..f]), Trim(s[q..e][f + 1..])) else Junk
  {
    LineAt(s, p, e);
    assert s[q..e] != "" && s[q..e][0] == s[q];
  }
}
