/**
 When exactly merging an ini text overrides the map of the other one.
 */
module IniOverride {
  import opened Wrappers
  import opened IniText
  import opened IniLines
  import opened IniFile
  import opened IniMerge

  /** The line at `p` is blank, a comment, a header with only blanks behind it, or an entry that is not given again. */
  ghost predicate ShapedLine(s: string, p: nat, e: nat, sec: Option<string>)
    requires p <= e < |s|
  {
    var q := SkipBlanks(s, p);
    && q <= e
    && match Classify(s[p..e])
       case Empty => true
       case Header(name) => name.Some? && SkipBlanks(s, q) == q && HeaderAlone(s, q, e, name.value)
       case Entry(key, _) => sec.Some? && s[q] != '#' ==> (sec.value, key) !in TextMap(s[e + 1..], sec)
       case Junk => s[q] == '#'
  }

  /** The line at `p` is a comment with a `=`, inside a section. */
  ghost predicate CommentedEntryAt(s: string, p: nat, e: nat, sec: Option<string>)
    requires p <= e < |s|
  {
    var q := SkipBlanks(s, p);
    sec.Some? && q < e && s[q] == '#' && Classify(s[p..e]).Entry?
  }

  /** A text of such lines. */
  ghost predicate WellShaped(s: string, p: nat, sec: Option<string>)
    requires p <= |s| && Terminated(s)
    decreases |s| - p
  {
    p < |s| ==>
      var e := Find(s, '\n', p);
      e < |s| && ShapedLine(s, p, e, sec) && WellShaped(s, e + 1, SectionAfter(s[p..e], sec))
  }

  /** No comment inside a section has a `=`. */
  ghost predicate CommentsPlain(s: string, p: nat, sec: Option<string>)
    requires p <= |s| && Terminated(s)
    decreases |s| - p
  {
    p < |s| ==>
      var e := Find(s, '\n', p);
      e < |s| ==> !CommentedEntryAt(s, p, e, sec) && CommentsPlain(s, e + 1, SectionAfter(s[p..e], sec))
  }

  /** A key that only a comment can have. */
  predicate Hash(key: string) {
    key != "" && key[0] == '#'
  }

  // ------------------------------------------------------------- no override

  lemma {:induction false} ItemNoHash(s: string, q: nat)
    requires q <= |s| && ItemAt(s, q).Pair? && (q < |s| ==> !IsBlank(s[q]))
    ensures !Hash(ItemAt(s, q).key)
  {
    hide Find, FindInLine, Trim;
    var f := FindInLine(s, '=', q);
    var k := TrimRight(s[q..f]);
    assert k != "" ==> k[0] == s[q];
  }

  /** What is merged never has such a key ... */
  lemma {:induction false} AssignedNoHash(s: string, p: nat, sec: Option<string>)
    requires p <= |s|
    ensures forall a :: a in Assigned(s, p, sec) ==> !Hash(a.key)
    decreases |s| - p
  {
    hide ItemAt, SkipBlanks, Hash;
    var q := SkipBlanks(s, p);
    var it := ItemAt(s, q);
    match it
    case Stop =>
    case Skip(next) => AssignedNoHash(s, next, sec);
    case Section(name, next) => AssignedNoHash(s, next, Some(name));
    case Pair(key, value, next) =>
      ItemNoHash(s, q);
      AssignedNoHash(s, next, sec);
  }

  lemma {:induction false} ApplyNoHash(m: IniMap, sets: seq<Assignment>)
    requires (forall k :: k in m ==> !Hash(k.1)) && forall a :: a in sets ==> !Hash(a.key)
    ensures forall k :: k in Apply(m, sets) ==> !Hash(k.1)
    decreases |sets|
  {
    hide Hash;
    if sets != [] {
      var a := sets[0];
      assert a in sets;
      ApplyNoHash(m[(a.section, a.key) := a.value], sets[1..]);
    }
  }

  lemma {:induction false} CommentKey(s: string, p: nat, e: nat, sec: Option<string>)
    requires IsLine(s, p, e) && CommentedEntryAt(s, p, e, sec)
    ensures Hash(Classify(s[p..e]).key) && sec.Some? && Classify(s[p..e]).Entry?
  {
    hide Classify, SkipBlanks, FindInLine, Trim, TrimRight, Find;
    var q := SkipBlanks(s, p);
    EntryAt(s, p, q, e);
    var f := q + Find(s[q..e], '=', 0);
    var k := s[q..f];
    assert s[f] == '=' && s[q] == '#';
    assert k[0] == '#';
    FirstStays(k);
  }

  lemma {:induction false} FirstStays(k: string)
    requires k != "" && !IsBlank(k[0])
    ensures TrimRight(k) != "" && TrimRight(k)[0] == k[0]
  {
  }

  /** ... but a comment with a `=` inside a section gives the text one. */
  lemma {:induction false} HashInMap(s: string, p: nat, sec: Option<string>) returns (k: (string, string))
    requires p <= |s| && Terminated(s) && WellShaped(s, p, sec) && !CommentsPlain(s, p, sec)
    ensures k in TextMap(s[p..], sec) && Hash(k.1)
    decreases |s| - p
  {
    hide TextMap, Find, Classify, Hash, SectionAfter, LineMap, ShapedLine, CommentedEntryAt;
    var e := Find(s, '\n', p);
    var line := s[p..e];
    LineHere(s, p);
    TextFrom(s, p, e, sec);
    if CommentedEntryAt(s, p, e, sec) {
      CommentKey(s, p, e, sec);
      k := (sec.value, Classify(line).key);
      EntryMap(line, sec);
    } else {
      k := HashInMap(s, e + 1, SectionAfter(line, sec));
    }
  }

  lemma {:induction false} EntryMap(line: string, sec: Option<string>)
    requires sec.Some? && Classify(line).Entry?
    ensures (sec.value, Classify(line).key) in LineMap(line, sec)
  {
    hide Classify;
  }

  // ---------------------------------------------------------------- override

  lemma {:induction false} PlainIsMergeable(s: string, p: nat, sec: Option<string>)
    requires p <= |s| && Terminated(s) && WellShaped(s, p, sec) && CommentsPlain(s, p, sec)
    ensures Mergeable(s, p, sec)
    decreases |s| - p
  {
    hide Find, ShapedLine, CommentedEntryAt, Mergeable, SectionAfter;
    if p < |s| {
      var e := Find(s, '\n', p);
      LineHere(s, p);
      PlainIsMergeable(s, e + 1, SectionAfter(s[p..e], sec));
      MergeableFrom(s, p, e, sec);
    } else {
      NothingMergeable(s, sec);
    }
  }

  lemma {:induction false} NothingMergeable(s: string, sec: Option<string>)
    requires Terminated(s)
    ensures Mergeable(s, |s|, sec)
  {
  }

  lemma {:induction false} EntryBehindBlanks(s: string, p: nat, e: nat)
    requires IsLine(s, p, e) && SkipBlanks(s, p) <= e && Classify(s[p..e]).Entry?
    ensures SkipBlanks(s, p) < e
  {
    EntryAt(s, p, SkipBlanks(s, p), e);
  }

  lemma {:induction false} MergeableFrom(s: string, p: nat, e: nat, sec: Option<string>)
    requires IsLine(s, p, e) && e == Find(s, '\n', p) && Terminated(s)
    requires ShapedLine(s, p, e, sec) && !CommentedEntryAt(s, p, e, sec)
    requires Mergeable(s, e + 1, SectionAfter(s[p..e], sec))
    ensures Mergeable(s, p, sec)
  {
    hide SkipBlanks, Find, Classify, TextMap, HeaderAlone, SectionAfter, FindInLine, TrimRight, Trim;
    var q := SkipBlanks(s, p);
    assert q <= e && e < |s|;
    if Classify(s[p..e]).Entry? {
      EntryBehindBlanks(s, p, e);
    }
  }

  /** Merging overrides, whatever the other text is. */
  ghost predicate Overrides(newdata: string) {
    forall data: Option<string> ::
      Apply(Meaning(data), Assigned(newdata, 0, None)) == Meaning(data) + Meaning(Some(newdata))
  }

  /** For such a text merging overrides if and only if no comment inside a section has a `=`. */
  lemma {:induction false} OverridesExactly(newdata: string)
    requires Terminated(newdata) && WellShaped(newdata, 0, None)
    ensures Overrides(newdata) <==> CommentsPlain(newdata, 0, None)
  {
    hide WellShaped, CommentsPlain, Assigned, Apply, TextMap, Meaning, Mergeable, Hash;
    if CommentsPlain(newdata, 0, None) {
      PlainIsMergeable(newdata, 0, None);
      forall data: Option<string>
        ensures Apply(Meaning(data), Assigned(newdata, 0, None)) == Meaning(data) + Meaning(Some(newdata))
      {
        MergeOverrides(data, newdata);
      }
    } else {
      var k := HashInMap(newdata, 0, None);
      assert newdata[0..] == newdata;
      MeaningIs(None);
      MeaningIs(Some(newdata));
      NothingMap(None);
      AssignedNoHash(newdata, 0, None);
      ApplyNoHash(map[], Assigned(newdata, 0, None));
      assert k in Meaning(None) + Meaning(Some(newdata));
      assert k !in Apply(Meaning(None), Assigned(newdata, 0, None));
    }
  }
}
