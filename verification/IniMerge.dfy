/**
 iniMerge(): all entries of one ini text are set in another.
 */
module IniMerge {
  import opened IniText
  import opened Wrappers
  import opened IniLines
  import opened IniFile

  /** The place of the first `c` or newline at or after `p`, or the end. */
  function FindInLine(s: string, c: char, p: nat): (q: nat)
    requires p <= |s|
    ensures p <= q <= |s|
    ensures forall i :: p <= i < q ==> s[i] != c && s[i] != '\n'
    ensures q < |s| ==> s[q] == c || s[q] == '\n'
    decreases |s| - p
  {
    if p < |s| && s[p] != c && s[p] != '\n' then FindInLine(s, c, p + 1) else p
  }

  datatype Assignment = Assignment(section: string, key: string, value: string)

  /** What iniMerge() reads next. */
  datatype Item =
    | Stop                                   // the end, or a line it cannot read
    | Skip(next: nat)                        // an empty line or a comment
    | Section(name: string, next: nat)
    | Pair(key: string, value: string, next: nat)

  /** The item at `q`, which is not a blank. */
  function ItemAt(s: string, q: nat): (it: Item)
    requires q <= |s|
    ensures !it.Stop? ==> q < it.next <= |s|
  {
    if q == |s| then Stop
    else if s[q] == '\n' then Skip(q + 1)
    else if s[q] == '#' then
      var e := Find(s, '\n', q + 1);
      if e == |s| then Stop else Skip(e + 1)
    else if s[q] == '[' then
      var f := FindInLine(s, ']', q + 1);
      if f < |s| && s[f] == ']' then Section(s[q + 1..f], f + 1) else Stop
    else
      var f := FindInLine(s, '=', q);
      if f < |s| && s[f] == '=' then
        var e := Find(s, '\n', f + 1);
        Pair(TrimRight(s[q..f]), Trim(s[f + 1..e]), e)
      else Stop
  }

  /** What iniMerge() sets, in order, when it reads on at `p` inside section `sec`. */
  function Assigned(s: string, p: nat, sec: Option<string>): seq<Assignment>
    requires p <= |s|
    decreases |s| - p
  {
    match ItemAt(s, SkipBlanks(s, p))
    case Stop => []
    case Skip(next) => Assigned(s, next, sec)
    case Section(name, next) => Assigned(s, next, Some(name))
    case Pair(key, value, next) =>
      (if sec.Some? then [Assignment(sec.value, key, value)] else []) + Assigned(s, next, sec)
  }

  /** The map after the assignments, one after the other. */
  function Apply(m: IniMap, sets: seq<Assignment>): IniMap
    decreases |sets|
  {
    if sets == [] then m
    else Apply(m[(sets[0].section, sets[0].key) := sets[0].value], sets[1..])
  }

  lemma {:induction false} ApplyConcat(m: IniMap, a: seq<Assignment>, b: seq<Assignment>)
    ensures Apply(m, a + b) == Apply(Apply(m, a), b)
    decreases |a|
  {
    if a == [] {
      assert a + b == b;
    } else {
      assert (a + b)[1..] == a[1..] + b;
      ApplyConcat(m[(a[0].section, a[0].key) := a[0].value], a[1..], b);
    }
  }

  lemma {:induction false} TrimTwice(s: string)
    ensures Trim(Trim(s)) == Trim(s)
  {
    hide SkipBlanks, TrimmedLen;
    var t := Trim(s);
    SkipBlanksIs(t, 0, 0);
    TrimmedLenIs(t, |t|);
  }

  /** The key that iniMerge() cuts out can be written to a text. */
  lemma {:induction false} CutKeyValid(s: string, q: nat, f: nat)
    requires q <= f <= |s| && q < |s| && s[q] != '[' && !IsBlank(s[q])
    requires forall i :: q <= i < f ==> s[i] != '=' && s[i] != '\n'
    ensures ValidKey(TrimRight(s[q..f]))
  {
    var t := s[q..f];
    assert forall i :: 0 <= i < |t| ==> t[i] == s[q + i];
  }

  lemma {:induction false} CutValue(s: string, q: nat, e: nat)
    requires q <= e <= |s| && forall i :: q <= i < e ==> s[i] != '\n'
    ensures '\n' !in Trim(s[q..e])
  {
  }

  method FindFrom(s: string, c: char, p: nat) returns (q: nat)
    requires p <= |s|
    ensures q == Find(s, c, p)
  {
    q := p;
    while q < |s| && s[q] != c
      invariant p <= q <= |s| && Find(s, c, q) == Find(s, c, p)
    {
      q := q + 1;
    }
  }

  method FindInLineFrom(s: string, c: char, p: nat) returns (q: nat)
    requires p <= |s|
    ensures q == FindInLine(s, c, p)
  {
    q := p;
    while q < |s| && s[q] != c && s[q] != '\n'
      invariant p <= q <= |s| && FindInLine(s, c, q) == FindInLine(s, c, p)
    {
      q := q + 1;
    }
  }

  /** `s[b..e]` without the blanks at its end. */
  method TrimEnd(s: string, b: nat, e: nat) returns (t: string)
    requires b <= e <= |s|
    ensures t == TrimRight(s[b..e])
  {
    var ce := e;
    while ce != b && IsBlank(s[ce - 1])
      invariant b <= ce <= e
      invariant forall i :: ce <= i < e ==> IsBlank(s[i])
    {
      ce := ce - 1;
    }
    t := s[b..ce];
    TrimmedLenIs(s[b..e], ce - b);
  }

  lemma {:induction false} ApplyNext(m: IniMap, a: Assignment, rest: seq<Assignment>)
    ensures Apply(m, [a] + rest) == Apply(m[(a.section, a.key) := a.value], rest)
  {
    assert ([a] + rest)[1..] == rest;
  }

  lemma {:induction false} ApplyNothing(m: IniMap)
    ensures Apply(m, []) == m
  {
  }

  /** A key and value that iniMerge() reads can be written, and a section named. */
  lemma {:induction false} ItemValid(s: string, q: nat)
    requires q <= |s| && (q < |s| ==> !IsBlank(s[q]))
    ensures var it := ItemAt(s, q);
      && (it.Section? ==> ValidSection(it.name))
      && (it.Pair? ==> ValidKey(it.key) && '\n' !in it.key && '\n' !in it.value && Trim(it.value) == it.value)
  {
    hide Trim, TrimRight, SkipBlanks, TrimmedLen, Find, FindInLine, ValidKey;
    if ItemAt(s, q).Pair? {
      var f := FindInLine(s, '=', q);
      var e := Find(s, '\n', f + 1);
      CutKeyValid(s, q, f);
      KeyHasNoNewline(TrimRight(s[q..f]));
      CutValue(s, f + 1, e);
      TrimTwice(s[f + 1..e]);
    }
  }

  /** Reading an entry line. */
  method ReadPair(s: string, q: nat) returns (it: Item)
    requires q < |s| && s[q] != '\n' && s[q] != '#' && s[q] != '['
    ensures it == ItemAt(s, q)
  {
    hide Trim, TrimRight, SkipBlanks, TrimmedLen, Find, FindInLine;
    var f := FindInLineFrom(s, '=', q);
    if f == |s| || s[f] == '\n' {
      return Stop;
    }
    var key := TrimEnd(s, q, f);
    var b := SkipBlanksFrom(s, f + 1);
    BlanksStop(s, f + 1, Find(s, '\n', f + 1));
    var e := FindFrom(s, '\n', b);
    var value := TrimEnd(s, b, e);
    ValueCut(s, f + 1, b, e);
    it := Pair(key, value, e);
  }

  method ReadItem(s: string, q: nat) returns (it: Item)
    requires q <= |s|
    ensures it == ItemAt(s, q)
  {
    hide Trim, TrimRight, SkipBlanks, TrimmedLen, Find, FindInLine;
    if q == |s| {
      it := Stop;
    } else if s[q] == '\n' {
      it := Skip(q + 1);
    } else if s[q] == '#' {
      var e := FindFrom(s, '\n', q + 1);
      it := if e == |s| then Stop else Skip(e + 1);
    } else if s[q] == '[' {
      var f := FindInLineFrom(s, ']', q + 1);
      it := if f == |s| || s[f] == '\n' then Stop else Section(s[q + 1..f], f + 1);
    } else {
      it := ReadPair(s, q);
    }
  }

  /** Every entry of `newdata` is set in the map of `data`, in order. */
  method IniMerge(data: Option<string>, newdata: Option<string>) returns (r: Option<string>)
    requires Terminated(TextOf(data))
    ensures Terminated(TextOf(r))
    ensures newdata.None? ==> r == data
    ensures newdata.Some? ==> Meaning(r) == Apply(Meaning(data), Assigned(newdata.value, 0, None))
  {
    hide Meaning, Terminated, Trim, Apply, SkipBlanks, ItemAt, Edited, ValidKey, ValidSection;
    r := data;
    if newdata.None? {
      return;
    }
    var s := newdata.value;
    var p := 0;
    var section: Option<string> := None;
    while true
      invariant p <= |s| && Terminated(TextOf(r))
      invariant section.Some? ==> ValidSection(section.value)
      invariant Apply(Meaning(data), Assigned(s, 0, None)) == Apply(Meaning(r), Assigned(s, p, section))
      decreases |s| - p
    {
      var q := SkipBlanksFrom(s, p);
      var it := ReadItem(s, q);
      ItemValid(s, q);
      match it
      case Stop =>
        ApplyNothing(Meaning(r));
        return;
      case Skip(next) =>
        p := next;
      case Section(name, next) =>
        section, p := Some(name), next;
      case Pair(key, value, next) =>
        if section.Some? {
          SectionHasNoNewline(section.value);
          ApplyNext(Meaning(r), Assignment(section.value, key, value), Assigned(s, next, section));
          r := IniEntry(r, section.value, key, Some(value));
        } else {
          assert [] + Assigned(s, next, section) == Assigned(s, next, section);
        }
        p := next;
    }
  }

  lemma {:induction false} SectionHasNoNewline(section: string)
    requires ValidSection(section)
    ensures '\n' !in section
  {
  }

  lemma {:induction false} KeyHasNoNewline(key: string)
    requires ValidKey(key)
    ensures '\n' !in key
  {
  }

  lemma {:induction false} BlanksStop(s: string, p: nat, e: nat)
    requires p <= |s| && e == Find(s, '\n', p)
    ensures SkipBlanks(s, p) <= e && Find(s, '\n', SkipBlanks(s, p)) == e
  {
    hide SkipBlanks, Find;
    FindIs(s, '\n', SkipBlanks(s, p), e);
  }

  /** Skipping blanks first and trimming the end is trimming. */
  lemma {:induction false} ValueCut(s: string, p: nat, b: nat, e: nat)
    requires p <= |s| && b == SkipBlanks(s, p) && b <= e <= |s|
    requires forall i :: p <= i < e ==> s[i] != '\n'
    ensures TrimRight(s[b..e]) == Trim(s[p..e]) && Trim(Trim(s[p..e])) == Trim(s[p..e])
    ensures '\n' !in Trim(s[p..e])
  {
    SkipBlanksIs(s[p..e], 0, b - p);
    TrimTwice(s[p..e]);
    CutValue(s, p, e);
  }

  // ------------------------------------------- overriding one text by another

  /**
   A text that iniMerge() and iniEntry() read alike, from the line at `p` on: no broken
   lines, nothing but blanks behind a header, no entry given twice, and no `=` in a
   comment inside a section.
   */
  ghost predicate Mergeable(s: string, p: nat, sec: Option<string>)
    requires p <= |s| && Terminated(s)
    decreases |s| - p
  {
    p < |s| ==>
      var e := Find(s, '\n', p);
      var q := SkipBlanks(s, p);
      && e < |s|
      && q <= e
      && (match Classify(s[p..e])
          case Empty => true
          case Header(name) => name.Some? && SkipBlanks(s, q) == q && HeaderAlone(s, q, e, name.value)
          case Entry(key, _) =>
            sec.Some? ==> s[q] != '#' && (sec.value, key) !in TextMap(s[e + 1..], sec)
          case Junk => s[q] == '#')
      && Mergeable(s, e + 1, SectionAfter(s[p..e], sec))
  }

  /** The header at `q` has only blanks behind it. */
  predicate HeaderAlone(s: string, q: nat, e: nat, name: string)
    requires q <= e < |s|
  {
    q + |name| + 2 <= e && SkipBlanks(s, q + |name| + 2) == e
  }

  /** An item that is only a newline. */
  lemma {:induction false} NewlineItem(s: string, p: nat, e: nat, sec: Option<string>)
    requires p <= e < |s| && s[e] == '\n' && SkipBlanks(s, p) == e
    ensures Assigned(s, p, sec) == Assigned(s, e + 1, sec)
  {
    hide SkipBlanks, Find, FindInLine;
  }

  lemma {:induction false} CommentItem(s: string, p: nat, e: nat, sec: Option<string>)
    requires IsLine(s, p, e) && SkipBlanks(s, p) < e && s[SkipBlanks(s, p)] == '#'
    ensures Assigned(s, p, sec) == Assigned(s, e + 1, sec)
  {
    hide SkipBlanks, Find, FindInLine;
    FindIs(s, '\n', SkipBlanks(s, p) + 1, e);
  }

  lemma {:induction false} FindInLineIs(s: string, c: char, p: nat, q: nat)
    requires p <= q <= |s| && (forall i :: p <= i < q ==> s[i] != c && s[i] != '\n')
    requires q < |s| ==> s[q] == c || s[q] == '\n'
    ensures FindInLine(s, c, p) == q
  {
  }

  lemma {:induction false} HeaderShape(line: string, name: string)
    requires Classify(line) == Header(Some(name))
    ensures var t := TrimLeft(line);
      && t != "" && t[0] == '['
      && var f := Find(t, ']', 0);
         0 < f < |t| && name == t[1..f]
  {
    hide TrimLeft, TrimRight, Trim;
  }

  /** Where a header line has its `]`. */
  lemma {:induction false} HeaderAtIn(s: string, p: nat, q: nat, e: nat, name: string)
    requires IsLine(s, p, e) && q == SkipBlanks(s, p) && q <= e && Classify(s[p..e]) == Header(Some(name))
    ensures q + |name| + 1 < e && s[q] == '[' && s[q + |name| + 1] == ']' && s[q + 1..q + |name| + 1] == name
    ensures FindInLine(s, ']', q + 1) == q + |name| + 1
  {
    hide SkipBlanks, Find, FindInLine, TrimLeft, Classify;
    LineAt(s, p, e);
    HeaderShape(s[p..e], name);
    var t := s[q..e];
    var f := Find(t, ']', 0);
    assert t[0] == s[q] && t[f] == s[q + f];
    assert forall i :: 0 <= i < f ==> t[i] == s[q + i];
    assert t[1..f] == s[q + 1..q + f];
    FindInLineIs(s, ']', q + 1, q + f);
  }

  lemma {:induction false} HeaderItem(s: string, p: nat, e: nat, sec: Option<string>, name: string)
    requires IsLine(s, p, e) && SkipBlanks(s, p) <= e && Classify(s[p..e]) == Header(Some(name))
    requires HeaderAlone(s, SkipBlanks(s, p), e, name)
    ensures Assigned(s, p, sec) == Assigned(s, e + 1, Some(name))
  {
    hide SkipBlanks, Find, FindInLine, Classify;
    var q := SkipBlanks(s, p);
    HeaderAtIn(s, p, q, e, name);
    var next := q + |name| + 2;
    assert ItemAt(s, q) == Section(name, next);
    NewlineItem(s, next, e, Some(name));
  }

  lemma {:induction false} EntryShape(line: string)
    requires Classify(line).Entry?
    ensures var t := TrimLeft(line);
      && t != "" && t[0] != '['
      && var f := Find(t, '=', 0);
         f < |t| && Classify(line) == Entry(TrimRight(t[..f]), Trim(t[f + 1..]))
  {
    hide TrimLeft, TrimRight, Trim, Find;
  }

  /** Where an entry line has its `=`. */
  lemma {:induction false} EntryAt(s: string, p: nat, q: nat, e: nat)
    requires IsLine(s, p, e) && q == SkipBlanks(s, p) && q <= e && Classify(s[p..e]).Entry?
    ensures q < e && s[q] != '[' && s[q] != '\n'
    ensures var f := q + Find(s[q..e], '=', 0);
      && f < e && FindInLine(s, '=', q) == f && s[f] == '='
      && Classify(s[p..e]) == Entry(TrimRight(s[q..f]), Trim(s[f + 1..e]))
  {
    hide SkipBlanks, Find, FindInLine, TrimLeft, TrimRight, Trim, Classify;
    LineAt(s, p, e);
    EntryShape(s[p..e]);
    var t := s[q..e];
    var f := Find(t, '=', 0);
    assert t[0] == s[q];
    assert forall i :: 0 <= i < f ==> t[i] == s[q + i];
    assert t[..f] == s[q..q + f] && t[f + 1..] == s[q + f + 1..e];
    FindInLineIs(s, '=', q, q + f);
  }

  lemma {:induction false} EntryItem(s: string, p: nat, e: nat, sec: Option<string>)
    requires IsLine(s, p, e) && SkipBlanks(s, p) <= e && Classify(s[p..e]).Entry?
    requires s[SkipBlanks(s, p)] != '#'
    ensures var l := Classify(s[p..e]);
      Assigned(s, p, sec) ==
        (if sec.Some? then [Assignment(sec.value, l.key, l.value)] else []) + Assigned(s, e + 1, sec)
  {
    hide SkipBlanks, Find, FindInLine, TrimmedLen, Classify, TrimRight, Trim;
    var q := SkipBlanks(s, p);
    EntryAt(s, p, q, e);
    var f := q + Find(s[q..e], '=', 0);
    FindIs(s, '\n', f + 1, e);
    var l := Classify(s[p..e]);
    assert ItemAt(s, q) == Pair(l.key, l.value, e);
    SkipBlanksIs(s, e, e);
    NewlineItem(s, e, e, sec);
  }

  /** The assignments of one line. */
  function LineAssigned(line: string, sec: Option<string>): seq<Assignment> {
    var l := Classify(line);
    if l.Entry? && sec.Some? then [Assignment(sec.value, l.key, l.value)] else []
  }

  /** What the line at `p` of a text that both functions read alike can be. */
  lemma {:induction false} MergeableLine(s: string, p: nat, sec: Option<string>)
    requires p < |s| && Terminated(s) && Mergeable(s, p, sec)
    ensures var e, q := Find(s, '\n', p), SkipBlanks(s, p);
      && IsLine(s, p, e) && q <= e
      && var l := Classify(s[p..e]);
         && (l.Header? ==> l.name.Some? && HeaderAlone(s, q, e, l.name.value))
         && (l.Entry? && sec.Some? ==> s[q] != '#')
         && (l.Junk? ==> s[q] == '#')
  {
    hide SkipBlanks, Find, Classify, TextMap, HeaderAlone, SectionAfter;
  }

  lemma {:induction false} JunkLine(s: string, p: nat, e: nat)
    requires IsLine(s, p, e) && Classify(s[p..e]).Junk?
    ensures SkipBlanks(s, p) < e
  {
    LineAt(s, p, e);
  }

  lemma {:induction false} LineAssignedIs(line: string, sec: Option<string>)
    ensures var l := Classify(line);
      LineAssigned(line, sec) == if l.Entry? && sec.Some? then [Assignment(sec.value, l.key, l.value)] else []
    ensures SectionAfter(line, sec) == if Classify(line).Header? then Classify(line).name else sec
  {
    hide Classify;
  }

  /** One line of a text that both functions read alike. */
  lemma {:induction false} MergeLine(s: string, p: nat, sec: Option<string>)
    requires p < |s| && Terminated(s) && Mergeable(s, p, sec)
    ensures var e := Find(s, '\n', p);
      && IsLine(s, p, e)
      && Assigned(s, p, sec) ==
           LineAssigned(s[p..e], sec) + Assigned(s, e + 1, SectionAfter(s[p..e], sec))
  {
    hide *;
    MergeableLine(s, p, sec);
    var e, q := Find(s, '\n', p), SkipBlanks(s, p);
    var line := s[p..e];
    LineAssignedIs(line, sec);
    match Classify(line)
    case Empty =>
      EmptyLine(s, p, e);
      NewlineItem(s, p, e, sec);
    case Header(name) =>
      HeaderItem(s, p, e, sec, name.value);
    case Entry(_, _) =>
      EntryAt(s, p, q, e);
      if s[q] == '#' {
        CommentItem(s, p, e, sec);
      } else {
        EntryItem(s, p, e, sec);
      }
    case Junk =>
      JunkLine(s, p, e);
      CommentItem(s, p, e, sec);
  }

  lemma {:induction false} EmptyLine(s: string, p: nat, e: nat)
    requires IsLine(s, p, e) && Classify(s[p..e]).Empty?
    ensures p <= e < |s| && s[e] == '\n' && SkipBlanks(s, p) == e
  {
    LineAt(s, p, e);
  }

  lemma {:induction false} OverrideTwice(m: IniMap, a: IniMap, b: IniMap)
    requires a.Keys !! b.Keys
    ensures (m + a) + b == m + (b + a)
  {
  }

  lemma {:induction false} MergeIsOverride(m: IniMap, s: string, p: nat, sec: Option<string>)
    requires p <= |s| && Terminated(s) && Mergeable(s, p, sec)
    ensures Apply(m, Assigned(s, p, sec)) == m + TextMap(s[p..], sec)
    decreases |s| - p
  {
    hide *;
    if p == |s| {
      assert s[p..] == "";
      NothingMap(sec);
      AssignedAtEnd(s, sec);
      ApplyNothing(m);
    } else {
      MergeLine(s, p, sec);
      MergeableNext(s, p, sec);
      var e := Find(s, '\n', p);
      var line := s[p..e];
      var sec2 := SectionAfter(line, sec);
      var rest := TextMap(s[e + 1..], sec2);
      TextFrom(s, p, e, sec);
      ApplyConcat(m, LineAssigned(line, sec), Assigned(s, e + 1, sec2));
      ApplyLine(m, line, sec);
      MergeIsOverride(m + LineMap(line, sec), s, e + 1, sec2);
      OverrideTwice(m, LineMap(line, sec), rest);
    }
  }

  lemma {:induction false} AssignedAtEnd(s: string, sec: Option<string>)
    ensures Assigned(s, |s|, sec) == []
  {
    SkipBlanksIs(s, |s|, |s|);
  }

  lemma {:induction false} ApplyLine(m: IniMap, line: string, sec: Option<string>)
    ensures Apply(m, LineAssigned(line, sec)) == m + LineMap(line, sec)
  {
    hide Classify;
    ApplyNothing(m);
    var l := Classify(line);
    if l.Entry? && sec.Some? {
      var a := Assignment(sec.value, l.key, l.value);
      ApplyNext(m, a, []);
      assert [a] + [] == [a];
      ApplyNothing(m[(a.section, a.key) := a.value]);
    }
  }

  lemma {:induction false} MergeableNext(s: string, p: nat, sec: Option<string>)
    requires p < |s| && Terminated(s) && Mergeable(s, p, sec)
    ensures var e := Find(s, '\n', p);
      && e < |s|
      && Mergeable(s, e + 1, SectionAfter(s[p..e], sec))
      && LineMap(s[p..e], sec).Keys !! TextMap(s[e + 1..], SectionAfter(s[p..e], sec)).Keys
  {
    hide SkipBlanks, Find, Classify, TextMap;
  }

  lemma {:induction false} TextFrom(s: string, p: nat, e: nat, sec: Option<string>)
    requires IsLine(s, p, e)
    ensures TextMap(s[p..], sec) == TextMap(s[e + 1..], SectionAfter(s[p..e], sec)) + LineMap(s[p..e], sec)
  {
    hide Find, Classify, LineMap, SectionAfter;
    var u := s[p..];
    FindIs(u, '\n', 0, e - p);
    Unfold(u, sec);
    assert u[..e - p] == s[p..e] && u[e - p + 1..] == s[e + 1..];
  }

  /** Merging such a text is overriding the map of `data` by the map of `newdata`. */
  lemma {:induction false} MergeOverrides(data: Option<string>, newdata: string)
    requires Terminated(newdata) && Mergeable(newdata, 0, None)
    ensures Apply(Meaning(data), Assigned(newdata, 0, None)) == Meaning(data) + Meaning(Some(newdata))
  {
    hide Assigned, Apply, Mergeable, TextMap, Terminated;
    MergeIsOverride(Meaning(data), newdata, 0, None);
    assert newdata[0..] == newdata;
  }

  /**
   iniEntry() does not know comments: a commented-out entry inside a section is an entry
   for it, and merging does not carry it over.
   */
  lemma {:induction false} CommentedEntry()
    ensures var s := "[a]\n#x=1\n";
      && Meaning(Some(s)) == map[("a", "#x") := "1"]
      && Apply(map[], Assigned(s, 0, None)) == map[]
  {
    hide *;
    var s := "[a]\n#x=1\n";
    assert "[a]\n" == "[a]" + "\n" && "#x=1\n" == "#x=1" + "\n" && s == "[a]\n" + "#x=1\n";
    CommentedLines();
    CommentedAssigned(s);
    ApplyNothing(map[]);
    OneLine("[a]", None);
    OneLine("#x=1", Some("a"));
    NewlineEnds("[a]");
    ConcatMap("[a]\n", "#x=1\n", None);
    MeaningOf(s);
  }

  lemma {:induction false} NewlineEnds(line: string)
    ensures Terminated(line + "\n")
  {
  }

  lemma {:induction false} MeaningOf(s: string)
    ensures Meaning(Some(s)) == TextMap(s, None)
  {
    hide TextMap;
  }

  lemma {:induction false} CommentedLines()
    ensures SectionAfter("[a]", None) == Some("a") && LineMap("[a]", None) == map[]
    ensures LineMap("#x=1", Some("a")) == map[("a", "#x") := "1"]
  {
    CommentedHeader();
    CommentedPair();
    hide Classify;
  }

  lemma {:induction false} CommentedHeader()
    ensures Classify("[a]") == Header(Some("a"))
  {
    hide Classify;
    HeaderLine("a");
    assert "[" + "a" + "]" == "[a]";
  }

  lemma {:induction false} CommentedPair()
    ensures Classify("#x=1") == Entry("#x", "1")
  {
    TrimPlain("#x");
    TrimPlain("1");
    hide *;
    EntryLine("#x", "1");
    assert "#x" + "=" + "1" == "#x=1";
  }

  lemma {:induction false} TrimPlain(s: string)
    requires s != "" && !IsBlank(s[0]) && !IsBlank(s[|s| - 1])
    ensures TrimLeft(s) == s && TrimRight(s) == s && Trim(s) == s
  {
    SkipBlanksIs(s, 0, 0);
    TrimmedLenIs(s, |s|);
  }

  lemma {:induction false} CommentedAssigned(s: string)
    requires s == "[a]\n#x=1\n"
    ensures Assigned(s, 0, None) == []
  {
    SkipBlanksIs(s, 0, 0);
    FindInLineIs(s, ']', 1, 2);
    assert ItemAt(s, 0) == Section("a", 3);
    SkipBlanksIs(s, 3, 3);
    assert ItemAt(s, 3) == Skip(4);
    SkipBlanksIs(s, 4, 4);
    FindIs(s, '\n', 5, 8);
    assert ItemAt(s, 4) == Skip(9);
    SkipBlanksIs(s, 9, 9);
    assert ItemAt(s, 9) == Stop;
    AssignedStep(s, 9, Some("a"));
    AssignedStep(s, 4, Some("a"));
    AssignedStep(s, 3, Some("a"));
    AssignedStep(s, 0, None);
  }

  lemma {:induction false} AssignedStep(s: string, p: nat, sec: Option<string>)
    requires p <= |s|
    ensures var it := ItemAt(s, SkipBlanks(s, p));
      && (it.Stop? ==> Assigned(s, p, sec) == [])
      && (it.Skip? ==> Assigned(s, p, sec) == Assigned(s, it.next, sec))
      && (it.Section? ==> Assigned(s, p, sec) == Assigned(s, it.next, Some(it.name)))
  {
    hide ItemAt, SkipBlanks;
  }
}
