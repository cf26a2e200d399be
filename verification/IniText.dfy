/**
 What an ini text means: the finite map from (section, key) to value that reading
 it line by line gives. The first entry for a section and key is the one that counts.
 */
module IniText {
  import opened Wrappers

  predicate IsBlank(c: char) {
    c == ' ' || c == '\t'
  }

  /** The end of the run of blanks at `p`. */
  function SkipBlanks(s: string, p: nat): (q: nat)
    requires p <= |s|
    ensures p <= q <= |s|
    ensures forall i :: p <= i < q ==> IsBlank(s[i])
    ensures q < |s| ==> !IsBlank(s[q])
    decreases |s| - p
  {
    if p < |s| && IsBlank(s[p]) then SkipBlanks(s, p + 1) else p
  }

  /** The length of `s` without the blanks at its end. */
  function TrimmedLen(s: string): (n: nat)
    ensures n <= |s|
    ensures forall i :: n <= i < |s| ==> IsBlank(s[i])
    ensures n > 0 ==> !IsBlank(s[n - 1])
  {
    if s != "" && IsBlank(s[|s| - 1]) then TrimmedLen(s[..|s| - 1]) else |s|
  }

  /** The place of the first `c` at or after `p`, or the end. */
  function Find(s: string, c: char, p: nat): (q: nat)
    requires p <= |s|
    ensures p <= q <= |s|
    ensures forall i :: p <= i < q ==> s[i] != c
    ensures q < |s| ==> s[q] == c
    decreases |s| - p
  {
    if p < |s| && s[p] != c then Find(s, c, p + 1) else p
  }

  function TrimLeft(s: string): string {
    s[SkipBlanks(s, 0)..]
  }

  function TrimRight(s: string): string {
    s[..TrimmedLen(s)]
  }

  function Trim(s: string): string {
    TrimRight(TrimLeft(s))
  }

  datatype Line =
    | Empty
    | Header(name: Option<string>)   // no name: the `]` is missing
    | Entry(key: string, value: string)
    | Junk

  function Classify(line: string): Line {
    var t := TrimLeft(line);
    if t == "" then Empty
    else if t[0] == '[' then
      var q := Find(t, ']', 0);
      Header(if q < |t| then Some(t[1..q]) else None)
    else
      var q := Find(t, '=', 0);
      if q < |t| then Entry(TrimRight(t[..q]), Trim(t[q + 1..])) else Junk
  }

  type IniMap = map<(string, string), string>

  /** Past the first line of a text that is not empty. */
  function NextLine(s: string): (n: nat)
    requires s != ""
    ensures 0 < n <= |s|
  {
    var q := Find(s, '\n', 0);
    if q < |s| then q + 1 else q
  }

  function FirstLine(s: string): string
    requires s != ""
  {
    s[..Find(s, '\n', 0)]
  }

  /** The section in force after a line. */
  function SectionAfter(line: string, sec: Option<string>): Option<string> {
    match Classify(line)
    case Header(name) => name
    case _ => sec
  }

  /** What a line defines, inside section `sec`. */
  function LineMap(line: string, sec: Option<string>): IniMap {
    match Classify(line)
    case Entry(key, value) => if sec.Some? then map[(sec.value, key) := value] else map[]
    case _ => map[]
  }

  /** What a text defines that starts inside section `sec`. */
  function TextMap(s: string, sec: Option<string>): IniMap
    decreases |s|
  {
    if s == "" then map[]
    else
      TextMap(s[NextLine(s)..], SectionAfter(FirstLine(s), sec)) + LineMap(FirstLine(s), sec)
  }

  /** The section in force at the end of a text that starts inside section `sec`. */
  function EndSection(s: string, sec: Option<string>): Option<string>
    decreases |s|
  {
    if s == "" then sec
    else EndSection(s[NextLine(s)..], SectionAfter(FirstLine(s), sec))
  }

  /** The map of a text, or of none. */
  function Meaning(data: Option<string>): IniMap {
    match data
    case None => map[]
    case Some(s) => TextMap(s, None)
  }

  predicate Terminated(s: string) {
    s == "" || s[|s| - 1] == '\n'
  }

  predicate BlankText(s: string) {
    forall i :: 0 <= i < |s| ==> IsBlank(s[i]) || s[i] == '\n'
  }

  predicate ValidSection(section: string) {
    ']' !in section && '\n' !in section
  }

  /** A key that a line can carry. */
  predicate ValidKey(key: string) {
    && '=' !in key && '\n' !in key
    && (key != "" ==> key[0] != '[' && !IsBlank(key[0]) && !IsBlank(key[|key| - 1]))
  }

  // ------------------------------------------------------------------- lemmas

  lemma {:induction false} FindIs(s: string, c: char, p: nat, q: nat)
    requires p <= q <= |s| && (forall i :: p <= i < q ==> s[i] != c)
    requires q < |s| ==> s[q] == c
    ensures Find(s, c, p) == q
  {
  }

  lemma {:induction false} SkipBlanksIs(s: string, p: nat, q: nat)
    requires p <= q <= |s| && (forall i :: p <= i < q ==> IsBlank(s[i]))
    requires q < |s| ==> !IsBlank(s[q])
    ensures SkipBlanks(s, p) == q
  {
  }

  lemma {:induction false} TrimmedLenIs(s: string, n: nat)
    requires n <= |s| && (forall i :: n <= i < |s| ==> IsBlank(s[i]))
    requires n > 0 ==> !IsBlank(s[n - 1])
    ensures TrimmedLen(s) == n
  {
  }

  /** The first line of `a + b` is that of `a`, when `a` ends its lines. */
  lemma {:induction false} FirstOfConcat(a: string, b: string)
    requires a != "" && Terminated(a)
    ensures NextLine(a + b) == NextLine(a) && FirstLine(a + b) == FirstLine(a)
    ensures Terminated(a[NextLine(a)..])
    ensures (a + b)[NextLine(a)..] == a[NextLine(a)..] + b
  {
    var q := Find(a, '\n', 0);
    assert q < |a|;
    FindIs(a + b, '\n', 0, q);
  }

  lemma {:induction false} Unfold(s: string, sec: Option<string>)
    requires s != ""
    ensures var sec2 := SectionAfter(FirstLine(s), sec);
      && TextMap(s, sec) == TextMap(s[NextLine(s)..], sec2) + LineMap(FirstLine(s), sec)
      && EndSection(s, sec) == EndSection(s[NextLine(s)..], sec2)
  {
  }

  lemma {:induction false} NothingMap(sec: Option<string>)
    ensures TextMap("", sec) == map[] && EndSection("", sec) == sec
  {
  }

  lemma {:induction false} ConcatMap(a: string, b: string, sec: Option<string>)
    requires Terminated(a)
    ensures TextMap(a + b, sec) == TextMap(b, EndSection(a, sec)) + TextMap(a, sec)
    ensures EndSection(a + b, sec) == EndSection(b, EndSection(a, sec))
    decreases |a|
  {
    hide *;
    if a == "" {
      assert a + b == b;
      NothingMap(sec);
    } else {
      FirstOfConcat(a, b);
      Unfold(a + b, sec);
      Unfold(a, sec);
      ConcatMap(a[NextLine(a)..], b, SectionAfter(FirstLine(a), sec));
    }
  }

  lemma {:induction false} BlankMap(s: string, sec: Option<string>)
    requires BlankText(s)
    ensures TextMap(s, sec) == map[] && EndSection(s, sec) == sec
    decreases |s|
  {
    if s != "" {
      var l := FirstLine(s);
      assert forall i :: 0 <= i < |l| ==> l[i] == s[i];
      SkipBlanksIs(l, 0, |l|);
      BlankMap(s[NextLine(s)..], sec);
    }
  }

  lemma {:induction false} OneLine(line: string, sec: Option<string>)
    requires '\n' !in line
    ensures TextMap(line + "\n", sec) == LineMap(line, sec)
    ensures EndSection(line + "\n", sec) == SectionAfter(line, sec)
  {
    var s := line + "\n";
    FindIs(s, '\n', 0, |line|);
    assert s[..|line|] == line && s[|s|..] == "";
  }
}
