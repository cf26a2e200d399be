/**
 What quotes and backslashes give, said of whole texts: every argument can be written in
 each of the three ways of quoting, and every value with the escapes of the configuration.
 */
module QuotingLaws {
  import opened Wrappers
  import opened ArgText
  import I = IniText
  import K = KdmrcValue

  // ------------------------------------------------------------------ arguments

  /** Backslashes, and nothing else. */
  function Backslashes(n: nat): string {
    if n == 0 then "" else "\\" + Backslashes(n - 1)
  }

  /** So many backslashes let the character behind them be taken as it is. */
  predicate QuotesOne(st: Style, n: nat, c: char) {
    match st
    case Plain => n == 1
    case Config => if c == '\\' then n == 3 else 1 <= n <= 3
  }

  /** Each character of `w` with backslashes before it. */
  function EachQuoted(w: string, ns: seq<nat>): string
    requires |ns| == |w|
  {
    if w == "" then "" else Backslashes(ns[0]) + [w[0]] + EachQuoted(w[1..], ns[1..])
  }

  /** Enough of them each time. */
  predicate AllQuoted(st: Style, w: string, ns: seq<nat>) {
    |ns| == |w| && forall i :: 0 <= i < |w| ==> QuotesOne(st, ns[i], w[i])
  }

  lemma {:induction false} PrependTwice(a: string, b: string, w: Word)
    ensures Prepend(a, Prepend(b, w)) == Prepend(a + b, w)
  {
    assert w.Word? ==> a + (b + w.text) == a + b + w.text;
  }

  lemma {:induction false} FewBackslashes()
    ensures Backslashes(1) == "\\" && Backslashes(2) == "\\\\" && Backslashes(3) == "\\\\\\"
  {
    assert Backslashes(1) == "\\" + Backslashes(0);
    assert Backslashes(2) == "\\" + Backslashes(1);
    assert Backslashes(3) == "\\" + Backslashes(2);
  }

  /** `t` stands in the text at `p`. */
  predicate At(s: string, p: nat, t: string) {
    p + |t| <= |s| && s[p..p + |t|] == t
  }

  lemma {:induction false} AtParts(s: string, p: nat, a: string, b: string)
    requires At(s, p, a + b)
    ensures At(s, p, a) && At(s, p + |a|, b)
  {
    var t := s[p..p + |a + b|];
    assert t[..|a|] == a && t[|a|..] == b;
    assert s[p..p + |a|] == t[..|a|];
    assert s[p + |a|..p + |a| + |b|] == t[|a|..];
  }

  lemma {:induction false} AtChars(s: string, p: nat, t: string)
    requires At(s, p, t)
    ensures forall i: nat :: i < |t| ==> t[i] == s[p + i]
  {
    var u := s[p..p + |t|];
    assert forall i: nat :: i < |u| ==> u[i] == s[p + i];
  }

  /** Outside single quotes a backslash gives the character behind it, whatever it is. */
  lemma {:induction false} OneTaken(st: Style, s: string, p: nat, q: Quote, n: nat, c: char)
    requires q != Single && QuotesOne(st, n, c) && At(s, p, Backslashes(n) + [c])
    ensures WordAt(st, s, p, q) == Prepend([c], WordAt(st, s, p + n + 1, q))
  {
    FewBackslashes();
    BackslashesLen(n);
    AtChars(s, p, Backslashes(n) + [c]);
    var t := Backslashes(n) + [c];
    assert t[0] == '\\' && t[n] == c && (n >= 2 ==> t[1] == '\\') && (n == 3 ==> t[2] == '\\');
    hide Backslashes, At;
    TakenLast(st, q, s, p, n, c);
  }

  lemma {:induction false} TakenLast(st: Style, q: Quote, s: string, p: nat, n: nat, c: char)
    requires q != Single && QuotesOne(st, n, c) && p + n < |s| && s[p + n] == c
    requires s[p] == '\\' && (n >= 2 ==> s[p + 1] == '\\') && (n == 3 ==> s[p + 2] == '\\')
    ensures TakenAt(st, q, s, p) == p + n
    ensures WordAt(st, s, p, q) == Prepend([c], WordAt(st, s, p + n + 1, q))
  {
  }

  lemma {:induction false} EachTaken(st: Style, s: string, p: nat, q: Quote, w: string, ns: seq<nat>)
    requires q != Single && AllQuoted(st, w, ns) && At(s, p, EachQuoted(w, ns))
    ensures p + |EachQuoted(w, ns)| <= |s|
    ensures WordAt(st, s, p, q) == Prepend(w, WordAt(st, s, p + |EachQuoted(w, ns)|, q))
    decreases |w|
  {
    hide WordAt, At, QuotesOne, Backslashes, EachQuoted, AllQuoted;
    EachIs(st, w, ns);
    if w == "" {
      AtIs(s, p, "");
      PrependNone(WordAt(st, s, p, q));
    } else {
      var head, rest := Backslashes(ns[0]) + [w[0]], EachQuoted(w[1..], ns[1..]);
      AtParts(s, p, head, rest);
      AtIs(s, p + |head|, rest);
      OneTaken(st, s, p, q, ns[0], w[0]);
      BackslashesLen(ns[0]);
      EachTaken(st, s, p + |head|, q, w[1..], ns[1..]);
      PrependTwice([w[0]], w[1..], WordAt(st, s, p + |EachQuoted(w, ns)|, q));
      assert [w[0]] + w[1..] == w;
    }
  }

  lemma {:induction false} AtIs(s: string, p: nat, t: string)
    requires At(s, p, t)
    ensures p + |t| <= |s|
  {
  }

  lemma {:induction false} EachIs(st: Style, w: string, ns: seq<nat>)
    requires AllQuoted(st, w, ns)
    ensures |ns| == |w|
    ensures w == "" ==> EachQuoted(w, ns) == ""
    ensures w != "" ==>
      && EachQuoted(w, ns) == (Backslashes(ns[0]) + [w[0]]) + EachQuoted(w[1..], ns[1..])
      && QuotesOne(st, ns[0], w[0]) && AllQuoted(st, w[1..], ns[1..])
  {
    hide QuotesOne, Backslashes;
  }

  lemma {:induction false} PrependNone(w: Word)
    ensures Prepend("", w) == w
  {
    assert w.Word? ==> "" + w.text == w.text;
  }

  lemma {:induction false} BackslashesLen(n: nat)
    ensures |Backslashes(n)| == n
  {
    if n > 0 {
      BackslashesLen(n - 1);
    }
  }

  lemma {:induction false} OneWord(st: Style, s: string, w: string)
    requires s != "" && !IsSpace(s[0]) && WordAt(st, s, 0, Bare) == Word(w, |s|)
    ensures Args(st, s) == Some([w])
  {
    hide WordAt;
    assert ArgsAt(st, s, |s|) == Some([]);
    assert [w] + [] == [w];
  }

  /** Every argument that is not empty can be written with backslashes alone. */
  lemma {:induction false} BareQuoted(st: Style, w: string, ns: seq<nat>)
    requires w != "" && AllQuoted(st, w, ns)
    ensures Args(st, EachQuoted(w, ns)) == Some([w])
  {
    var s := EachQuoted(w, ns);
    FewBackslashes();
    assert s[0] == '\\' by {
      assert s == Backslashes(ns[0]) + [w[0]] + EachQuoted(w[1..], ns[1..]);
    }
    assert s[0..0 + |s|] == s;
    EachTaken(st, s, 0, Bare, w, ns);
    WordEnds(st, s, w);
    OneWord(st, s, w);
  }

  lemma {:induction false} WordEnds(st: Style, s: string, w: string)
    ensures Prepend(w, WordAt(st, s, |s|, Bare)) == Word(w, |s|)
  {
    assert w + "" == w;
  }

  /** ... or in the same way between double quotes ... */
  lemma {:induction false} DoubleQuoted(st: Style, w: string, ns: seq<nat>)
    requires AllQuoted(st, w, ns)
    ensures Args(st, "\"" + EachQuoted(w, ns) + "\"") == Some([w])
  {
    var t := EachQuoted(w, ns);
    var s := "\"" + t + "\"";
    assert s[1..1 + |t|] == t && s[|t| + 1] == '"';
    hide TakenAt;
    EachTaken(st, s, 1, Double, w, ns);
    assert WordAt(st, s, 0, Bare) == WordAt(st, s, 1, Double);
    assert WordAt(st, s, |t| + 1, Double) == WordAt(st, s, |s|, Bare);
    WordEnds(st, s, w);
    OneWord(st, s, w);
  }

  /** What stands between single quotes for `w`: the one splitter reads backslashes in pairs even there. */
  function BetweenSingle(st: Style, w: string): string {
    if w == "" then ""
    else SingleChar(st, w[0]) + BetweenSingle(st, w[1..])
  }

  function SingleChar(st: Style, c: char): string {
    if st == Config && c == '\\' then "\\\\" else [c]
  }

  lemma {:induction false} SingleOne(st: Style, s: string, p: nat, c: char)
    requires c != '\'' && At(s, p, SingleChar(st, c)) && p + |SingleChar(st, c)| < |s|
    ensures WordAt(st, s, p, Single) == Prepend([c], WordAt(st, s, p + |SingleChar(st, c)|, Single))
  {
    AtChars(s, p, SingleChar(st, c));
    hide At;
    assert SingleChar(st, c)[0] == c;
    if st == Config && c == '\\' {
      assert SingleChar(st, c)[1] == '\\';
    }
  }

  lemma {:induction false} SingleTaken(st: Style, s: string, p: nat, w: string)
    requires '\'' !in w && At(s, p, BetweenSingle(st, w)) && p + |BetweenSingle(st, w)| < |s|
    ensures WordAt(st, s, p, Single) == Prepend(w, WordAt(st, s, p + |BetweenSingle(st, w)|, Single))
    decreases |w|
  {
    hide WordAt, At;
    if w == "" {
      PrependNone(WordAt(st, s, p, Single));
    } else {
      var head, rest := SingleChar(st, w[0]), BetweenSingle(st, w[1..]);
      assert BetweenSingle(st, w) == head + rest;
      assert w[0] in w;
      AtParts(s, p, head, rest);
      SingleOne(st, s, p, w[0]);
      SingleTaken(st, s, p + |head|, w[1..]);
      PrependTwice([w[0]], w[1..], WordAt(st, s, p + |BetweenSingle(st, w)|, Single));
      assert [w[0]] + w[1..] == w;
    }
  }

  /** ... and one without a single quote between single quotes, where a backslash is itself. */
  lemma {:induction false} SingleQuoted(st: Style, w: string)
    requires '\'' !in w
    ensures Args(st, "'" + BetweenSingle(st, w) + "'") == Some([w])
  {
    var t := BetweenSingle(st, w);
    var s := "'" + t + "'";
    assert s[1..1 + |t|] == t && s[|t| + 1] == '\'';
    SingleTaken(st, s, 1, w);
    assert WordAt(st, s, 0, Bare) == WordAt(st, s, 1, Single);
    assert WordAt(st, s, |t| + 1, Single) == WordAt(st, s, |s|, Bare);
    WordEnds(st, s, w);
    OneWord(st, s, w);
  }

  /** A backslash that ends the text, outside single quotes, is itself. */
  lemma {:induction false} LastBackslash(st: Style)
    ensures Args(st, "\\") == Some(["\\"])
  {
    assert WordAt(st, "\\", 0, Bare) == Prepend("\\", WordAt(st, "\\", 1, Bare));
    WordEnds(st, "\\", "\\");
    OneWord(st, "\\", "\\");
  }

  // --------------------------------------------------------------------- values

  /** The characters that have an escape of their own, and their letters. */
  const ESCAPES: map<char, char> := map[' ' := 's', '\t' := 't', '\n' := 'n', '\r' := 'r', '\\' := '\\']

  /** A value, written with an escape for each character that has one. */
  function Escaped(u: string): string {
    if u == "" then ""
    else (if u[0] in ESCAPES then ['\\', ESCAPES[u[0]]] else [u[0]]) + Escaped(u[1..])
  }

  lemma {:induction false} EscapedCells(u: string)
    ensures K.Reads(Escaped(u), u) && K.Chars(K.Cells(Escaped(u))) == u
    ensures forall i :: 0 <= i < |K.Cells(Escaped(u))| ==> K.Cells(Escaped(u))[i].kept
    ensures '\n' !in Escaped(u)
    decreases |u|
  {
    if u == "" {
      assert K.Chars(K.Cells("")) == "";
    } else {
      var head := if u[0] in ESCAPES then ['\\', ESCAPES[u[0]]] else [u[0]];
      EscapedHead(u[0], head);
      EscapedCells(u[1..]);
      hide K.Cells, K.Complete, ESCAPES;
      assert Escaped(u) == head + Escaped(u[1..]);
      K.CellsConcat(head, Escaped(u[1..]));
      K.ReadsConcat(head, [u[0]], Escaped(u[1..]), u[1..]);
      assert [u[0]] + u[1..] == u;
    }
  }

  lemma {:induction false} EscapedHead(c: char, head: string)
    requires head == if c in ESCAPES then ['\\', ESCAPES[c]] else [c]
    ensures K.Reads(head, [c]) && K.Cells(head) == [K.Cell(c, true)] && '\n' !in head
  {
    assert head[1..] == "" || (|head| == 2 && head[2..] == "");
    assert K.Cells(head) == [K.Cell(c, true)];
    assert K.Chars(K.Cells(head)) == [c];
  }

  /** Spaces and tabs only. */
  predicate Blanks(t: string) {
    forall i :: 0 <= i < |t| ==> t[i] == ' ' || t[i] == '\t'
  }

  /** White space without a line end. */
  predicate Lead(t: string) {
    forall i :: 0 <= i < |t| ==> t[i] in SPACES && t[i] != '\n'
  }

  /**
   Every value can be written: with the escapes nothing is trimmed off it, and no line
   ends in it. White space in front, blanks behind and a lone backslash at the end go. The
   two blanks without an escape are lost in front of a value.
   */
  lemma {:induction false} ValueWritten(lead: string, u: string, blanks: string, lone: bool, rest: string)
    requires Lead(lead) && Blanks(blanks)
    requires u == "" || (u[0] != '\U{0b}' && u[0] != '\U{0c}')
    ensures K.Value(K.LineOf(lead + Escaped(u) + blanks + (if lone then "\\" else "") + "\n" + rest)) == u
  {
    EscapedCells(u);
    var last := if lone then "\\" else "";
    hide Escaped, K.Cells, K.Complete, K.SkipLead, K.LineOf, Lead, Blanks;
    LineIs(lead, Escaped(u), blanks, last, rest);
    LeadSkipped(lead, Escaped(u) + blanks + last);
    NoLeadLost(u, blanks + last);
    assert Escaped(u) + blanks + last == Escaped(u) + (blanks + last);
    if u == "" {
      BlanksSkipped(blanks, last);
      NoCells(last);
    } else {
      WrittenCells(u, blanks, last);
    }
  }

  lemma {:induction false} NoCells(last: string)
    requires last == "" || last == "\\"
    ensures K.Trimmed(K.Cells(last)) == ""
  {
    assert K.Cells(last) == [];
  }

  lemma {:induction false} KeptFront(cells: seq<K.Cell>, n: nat)
    requires n <= |cells| && (forall i :: 0 <= i < n ==> cells[i].kept) && forall i :: n <= i < |cells| ==> !cells[i].kept
    ensures K.Trimmed(cells) == K.Chars(cells[..n])
  {
    K.KeptLenIs(cells, n);
  }

  lemma {:induction false} WrittenCells(u: string, blanks: string, last: string)
    requires Blanks(blanks) && (last == "" || last == "\\")
    ensures K.Trimmed(K.Cells(Escaped(u) + blanks + last)) == u
  {
    EscapedCells(u);
    BlankCells(Escaped(u), blanks, last);
    hide K.Trimmed, K.Chars, K.Cells, K.Complete, Escaped, Blanks;
    var cells, n := K.Cells(Escaped(u) + blanks + last), |K.Cells(Escaped(u))|;
    assert forall i :: 0 <= i < n ==> cells[i] == cells[..n][i];
    KeptFront(cells, n);
  }

  lemma {:induction false} LineIs(lead: string, e: string, blanks: string, last: string, rest: string)
    requires Lead(lead) && Blanks(blanks) && '\n' !in e && '\n' !in last
    ensures K.LineOf(lead + e + blanks + last + "\n" + rest) == lead + (e + blanks + last)
  {
    var line := lead + (e + blanks + last);
    var t := lead + e + blanks + last + "\n" + rest;
    assert t == line + "\n" + rest;
    assert '\n' !in lead && '\n' !in blanks && '\n' !in line;
    assert t[|line|] == '\n' && forall i :: 0 <= i < |line| ==> t[i] == line[i];
    I.FindIs(t, '\n', 0, |line|);
    assert t[..|line|] == line;
  }

  lemma {:induction false} LeadSkipped(lead: string, x: string)
    requires Lead(lead)
    ensures K.SkipLead(lead + x) == K.SkipLead(x)
    decreases |lead|
  {
    if lead == "" {
      assert lead + x == x;
    } else {
      assert (lead + x)[1..] == lead[1..] + x;
      assert IsSpace(lead[0]);
      LeadSkipped(lead[1..], x);
    }
  }

  lemma {:induction false} BlanksSkipped(blanks: string, last: string)
    requires Blanks(blanks) && (last == "" || last == "\\")
    ensures K.SkipLead(blanks + last) == last
  {
    LeadSkipped(blanks, last);
  }

  lemma {:induction false} BlankTail(blanks: string, last: string)
    requires Blanks(blanks) && (last == "" || last == "\\")
    ensures forall i :: 0 <= i < |K.Cells(blanks + last)| ==> !K.Cells(blanks + last)[i].kept
    decreases |blanks|
  {
    if blanks == "" {
      assert blanks + last == last && K.Cells(last) == [];
    } else {
      assert (blanks + last)[1..] == blanks[1..] + last;
      BlankTail(blanks[1..], last);
    }
  }

  lemma {:induction false} BlankCells(e: string, blanks: string, last: string)
    requires K.Complete(e) && Blanks(blanks) && (last == "" || last == "\\")
    ensures var cells := K.Cells(e + blanks + last);
      && |cells| >= |K.Cells(e)| && cells[..|K.Cells(e)|] == K.Cells(e)
      && forall i :: |K.Cells(e)| <= i < |cells| ==> !cells[i].kept
  {
    hide K.Cells, K.Complete;
    assert e + blanks + last == e + (blanks + last);
    K.CellsConcat(e, blanks + last);
    BlankTail(blanks, last);
  }

  lemma {:induction false} NoLeadLost(u: string, x: string)
    requires u == "" || (u[0] != '\U{0b}' && u[0] != '\U{0c}')
    ensures K.SkipLead(Escaped(u) + x) == if u == "" then K.SkipLead(x) else Escaped(u) + x
  {
    if u != "" {
      assert Escaped(u)[0] == (if u[0] in ESCAPES then '\\' else u[0]);
    } else {
      assert Escaped(u) + x == x;
    }
  }

  /** A backslash before any other character is itself, and so is the character. */
  lemma {:induction false} NoSuchEscape(c: char)
    requires forall b :: b in ESCAPES ==> ESCAPES[b] != c
    ensures K.Reads(['\\', c], ['\\', c])
  {
    assert ESCAPES[' '] == 's' && ESCAPES['\t'] == 't' && ESCAPES['\n'] == 'n' && ESCAPES['\r'] == 'r'
        && ESCAPES['\\'] == '\\';
    assert ['\\', c][2..] == "";
    assert K.Cells(['\\', c]) == [K.Cell('\\', true), K.Cell(c, true)];
  }

  // -------------------------------------------------------------------- separators

  /** What isspace() takes for white space. */
  const SPACES: set<char> := {' ', '\t', '\n', '\r', '\U{0b}', '\U{0c}'}

  /** What a text of one character is: no word, an open quote, or a word of itself. */
  lemma {:induction false} CharLaw(st: Style, c: char)
    ensures Args(st, [c]) ==
      if c in SPACES then Some([]) else if c == '\'' || c == '"' then None else Some([[c]])
  {
    assert IsSpace(c) <==> c in SPACES;
    assert ArgsAt(st, [c], 1) == Some([]);
    if c !in SPACES {
      if c == '\'' || c == '"' {
        assert WordAt(st, [c], 0, Bare) == WordAt(st, [c], 1, if c == '\'' then Single else Double);
        assert WordAt(st, [c], 0, Bare) == Overrun;
      } else {
        assert WordAt(st, [c], 0, Bare) == Prepend([c], WordAt(st, [c], 1, Bare));
        WordEnds(st, [c], [c]);
        OneWord(st, [c], [c]);
      }
    }
  }
}
