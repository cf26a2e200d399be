/**
 patternMatch(), which decides whether a host name matches a pattern, and the language
 that it is meant to decide.
 */
module Glob {
  import opened Wrappers

  /** tolower() in the C locale. */
  function Lower(c: char): char {
    if 'A' <= c <= 'Z' then c - 'A' + 'a' else c
  }

  /** No backslash is left alone at the end: patternMatch() would read past it. */
  predicate WellFormed(p: string) {
    p == "" || if p[0] == '\\' then |p| > 1 && WellFormed(p[2..]) else WellFormed(p[1..])
  }

  // ------------------------------------------------------------- the language

  datatype Token = AnyString | AnyChar | Literal(c: char)

  function Tokens(p: string): seq<Token>
    requires WellFormed(p)
  {
    if p == "" then []
    else if p[0] == '\\' then [Literal(p[1])] + Tokens(p[2..])
    else [if p[0] == '*' then AnyString else if p[0] == '?' then AnyChar else Literal(p[0])] + Tokens(p[1..])
  }

  predicate Takes(t: Token, piece: string) {
    match t
    case AnyString => true
    case AnyChar => |piece| == 1
    case Literal(c) => |piece| == 1 && Lower(piece[0]) == Lower(c)
  }

  function Concat(pieces: seq<string>): string {
    if pieces == [] then "" else pieces[0] + Concat(pieces[1..])
  }

  ghost predicate Splits(s: string, ts: seq<Token>, pieces: seq<string>) {
    && |pieces| == |ts| && Concat(pieces) == s
    && forall i :: 0 <= i < |ts| ==> Takes(ts[i], pieces[i])
  }

  /** `s` falls into pieces, one for each part of the pattern. */
  ghost predicate InLanguage(s: string, ts: seq<Token>) {
    exists pieces :: Splits(s, ts, pieces)
  }

  /** The pattern ends in two stars that are not quoted. */
  predicate EndsInTwoStars(p: string)
    requires WellFormed(p)
  {
    var ts := Tokens(p);
    |ts| >= 2 && ts[|ts| - 1] == AnyString && ts[|ts| - 2] == AnyString
  }

  // ----------------------------------------------------------------- the code

  /** What patternMatch() answers. */
  predicate Code(s: string, p: string)
    requires WellFormed(p)
    decreases |p|, |s|, 0
  {
    if p == "" then s == ""
    else if p[0] == '*' then |p| == 1 || Try(s, p[1..])
    else if p[0] == '?' then s != "" && Code(s[1..], p[1..])
    else if p[0] == '\\' then s != "" && Lower(p[1]) == Lower(s[0]) && Code(s[1..], p[2..])
    else s != "" && Lower(p[0]) == Lower(s[0]) && Code(s[1..], p[1..])
  }

  /** The loop behind a star: it does not try the empty end of the string. */
  predicate Try(s: string, rest: string)
    requires WellFormed(rest)
    decreases |rest|, |s|, 1
  {
    s != "" && (Code(s, rest) || Try(s[1..], rest))
  }

  /** The last part of the pattern is a star. */
  predicate EndsInStar(p: string)
    requires WellFormed(p)
  {
    var ts := Tokens(p);
    ts != [] && ts[|ts| - 1] == AnyString
  }

  /** A pattern that is not well formed, without the backslash at its end. */
  function Front(p: string): (q: string)
    requires !WellFormed(p)
    ensures WellFormed(q) && p == q + "\\"
    decreases |p|
  {
    if p[0] != '\\' then var q := Front(p[1..]); assert (p[..1] + q)[1..] == q; p[..1] + q
    else if |p| == 1 then assert p == "\\"; ""
    else var q := Front(p[2..]); assert (p[..2] + q)[2..] == q; p[..2] + q
  }

  /**
   What patternMatch() answers for any pattern. With a backslash left alone at the end
   there is no answer, as it reads on past the end of both texts, if the string is used up
   there; behind a star it never is.
   */
  function Answer(s: string, p: string): Option<bool> {
    if WellFormed(p) then Some(Code(s, p))
    else if EndsInStar(Front(p)) || !Code(s, Front(p)) then Some(false)
    else None
  }

  /** The answers for the ends of the string that are not empty, up to the first that is not "no". */
  function Tries(s: string, rest: string): Option<bool> {
    if s == "" then Some(false)
    else if Answer(s, rest) == Some(false) then Tries(s[1..], rest)
    else Answer(s, rest)
  }

  lemma {:induction false} StarStep(p: string)
    requires p != "" && WellFormed(p)
    ensures EndsInStar(p) <==> EndsInStar(DropHead(p)) || p == "*"
  {
    hide Tokens;
    TokensStep(p);
    if DropHead(p) != "" {
      TokensStep(DropHead(p));
    } else {
      EmptyTokens();
    }
  }

  lemma {:induction false} EmptyTokens()
    ensures Tokens("") == []
  {
  }

  lemma {:induction false} FrontStep(p: string)
    requires |p| > 1 && !WellFormed(p)
    ensures var q := if p[0] == '\\' then p[2..] else p[1..];
      && !WellFormed(q) && Front(p) != "" && Front(p)[0] == p[0]
      && (p[0] == '\\' ==> |Front(p)| > 1 && Front(p)[1] == p[1] && Front(p)[2..] == Front(q))
      && (p[0] != '\\' ==> Front(p)[1..] == Front(q))
  {
  }

  /** The answer, step by step. */
  lemma {:induction false} AnswerStep(s: string, p: string)
    ensures p == "" ==> Answer(s, p) == Some(s == "")
    ensures p == "\\" ==> Answer(s, p) == if s == "" then None else Some(false)
    ensures |p| > 1 && p[0] == '\\' ==>
      Answer(s, p) == if s == "" || Lower(p[1]) != Lower(s[0]) then Some(false) else Answer(s[1..], p[2..])
    ensures p != "" && p[0] != '\\' && p[0] != '*' ==>
      Answer(s, p) ==
        if s == "" || (p[0] != '?' && Lower(p[0]) != Lower(s[0])) then Some(false) else Answer(s[1..], p[1..])
  {
    if |p| > 1 && !WellFormed(p) {
      FrontStep(p);
      StarStep(Front(p));
    }
  }

  lemma {:induction false} StarAnswer(s: string, p: string)
    requires p != "" && p[0] == '*'
    ensures Answer(s, p) == if |p| == 1 then Some(true) else Tries(s, p[1..])
  {
    if |p| > 1 {
      if WellFormed(p) {
        TriesCode(s, p[1..]);
      } else {
        FrontStep(p);
        StarStep(Front(p));
        TriesOver(s, p[1..]);
      }
    }
  }

  lemma {:induction false} TriesCode(s: string, rest: string)
    requires WellFormed(rest)
    ensures Tries(s, rest) == Some(Try(s, rest))
    decreases |s|
  {
    hide Code;
    if s != "" {
      TriesCode(s[1..], rest);
    }
  }

  lemma {:induction false} TriesOver(s: string, rest: string)
    requires !WellFormed(rest)
    ensures Tries(s, rest) ==
      if Front(rest) == "" || EndsInStar(Front(rest)) || !Try(s, Front(rest)) then Some(false) else None
    decreases |s|
  {
    if s != "" {
      TriesOver(s[1..], rest);
      assert Front(rest) == "" ==> !Code(s, Front(rest));
      hide Code, EndsInStar;
    }
  }

  method PatternMatch(text: Option<string>, pattern: string) returns (r: Option<bool>)
    ensures r == Answer(if text.Some? then text.value else "", pattern)
    decreases |pattern|, 0
  {
    hide Answer, Tries, Lower;
    var s := if text.Some? then text.value else "";
    var i, j := 0, 0;
    assert s[0..] == s && pattern[0..] == pattern;
    while true
      invariant i <= |s| && j <= |pattern|
      invariant Answer(s, pattern) == Answer(s[i..], pattern[j..])
      decreases |pattern| - j
    {
      ghost var p := pattern[j..];
      AnswerStep(s[i..], p);
      if j == |pattern| {
        return Some(i == |s|);
      }
      var c := pattern[j];
      j := j + 1;
      assert p[1..] == pattern[j..];
      if c == '*' {
        StarAnswer(s[i..], p);
        if j == |pattern| {
          return Some(true);
        }
        r := Rest(s, i, pattern[j..]);
        return r;
      }
      assert i < |s| ==> s[i..][1..] == s[i + 1..];
      if c == '\\' {
        if j == |pattern| {
          return if i == |s| then None else Some(false);
        }
        c := pattern[j];
        j := j + 1;
        assert p[2..] == pattern[j..];
        if i == |s| || Lower(c) != Lower(s[i]) {
          return Some(false);
        }
      } else if i == |s| || (c != '?' && Lower(c) != Lower(s[i])) {
        return Some(false);
      }
      i := i + 1;
    }
  }

  /** The loop behind a star. */
  method Rest(s: string, i: nat, rest: string) returns (r: Option<bool>)
    requires i <= |s|
    ensures r == Tries(s[i..], rest)
    decreases |rest|, 1
  {
    hide Answer;
    var k := i;
    while k < |s|
      invariant i <= k <= |s|
      invariant Tries(s[i..], rest) == Tries(s[k..], rest)
    {
      var b := PatternMatch(Some(s[k..]), rest);
      if b != Some(false) {
        return b;
      }
      assert s[k..][1..] == s[k + 1..];
      k := k + 1;
    }
    return Some(false);
  }

  // ------------------------------------------------------- what is right of it

  lemma {:induction false} LanguageStep(s: string, ts: seq<Token>)
    requires ts != []
    ensures InLanguage(s, ts) <==>
      exists k :: 0 <= k <= |s| && Takes(ts[0], s[..k]) && InLanguage(s[k..], ts[1..])
  {
    if pieces :| Splits(s, ts, pieces) {
      var k := |pieces[0]|;
      assert s[..k] == pieces[0] && s[k..] == Concat(pieces[1..]);
      assert Splits(s[k..], ts[1..], pieces[1..]);
    }
    if k :| 0 <= k <= |s| && Takes(ts[0], s[..k]) && InLanguage(s[k..], ts[1..]) {
      var rest :| Splits(s[k..], ts[1..], rest);
      var pieces := [s[..k]] + rest;
      assert pieces[1..] == rest;
      assert Concat(pieces) == s[..k] + s[k..] == s;
      assert Splits(s, ts, pieces);
    }
  }

  lemma {:induction false} OneChar(s: string, ts: seq<Token>)
    requires ts != [] && !ts[0].AnyString?
    ensures InLanguage(s, ts) <==> s != "" && Takes(ts[0], s[..1]) && InLanguage(s[1..], ts[1..])
  {
    hide InLanguage;
    LanguageStep(s, ts);
  }

  lemma {:induction false} NoTokens(s: string)
    ensures InLanguage(s, []) <==> s == ""
  {
    assert s == "" ==> Splits(s, [], []);
  }

  lemma {:induction false} AnyStep(s: string, ts: seq<Token>)
    ensures InLanguage(s, [AnyString] + ts) <==> exists k :: 0 <= k <= |s| && InLanguage(s[k..], ts)
  {
    hide InLanguage;
    LanguageStep(s, [AnyString] + ts);
    assert ([AnyString] + ts)[1..] == ts;
  }

  /** Only stars take nothing. */
  predicate AllStars(ts: seq<Token>) {
    forall i :: 0 <= i < |ts| ==> ts[i].AnyString?
  }

  lemma {:induction false} EmptyMatch(ts: seq<Token>)
    ensures InLanguage("", ts) <==> AllStars(ts)
  {
    hide InLanguage;
    if ts == [] {
      NoTokens("");
    } else {
      var rest := ts[1..];
      EmptyMatch(rest);
      assert ts == [ts[0]] + rest;
      assert AllStars(ts) <==> ts[0].AnyString? && AllStars(rest) by {
        assert forall i :: 0 <= i < |rest| ==> rest[i] == ts[i + 1];
        assert forall i :: 0 < i < |ts| ==> ts[i] == rest[i - 1];
      }
      if ts[0].AnyString? {
        AnyStep("", rest);
        assert forall k :: 0 <= k <= |""| ==> ""[k..] == "";
        assert InLanguage(""[0..], rest) == InLanguage("", rest);
      } else {
        OneChar("", ts);
      }
    }
  }

  function DropHead(p: string): (q: string)
    requires p != "" && WellFormed(p)
    ensures WellFormed(q) && |q| < |p|
  {
    if p[0] == '\\' then p[2..] else p[1..]
  }

  lemma {:induction false} TokensStep(p: string)
    requires p != "" && WellFormed(p)
    ensures Tokens(p) != [] && Tokens(p)[1..] == Tokens(DropHead(p))
    ensures Tokens(p)[0].AnyString? <==> p[0] == '*'
  {
  }

  lemma {:induction false} TailStars(p: string)
    requires p != "" && WellFormed(p) && !EndsInTwoStars(p)
    ensures !EndsInTwoStars(DropHead(p))
    ensures p[0] == '*' && |p| > 1 ==> !AllStars(Tokens(DropHead(p)))
  {
    hide Tokens;
    TokensStep(p);
    var rest := Tokens(DropHead(p));
    if p[0] == '*' && |p| > 1 {
      TokensStep(p[1..]);
    }
    hide WellFormed, DropHead;
    StarsBehind(Tokens(p)[0], rest);
    assert Tokens(p) == [Tokens(p)[0]] + rest;
  }

  lemma {:induction false} StarsBehind(t: Token, rest: seq<Token>)
    ensures var ts := [t] + rest;
      |rest| >= 2 ==> ts[|ts| - 1] == rest[|rest| - 1] && ts[|ts| - 2] == rest[|rest| - 2]
    ensures t.AnyString? && rest != [] && AllStars(rest) ==>
      var ts := [t] + rest; ts[|ts| - 1].AnyString? && ts[|ts| - 2].AnyString?
  {
  }

  lemma {:induction false} CodeStep(s: string, p: string)
    requires p != "" && WellFormed(p) && p[0] != '*'
    ensures Code(s, p) <==> s != "" && Takes(Tokens(p)[0], s[..1]) && Code(s[1..], DropHead(p))
    ensures !Tokens(p)[0].AnyString?
  {
  }

  /** For patterns that do not end in two stars the answer is right. */
  lemma {:induction false} CodeRight(s: string, p: string)
    requires WellFormed(p) && !EndsInTwoStars(p)
    ensures Code(s, p) <==> InLanguage(s, Tokens(p))
    decreases |p|, |s|, 0
  {
    hide InLanguage, EndsInTwoStars;
    if p == "" {
      NoTokens(s);
    } else {
      TokensStep(p);
      TailStars(p);
      var ts := Tokens(p);
      if p[0] == '*' {
        assert ts == [AnyString] + ts[1..];
        AnyStep(s, ts[1..]);
        if |p| == 1 {
          NoTokens("");
          assert s[|s|..] == "";
        } else {
          TryRight(s, p[1..]);
        }
      } else {
        CodeStep(s, p);
        OneChar(s, ts);
        if s != "" {
          CodeRight(s[1..], DropHead(p));
        }
      }
    }
  }

  lemma {:induction false} TryRight(s: string, rest: string)
    requires WellFormed(rest) && !EndsInTwoStars(rest) && !AllStars(Tokens(rest))
    ensures Try(s, rest) <==> exists k :: 0 <= k <= |s| && InLanguage(s[k..], Tokens(rest))
    decreases |rest|, |s|, 1
  {
    hide InLanguage, EndsInTwoStars, Code, AllStars, Tokens;
    var ts := Tokens(rest);
    EmptyMatch(ts);
    assert s[0..] == s;
    if s == "" {
      assert forall k :: 0 <= k <= |s| ==> s[k..] == "";
    } else {
      CodeRight(s, rest);
      TryRight(s[1..], rest);
      assert forall k :: 1 <= k <= |s| ==> s[k..] == s[1..][k - 1..];
      assert forall k :: 0 <= k <= |s[1..]| ==> s[1..][k..] == s[k + 1..];
    }
  }

  // ------------------------------------------------------- what is wrong of it

  /** The shortest strings that a pattern can match have this length. */
  function MinLen(p: string): nat
    requires WellFormed(p)
  {
    if p == "" then 0 else (if p[0] == '*' then 0 else 1) + MinLen(DropHead(p))
  }

  function Shortest(p: string): (s: string)
    requires WellFormed(p)
    ensures |s| == MinLen(p)
  {
    if p == "" then ""
    else (if p[0] == '*' then "" else if p[0] == '?' then "x" else if p[0] == '\\' then [p[1]] else [p[0]])
         + Shortest(DropHead(p))
  }

  lemma {:induction false} ShortestInLanguage(p: string)
    requires WellFormed(p)
    ensures InLanguage(Shortest(p), Tokens(p))
  {
    hide InLanguage;
    if p == "" {
      NoTokens("");
    } else {
      TokensStep(p);
      var s, rest := Shortest(p), Shortest(DropHead(p));
      ShortestInLanguage(DropHead(p));
      LanguageStep(s, Tokens(p));
      var k := |s| - |rest|;
      assert s[k..] == rest;
      assert Takes(Tokens(p)[0], s[..k]);
    }
  }

  /** Two stars at the end want a character. */
  lemma {:induction false} CodeNeeds(s: string, p: string)
    requires WellFormed(p) && Code(s, p)
    ensures |s| >= MinLen(p) + if EndsInTwoStars(p) then 1 else 0
    decreases |p|, |s|
  {
    if p != "" {
      HeadStars(p);
      hide Tokens, EndsInTwoStars;
      if p[0] == '*' {
        if |p| > 1 {
          var k := TryFinds(s, p[1..]);
          CodeNeeds(s[k..], p[1..]);
        }
      } else {
        CodeNeeds(s[1..], DropHead(p));
      }
    } else {
      assert Tokens(p) == [];
    }
  }

  /** Where the two stars are, seen from the front. */
  lemma {:induction false} HeadStars(p: string)
    requires p != "" && WellFormed(p)
    ensures EndsInTwoStars(p) <==> EndsInTwoStars(DropHead(p)) || p == "**"
    ensures p == "*" ==> !EndsInTwoStars(p)
  {
    TokensStep(p);
    var ts, rest := Tokens(p), Tokens(DropHead(p));
    if rest == [] {
      NoTokensNoText(DropHead(p));
    } else {
      TokensStep(DropHead(p));
      assert ts[|ts| - 1] == rest[|rest| - 1];
      if |rest| == 1 && rest[0].AnyString? {
        NoTokensNoText(DropHead(DropHead(p)));
      }
      hide Tokens, WellFormed, DropHead;
      assert ts[|ts| - 2] == if |rest| == 1 then ts[0] else rest[|rest| - 2];
    }
  }

  lemma {:induction false} NoTokensNoText(p: string)
    requires WellFormed(p) && Tokens(p) == []
    ensures p == ""
  {
  }

  lemma {:induction false} TryFinds(s: string, rest: string) returns (k: nat)
    requires WellFormed(rest) && Try(s, rest)
    ensures k < |s| && Code(s[k..], rest)
    decreases |s|
  {
    if Code(s, rest) {
      k := 0;
      assert s[0..] == s;
    } else {
      var j := TryFinds(s[1..], rest);
      k := j + 1;
      assert s[1..][j..] == s[k..];
    }
  }

  /** patternMatch() decides the language of a pattern exactly if it does not end in two stars. */
  lemma {:induction false} RightIffNoTwoStars(p: string)
    requires WellFormed(p)
    ensures (forall s :: Code(s, p) <==> InLanguage(s, Tokens(p))) <==> !EndsInTwoStars(p)
  {
    hide InLanguage, EndsInTwoStars, Code, Tokens;
    if !EndsInTwoStars(p) {
      forall s
        ensures Code(s, p) <==> InLanguage(s, Tokens(p))
      {
        CodeRight(s, p);
      }
    } else {
      var s := Shortest(p);
      ShortestInLanguage(p);
      if Code(s, p) {
        CodeNeeds(s, p);
      }
    }
  }

  /** patternMatch() stays inside every string exactly if no backslash is left alone, or it is behind a star. */
  lemma {:induction false} StaysInside(p: string)
    ensures (forall s :: Answer(s, p).Some?) <==> WellFormed(p) || EndsInStar(Front(p))
  {
    hide Code, EndsInStar, InLanguage;
    if !WellFormed(p) && !EndsInStar(Front(p)) {
      var s := Shortest(Front(p));
      ShortestInLanguage(Front(p));
      NoStarAtEnd(Front(p));
      CodeRight(s, Front(p));
      assert Answer(s, p).None?;
    }
  }

  lemma {:induction false} NoStarAtEnd(p: string)
    requires WellFormed(p) && !EndsInStar(p)
    ensures !EndsInTwoStars(p)
  {
  }

  // ------------------------------------------------------------- letters and cases

  /** The same character, or a letter and its capital. */
  predicate SameLetter(c: char, d: char) {
    c == d || ('A' <= c <= 'Z' && d as int == c as int + 32) || ('A' <= d <= 'Z' && c as int == d as int + 32)
  }

  lemma {:induction false} LowerIs(c: char, d: char)
    ensures Lower(c) == Lower(d) <==> SameLetter(c, d)
  {
  }

  /** Character by character the same letters. */
  predicate SameLetters(s: string, t: string) {
    |s| == |t| && forall i :: 0 <= i < |s| ==> SameLetter(s[i], t[i])
  }

  lemma {:induction false} SameTail(s: string, t: string, n: nat)
    requires SameLetters(s, t) && n <= |s|
    ensures SameLetters(s[n..], t[n..])
  {
  }

  /** A pattern without special characters matches its own letters, in either case, and nothing else. */
  lemma {:induction false} LiteralMatches(s: string, p: string)
    requires forall c :: c in p ==> c != '*' && c != '?' && c != '\\'
    ensures WellFormed(p) && (Code(s, p) <==> SameLetters(s, p))
    decreases |p|
  {
    hide Lower, SameLetter;
    if p != "" {
      assert p[0] in p && forall c :: c in p[1..] ==> c in p;
      LiteralMatches(if s == "" then "" else s[1..], p[1..]);
      if s != "" {
        LowerIs(p[0], s[0]);
        LetterSym(p[0], s[0]);
        if SameLetters(s, p) {
          SameTail(s, p, 1);
        }
        assert forall i :: 1 <= i < |s| ==> s[i] == s[1..][i - 1];
        assert forall i :: 1 <= i < |p| ==> p[i] == p[1..][i - 1];
      }
    }
  }

  lemma {:induction false} LetterSym(c: char, d: char)
    ensures SameLetter(c, d) <==> SameLetter(d, c)
  {
  }

  /** The case of the letters of a string never matters. */
  lemma {:induction false} CaseIgnored(s: string, t: string, p: string)
    requires WellFormed(p) && SameLetters(s, t)
    ensures Code(s, p) <==> Code(t, p)
    decreases |p|, |s|, 0
  {
    hide Lower, SameLetter;
    if p != "" {
      if p[0] == '*' {
        if |p| > 1 {
          CaseTries(s, t, p[1..]);
        }
      } else if s != "" {
        LowerIs(s[0], t[0]);
        SameTail(s, t, 1);
        CaseIgnored(s[1..], t[1..], DropHead(p));
      }
    }
  }

  lemma {:induction false} CaseTries(s: string, t: string, rest: string)
    requires WellFormed(rest) && SameLetters(s, t)
    ensures Try(s, rest) <==> Try(t, rest)
    decreases |rest|, |s|, 1
  {
    hide SameLetter, Code;
    if s != "" {
      CaseIgnored(s, t, rest);
      SameTail(s, t, 1);
      CaseTries(s[1..], t[1..], rest);
    }
  }
}
