/**
 How the access file is cut into lines of words: readWord(), which works in the buffer
 that the file was read into, and what it makes of quotes, comments and line ends.
 */
module AccessWords {
  import opened Wrappers

  predicate EndsLine(c: char) {
    c == '\n' || c == '\0'
  }

  predicate IsBlank(c: char) {
    c == ' ' || c == '\t'
  }

  // ------------------------------------------------------------- what a text means

  /** What is left of the text when quotes and comments have had their effect. */
  datatype Piece = Ch(c: char) | Blank | Newline

  function BehindLine(t: string): string {
    if t == "" then "" else if t[0] == '\n' then t[1..] else BehindLine(t[1..])
  }

  lemma {:induction false} BehindShorter(t: string)
    ensures t != "" ==> |BehindLine(t)| < |t|
  {
    if |t| > 1 {
      BehindShorter(t[1..]);
    }
  }

  /**
   A backslash quotes the start of a comment and itself, but no blank. Before the end of
   a line it is a blank, unless a word is right before it.
   */
  function Pieces(t: string, inWord: bool): seq<Piece>
    decreases |t|
  {
    if t == "" then []
    else if t[0] == '#' then
      BehindShorter(t);
      if '\n' in t then [Newline] + Pieces(BehindLine(t), false) else []
    else if EndsLine(t[0]) then [Newline] + Pieces(t[1..], false)
    else if IsBlank(t[0]) then [Blank] + Pieces(t[1..], false)
    else if t[0] != '\\' then [Ch(t[0])] + Pieces(t[1..], true)
    else if |t| == 1 then []
    else if EndsLine(t[1]) then [if inWord then Newline else Blank] + Pieces(t[2..], false)
    else if IsBlank(t[1]) then [Blank] + Pieces(t[2..], false)
    else [Ch(t[1])] + Pieces(t[2..], true)
  }

  /** With the word that has just ended, if one has. */
  function Flush(words: seq<string>, word: string): seq<string> {
    if word == "" then words else words + [word]
  }

  function OneLine(words: seq<string>): seq<seq<string>> {
    if words == [] then [] else [words]
  }

  /** The lines that have words; `words` and `word` are what has been seen of the first. */
  function LinesOf(ps: seq<Piece>, words: seq<string>, word: string): seq<seq<string>> {
    if ps == [] then OneLine(Flush(words, word))
    else
      match ps[0]
      case Ch(c) => LinesOf(ps[1..], words, word + [c])
      case Blank => LinesOf(ps[1..], Flush(words, word), "")
      case Newline => OneLine(Flush(words, word)) + LinesOf(ps[1..], [], "")
  }

  function Lines(text: string): seq<seq<string>> {
    LinesOf(Pieces(text, false), [], "")
  }

  // ----------------------------------------------------------------- one word

  /** The next word, behind `word`; with `eol` only up to the end of the line, which is left there. */
  function Next(word: string, ps: seq<Piece>, eol: bool): (Option<string>, seq<Piece>)
    decreases |ps|
  {
    if ps == [] then (if word == "" then None else Some(word), [])
    else
      match ps[0]
      case Ch(c) => Next(word + [c], ps[1..], eol)
      case Blank => if word != "" then (Some(word), ps[1..]) else Next("", ps[1..], eol)
      case Newline =>
        if word != "" then (Some(word), ps) else if eol then (None, ps) else Next("", ps[1..], eol)
  }

  /** A word within a line: the line goes on behind it, or ends. */
  lemma {:induction false} NextInLine(words: seq<string>, word: string, ps: seq<Piece>)
    ensures var r := Next(word, ps, true);
      && (r.0.Some? ==> LinesOf(ps, words, word) == LinesOf(r.1, words + [r.0.value], ""))
      && (r.0.None? ==> LinesOf(ps, words, word) == OneLine(words) + LinesOf(r.1, [], ""))
      && (r.0.Some? ==> |r.1| < |ps| + |word|) && |r.1| <= |ps|
    decreases |ps|
  {
    if ps != [] {
      match ps[0]
      case Ch(c) => NextInLine(words, word + [c], ps[1..]);
      case Blank =>
        if word == "" {
          NextInLine(words, "", ps[1..]);
        }
      case Newline =>
        assert [] + LinesOf(ps[1..], [], "") == LinesOf(ps[1..], [], "");
    }
  }

  /** The first word of a line. */
  lemma {:induction false} NextLine(word: string, ps: seq<Piece>)
    ensures var r := Next(word, ps, false);
      && (r.0.Some? ==> LinesOf(ps, [], word) == LinesOf(r.1, [r.0.value], "") && |r.1| < |ps| + |word|)
      && (r.0.None? ==> LinesOf(ps, [], word) == [])
    decreases |ps|
  {
    if ps != [] {
      match ps[0]
      case Ch(c) => NextLine(word + [c], ps[1..]);
      case Blank =>
        if word == "" {
          NextLine("", ps[1..]);
        } else {
          assert [] + [word] == [word];
        }
      case Newline =>
        if word == "" {
          NextLine("", ps[1..]);
        } else {
          assert [] + [word] == [word];
        }
    } else {
      assert [] + [word] == [word];
    }
  }

  // ----------------------------------------------------------------- the code

  /** The pieces of what is unread, by the character that comes next. */
  lemma {:induction false} PiecesAt(t: string, i: nat, inWord: bool)
    requires i < |t|
    ensures var c, rest := t[i], t[i + 1..];
      && (EndsLine(c) ==> Pieces(t[i..], inWord) == [Newline] + Pieces(rest, false))
      && (IsBlank(c) ==> Pieces(t[i..], inWord) == [Blank] + Pieces(rest, false))
      && (c != '#' && c != '\\' && !EndsLine(c) && !IsBlank(c) ==> Pieces(t[i..], inWord) == [Ch(c)] + Pieces(rest, true))
      && (c == '#' ==>
            Pieces(t[i..], inWord) == if '\n' in rest then [Newline] + Pieces(BehindLine(rest), false) else [])
  {
    assert t[i..][1..] == t[i + 1..];
    assert t[i..] == [t[i]] + t[i + 1..];
  }

  /** ... and by the one behind a backslash. */
  lemma {:induction false} PiecesQuoted(t: string, i: nat, inWord: bool)
    requires i < |t| && t[i] == '\\'
    ensures i + 1 == |t| ==> Pieces(t[i..], inWord) == []
    ensures i + 1 < |t| ==>
      var c, rest := t[i + 1], t[i + 2..];
      && (EndsLine(c) ==> Pieces(t[i..], inWord) == [if inWord then Newline else Blank] + Pieces(rest, false))
      && (IsBlank(c) ==> Pieces(t[i..], inWord) == [Blank] + Pieces(rest, false))
      && (!EndsLine(c) && !IsBlank(c) ==> Pieces(t[i..], inWord) == [Ch(c)] + Pieces(rest, true))
  {
    assert t[i..][0] == '\\';
    if i + 1 < |t| {
      assert t[i..][1] == t[i + 1] && t[i..][2..] == t[i + 2..];
    }
  }

  lemma {:induction false} NextStep(word: string, piece: Piece, ps: seq<Piece>, eol: bool)
    ensures Next(word, [piece] + ps, eol) ==
      match piece
      case Ch(c) => Next(word + [c], ps, eol)
      case Blank => if word != "" then (Some(word), ps) else Next("", ps, eol)
      case Newline => if word != "" then (Some(word), [piece] + ps) else if eol then (None, [piece] + ps) else Next("", ps, eol)
  {
    assert ([piece] + ps)[1..] == ps;
  }

  class File {
    const buf: array<char>
    const eof: nat
    var cur: nat

    constructor (text: string)
      ensures Valid() && Unread() == text && fresh(buf)
    {
      buf := new char[|text| + 1](i => if 0 <= i < |text| then text[i] else '\0');
      eof := |text|;
      cur := 0;
    }

    ghost predicate Valid()
      reads this
    {
      cur <= eof < buf.Length
    }

    ghost function Unread(): string
      reads this, buf
      requires Valid()
    {
      buf[cur..eof]
    }

    /** Terminates the word `buf[w..p]`, if it is one; the text behind it means what it did. */
    method EndWord(w: nat, p: nat) returns (word: Option<string>)
      requires Valid() && w <= p <= cur
      requires p == cur < eof ==> EndsLine(buf[cur])
      modifies buf
      ensures word == Done(old(buf[w..p])) && buf[..p] == old(buf[..p])
      ensures Pieces(Unread(), false) == old(Pieces(Unread(), false))
    {
      hide Pieces;
      if p == w {
        return None;
      }
      word := Some(buf[w..p]);
      ghost var t := buf[..eof];
      assert t[cur..] == Unread();
      buf[p] := '\0';
      ghost var t2 := buf[..eof];
      assert t2[cur..] == Unread();
      if p == cur && cur < eof {
        PiecesAt(t, cur, false);
        PiecesAt(t2, cur, false);
        assert t[cur + 1..] == t2[cur + 1..];
      } else {
        assert t[cur..] == t2[cur..];
      }
    }

    /** Goes behind the end of a comment, if it has one. */
    method SkipComment() returns (ended: bool)
      requires Valid()
      modifies this`cur
      ensures Valid() && cur >= old(cur)
      ensures ended <==> '\n' in old(Unread())
      ensures ended ==> cur > old(cur) && buf[cur - 1] == '\n' && Unread() == BehindLine(old(Unread()))
      ensures !ended ==> cur == eof
    {
      ghost var t := Unread();
      while cur < eof
        invariant Valid() && cur >= old(cur)
        invariant '\n' in t <==> '\n' in Unread()
        invariant BehindLine(t) == BehindLine(Unread())
        decreases eof - cur
      {
        ghost var u := Unread();
        assert u[1..] == buf[cur + 1..eof];
        cur := cur + 1;
        if buf[cur - 1] == '\n' {
          return true;
        }
      }
      return false;
    }

    /** readWord(): the buffer changes behind the words read before, and what is unread stays the same text. */
    method ReadWord(eol: bool) returns (word: Option<string>)
      requires Valid()
      modifies this`cur, buf
      ensures Valid() && cur >= old(cur)
      ensures (word, Pieces(Unread(), false)) == Next("", old(Pieces(Unread(), false)), eol)
      ensures buf[..old(cur)] == old(buf[..cur])
    {
      hide Pieces, Next, EndsLine, IsBlank, BehindLine, Reads;
      ghost var t := buf[..eof];
      ghost var all := Next("", Pieces(t[cur..], false), eol);
      assert t[cur..] == Unread();
      StartsReading(t, cur, eol);
      var w: nat, p: nat, quoted, done := cur, cur, false, false;
      ghost var c0: nat, head, acc := cur, buf[..cur], "";
      while !done
        invariant Valid() && c0 <= cur && Building(c0, w, p, head, acc, t)
        invariant !done ==> p <= (if quoted then cur - 1 else cur) && Reads(t, cur, quoted, acc, eol, all)
        invariant done ==> all == (Done(acc), Pieces(t[cur..], false)) && (p == cur < eof ==> EndsLine(buf[cur]))
        decreases !done, eof - cur
      {
        if cur == eof {
          NothingLeft(t, quoted, acc, eol, all);
          done := true;
        } else {
          var c := ReadChar(quoted, t, acc, eol, all);
          if c.None? {
            done := true;
          } else {
            w, p, quoted, done, acc := Turn(c.value, w, p, quoted, eol, c0, head, acc, t, all);
          }
        }
      }
      assert buf[..p][..c0] == head;
      word := EndWord(w, p);
      assert buf[..p][..c0] == buf[..c0];
    }

    /** The words of the next line that has any. */
    method ReadLine() returns (line: seq<string>)
      requires Valid()
      modifies this`cur, buf
      ensures Valid()
      ensures line != [] ==> |Pieces(Unread(), false)| < |old(Pieces(Unread(), false))|
      ensures old(Lines(Unread())) == OneLine(line) + if line == [] then [] else Lines(Unread())
    {
      hide Pieces, Next, LinesOf;
      ghost var ps := Pieces(Unread(), false);
      NextLine("", ps);
      var first := ReadWord(false);
      if first.None? {
        return [];
      }
      line := [first.value];
      while true
        invariant Valid() && line != [] && |Pieces(Unread(), false)| < |ps|
        invariant LinesOf(ps, [], "") == LinesOf(Pieces(Unread(), false), line, "")
        decreases |Pieces(Unread(), false)|
      {
        NextInLine(line, "", Pieces(Unread(), false));
        var more := ReadWord(true);
        if more.None? {
          break;
        }
        line := line + [more.value];
      }
    }

    /** A word `acc` is being put together at `w`, and nothing before it and of the unread text has changed. */
    ghost predicate Building(c0: nat, w: nat, p: nat, head: string, acc: string, t: string)
      requires Valid()
      reads this, buf
    {
      c0 <= w <= p <= cur && buf[w..p] == acc && buf[..c0] == head && |t| == eof && Unread() == t[cur..]
    }

    /** What the character that has just been read does to the word; `done` if it ends it. */
    method Turn(c: char, w: nat, p: nat, quoted: bool, eol: bool,
                ghost c0: nat, ghost head: string, ghost acc: string, ghost t: string, ghost all: (Option<string>, seq<Piece>))
      returns (w2: nat, p2: nat, quoted2: bool, done: bool, ghost acc2: string)
      requires Valid() && cur > 0 && Building(c0, w, p, head, acc, t) && p <= (if quoted then cur - 2 else cur - 1)
      requires c == t[cur - 1] && buf[cur - 1..eof] == t[cur - 1..] && (!quoted ==> c != '#')
      requires Reads(t, cur - 1, quoted, acc, eol, all)
      modifies this`cur, buf
      ensures Valid() && old(cur) - 1 <= cur <= old(cur) && Building(c0, w2, p2, head, acc2, t)
      ensures !done ==> cur == old(cur) && p2 <= (if quoted2 then cur - 1 else cur) && Reads(t, cur, quoted2, acc2, eol, all)
      ensures done ==> all == (Done(acc2), Pieces(t[cur..], false)) && (p2 == cur < eof ==> EndsLine(buf[cur]))
    {
      hide Pieces, Done, EndsLine, IsBlank, Reads;
      w2, p2, quoted2, done, acc2 := w, p, quoted, false, acc;
      if EndsLine(c) {
        LineEndHere(t, cur - 1, quoted, acc, eol, all);
        if (eol && !quoted) || p != w {
          assert buf[cur - 1..eof][0] == c;
          cur := cur - 1;
          done := true;
        } else {
          w2, p2, quoted2 := cur, cur, false;
        }
      } else if IsBlank(c) {
        BlankHere(t, cur - 1, quoted, acc, eol, all);
        if p != w {
          done := true;
        } else {
          w2, p2, quoted2 := cur, cur, false;
        }
      } else if c == '\\' && !quoted {
        QuoteHere(t, cur - 1, acc, eol, all);
        quoted2 := true;
      } else {
        CharHere(t, cur - 1, quoted, acc, eol, all);
        Put(w, p, c, c0);
        acc2 := acc + [c];
        p2, quoted2 := p + 1, false;
      }
    }

    /** The next character of the buffer; the end of the line for a whole comment, if it has one. */
    method ReadChar(quoted: bool, ghost t: string, ghost acc: string, ghost eol: bool,
                    ghost all: (Option<string>, seq<Piece>)) returns (c: Option<char>)
      requires Valid() && cur < eof && |t| == eof && Unread() == t[cur..] && Reads(t, cur, quoted, acc, eol, all)
      modifies this`cur
      ensures Valid() && cur > old(cur) && Unread() == t[cur..] && buf[cur - 1..eof] == t[cur - 1..]
      ensures c.None? ==> all == (Done(acc), Pieces(t[cur..], false))
      ensures c.Some? ==> c.value == t[cur - 1] && (!quoted ==> c.value != '#')
      ensures c.Some? ==> Reads(t, cur - 1, quoted, acc, eol, all)
    {
      hide Reads, Pieces, BehindLine;
      ghost var i := cur;
      c := Some(buf[cur]);
      assert Unread()[0] == t[cur..][0];
      assert Unread()[1..] == buf[cur + 1..eof] && t[cur..][1..] == t[cur + 1..];
      cur := cur + 1;
      if c.value == '#' && !quoted {
        var ended := SkipComment();
        CommentHere(t, i, cur, acc, eol, all);
        c := if ended then Some('\n') else None;
      }
      assert buf[cur - 1..eof] == buf[i..eof][cur - 1 - i..] && t[cur - 1..] == t[i..][cur - 1 - i..];
      assert buf[cur..eof] == buf[cur - 1..eof][1..] && t[cur..] == t[cur - 1..][1..];
    }

    /** A character of a word goes to where the word is being put together. */
    method Put(w: nat, p: nat, c: char, ghost c0: nat)
      requires Valid() && c0 <= w <= p < cur
      modifies buf
      ensures buf[w..p + 1] == old(buf[w..p]) + [c] && buf[..c0] == old(buf[..c0])
      ensures Unread() == old(Unread())
    {
      buf[p] := c;
    }
  }

  /** What is left for the loop of readWord() to do, with `acc` read of a word. */
  ghost predicate Reads(t: string, cur: nat, quoted: bool, acc: string, eol: bool, all: (Option<string>, seq<Piece>)) {
    && cur <= |t| && (quoted ==> cur > 0 && t[cur - 1] == '\\')
    && all == Next(acc, Pieces(t[if quoted then cur - 1 else cur..], acc != ""), eol)
  }

  function Done(acc: string): Option<string> {
    if acc == "" then None else Some(acc)
  }

  lemma {:induction false} StartsReading(t: string, cur: nat, eol: bool)
    requires cur <= |t|
    ensures Reads(t, cur, false, "", eol, Next("", Pieces(t[cur..], false), eol))
  {
  }

  lemma {:induction false} NextNothing(acc: string, eol: bool)
    ensures Next(acc, [], eol) == (Done(acc), [])
    ensures Pieces("", false) == []
  {
  }

  /** The text ends, perhaps with a backslash. */
  lemma {:induction false} NothingLeft(t: string, quoted: bool, acc: string, eol: bool, all: (Option<string>, seq<Piece>))
    requires Reads(t, |t|, quoted, acc, eol, all)
    ensures all == (Done(acc), Pieces(t[|t|..], false))
  {
    NextNothing(acc, eol);
  }

  lemma {:induction false} CommentHere(t: string, i: nat, cur: nat, acc: string, eol: bool, all: (Option<string>, seq<Piece>))
    requires Reads(t, i, false, acc, eol, all) && i < cur <= |t| && t[i] == '#'
    requires '\n' in t[i + 1..] ==> t[cur..] == BehindLine(t[i + 1..])
    ensures '\n' !in t[i + 1..] ==> all == (Done(acc), Pieces(t[|t|..], false))
    ensures '\n' in t[i + 1..] ==> i + 1 < cur && t[cur - 1] == '\n' && Reads(t, cur - 1, false, acc, eol, all)
  {
    hide Pieces, Next, BehindLine;
    PiecesAt(t, i, acc != "");
    NextNothing(acc, eol);
    assert t[|t|..] == "";
    if '\n' in t[i + 1..] {
      BehindIs(t, i + 1, cur);
      PiecesAt(t, cur - 1, acc != "");
    }
  }

  lemma {:induction false} LineEndHere(t: string, i: nat, quoted: bool, acc: string, eol: bool, all: (Option<string>, seq<Piece>))
    requires i < |t| && Reads(t, i, quoted, acc, eol, all) && EndsLine(t[i])
    ensures (eol && !quoted) || acc != "" ==> all == (Done(acc), Pieces(t[i..], false))
    ensures !(eol && !quoted) && acc == "" ==> Reads(t, i + 1, false, "", eol, all)
  {
    hide Pieces, Next, EndsLine, IsBlank;
    var q := Pieces(t[i + 1..], false);
    PiecesAt(t, i, acc != "");
    PiecesAt(t, i, false);
    if quoted {
      PiecesQuoted(t, i - 1, acc != "");
    }
    NextStep(acc, if quoted && acc == "" then Blank else Newline, q, eol);
  }

  lemma {:induction false} BlankHere(t: string, i: nat, quoted: bool, acc: string, eol: bool, all: (Option<string>, seq<Piece>))
    requires i < |t| && Reads(t, i, quoted, acc, eol, all) && IsBlank(t[i])
    ensures acc != "" ==> all == (Done(acc), Pieces(t[i + 1..], false))
    ensures acc == "" ==> Reads(t, i + 1, false, "", eol, all)
  {
    hide Pieces, Next, EndsLine, IsBlank;
    PiecesAt(t, i, acc != "");
    if quoted {
      PiecesQuoted(t, i - 1, acc != "");
    }
    NextStep(acc, Blank, Pieces(t[i + 1..], false), eol);
  }

  lemma {:induction false} QuoteHere(t: string, i: nat, acc: string, eol: bool, all: (Option<string>, seq<Piece>))
    requires i < |t| && Reads(t, i, false, acc, eol, all) && t[i] == '\\'
    ensures Reads(t, i + 1, true, acc, eol, all)
  {
  }

  lemma {:induction false} CharHere(t: string, i: nat, quoted: bool, acc: string, eol: bool, all: (Option<string>, seq<Piece>))
    requires i < |t| && Reads(t, i, quoted, acc, eol, all) && !EndsLine(t[i]) && !IsBlank(t[i])
    requires !quoted ==> t[i] != '#' && t[i] != '\\'
    ensures Reads(t, i + 1, false, acc + [t[i]], eol, all)
  {
    hide Pieces, Next, EndsLine, IsBlank;
    PiecesAt(t, i, acc != "");
    if quoted {
      PiecesQuoted(t, i - 1, acc != "");
    }
    NextStep(acc, Ch(t[i]), Pieces(t[i + 1..], true), eol);
  }

  lemma {:induction false} BehindIs(t: string, i: nat, j: nat)
    requires i <= j <= |t| && t[j..] == BehindLine(t[i..]) && '\n' in t[i..]
    ensures i < j && t[j - 1] == '\n'
    decreases |t| - i
  {
    assert t[i..][1..] == t[i + 1..];
    if t[i] != '\n' {
      BehindShorter(t[i..]);
      assert i < j by { if i == j { assert |t[j..]| == |t[i..]|; } }
      BehindIs(t, i + 1, j);
    } else {
      assert |t[j..]| == |t[i + 1..]|;
    }
  }

  /** All lines of a file. */
  method CutLines(text: string) returns (lines: seq<seq<string>>)
    ensures lines == Lines(text)
  {
    hide Pieces, LinesOf;
    var f := new File(text);
    lines := [];
    while true
      invariant fresh(f.buf) && f.Valid() && Lines(text) == lines + Lines(f.Unread())
      decreases |Pieces(f.Unread(), false)|
    {
      var line := f.ReadLine();
      if line == [] {
        break;
      }
      lines := lines + [line];
    }
  }

  // --------------------------------------------------------- what can be written

  predicate PlainWord(w: string) {
    w != "" && forall i :: 0 <= i < |w| ==> !EndsLine(w[i]) && !IsBlank(w[i])
  }

  predicate PlainLine(words: seq<string>) {
    words != [] && forall i :: 0 <= i < |words| ==> PlainWord(words[i])
  }

  predicate PlainLines(ls: seq<seq<string>>) {
    forall i :: 0 <= i < |ls| ==> PlainLine(ls[i])
  }

  function QuotedChar(c: char): string {
    if c == '#' || c == '\\' then ['\\', c] else [c]
  }

  function Quoted(w: string): string {
    if w == "" then "" else QuotedChar(w[0]) + Quoted(w[1..])
  }

  function WrittenLine(words: seq<string>): string {
    if words == [] then "\n" else " " + Quoted(words[0]) + WrittenLine(words[1..])
  }

  function Written(ls: seq<seq<string>>): string {
    if ls == [] then "" else WrittenLine(ls[0]) + Written(ls[1..])
  }

  /** A quoted word is read as its characters. */
  lemma {:induction false} QuotedRead(w: string, rest: string, inWord: bool, words: seq<string>, word: string)
    requires forall i :: 0 <= i < |w| ==> !EndsLine(w[i]) && !IsBlank(w[i])
    ensures LinesOf(Pieces(Quoted(w) + rest, inWord), words, word) ==
            LinesOf(Pieces(rest, inWord || w != ""), words, word + w)
    decreases |w|
  {
    if w == "" {
      assert Quoted(w) + rest == rest && word + w == word;
    } else {
      hide LinesOf, Pieces, EndsLine, IsBlank;
      var t := Quoted(w[1..]) + rest;
      assert Quoted(w) + rest == QuotedChar(w[0]) + t;
      CharPiece(w[0], t, inWord);
      ChRead(w[0], Pieces(t, true), words, word);
      QuotedRead(w[1..], rest, true, words, word + [w[0]]);
      assert word + [w[0]] + w[1..] == word + w;
    }
  }

  lemma {:induction false} CharPiece(c: char, t: string, inWord: bool)
    requires !EndsLine(c) && !IsBlank(c)
    ensures Pieces(QuotedChar(c) + t, inWord) == [Ch(c)] + Pieces(t, true)
  {
    var u := QuotedChar(c) + t;
    assert u[|QuotedChar(c)|..] == t;
  }

  lemma {:induction false} ChRead(c: char, ps: seq<Piece>, words: seq<string>, word: string)
    ensures LinesOf([Ch(c)] + ps, words, word) == LinesOf(ps, words, word + [c])
    ensures LinesOf([Blank] + ps, words, word) == LinesOf(ps, Flush(words, word), "")
    ensures LinesOf([Newline] + ps, words, word) == OneLine(Flush(words, word)) + LinesOf(ps, [], "")
  {
    assert ([Ch(c)] + ps)[1..] == ps && ([Blank] + ps)[1..] == ps && ([Newline] + ps)[1..] == ps;
  }

  lemma {:induction false} LineRead(ws: seq<string>, rest: string, inWord: bool, words: seq<string>, word: string)
    requires forall i :: 0 <= i < |ws| ==> PlainWord(ws[i])
    ensures LinesOf(Pieces(WrittenLine(ws) + rest, inWord), words, word) ==
            OneLine(Flush(words, word) + ws) + Lines(rest)
    decreases |ws|
  {
    hide LinesOf;
    var t := WrittenLine(ws) + rest;
    PiecesAt(t, 0, inWord);
    assert t[0..] == t;
    if ws == [] {
      assert t[1..] == rest;
      ChRead(' ', Pieces(rest, false), words, word);
      assert Flush(words, word) + ws == Flush(words, word);
    } else {
      var more := WrittenLine(ws[1..]) + rest;
      assert t[1..] == Quoted(ws[0]) + more;
      ChRead(' ', Pieces(t[1..], false), words, word);
      assert PlainWord(ws[0]);
      QuotedRead(ws[0], more, false, Flush(words, word), "");
      assert "" + ws[0] == ws[0];
      LineRead(ws[1..], rest, true, Flush(words, word), ws[0]);
      assert Flush(words, word) + [ws[0]] + ws[1..] == Flush(words, word) + ws;
    }
  }

  /** Lines of plain words can be written so that they are read back. */
  lemma {:induction false} WrittenRead(ls: seq<seq<string>>)
    requires PlainLines(ls)
    ensures Lines(Written(ls)) == ls
    decreases |ls|
  {
    hide LinesOf, Pieces, PlainLine;
    if ls == [] {
      NoText();
    } else {
      assert PlainLine(ls[0]);
      PlainIs(ls[0]);
      WrittenRead(ls[1..]);
      LineRead(ls[0], Written(ls[1..]), false, [], "");
      assert [] + ls[0] == ls[0] && [ls[0]] + ls[1..] == ls;
    }
  }

  lemma {:induction false} PlainIs(ws: seq<string>)
    requires PlainLine(ws)
    ensures ws != [] && forall i :: 0 <= i < |ws| ==> PlainWord(ws[i])
  {
  }

  lemma {:induction false} NoText()
    ensures Lines("") == []
  {
  }

  /** What is read has plain words only: no quote makes a blank or a line end part of a word. */
  lemma {:induction false} ReadPlain(t: string, inWord: bool, words: seq<string>, word: string)
    requires (words == [] || PlainLine(words)) && (word == "" || PlainWord(word))
    ensures PlainLines(LinesOf(Pieces(t, inWord), words, word))
    decreases |t|
  {
    hide PlainWord, PlainLine, PlainLines, LinesOf, Pieces;
    FlushPlain(words, word);
    if t == "" {
      NothingRead(inWord, words, word);
    } else {
      var q := t[0] == '\\' && |t| > 1;
      var c := if q then t[1] else t[0];
      var rest := if q then t[2..] else t[1..];
      assert t[0..] == t;
      ChRead(c, Pieces(rest, true), words, word);
      ChRead(c, Pieces(rest, false), words, word);
      ReadPlain(rest, false, [], "");
      ReadPlain(rest, false, Flush(words, word), "");
      if q || t[0] == '\\' {
        PiecesQuoted(t, 0, inWord);
      } else {
        PiecesAt(t, 0, inWord);
      }
      if c == '#' && !q {
        BehindShorter(t[1..]);
        if '\n' in rest {
          BehindShorter(rest);
          ReadPlain(BehindLine(rest), false, [], "");
          ChRead(c, Pieces(BehindLine(rest), false), words, word);
        } else {
          NothingRead(inWord, words, word);
        }
      } else if !EndsLine(c) && !IsBlank(c) && !(c == '\\' && !q) {
        WordGrows(word, c);
        ReadPlain(rest, true, words, word + [c]);
      } else if c == '\\' && !q {
        NothingRead(inWord, words, word);
      }
    }
  }

  lemma {:induction false} NothingRead(inWord: bool, words: seq<string>, word: string)
    ensures Pieces("", inWord) == [] && LinesOf([], words, word) == OneLine(Flush(words, word))
  {
  }

  lemma {:induction false} WordGrows(word: string, c: char)
    requires (word == "" || PlainWord(word)) && !EndsLine(c) && !IsBlank(c)
    ensures PlainWord(word + [c])
  {
  }

  lemma {:induction false} FlushPlain(words: seq<string>, word: string)
    requires (words == [] || PlainLine(words)) && (word == "" || PlainWord(word))
    ensures Flush(words, word) == [] || PlainLine(Flush(words, word))
    ensures PlainLines(OneLine(Flush(words, word)))
    ensures forall ls :: PlainLines(ls) ==> PlainLines(OneLine(Flush(words, word)) + ls)
  {
    hide PlainWord;
  }

  /** Exactly the lists of lines of plain words are what some file reads as. */
  lemma {:induction false} ReadableExactly(ls: seq<seq<string>>)
    ensures (exists text :: Lines(text) == ls) <==> PlainLines(ls)
  {
    hide PlainLines, LinesOf, Pieces;
    if text :| Lines(text) == ls {
      ReadPlain(text, false, [], "");
    }
    if PlainLines(ls) {
      WrittenRead(ls);
    }
  }
}
