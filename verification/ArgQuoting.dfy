/**
 The writer, the two splitters and the unescaping reader as they are: a pass that counts
 and a pass that fills a buffer of just that size, and a value unescaped in place.
 */
module ArgQuoting {
  import opened IniText
  import opened Wrappers
  import opened ArgText
  import opened KdmrcValue

  // ----------------------------------------------------------------- joinArgs

  lemma {:induction false} EncodedSnoc(st: Style, arg: string, c: char)
    ensures Encoded(st, arg + [c]) == Encoded(st, arg) + Encode(st, c)
    decreases |arg|
  {
    hide Encode;
    if arg == "" {
      assert [c][1..] == "";
      assert arg + [c] == [c];
      assert Encoded(st, [c]) == Encode(st, c) + "";
    } else {
      assert (arg + [c])[1..] == arg[1..] + [c];
      EncodedSnoc(st, arg[1..], c);
    }
  }

  lemma {:induction false} EncodedUpTo(st: Style, arg: string, i: nat)
    requires i < |arg|
    ensures Encoded(st, arg[..i + 1]) == Encoded(st, arg[..i]) + Encode(st, arg[i])
  {
    hide Encoded, Encode;
    EncodedSnoc(st, arg[..i], arg[i]);
    assert arg[..i + 1] == arg[..i] + [arg[i]];
  }

  lemma {:induction false} NothingEncoded(st: Style)
    ensures Encoded(st, "") == ""
  {
  }

  lemma {:induction false} EncodeLength(c: char)
    ensures |Encode(Config, c)| == if c == '"' then 3 else if c == '\\' then 4 else 1
  {
  }

  /** The length that joinArgs() counts for one argument. */
  method CountArg(arg: string) returns (slen: nat)
    ensures slen == |Piece(Config, arg)|
  {
    hide Encoded, Encode, IsSpace, Piece;
    NothingEncoded(Config);
    slen := 0;
    var nq := 0;
    var i := 0;
    while i < |arg|
      invariant i <= |arg| && slen == |Encoded(Config, arg[..i])|
      invariant nq == if exists k :: 0 <= k < i && (IsSpace(arg[k]) || arg[k] == '\'') then 2 else 0
    {
      EncodedUpTo(Config, arg, i);
      EncodeLength(arg[i]);
      IsSpaceQuoting(arg[i]);
      if IsSpace(arg[i]) || arg[i] == '\'' {
        nq := 2;
      } else if arg[i] == '"' {
        slen := slen + 2;
      } else if arg[i] == '\\' {
        slen := slen + 3;
      }
      slen := slen + 1;
      i := i + 1;
    }
    slen := slen + nq;
    assert arg[..|arg|] == arg;
    PieceIs(Config, arg);
  }

  lemma {:induction false} IsSpaceQuoting(c: char)
    ensures IsSpace(c) || c == '\'' ==> c != '"' && c != '\\'
  {
  }

  method QuotesNeeded(arg: string) returns (nq: bool)
    ensures nq == NeedsQuotes(arg)
  {
    nq := false;
    var i := 0;
    while i < |arg|
      invariant i <= |arg|
      invariant nq == exists k :: 0 <= k < i && (IsSpace(arg[k]) || arg[k] == '\'')
    {
      if IsSpace(arg[i]) || arg[i] == '\'' {
        nq := true;
      }
      i := i + 1;
    }
  }

  method Put(buf: array<char>, p: nat, c: char) returns (q: nat)
    requires p < buf.Length
    modifies buf
    ensures q == p + 1 && buf[..q] == old(buf[..p]) + [c]
  {
    buf[p] := c;
    q := p + 1;
  }

  /** One character with its backslashes. */
  method PutChar(buf: array<char>, p: nat, c: char) returns (q: nat)
    requires p + |Encode(Config, c)| <= buf.Length
    modifies buf
    ensures q == p + |Encode(Config, c)| && buf[..q] == old(buf[..p]) + Encode(Config, c)
  {
    EncodeLength(c);
    q := p;
    ghost var t := "";
    if c == '\\' {
      q := Put(buf, q, '\\');
      t := t + "\\";
    }
    assert buf[..q] == old(buf[..p]) + t;
    if c == '"' || c == '\\' {
      q := Put(buf, q, '\\');
      q := Put(buf, q, '\\');
      t := t + "\\\\";
    }
    assert buf[..q] == old(buf[..p]) + t;
    q := Put(buf, q, c);
    assert t + [c] == Encode(Config, c);
    assert buf[..q] == old(buf[..p]) + (t + [c]);
  }

  /** One argument, in quotes if it needs them. */
  method PutArg(buf: array<char>, p: nat, arg: string) returns (q: nat)
    requires p + |Piece(Config, arg)| <= buf.Length
    modifies buf
    ensures q == p + |Piece(Config, arg)| && buf[..q] == old(buf[..p]) + Piece(Config, arg)
  {
    hide Encoded, Encode, Piece, NeedsQuotes;
    PieceIs(Config, arg);
    NothingEncoded(Config);
    var nq := QuotesNeeded(arg);
    q := p;
    ghost var pre := if nq then "\"" else "";
    if nq {
      q := Put(buf, q, '"');
    }
    assert buf[..q] == old(buf[..p]) + pre + "";
    var i := 0;
    while i < |arg|
      invariant i <= |arg| && q == p + |pre| + |Encoded(Config, arg[..i])| <= buf.Length
      invariant buf[..q] == old(buf[..p]) + pre + Encoded(Config, arg[..i])
    {
      EncodedUpTo(Config, arg, i);
      EncodedFits(Config, arg, i + 1);
      ghost var had := buf[..q];
      q := PutChar(buf, q, arg[i]);
      assert buf[..q] == had + Encode(Config, arg[i]);
      i := i + 1;
    }
    assert arg[..|arg|] == arg;
    if nq {
      q := Put(buf, q, '"');
    }
    assert buf[..q] == old(buf[..p]) + Piece(Config, arg);
  }

  lemma {:induction false} EncodedFits(st: Style, arg: string, i: nat)
    requires i <= |arg|
    ensures |Encoded(st, arg[..i])| <= |Encoded(st, arg)|
    decreases |arg| - i
  {
    hide Encoded, Encode;
    if i == |arg| {
      assert arg[..i] == arg;
    } else {
      EncodedUpTo(st, arg, i);
      EncodedFits(st, arg, i + 1);
    }
  }

  /** joinArgs(): the text ends one character before the end of the buffer. */
  method JoinArgs(argv: seq<string>) returns (buf: array<char>)
    ensures fresh(buf)
    ensures buf.Length == |Joined(Config, argv)| + if argv == [] then 1 else 2
    ensures buf[..|Joined(Config, argv)| + 1] == Joined(Config, argv) + ['\0']
  {
    hide Joined, Piece;
    NothingJoined(Config);
    if argv == [] {
      buf := new char[1];
      buf[0] := '\0';
      return;
    }
    var slen := 1;
    var i := 0;
    while i < |argv|
      invariant i <= |argv| && slen == |Joined(Config, argv[..i])| + if i == 0 then 1 else 2
    {
      JoinedUpTo(argv, i);
      var n := CountArg(argv[i]);
      slen := slen + n + 1;
      i := i + 1;
    }
    assert argv[..|argv|] == argv;
    buf := new char[slen];
    i := 0;
    var p := 0;
    while i < |argv|
      invariant i <= |argv| && p == |Joined(Config, argv[..i])|
      invariant p + 2 <= buf.Length == |Joined(Config, argv)| + 2
      invariant buf[..p] == Joined(Config, argv[..i])
    {
      JoinedUpTo(argv, i);
      JoinedFits(argv, i + 1);
      ghost var had := buf[..p];
      if i != 0 {
        p := Put(buf, p, ' ');
      }
      assert buf[..p] == had + if i == 0 then "" else " ";
      p := PutArg(buf, p, argv[i]);
      i := i + 1;
    }
    p := Put(buf, p, '\0');
  }

  lemma {:induction false} JoinedUpTo(args: seq<string>, i: nat)
    requires i < |args|
    ensures Joined(Config, args[..i + 1]) ==
      Joined(Config, args[..i]) + (if i == 0 then "" else " ") + Piece(Config, args[i])
  {
    hide Joined, Piece;
    assert args[..i + 1] == args[..i] + [args[i]];
    if i == 0 {
      assert args[..0] == [] && args[..1] == [args[0]];
      NothingJoined(Config);
      JoinedIs(Config, [args[0]]);
      assert [args[0]][1..] == [];
    } else {
      JoinedSnoc(Config, args[..i], args[i]);
    }
  }

  lemma {:induction false} JoinedFits(args: seq<string>, i: nat)
    requires i <= |args|
    ensures |Joined(Config, args[..i])| <= |Joined(Config, args)|
    decreases |args| - i
  {
    hide Joined, Piece;
    if i == |args| {
      assert args[..i] == args;
    } else {
      JoinedUpTo(args, i);
      JoinedFits(args, i + 1);
    }
  }

  // ---------------------------------------------------- parseArgs, splitArgs

  /** One character of a word that stands at `i` for the one at `e`. */
  lemma {:induction false} WordStep(st: Style, s: string, p: nat, acc: string, i: nat, q: Quote)
    requires p <= |s| && i < |s| && !(q == Bare && IsSpace(s[i]))
    requires WordAt(st, s, p, Bare) == Prepend(acc, WordAt(st, s, i, q))
    requires s[i] == '\\' || Turn(q, s[i]).None?
    ensures var e := if s[i] == '\\' then TakenAt(st, q, s, i) else i;
      WordAt(st, s, p, Bare) == Prepend(acc + [s[e]], WordAt(st, s, e + 1, q))
  {
    hide TakenAt, IsSpace, Turn;
    var e := if s[i] == '\\' then TakenAt(st, q, s, i) else i;
    PrependTwice(acc, [s[e]], WordAt(st, s, e + 1, q));
  }

  lemma {:induction false} QuoteStep(st: Style, s: string, i: nat, q: Quote)
    requires i < |s| && !(q == Bare && IsSpace(s[i])) && Turn(q, s[i]).Some?
    ensures WordAt(st, s, i, q) == WordAt(st, s, i + 1, Turn(q, s[i]).value)
  {
    hide TakenAt, IsSpace;
  }

  lemma {:induction false} BareTurn(c: char)
    ensures Turn(Bare, c) == if c == '\'' then Some(Single) else if c == '"' then Some(Double) else None
    ensures Turn(Single, c) == if c == '\'' then Some(Bare) else None
    ensures Turn(Double, c) == if c == '"' then Some(Bare) else None
  {
  }

  lemma {:induction false} WordEnd(st: Style, s: string, i: nat, q: Quote)
    requires i <= |s| && (i == |s| || (q == Bare && IsSpace(s[i])))
    ensures WordAt(st, s, i, q) == if q == Bare then Word("", i) else Overrun
  {
  }

  /** The length pass inside a quote, up to the closing character or the end of the text. */
  method CountQuoted(st: Style, s: string, ghost p: nat, wlen0: nat, i: nat, close: char, ghost acc0: string)
    returns (wlen: nat, next: nat, ghost acc: string)
    requires close == '\'' || close == '"'
    requires p <= |s| && i <= |s| && wlen0 == |acc0|
    requires var q := if close == '\'' then Single else Double;
      WordAt(st, s, p, Bare) == Prepend(acc0, WordAt(st, s, i, q))
    ensures i <= next <= |s| && wlen == |acc|
    ensures next < |s| ==> s[next] == close && WordAt(st, s, p, Bare) == Prepend(acc, WordAt(st, s, next + 1, Bare))
    ensures next == |s| ==> !WordAt(st, s, p, Bare).Word?
  {
    hide TakenAt, IsSpace, WordAt, Turn;
    var q := if close == '\'' then Single else Double;
    wlen, next, acc := wlen0, i, acc0;
    while next < |s| && s[next] != close
      invariant i <= next <= |s| && wlen == |acc|
      invariant WordAt(st, s, p, Bare) == Prepend(acc, WordAt(st, s, next, q))
      decreases |s| - next
    {
      BareTurn(s[next]);
      WordStep(st, s, p, acc, next, q);
      if s[next] == '\\' {
        next := TakenAt(st, q, s, next);
      }
      acc := acc + [s[next]];
      wlen := wlen + 1;
      next := next + 1;
    }
    if next < |s| {
      BareTurn(close);
      QuoteStep(st, s, next, q);
    } else {
      WordEnd(st, s, next, q);
    }
  }

  /** The length pass over one word. */
  method CountWord(st: Style, s: string, p: nat) returns (ok: bool, wlen: nat, next: nat)
    requires p < |s| && !IsSpace(s[p])
    ensures var w := WordAt(st, s, p, Bare);
      ok == w.Word? && (ok ==> wlen == |w.text| && next == w.next)
  {
    hide TakenAt, IsSpace, WordAt, Turn;
    wlen, next := 0, p;
    ghost var acc := "";
    assert forall w: Word :: w.Word? ==> "" + w.text == w.text;
    while true
      invariant p <= next < |s| && !IsSpace(s[next]) && wlen == |acc|
      invariant WordAt(st, s, p, Bare) == Prepend(acc, WordAt(st, s, next, Bare))
      decreases |s| - next
    {
      BareTurn(s[next]);
      if s[next] == '\'' || s[next] == '"' {
        QuoteStep(st, s, next, Bare);
        wlen, next, acc := CountQuoted(st, s, p, wlen, next + 1, s[next], acc);
        if next == |s| {
          return false, wlen, next;
        }
      } else {
        WordStep(st, s, p, acc, next, Bare);
        if s[next] == '\\' {
          next := TakenAt(st, Bare, s, next);
        }
        acc := acc + [s[next]];
        wlen := wlen + 1;
      }
      next := next + 1;
      if next == |s| || IsSpace(s[next]) {
        break;
      }
    }
    WordEnd(st, s, next, Bare);
    assert acc + "" == acc;
    ok := true;
  }

  /** The copy pass inside a quote, up to the closing character. */
  method CopyQuoted(st: Style, s: string, p: nat, buf: array<char>, n0: nat, i: nat, close: char)
    returns (n: nat, next: nat)
    requires close == '\'' || close == '"'
    requires p <= |s| && i <= |s| && n0 < buf.Length && WordAt(st, s, p, Bare).Word?
    requires |WordAt(st, s, p, Bare).text| < buf.Length
    requires var q := if close == '\'' then Single else Double;
      WordAt(st, s, p, Bare) == Prepend(buf[..n0], WordAt(st, s, i, q))
    modifies buf
    ensures n < buf.Length && i <= next < |s| && s[next] == close
    ensures WordAt(st, s, p, Bare) == Prepend(buf[..n], WordAt(st, s, next + 1, Bare))
  {
    hide TakenAt, IsSpace, WordAt, Turn;
    var q := if close == '\'' then Single else Double;
    ghost var w := WordAt(st, s, p, Bare);
    n, next := n0, i;
    while next < |s| && s[next] != close
      invariant i <= next <= |s| && n < buf.Length
      invariant w == Prepend(buf[..n], WordAt(st, s, next, q))
      decreases |s| - next
    {
      BareTurn(s[next]);
      WordStep(st, s, p, buf[..n], next, q);
      if s[next] == '\\' {
        next := TakenAt(st, q, s, next);
      }
      n := Put(buf, n, s[next]);
      next := next + 1;
    }
    if next < |s| {
      BareTurn(close);
      QuoteStep(st, s, next, q);
    } else {
      WordEnd(st, s, next, q);
    }
  }

  /** The copy pass: it fills the buffer that the length pass asked for. */
  method CopyWord(st: Style, s: string, p: nat, buf: array<char>) returns (next: nat)
    requires p < |s| && !IsSpace(s[p]) && WordAt(st, s, p, Bare).Word?
    requires buf.Length == |WordAt(st, s, p, Bare).text| + 1
    modifies buf
    ensures buf[..] == WordAt(st, s, p, Bare).text + ['\0'] && next == WordAt(st, s, p, Bare).next
  {
    hide TakenAt, IsSpace, WordAt, Turn;
    ghost var w := WordAt(st, s, p, Bare);
    var n: nat := 0;
    next := p;
    assert forall w: Word :: w.Word? ==> "" + w.text == w.text;
    while true
      invariant p <= next < |s| && !IsSpace(s[next]) && n < buf.Length
      invariant w == Prepend(buf[..n], WordAt(st, s, next, Bare))
      decreases |s| - next
    {
      BareTurn(s[next]);
      if s[next] == '\'' || s[next] == '"' {
        QuoteStep(st, s, next, Bare);
        n, next := CopyQuoted(st, s, p, buf, n, next + 1, s[next]);
      } else {
        WordStep(st, s, p, buf[..n], next, Bare);
        if s[next] == '\\' {
          next := TakenAt(st, Bare, s, next);
        }
        n := Put(buf, n, s[next]);
      }
      next := next + 1;
      if next == |s| || IsSpace(s[next]) {
        break;
      }
    }
    WordEnd(st, s, next, Bare);
    assert buf[..n] + "" == buf[..n];
    n := Put(buf, n, '\0');
    assert buf[..] == buf[..n];
  }

  /** The words of `s`, behind those of `argv`. No result: the text was left. */
  method SplitInto(st: Style, argv: seq<string>, s: string) returns (r: Option<seq<string>>)
    ensures r.Some? == Args(st, s).Some?
    ensures r.Some? ==> r.value == argv + Args(st, s).value
    ensures r.Some? <==> QuotesClosed(st, s, 0, Bare)
  {
    hide WordAt, QuotesClosed;
    SplitsClosed(st, s, 0);
    var words := argv;
    var p := 0;
    while p < |s|
      invariant p <= |s|
      invariant ArgsAt(st, s, 0).Some? == ArgsAt(st, s, p).Some?
      invariant ArgsAt(st, s, p).Some? ==> argv + ArgsAt(st, s, 0).value == words + ArgsAt(st, s, p).value
      decreases |s| - p
    {
      if IsSpace(s[p]) {
        p := p + 1;
      } else {
        var ok, wlen, _ := CountWord(st, s, p);
        if !ok {
          return None;
        }
        var buf := new char[wlen + 1];
        p := CopyWord(st, s, p, buf);
        words := words + [buf[..wlen]];
      }
    }
    r := Some(words);
  }

  /** parseArgs() */
  method ParseArgs(argv: seq<string>, s: string) returns (r: Option<seq<string>>)
    ensures r.Some? <==> QuotesClosed(Plain, s, 0, Bare)
    ensures r.Some? ==> Args(Plain, s).Some? && r.value == argv + Args(Plain, s).value
  {
    r := SplitInto(Plain, argv, s);
  }

  /** splitArgs() */
  method SplitArgs(s: string) returns (r: Option<seq<string>>)
    ensures r.Some? <==> QuotesClosed(Config, s, 0, Bare)
    ensures r == Args(Config, s)
  {
    r := SplitInto(Config, [], s);
    if r.Some? {
      assert [] + Args(Config, s).value == Args(Config, s).value;
    }
  }

  // ------------------------------------------------------- unescaping in place

  /** How many characters are read at once. */
  function FirstLen(t: string): (n: nat)
    requires t != "" && t != "\\"
    ensures 1 <= n <= |t|
  {
    if t[0] != '\\' then 1 else 2
  }

  function FirstCells(t: string): (cells: seq<Cell>)
    requires t != "" && t != "\\"
    ensures 1 <= |cells| <= FirstLen(t)
  {
    if t[0] != '\\' then [PlainCell(t[0])] else Escape(t[1])
  }

  lemma {:induction false} CellStep(t: string)
    requires t != "" && t != "\\"
    ensures Cells(t) == FirstCells(t) + Cells(t[FirstLen(t)..])
    ensures Complete(t) == Complete(t[FirstLen(t)..])
  {
    hide Escape;
  }

  lemma {:induction false} KeptFirst(cells: seq<Cell>, t: string)
    requires t != "" && t != "\\"
    ensures KeptLen(cells + FirstCells(t)) ==
      if t[0] == '\\' || (t[0] != ' ' && t[0] != '\t') then |cells + FirstCells(t)| else KeptLen(cells)
    ensures Chars(cells + FirstCells(t)) == Chars(cells) + Chars(FirstCells(t))
  {
    hide KeptLen;
    var c := cells + FirstCells(t);
    KeptLenIs(c, if t[0] == '\\' || (t[0] != ' ' && t[0] != '\t') then |c| else KeptLen(cells));
  }

  lemma {:induction false} NothingLeft()
    ensures Cells("") == [] && Complete("") && Cells("\\") == [] && !Complete("\\")
  {
  }

  lemma {:induction false} SkipLeadStep(t: string)
    ensures t != "" && IsSpace(t[0]) ==> SkipLead(t) == SkipLead(t[1..])
    ensures t == "" || !IsSpace(t[0]) ==> SkipLead(t) == t
  {
  }

  /** The line at `s0` ends at a newline or at the end of the file. */
  lemma {:induction false} LineEnd(text: string, s0: nat)
    requires s0 <= |text|
    ensures var e := s0 + |LineOf(text[s0..])|;
      && e <= |text| && text[s0..e] == LineOf(text[s0..])
      && (e < |text| ==> text[e] == '\n')
      && forall i :: s0 <= i < e ==> text[i] != '\n'
  {
    var u := text[s0..];
    assert forall i :: 0 <= i < |u| ==> u[i] == text[s0 + i];
    var n := Find(u, '\n', 0);
    assert forall i :: s0 <= i < s0 + n ==> text[i] == u[i - s0];
  }

  /** The characters read at once at `s`. */
  function FirstRead(text: string, s: nat): (t: string)
    requires s < |text| && (text[s] == '\\' ==> s + 1 < |text|)
    ensures t != "" && t != "\\" && s + |t| <= |text| && |t| == FirstLen(t)
  {
    if text[s] == '\\' then text[s..s + 2] else text[s..s + 1]
  }

  function Overwrite(text: string, p: nat, w: string): (text2: string)
    requires p + |w| <= |text|
    ensures |text2| == |text|
  {
    text[..p] + w + text[p + |w|..]
  }

  lemma {:induction false} OverwriteIs(text: string, p: nat, w: string, text2: string)
    requires p + |w| <= |text| == |text2|
    requires forall i :: 0 <= i < |text| && !(p <= i < p + |w|) ==> text2[i] == text[i]
    requires forall i :: 0 <= i < |w| ==> text2[p + i] == w[i]
    ensures text2 == Overwrite(text, p, w)
  {
  }

  /** The switch over the character behind a backslash. */
  method PutEscape(buf: array<char>, p: nat, c: char) returns (q: nat)
    requires p + 2 <= buf.Length
    modifies buf
    ensures q == p + |Escape(c)| && buf[..] == Overwrite(old(buf[..]), p, Chars(Escape(c)))
  {
    hide Overwrite;
    match c {
      case 's' => buf[p] := ' '; q := p + 1;
      case 't' => buf[p] := '\t'; q := p + 1;
      case 'n' => buf[p] := '\n'; q := p + 1;
      case 'r' => buf[p] := '\r'; q := p + 1;
      case '\\' => buf[p] := '\\'; q := p + 1;
      case _ => buf[p], buf[p + 1] := '\\', c; q := p + 2;
    }
    OverwriteIs(old(buf[..]), p, Chars(Escape(c)), buf[..]);
  }

  /** One character of the value or one escape: what is read at `s` is written at `pt`. */
  method UnescapeOne(buf: array<char>, s: nat, pt: nat) returns (s2: nat, pt2: nat)
    requires pt <= s < buf.Length && (buf[s] == '\\' ==> s + 1 < buf.Length)
    modifies buf
    ensures var t := FirstRead(old(buf[..]), s);
      && s2 == s + |t| <= buf.Length && pt2 == pt + |FirstCells(t)| <= s2
      && buf[..] == Overwrite(old(buf[..]), pt, Chars(FirstCells(t)))
  {
    hide Overwrite, Escape, Chars;
    if buf[s] == '\\' {
      pt2 := PutEscape(buf, pt, buf[s + 1]);
      s2 := s + 2;
    } else {
      buf[pt] := buf[s];
      s2, pt2 := s + 1, pt + 1;
      OverwriteIs(old(buf[..]), pt, Chars([PlainCell(old(buf[s]))]), buf[..]);
    }
  }

  /** `text[s0..e]` is a line of the file. */
  ghost predicate LineEnds(text: string, s0: nat, e: nat) {
    && s0 <= e <= |text| && (e < |text| ==> text[e] == '\n')
    && forall i :: s0 <= i < e ==> text[i] != '\n'
  }

  /** The unescaping loop at `s`: `cells` are read, and their characters written from `st` to `pt`. */
  ghost predicate Halfway(text: string, orig: string, st: nat, e: nat, s: nat, pt: nat, cells: seq<Cell>) {
    && st <= pt <= s <= e <= |text| == |orig|
    && text[s..] == orig[s..] && text[..st] == orig[..st]
    && |cells| == pt - st && text[st..pt] == Chars(cells)
    && Cells(orig[st..e]) == cells + Cells(orig[s..e])
    && Complete(orig[st..e]) == Complete(orig[s..e])
  }

  lemma {:induction false} HalfwayStart(orig: string, st: nat, e: nat)
    requires LineEnds(orig, st, e)
    ensures Halfway(orig, orig, st, e, st, st, []) && KeptLen([]) == 0 && e <= |orig|
  {
    hide Cells, Complete, Chars;
    assert orig[st..st] == Chars([]);
  }

  lemma {:induction false} WrittenStep(text: string, st: nat, s: nat, pt: nat, w: string, s2: nat)
    requires st <= pt <= s <= s2 <= |text| && pt + |w| <= s2
    ensures var text2 := Overwrite(text, pt, w);
      && text2[s2..] == text[s2..] && text2[..st] == text[..st] && text2[st..pt + |w|] == text[st..pt] + w
  {
  }

  lemma {:induction false} ReadStep(text: string, orig: string, s: nat, e: nat)
    requires s < e <= |text| == |orig| && text[s..] == orig[s..]
    requires text[s] == '\\' ==> s + 1 < e
    ensures var t, u := orig[s..e], FirstRead(text, s);
      && t != "\\" && t[0] == text[s] && FirstCells(u) == FirstCells(t) && |u| == FirstLen(t) && s + |u| <= e
      && t[FirstLen(t)..] == orig[s + |u|..e]
  {
    assert forall i :: s <= i < |text| ==> text[i] == text[s..][i - s] == orig[i];
  }

  lemma {:induction false} CharsConcat(a: seq<Cell>, b: seq<Cell>)
    ensures Chars(a + b) == Chars(a) + Chars(b)
  {
  }

  lemma {:induction false} HalfwayStep(text: string, orig: string, st: nat, e: nat, s: nat, pt: nat, cells: seq<Cell>)
    requires Halfway(text, orig, st, e, s, pt, cells)
    requires s < e && (text[s] == '\\' ==> s + 1 < e)
    ensures var t := FirstRead(text, s);
      && pt + |FirstCells(t)| <= s + |t|
      && Halfway(Overwrite(text, pt, Chars(FirstCells(t))), orig, st, e, s + |t|, pt + |FirstCells(t)|,
                 cells + FirstCells(t))
      && KeptLen(cells + FirstCells(t)) ==
           if text[s] == '\\' || (text[s] != ' ' && text[s] != '\t') then |cells + FirstCells(t)| else KeptLen(cells)
  {
    hide Cells, Complete, FirstCells, FirstRead, Chars, KeptLen, Overwrite;
    var t := FirstRead(text, s);
    var c := FirstCells(t);
    ReadStep(text, orig, s, e);
    CellStep(orig[s..e]);
    KeptFirst(cells, orig[s..e]);
    WrittenStep(text, st, s, pt, Chars(c), s + |t|);
    CharsConcat(cells, c);
    assert text[s + |t|..] == text[s..][|t|..];
  }

  /** What the loop sees at `s` when it is still inside the line, or at its end. */
  lemma {:induction false} HalfwayAt(text: string, orig: string, st: nat, e: nat, s: nat, pt: nat, cells: seq<Cell>)
    requires Halfway(text, orig, st, e, s, pt, cells) && LineEnds(orig, st, e)
    ensures st <= pt <= s <= e <= |text| && |cells| == pt - st
    ensures s == e <==> s == |text| || text[s] == '\n'
    ensures s < e ==> (s + 1 == e <==> s + 1 == |text| || text[s + 1] == '\n')
  {
    hide Cells, Complete, Chars;
    assert forall i :: s <= i < |text| ==> text[i] == text[s..][i - s] == orig[i];
  }

  /** The value of `orig[st..e]` is left at `st..en`, and nothing else of the text has changed. */
  ghost predicate Unescaped(text: string, orig: string, st: nat, e: nat, en: nat) {
    && st <= en <= e <= |text| == |orig|
    && text[st..en] == Trimmed(Cells(orig[st..e]))
    && text[..st] == orig[..st] && text[e..] == orig[e..]
  }

  /** The end of the loop: at the end of the line, or at a backslash there. */
  lemma {:induction false} HalfwayDone(text: string, orig: string, st: nat, e: nat, s: nat, pt: nat, cells: seq<Cell>)
    requires Halfway(text, orig, st, e, s, pt, cells)
    requires s == e || (s + 1 == e && text[s] == '\\')
    ensures Complete(orig[st..e]) <==> s == e
    ensures Unescaped(text, orig, st, e, st + KeptLen(cells))
  {
    hide Cells, Complete, Chars, KeptLen;
    NothingLeft();
    assert forall i :: s <= i < |text| ==> text[i] == text[s..][i - s] == orig[i];
    assert orig[s..e] == "" || orig[s..e] == "\\";
    assert cells + [] == cells;
    assert text[st..st + KeptLen(cells)] == text[st..pt][..KeptLen(cells)];
    assert text[e..] == text[s..][e - s..];
  }

  /** One round of the unescaping loop: at a backslash that ends the line, nothing but a complaint. */
  method UnescapeRound(buf: array<char>, s: nat, pt: nat, en: nat,
                       ghost orig: string, ghost st: nat, ghost e: nat, ghost cells: seq<Cell>)
    returns (trailing: bool, s2: nat, pt2: nat, en2: nat, ghost cells2: seq<Cell>)
    requires LineEnds(orig, st, e) && Halfway(buf[..], orig, st, e, s, pt, cells) && en == st + KeptLen(cells)
    requires s < e <= buf.Length
    modifies buf
    ensures Halfway(buf[..], orig, st, e, s2, pt2, cells2) && en2 == st + KeptLen(cells2)
    ensures if trailing then s2 == s && s + 1 == e && buf[s] == '\\' else s < s2 <= e
  {
    hide *;
    ghost var text := buf[..];
    HalfwayAt(text, orig, st, e, s, pt, cells);
    var c := buf[s];
    trailing, s2, pt2, en2, cells2 := false, s, pt, en, cells;
    if c == '\\' && (s + 1 >= buf.Length || buf[s + 1] == '\n') {
      trailing := true;
    } else {
      HalfwayStep(text, orig, st, e, s, pt, cells);
      cells2 := cells + FirstCells(FirstRead(text, s));
      s2, pt2 := UnescapeOne(buf, s, pt);
      HalfwayAt(buf[..], orig, st, e, s2, pt2, cells2);
      if c == '\\' || (c != ' ' && c != '\t') {
        en2 := pt2;
      }
    }
  }

  /** The unescaping loop: the rest of the line, from `st` to `e`, shrinks to its value. */
  method Unescape(buf: array<char>, st: nat, ghost e: nat) returns (en: nat, trailing: bool)
    requires LineEnds(buf[..], st, e)
    modifies buf
    ensures e <= buf.Length && Unescaped(buf[..], old(buf[..]), st, e, en)
    ensures trailing == !Complete(old(buf[..])[st..e])
  {
    hide *;
    ghost var orig := buf[..];
    ghost var cells: seq<Cell> := [];
    var s: nat, pt: nat := st, st;
    en, trailing := st, false;
    HalfwayStart(orig, st, e);
    HalfwayAt(orig, orig, st, e, s, pt, cells);
    while !trailing && s < buf.Length && buf[s] != '\n'
      invariant s <= e <= buf.Length
      invariant Halfway(buf[..], orig, st, e, s, pt, cells) && en == st + KeptLen(cells)
      invariant trailing ==> s + 1 == e && buf[s] == '\\'
      decreases e - s, !trailing
    {
      HalfwayAt(buf[..], orig, st, e, s, pt, cells);
      trailing, s, pt, en, cells := UnescapeRound(buf, s, pt, en, orig, st, e, cells);
    }
    HalfwayAt(buf[..], orig, st, e, s, pt, cells);
    HalfwayDone(buf[..], orig, st, e, s, pt, cells);
  }

  /**
   The loop of readConfig() over the value of one entry, which starts at `s0`: the value
   is left at `st..en`, nothing outside the line changes, and a backslash that is the
   last character of the line is reported.
   */
  method ReadValue(buf: array<char>, s0: nat) returns (st: nat, en: nat, trailing: bool)
    requires s0 <= buf.Length
    modifies buf
    ensures var line := LineOf(old(buf[s0..]));
      && s0 <= st <= en <= s0 + |line| <= buf.Length
      && buf[st..en] == Value(line)
      && buf[..s0] == old(buf[..s0]) && buf[s0 + |line|..] == old(buf[s0 + |line|..])
      && trailing == !Complete(SkipLead(line))
  {
    hide Cells, Complete, LineOf, SkipLead, IsSpace, Trimmed;
    ghost var orig := buf[..];
    ghost var line := LineOf(buf[s0..]);
    ghost var e := s0 + |line|;
    assert buf[s0..] == orig[s0..];
    LineEnd(orig, s0);
    st := s0;
    while st < buf.Length && IsSpace(buf[st]) && buf[st] != '\n'
      invariant s0 <= st <= e && buf[..] == orig && SkipLead(line) == SkipLead(orig[st..e])
    {
      assert buf[st] == orig[st];
      SkipLeadStep(orig[st..e]);
      assert orig[st..e][1..] == orig[st + 1..e];
      st := st + 1;
    }
    SkipLeadStep(orig[st..e]);
    ValueIs(line);
    assert buf[st..e] == orig[st..e];
    en, trailing := Unescape(buf, st, e);
    assert buf[..s0] == buf[..st][..s0] == orig[..s0];
  }
}
