/**
 Argument vectors as one line of text: how the two splitters read such a line, what the
 joiner writes, and that splitting undoes joining.
 */
module ArgText {
  import opened Wrappers

  /** isspace() in the C locale. */
  predicate IsSpace(c: char) {
    c == ' ' || '\t' <= c <= '\r'
  }

  /** Which splitter: parseArgs() on a plain text, or splitArgs() on the text as it is in the configuration file. */
  datatype Style = Plain | Config

  datatype Quote = Bare | Single | Double

  /** A word and the place behind it, or a quote that the end of the text leaves open. */
  datatype Word = Overrun | Word(text: string, next: nat)

  /** One more backslash, if there is one. */
  function PastBackslash(s: string, p: nat): (e: nat)
    requires p < |s|
    ensures p <= e < |s|
  {
    if p + 1 < |s| && s[p + 1] == '\\' then p + 1 else p
  }

  /** Where the character is that the backslash at `p` stands for. */
  function TakenAt(st: Style, q: Quote, s: string, p: nat): (e: nat)
    requires p < |s|
    ensures p <= e < |s|
  {
    match (st, q)
    case (Plain, Single) => p
    case (Plain, _) => if p + 1 < |s| then p + 1 else p
    case (Config, Single) => PastBackslash(s, p)
    case (Config, _) =>
      var e := PastBackslash(s, PastBackslash(s, p));
      if e + 1 < |s| then e + 1 else e
  }

  /** The quoting behind a character that opens or closes a quote. */
  function Turn(q: Quote, c: char): Option<Quote> {
    match q
    case Bare => if c == '\'' then Some(Single) else if c == '"' then Some(Double) else None
    case Single => if c == '\'' then Some(Bare) else None
    case Double => if c == '"' then Some(Bare) else None
  }

  function Prepend(t: string, w: Word): Word {
    if w.Overrun? then Overrun else Word(t + w.text, w.next)
  }

  /** What is left of a word at `p`. */
  function WordAt(st: Style, s: string, p: nat, q: Quote): (w: Word)
    requires p <= |s|
    ensures w.Word? ==> p <= w.next <= |s|
    ensures w.Word? && p < |s| && !(q == Bare && IsSpace(s[p])) ==> p < w.next
    decreases |s| - p
  {
    if p == |s| then
      if q == Bare then Word("", p) else Overrun
    else if q == Bare && IsSpace(s[p]) then Word("", p)
    else if s[p] == '\\' then
      var e := TakenAt(st, q, s, p);
      Prepend([s[e]], WordAt(st, s, e + 1, q))
    else
      match Turn(q, s[p])
      case Some(q2) => WordAt(st, s, p + 1, q2)
      case None => Prepend([s[p]], WordAt(st, s, p + 1, q))
  }

  /** The words from `p` on; none at all if a quote stays open. */
  function ArgsAt(st: Style, s: string, p: nat): Option<seq<string>>
    requires p <= |s|
    decreases |s| - p
  {
    if p == |s| then Some([])
    else if IsSpace(s[p]) then ArgsAt(st, s, p + 1)
    else
      match WordAt(st, s, p, Bare)
      case Overrun => None
      case Word(text, next) =>
        var rest := ArgsAt(st, s, next);
        if rest.Some? then Some([text] + rest.value) else None
  }

  function Args(st: Style, s: string): Option<seq<string>> {
    ArgsAt(st, s, 0)
  }

  /** Every quote is closed: what a caller of parseArgs() has to make sure of. */
  predicate QuotesClosed(st: Style, s: string, p: nat, q: Quote)
    requires p <= |s|
    decreases |s| - p
  {
    if p == |s| then q == Bare
    else if s[p] == '\\' then QuotesClosed(st, s, TakenAt(st, q, s, p) + 1, q)
    else QuotesClosed(st, s, p + 1, if Turn(q, s[p]).Some? then Turn(q, s[p]).value else q)
  }

  // ------------------------------------------------------------------ writing

  /** How a character is written: the backslashes are doubled once for each reader. */
  function Encode(st: Style, c: char): (t: string)
    ensures t != "" && t[|t| - 1] == c
  {
    var pre := if st == Plain then "\\" else "\\\\";
    if c == '\\' then (if st == Plain then "\\\\" else "\\\\\\\\")
    else if c == '"' then pre + "\""
    else [c]
  }

  function Encoded(st: Style, arg: string): string {
    if arg == "" then "" else Encode(st, arg[0]) + Encoded(st, arg[1..])
  }

  predicate NeedsQuotes(arg: string) {
    exists i :: 0 <= i < |arg| && (IsSpace(arg[i]) || arg[i] == '\'')
  }

  function Piece(st: Style, arg: string): string {
    if NeedsQuotes(arg) then "\"" + Encoded(st, arg) + "\"" else Encoded(st, arg)
  }

  function Joined(st: Style, args: seq<string>): string {
    if args == [] then ""
    else Piece(st, args[0]) + if |args| == 1 then "" else " " + Joined(st, args[1..])
  }

  function NonEmpty(args: seq<string>): seq<string> {
    if args == [] then []
    else (if args[0] == "" then [] else [args[0]]) + NonEmpty(args[1..])
  }

  // ------------------------------------------------------------------- lemmas

  /** `s` has `t` at `p`. */
  ghost predicate At(s: string, p: nat, t: string) {
    p + |t| <= |s| && s[p..p + |t|] == t
  }

  lemma {:induction false} AtParts(s: string, p: nat, t: string, u: string)
    requires At(s, p, t + u)
    ensures At(s, p, t) && At(s, p + |t|, u)
  {
    assert s[p..p + |t + u|][..|t|] == t && s[p..p + |t + u|][|t|..] == u;
  }

  lemma {:induction false} PrependTwice(t: string, u: string, w: Word)
    ensures Prepend(t, Prepend(u, w)) == Prepend(t + u, w)
  {
    if w.Word? {
      assert t + (u + w.text) == (t + u) + w.text;
    }
  }

  /** A written backslash or quote is taken as a whole. */
  lemma {:induction false} EscapeRead(st: Style, s: string, p: nat, c: char, q: Quote)
    requires p + |Encode(st, c)| <= |s| && q != Single && (c == '\\' || c == '"')
    requires forall i :: 0 <= i < |Encode(st, c)| ==> s[p + i] == Encode(st, c)[i]
    ensures s[p] == '\\' && TakenAt(st, q, s, p) == p + |Encode(st, c)| - 1
    ensures s[p + |Encode(st, c)| - 1] == c
  {
    var t := Encode(st, c);
    assert s[p] == s[p + 0] == t[0];
    assert s[p + 1] == t[1];
    if st == Config {
      assert s[p + 2] == t[2];
      assert c == '\\' ==> s[p + 3] == t[3];
    }
  }

  /** One written character is read back. */
  lemma {:induction false} EncodeRead(st: Style, s: string, p: nat, c: char, q: Quote)
    requires At(s, p, Encode(st, c)) && q != Single
    requires q == Bare ==> !IsSpace(c) && c != '\''
    ensures WordAt(st, s, p, q) == Prepend([c], WordAt(st, s, p + |Encode(st, c)|, q))
  {
    var t := Encode(st, c);
    assert forall i :: 0 <= i < |t| ==> t[i] == s[p + i];
    if c == '\\' || c == '"' {
      EscapeRead(st, s, p, c, q);
      hide TakenAt;
    } else {
      assert t == [c] && s[p] == s[p + 0] == c;
    }
  }

  lemma {:induction false} EncodedRead(st: Style, s: string, p: nat, arg: string, q: Quote)
    requires At(s, p, Encoded(st, arg)) && q != Single
    requires q == Bare ==> !NeedsQuotes(arg)
    ensures WordAt(st, s, p, q) == Prepend(arg, WordAt(st, s, p + |Encoded(st, arg)|, q))
    decreases |arg|
  {
    hide WordAt, Encode;
    if arg == "" {
      assert forall w: Word :: w.Word? ==> "" + w.text == w.text;
    } else {
      var c, rest := arg[0], arg[1..];
      AtParts(s, p, Encode(st, c), Encoded(st, rest));
      EncodeRead(st, s, p, c, q);
      var p2 := p + |Encode(st, c)|;
      if q == Bare {
        TailNeedsNoQuotes(arg);
      }
      EncodedRead(st, s, p2, rest, q);
      PrependTwice([c], rest, WordAt(st, s, p2 + |Encoded(st, rest)|, q));
      assert [c] + rest == arg;
    }
  }

  lemma {:induction false} TailNeedsNoQuotes(arg: string)
    requires arg != "" && !NeedsQuotes(arg)
    ensures !NeedsQuotes(arg[1..]) && !IsSpace(arg[0]) && arg[0] != '\''
  {
    assert forall i :: 0 <= i < |arg[1..]| ==> arg[1..][i] == arg[i + 1];
  }

  lemma {:induction false} TurnAt(st: Style, s: string, p: nat, q: Quote, q2: Quote)
    requires p < |s| && s[p] == '"' && Turn(q, '"') == Some(q2)
    ensures WordAt(st, s, p, q) == WordAt(st, s, p + 1, q2)
  {
  }

  lemma {:induction false} WordStops(st: Style, s: string, p: nat)
    requires p <= |s| && (p < |s| ==> IsSpace(s[p]))
    ensures WordAt(st, s, p, Bare) == Word("", p)
  {
  }

  lemma {:induction false} AtFirst(s: string, p: nat, t: string)
    requires At(s, p, t) && t != ""
    ensures p < |s| && s[p] == t[0]
  {
    assert s[p..p + |t|][0] == t[0];
  }

  lemma {:induction false} QuotedRead(st: Style, s: string, p: nat, arg: string)
    requires At(s, p, "\"" + (Encoded(st, arg) + "\""))
    requires var e := p + |Encoded(st, arg)| + 2; e < |s| ==> IsSpace(s[e])
    ensures WordAt(st, s, p, Bare) == Word(arg, p + |Encoded(st, arg)| + 2)
  {
    hide WordAt, Encoded, IsSpace, At;
    var t := Encoded(st, arg);
    var e := p + 1 + |t|;
    AtParts(s, p, "\"", t + "\"");
    AtParts(s, p + 1, t, "\"");
    AtFirst(s, p, "\"");
    AtFirst(s, e, "\"");
    TurnAt(st, s, p, Bare, Double);
    EncodedRead(st, s, p + 1, arg, Double);
    TurnAt(st, s, e, Double, Bare);
    WordStops(st, s, e + 1);
    assert arg + "" == arg;
  }

  lemma {:induction false} BareRead(st: Style, s: string, p: nat, arg: string)
    requires At(s, p, Encoded(st, arg)) && !NeedsQuotes(arg)
    requires var e := p + |Encoded(st, arg)|; e <= |s| && (e < |s| ==> IsSpace(s[e]))
    ensures WordAt(st, s, p, Bare) == Word(arg, p + |Encoded(st, arg)|)
  {
    hide WordAt, Encoded, IsSpace, NeedsQuotes, At;
    EncodedRead(st, s, p, arg, Bare);
    WordStops(st, s, p + |Encoded(st, arg)|);
    assert arg + "" == arg;
  }

  lemma {:induction false} PieceIs(st: Style, arg: string)
    ensures Piece(st, arg) ==
      if NeedsQuotes(arg) then "\"" + (Encoded(st, arg) + "\"") else Encoded(st, arg)
  {
    hide Encoded, NeedsQuotes;
    assert "\"" + (Encoded(st, arg) + "\"") == "\"" + Encoded(st, arg) + "\"";
  }

  /** A written argument is read back as one word. */
  lemma {:induction false} PieceRead(st: Style, s: string, p: nat, arg: string)
    requires At(s, p, Piece(st, arg))
    requires var e := p + |Piece(st, arg)|; e <= |s| && (e < |s| ==> IsSpace(s[e]))
    ensures WordAt(st, s, p, Bare) == Word(arg, p + |Piece(st, arg)|)
  {
    hide *;
    PieceIs(st, arg);
    if NeedsQuotes(arg) {
      QuotedRead(st, s, p, arg);
    } else {
      BareRead(st, s, p, arg);
    }
  }

  lemma {:induction false} PieceStart(st: Style, arg: string)
    ensures arg != "" ==> Piece(st, arg) != "" && !IsSpace(Piece(st, arg)[0])
    ensures arg == "" ==> Piece(st, arg) == ""
  {
    if arg != "" && !NeedsQuotes(arg) {
      TailNeedsNoQuotes(arg);
    }
  }

  /** What is written behind an argument. */
  function Tail(st: Style, rest: seq<string>): string {
    if rest == [] then "" else " " + Joined(st, rest)
  }

  lemma {:induction false} JoinedIs(st: Style, args: seq<string>)
    requires args != []
    ensures Joined(st, args) == Piece(st, args[0]) + Tail(st, args[1..])
  {
    hide Piece;
  }

  lemma {:induction false} TailRead(st: Style, s: string, e: nat, rest: seq<string>)
    requires At(s, e, Tail(st, rest)) && e + |Tail(st, rest)| == |s|
    ensures rest == [] ==> e == |s|
    ensures rest != [] ==> e < |s| && IsSpace(s[e]) && s[e + 1..] == Joined(st, rest)
    ensures rest != [] ==> ArgsAt(st, s, e) == ArgsAt(st, s, e + 1)
  {
    hide Joined, WordAt;
    if rest != [] {
      AtParts(s, e, " ", Joined(st, rest));
      AtFirst(s, e, " ");
    }
  }

  lemma {:induction false} ArgsStep(st: Style, s: string, p: nat, text: string, next: nat)
    requires p < |s| && !IsSpace(s[p]) && WordAt(st, s, p, Bare) == Word(text, next)
    ensures next <= |s|
    ensures ArgsAt(st, s, next).Some? ==> ArgsAt(st, s, p) == Some([text] + ArgsAt(st, s, next).value)
  {
    hide WordAt, IsSpace;
  }

  lemma {:induction false} NoArgs(st: Style, s: string)
    ensures ArgsAt(st, s, |s|) == Some([])
  {
  }

  lemma {:induction false} NonEmptyStep(args: seq<string>)
    ensures args == [] ==> NonEmpty(args) == []
    ensures args != [] && args[0] == "" ==> NonEmpty(args) == NonEmpty(args[1..])
    ensures args != [] && args[0] != "" ==> NonEmpty(args) == [args[0]] + NonEmpty(args[1..])
  {
  }

  lemma {:induction false} AtIs(s: string, p: nat, t: string)
    requires p <= |s| && s[p..] == t
    ensures At(s, p, t) && p + |t| == |s|
  {
  }

  lemma {:induction false} NothingJoined(st: Style)
    ensures Joined(st, []) == ""
  {
  }

  /** Splitting undoes joining, but for empty arguments, which are lost. */
  lemma {:induction false} JoinedRead(st: Style, s: string, p: nat, args: seq<string>)
    requires p <= |s| && s[p..] == Joined(st, args)
    ensures ArgsAt(st, s, p) == Some(NonEmpty(args))
    decreases |args|
  {
    hide *;
    NonEmptyStep(args);
    if args == [] {
      NothingJoined(st);
      NoArgs(st, s);
    } else {
      var t, rest := Piece(st, args[0]), args[1..];
      var e := p + |t|;
      JoinedIs(st, args);
      AtIs(s, p, t + Tail(st, rest));
      AtParts(s, p, t, Tail(st, rest));
      TailRead(st, s, e, rest);
      PieceStart(st, args[0]);
      if rest != [] {
        JoinedRead(st, s, e + 1, rest);
      } else {
        NonEmptyStep(rest);
        NoArgs(st, s);
      }
      if args[0] != "" {
        AtFirst(s, p, t);
        PieceRead(st, s, p, args[0]);
        ArgsStep(st, s, p, args[0], e);
      }
    }
  }

  lemma {:induction false} SplitUndoesJoin(args: seq<string>)
    ensures Args(Config, Joined(Config, args)) == Some(NonEmpty(args))
    ensures (forall i :: 0 <= i < |args| ==> args[i] != "") <==> NonEmpty(args) == args
  {
    JoinedRead(Config, Joined(Config, args), 0, args);
    NonEmptyIs(args);
  }

  lemma {:induction false} NonEmptyIs(args: seq<string>)
    ensures (forall i :: 0 <= i < |args| ==> args[i] != "") <==> NonEmpty(args) == args
    ensures |NonEmpty(args)| <= |args|
  {
    if args != [] {
      NonEmptyIs(args[1..]);
      var rest := args[1..];
      assert args == [args[0]] + rest;
      assert (forall i :: 0 <= i < |args| ==> args[i] != "") <==>
          args[0] != "" && forall i :: 0 <= i < |rest| ==> rest[i] != "" by {
        assert forall i :: 0 <= i < |rest| ==> rest[i] == args[i + 1];
        assert forall i :: 0 < i < |args| ==> args[i] == rest[i - 1];
      }
    }
  }

  // ------------------------------------------------------------- open quotes

  lemma {:induction false} WordClosed(st: Style, s: string, p: nat, q: Quote)
    requires p <= |s|
    ensures var w := WordAt(st, s, p, q);
      QuotesClosed(st, s, p, q) <==> w.Word? && QuotesClosed(st, s, w.next, Bare)
    decreases |s| - p
  {
    hide TakenAt, IsSpace, Turn;
    if p < |s| && !(q == Bare && IsSpace(s[p])) {
      if s[p] == '\\' {
        WordClosed(st, s, TakenAt(st, q, s, p) + 1, q);
      } else {
        WordClosed(st, s, p + 1, if Turn(q, s[p]).Some? then Turn(q, s[p]).value else q);
      }
    }
  }

  /** The splitters stay inside the text exactly if every quote is closed. */
  lemma {:induction false} SplitsClosed(st: Style, s: string, p: nat)
    requires p <= |s|
    ensures ArgsAt(st, s, p).Some? <==> QuotesClosed(st, s, p, Bare)
    decreases |s| - p
  {
    hide WordAt;
    if p < |s| {
      if IsSpace(s[p]) {
        SplitsClosed(st, s, p + 1);
      } else {
        WordClosed(st, s, p, Bare);
        if WordAt(st, s, p, Bare).Word? {
          SplitsClosed(st, s, WordAt(st, s, p, Bare).next);
        }
      }
    }
  }
}
