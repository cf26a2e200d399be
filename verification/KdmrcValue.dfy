/**
 How the configuration reader unescapes and trims the value of an entry, and that this
 takes off exactly the layer of backslashes that the joiner put on.
 */
module KdmrcValue {
  import opened IniText
  import opened Wrappers
  import opened ArgText

  /** A character of a value. One that is not kept goes when it ends up at the end. */
  datatype Cell = Cell(c: char, kept: bool)

  function PlainCell(c: char): Cell {
    Cell(c, c != ' ' && c != '\t')
  }

  function Escape(c: char): seq<Cell> {
    match c
    case 's' => [Cell(' ', true)]
    case 't' => [Cell('\t', true)]
    case 'n' => [Cell('\n', true)]
    case 'r' => [Cell('\r', true)]
    case '\\' => [Cell('\\', true)]
    case _ => [Cell('\\', true), Cell(c, true)]
  }

  /** A backslash at the very end is dropped. */
  function Cells(t: string): seq<Cell> {
    if t == "" then []
    else if t[0] != '\\' then [PlainCell(t[0])] + Cells(t[1..])
    else if |t| == 1 then []
    else Escape(t[1]) + Cells(t[2..])
  }

  /** No backslash is left alone at the end. */
  predicate Complete(t: string) {
    t == "" || if t[0] != '\\' then Complete(t[1..]) else |t| > 1 && Complete(t[2..])
  }

  function Chars(cells: seq<Cell>): (t: string)
    ensures |t| == |cells|
    ensures forall i :: 0 <= i < |t| ==> t[i] == cells[i].c
  {
    seq(|cells|, i requires 0 <= i < |cells| => cells[i].c)
  }

  function KeptLen(cells: seq<Cell>): (n: nat)
    ensures n <= |cells|
    ensures forall i :: n <= i < |cells| ==> !cells[i].kept
    ensures n > 0 ==> cells[n - 1].kept
  {
    if cells != [] && !cells[|cells| - 1].kept then KeptLen(cells[..|cells| - 1]) else |cells|
  }

  function SkipLead(t: string): string {
    if t != "" && IsSpace(t[0]) then SkipLead(t[1..]) else t
  }

  function Trimmed(cells: seq<Cell>): string {
    Chars(cells)[..KeptLen(cells)]
  }

  /** The value of a line behind its `=`. */
  function Value(line: string): string {
    Trimmed(Cells(SkipLead(line)))
  }

  function LineOf(t: string): string {
    t[..Find(t, '\n', 0)]
  }

  // ------------------------------------------------------------ reading cells

  lemma {:induction false} KeptLenIs(cells: seq<Cell>, n: nat)
    requires n <= |cells| && (forall i :: n <= i < |cells| ==> !cells[i].kept)
    requires n > 0 ==> cells[n - 1].kept
    ensures KeptLen(cells) == n
  {
  }

  lemma {:induction false} CellsConcat(t: string, u: string)
    requires Complete(t)
    ensures Cells(t + u) == Cells(t) + Cells(u)
    ensures Complete(t + u) <==> Complete(u)
    decreases |t|
  {
    if t == "" {
      assert t + u == u;
    } else if t[0] != '\\' {
      assert (t + u)[1..] == t[1..] + u;
      CellsConcat(t[1..], u);
    } else {
      assert (t + u)[2..] == t[2..] + u;
      CellsConcat(t[2..], u);
    }
  }

  /** `t` is read as `u`. */
  ghost predicate Reads(t: string, u: string) {
    Complete(t) && Chars(Cells(t)) == u
  }

  lemma {:induction false} ReadsConcat(t: string, u: string, t2: string, u2: string)
    requires Reads(t, u) && Reads(t2, u2)
    ensures Reads(t + t2, u + u2)
  {
    hide Cells, Complete;
    CellsConcat(t, t2);
  }

  lemma {:induction false} ReadsOne(c: char)
    requires c != '\\'
    ensures Reads([c], [c])
  {
  }

  lemma {:induction false} ReadsPair()
    ensures Reads("\\\\", "\\")
  {
    assert "\\\\"[2..] == "";
    assert Cells("\\\\") == Escape('\\') + Cells("");
  }

  lemma {:induction false} ReadsEncode(c: char)
    ensures Reads(Encode(Config, c), Encode(Plain, c))
  {
    var t := Encode(Config, c);
    if c == '\\' {
      ReadsPair();
      ReadsConcat("\\\\", "\\", "\\\\", "\\");
    } else if c == '"' {
      ReadsPair();
      ReadsOne('"');
      ReadsConcat("\\\\", "\\", "\"", "\"");
    } else {
      ReadsOne(c);
    }
  }

  lemma {:induction false} ReadsNothing()
    ensures Reads("", "")
  {
  }

  lemma {:induction false} ReadsEncoded(arg: string)
    ensures Reads(Encoded(Config, arg), Encoded(Plain, arg))
  {
    hide Reads, Encode;
    if arg == "" {
      ReadsNothing();
    } else {
      ReadsEncode(arg[0]);
      ReadsEncoded(arg[1..]);
      ReadsConcat(Encode(Config, arg[0]), Encode(Plain, arg[0]), Encoded(Config, arg[1..]), Encoded(Plain, arg[1..]));
    }
  }

  lemma {:induction false} ReadsPiece(arg: string)
    ensures Reads(Piece(Config, arg), Piece(Plain, arg))
  {
    hide *;
    PieceIs(Config, arg);
    PieceIs(Plain, arg);
    var t, u := Encoded(Config, arg), Encoded(Plain, arg);
    ReadsEncoded(arg);
    ReadsOne('"');
    ReadsConcat(t, u, "\"", "\"");
    ReadsConcat("\"", "\"", t + "\"", u + "\"");
  }

  lemma {:induction false} ReadsJoined(args: seq<string>)
    ensures Reads(Joined(Config, args), Joined(Plain, args))
    decreases |args|, 0
  {
    hide *;
    if args == [] {
      NothingJoined(Config);
      NothingJoined(Plain);
      ReadsNothing();
    } else {
      JoinedIs(Config, args);
      JoinedIs(Plain, args);
      ReadsPiece(args[0]);
      ReadsTail(args[1..]);
      ReadsConcat(Piece(Config, args[0]), Piece(Plain, args[0]), Tail(Config, args[1..]), Tail(Plain, args[1..]));
    }
  }

  lemma {:induction false} ReadsTail(rest: seq<string>)
    ensures Reads(Tail(Config, rest), Tail(Plain, rest))
    decreases |rest|, 1
  {
    hide Reads, Joined;
    if rest == [] {
      ReadsNothing();
    } else {
      ReadsOne(' ');
      ReadsJoined(rest);
      ReadsConcat(" ", " ", Joined(Config, rest), Joined(Plain, rest));
    }
  }

  /** A text that does not end in a blank loses nothing at its end. */
  lemma {:induction false} LastKept(t: string)
    requires Complete(t) && t != "" && t[|t| - 1] != ' ' && t[|t| - 1] != '\t'
    ensures Cells(t) != [] && Cells(t)[|Cells(t)| - 1].kept
  {
    if t[0] != '\\' {
      if |t| > 1 {
        LastKept(t[1..]);
      }
    } else if |t| > 2 {
      LastKept(t[2..]);
    }
  }

  // -------------------------------------------------------- empty arguments

  function DropFront(args: seq<string>): seq<string> {
    if args != [] && args[0] == "" then DropFront(args[1..]) else args
  }

  function DropBack(args: seq<string>): seq<string> {
    if args != [] && args[|args| - 1] == "" then DropBack(args[..|args| - 1]) else args
  }

  lemma {:induction false} FrontNonEmpty(args: seq<string>)
    ensures NonEmpty(DropFront(args)) == NonEmpty(args)
  {
    if args != [] && args[0] == "" {
      FrontNonEmpty(args[1..]);
    }
  }

  lemma {:induction false} NonEmptySnoc(args: seq<string>)
    ensures NonEmpty(args + [""]) == NonEmpty(args)
  {
    if args == [] {
      assert args + [""] == [""] && [""][1..] == [];
    } else {
      assert (args + [""])[1..] == args[1..] + [""];
      NonEmptySnoc(args[1..]);
    }
  }

  lemma {:induction false} BackNonEmpty(args: seq<string>)
    ensures NonEmpty(DropBack(args)) == NonEmpty(args)
  {
    if args != [] && args[|args| - 1] == "" {
      var a := args[..|args| - 1];
      assert args == a + [""];
      NonEmptySnoc(a);
      BackNonEmpty(a);
    }
  }

  lemma {:induction false} SkipLeadSpace(t: string)
    ensures SkipLead(" " + t) == SkipLead(t) && SkipLead("") == ""
  {
    assert (" " + t)[1..] == t;
  }

  lemma {:induction false} SkipLeadNone(t: string, u: string)
    requires t != "" && !IsSpace(t[0])
    ensures SkipLead(t + u) == t + u
  {
  }

  lemma {:induction false} LeadJoined(args: seq<string>)
    ensures SkipLead(Joined(Config, args)) == Joined(Config, DropFront(args))
    decreases |args|
  {
    hide SkipLead, Joined, Piece;
    SkipLeadSpace("");
    NothingJoined(Config);
    if args != [] {
      JoinedIs(Config, args);
      PieceStart(Config, args[0]);
      if args[0] == "" {
        var rest := args[1..];
        LeadJoined(rest);
        SkipLeadSpace(Joined(Config, rest));
        assert "" + Tail(Config, rest) == Tail(Config, rest);
      } else {
        SkipLeadNone(Piece(Config, args[0]), Tail(Config, args[1..]));
      }
    }
  }

  lemma {:induction false} JoinedSnoc(st: Style, args: seq<string>, x: string)
    requires args != []
    ensures Joined(st, args + [x]) == Joined(st, args) + " " + Piece(st, x)
    decreases |args|
  {
    hide Joined, Piece;
    JoinedIs(st, args);
    JoinedIs(st, args + [x]);
    var rest := args[1..];
    assert (args + [x])[1..] == rest + [x];
    if rest == [] {
      JoinedIs(st, [x]);
      assert rest + [x] == [x] && [x][1..] == [];
      assert Tail(st, [x]) == " " + (Piece(st, x) + "") == " " + Piece(st, x);
    } else {
      JoinedSnoc(st, rest, x);
      Regroup(Piece(st, args[0]), Joined(st, rest), Piece(st, x));
    }
  }

  lemma {:induction false} Regroup(a: string, b: string, c: string)
    ensures a + (" " + (b + " " + c)) == a + (" " + b) + " " + c
  {
  }

  lemma {:induction false} EncodedEnd(st: Style, arg: string)
    requires arg != ""
    ensures Encoded(st, arg) != "" && Encoded(st, arg)[|Encoded(st, arg)| - 1] == arg[|arg| - 1]
  {
    hide Encode;
    if |arg| > 1 {
      EncodedEnd(st, arg[1..]);
    }
  }

  lemma {:induction false} PieceEnd(st: Style, arg: string)
    requires arg != ""
    ensures var t := Piece(st, arg); t != "" && t[|t| - 1] != ' ' && t[|t| - 1] != '\t'
  {
    hide Encoded;
    EncodedEnd(st, arg);
    PieceIs(st, arg);
  }

  lemma {:induction false} TrimmedAll(t: string, u: string)
    requires Reads(t, u) && t != "" && t[|t| - 1] != ' ' && t[|t| - 1] != '\t'
    ensures Trimmed(Cells(t)) == u
  {
    hide Cells, Complete, KeptLen;
    LastKept(t);
    KeptLenIs(Cells(t), |Cells(t)|);
  }

  lemma {:induction false} TrimmedBlank(t: string)
    requires Complete(t)
    ensures Trimmed(Cells(t + " ")) == Trimmed(Cells(t))
  {
    hide Complete;
    CellsConcat(t, " ");
    assert Cells(" ") == [Cell(' ', false)];
    hide Cells;
    var cells := Cells(t) + [Cell(' ', false)];
    KeptLenIs(cells, KeptLen(Cells(t)));
  }

  lemma {:induction false} TrimmedNothing()
    ensures Trimmed(Cells("")) == ""
  {
  }

  lemma {:induction false} TrimmedJoined(args: seq<string>)
    ensures Trimmed(Cells(Joined(Config, args))) == Joined(Plain, DropBack(args))
    decreases |args|
  {
    hide Trimmed, Cells, Joined, Piece, Reads;
    NothingJoined(Config);
    NothingJoined(Plain);
    TrimmedNothing();
    if args != [] {
      var a, x := args[..|args| - 1], args[|args| - 1];
      assert args == a + [x];
      if a == [] {
        assert args == [x] && args[1..] == [];
        JoinedIs(Config, args);
        assert Piece(Config, x) + "" == Piece(Config, x);
      } else {
        JoinedSnoc(Config, a, x);
      }
      if x == "" {
        TrimmedJoined(a);
        PieceStart(Config, x);
        ReadsJoined(a);
        CompleteOf(Joined(Config, a), Joined(Plain, a));
        if a != [] {
          assert Joined(Config, a) + " " + "" == Joined(Config, a) + " ";
          TrimmedBlank(Joined(Config, a));
        }
      } else {
        PieceEnd(Config, x);
        ReadsJoined(args);
        TrimmedAll(Joined(Config, args), Joined(Plain, args));
      }
    }
  }

  lemma {:induction false} CompleteOf(t: string, u: string)
    requires Reads(t, u)
    ensures Complete(t)
  {
  }

  // ---------------------------------------------------------------- newlines

  /** Some argument has a newline. */
  predicate HasNewline(args: seq<string>) {
    args != [] && ('\n' in args[0] || HasNewline(args[1..]))
  }

  lemma {:induction false} HasNewlineIs(args: seq<string>)
    ensures HasNewline(args) <==> exists i :: 0 <= i < |args| && '\n' in args[i]
  {
    if args != [] {
      var rest := args[1..];
      HasNewlineIs(rest);
      if i :| 0 <= i < |rest| && '\n' in rest[i] {
        assert rest[i] == args[i + 1];
      }
      if i :| 0 <= i < |args| && '\n' in args[i] {
        assert i > 0 ==> args[i] == rest[i - 1];
      }
    }
  }

  /** What is joined, up to the first newline. */
  function Cut(st: Style, args: seq<string>): string
    requires HasNewline(args)
  {
    if '\n' in args[0] then "\"" + Encoded(st, LineOf(args[0]))
    else Piece(st, args[0]) + (" " + Cut(st, args[1..]))
  }

  lemma {:induction false} EncodedNewline(st: Style, arg: string)
    ensures '\n' in Encoded(st, arg) <==> '\n' in arg
  {
    if arg != "" {
      EncodedNewline(st, arg[1..]);
      assert arg == [arg[0]] + arg[1..];
      assert '\n' in Encode(st, arg[0]) <==> arg[0] == '\n';
    }
  }

  lemma {:induction false} PieceNewline(st: Style, arg: string)
    ensures '\n' in Piece(st, arg) <==> '\n' in arg
  {
    hide Encoded, NeedsQuotes;
    EncodedNewline(st, arg);
  }

  lemma {:induction false} JoinedNewline(args: seq<string>)
    ensures '\n' in Joined(Config, args) <==> HasNewline(args)
    decreases |args|
  {
    hide Joined, Piece;
    NothingJoined(Config);
    if args != [] {
      JoinedIs(Config, args);
      PieceNewline(Config, args[0]);
      JoinedNewline(args[1..]);
    }
  }

  lemma {:induction false} LineConcat(t: string, u: string)
    ensures '\n' !in t ==> LineOf(t + u) == t + LineOf(u)
    ensures '\n' in t ==> LineOf(t + u) == LineOf(t)
  {
    var p, q := Find(t, '\n', 0), Find(u, '\n', 0);
    if '\n' !in t {
      assert forall i :: 0 <= i < q ==> (t + u)[|t| + i] == u[i];
      FindIs(t + u, '\n', 0, |t| + q);
      assert (t + u)[..|t| + q] == t + u[..q];
    } else {
      assert p < |t|;
      FindIs(t + u, '\n', 0, p);
      assert (t + u)[..p] == t[..p];
    }
  }

  lemma {:induction false} LineStep(t: string)
    requires t != "" && t[0] != '\n'
    ensures LineOf(t) == [t[0]] + LineOf(t[1..])
  {
    LineConcat([t[0]], t[1..]);
    assert [t[0]] + t[1..] == t;
  }

  lemma {:induction false} LineEncoded(st: Style, arg: string)
    ensures LineOf(Encoded(st, arg)) == Encoded(st, LineOf(arg))
  {
    hide LineOf, Encode;
    if arg == "" {
      LineAlone("");
    } else {
      var c, rest := arg[0], arg[1..];
      EncodeNewline(st, c);
      LineConcat(Encode(st, c), Encoded(st, rest));
      if c == '\n' {
        LineNone(arg);
        LineNone(Encode(st, c));
      } else {
        LineEncoded(st, rest);
        LineStep(arg);
        var l := LineOf(arg);
        assert l[0] == c && l[1..] == LineOf(rest);
      }
    }
  }

  lemma {:induction false} EncodeNewline(st: Style, c: char)
    ensures '\n' in Encode(st, c) <==> c == '\n'
    ensures c == '\n' ==> Encode(st, c) == "\n"
  {
  }

  lemma {:induction false} LineAlone(t: string)
    requires '\n' !in t
    ensures LineOf(t) == t
  {
    FindIs(t, '\n', 0, |t|);
  }

  lemma {:induction false} LineNone(t: string)
    requires t != "" && t[0] == '\n'
    ensures LineOf(t) == ""
  {
  }

  lemma {:induction false} NewlineQuotes(arg: string)
    requires '\n' in arg
    ensures NeedsQuotes(arg)
  {
    var i :| 0 <= i < |arg| && arg[i] == '\n';
  }

  lemma {:induction false} LineJoined(args: seq<string>)
    requires HasNewline(args)
    ensures LineOf(Joined(Config, args)) == Cut(Config, args)
    decreases |args|
  {
    hide Joined, Piece, LineOf, Encoded;
    var x, rest := args[0], args[1..];
    JoinedIs(Config, args);
    var t := Piece(Config, x);
    PieceNewline(Config, x);
    LineConcat(t, Tail(Config, rest));
    if '\n' in x {
      NewlineQuotes(x);
      PieceIs(Config, x);
      EncodedNewline(Config, x);
      LineConcat(Encoded(Config, x), "\"");
      LineConcat("\"", Encoded(Config, x) + "\"");
      LineEncoded(Config, x);
    } else {
      LineJoined(rest);
      LineConcat(" ", Joined(Config, rest));
    }
  }

  lemma {:induction false} ReadsCut(args: seq<string>)
    requires HasNewline(args)
    ensures Reads(Cut(Config, args), Cut(Plain, args))
    decreases |args|
  {
    hide Reads, Encoded, Piece, LineOf;
    if '\n' in args[0] {
      var x := LineOf(args[0]);
      ReadsOne('"');
      ReadsEncoded(x);
      ReadsConcat("\"", "\"", Encoded(Config, x), Encoded(Plain, x));
    } else {
      var rest := args[1..];
      ReadsOne(' ');
      ReadsCut(rest);
      ReadsConcat(" ", " ", Cut(Config, rest), Cut(Plain, rest));
      ReadsPiece(args[0]);
      ReadsConcat(Piece(Config, args[0]), Piece(Plain, args[0]), " " + Cut(Config, rest), " " + Cut(Plain, rest));
    }
  }

  lemma {:induction false} LeadCut(args: seq<string>)
    requires HasNewline(args)
    ensures HasNewline(DropFront(args)) && SkipLead(Cut(Config, args)) == Cut(Config, DropFront(args))
    decreases |args|
  {
    hide SkipLead, Piece, Encoded, LineOf;
    PieceStart(Config, args[0]);
    if '\n' in args[0] {
      SkipLeadNone("\"", Encoded(Config, LineOf(args[0])));
    } else if args[0] == "" {
      var rest := args[1..];
      LeadCut(rest);
      SkipLeadSpace(Cut(Config, rest));
      assert "" + (" " + Cut(Config, rest)) == " " + Cut(Config, rest);
    } else {
      SkipLeadNone(Piece(Config, args[0]), " " + Cut(Config, args[1..]));
    }
  }

  predicate Blanks(b: string) {
    forall i :: 0 <= i < |b| ==> b[i] == ' ' || b[i] == '\t'
  }

  lemma {:induction false} NonBlankInside(t: string, s: string, b: string, i: nat)
    requires t == s + b && Blanks(b) && i < |t|
    ensures t[i] != ' ' && t[i] != '\t' ==> i < |s|
  {
    assert i >= |s| ==> t[i] == b[i - |s|];
  }

  /** The first written character of a text that only blanks are taken off. */
  lemma {:induction false} WholeChar(t: string, c: char, u: string, b: string)
    requires t != "" && t + b == Encode(Plain, c) + u && Blanks(b)
    ensures |Encode(Plain, c)| <= |t| && t[..|Encode(Plain, c)|] == Encode(Plain, c)
    ensures t[|Encode(Plain, c)|..] + b == u
  {
    var e := Encode(Plain, c);
    var all := e + u;
    assert c == '\\' || c == '"' ==> |e| == 2 && e[1] == c;
    assert all[|e| - 1] == e[|e| - 1];
    NonBlankInside(all, t, b, |e| - 1);
    assert t[..|e|] == (t + b)[..|e|] == e;
    assert t[|e|..] + b == (t + b)[|e|..] == u;
  }

  /** The cut text, with blanks taken off its end, still has a quote open. */
  lemma {:induction false} OpenRead(s: string, p: nat, x: string, b: string)
    requires p <= |s| && s[p..] + b == Encoded(Plain, x) && Blanks(b)
    ensures WordAt(Plain, s, p, Double) == Overrun
    decreases |x|
  {
    if p < |s| {
      EncodedHead(x);
      hide Encode, Encoded, Blanks;
      var t := Encode(Plain, x[0]);
      WholeChar(s[p..], x[0], Encoded(Plain, x[1..]), b);
      assert s[p..p + |t|] == s[p..][..|t|] && s[p..][|t|..] == s[p + |t|..];
      hide WordAt;
      EncodeRead(Plain, s, p, x[0], Double);
      OpenRead(s, p + |t|, x[1..], b);
    }
  }

  lemma {:induction false} EncodedHead(x: string)
    ensures x == "" ==> Encoded(Plain, x) == ""
    ensures x != "" ==> Encoded(Plain, x) == Encode(Plain, x[0]) + Encoded(Plain, x[1..])
  {
  }

  lemma {:induction false} CutHasQuote(args: seq<string>)
    requires HasNewline(args)
    ensures '"' in Cut(Plain, args)
    decreases |args|
  {
    hide Piece, Encoded, LineOf;
    if '\n' !in args[0] {
      CutHasQuote(args[1..]);
    }
  }

  /** Blanks at the end of a text do not reach back to a quote. */
  lemma {:induction false} BlanksBehind(t: string, u: string, s: string, b: string)
    requires s + b == t + u && '"' in u && Blanks(b)
    ensures |t| <= |s| && s[..|t|] == t && s[|t|..] + b == u
  {
    var i :| 0 <= i < |u| && u[i] == '"';
    assert (t + u)[|t| + i] == u[i];
    NonBlankInside(t + u, s, b, |t| + i);
    assert s[..|t|] == (s + b)[..|t|] == t;
    assert s[|t|..] + b == (s + b)[|t|..] == u;
  }

  lemma {:induction false} OverrunStep(st: Style, s: string, p: nat)
    requires p < |s| && !IsSpace(s[p])
    requires var w := WordAt(st, s, p, Bare); w.Word? ==> ArgsAt(st, s, w.next).None?
    ensures ArgsAt(st, s, p).None?
  {
    hide WordAt, IsSpace;
  }

  lemma {:induction false} CutRead(s: string, p: nat, args: seq<string>, b: string)
    requires HasNewline(args) && p <= |s| && s[p..] + b == Cut(Plain, args) && Blanks(b)
    ensures ArgsAt(Plain, s, p) == None
    decreases |args|
  {
    hide Piece, Encoded, LineOf, WordAt, ArgsAt, Blanks, At;
    var x := args[0];
    if '\n' in x {
      BlanksAfterQuote(s, p, Encoded(Plain, LineOf(x)), b);
      TurnAt(Plain, s, p, Bare, Double);
      OpenRead(s, p + 1, LineOf(x), b);
      OverrunStep(Plain, s, p);
    } else {
      var t, u := Piece(Plain, x), Cut(Plain, args[1..]);
      CutHasQuote(args[1..]);
      assert t + (" " + u) == (t + " ") + u;
      BlanksBehind(t + " ", u, s[p..], b);
      var e := p + |t|;
      PieceFrom(s, p, t);
      SpaceSkipped(Plain, s, e);
      assert s[p..][|t| + 1..] == s[e + 1..];
      CutRead(s, e + 1, args[1..], b);
      PieceStart(Plain, x);
      if x != "" {
        AtFirst(s, p, t);
        PieceRead(Plain, s, p, x);
        OverrunStep(Plain, s, p);
      }
    }
  }

  lemma {:induction false} SpaceSkipped(st: Style, s: string, e: nat)
    requires e < |s| && s[e] == ' '
    ensures ArgsAt(st, s, e) == ArgsAt(st, s, e + 1)
  {
  }

  lemma {:induction false} PieceFrom(s: string, p: nat, t: string)
    requires p <= |s| && p + |t| < |s| && s[p..][..|t| + 1] == t + " "
    ensures At(s, p, t) && s[p + |t|] == ' '
  {
    assert (t + " ")[..|t|] == t;
    assert s[p..p + |t|] == s[p..][..|t| + 1][..|t|] == t;
    assert s[p + |t|] == (t + " ")[|t|];
  }

  lemma {:induction false} BlanksAfterQuote(s: string, p: nat, u: string, b: string)
    requires p <= |s| && s[p..] + b == "\"" + u && Blanks(b)
    ensures p < |s| && s[p] == '"' && !IsSpace(s[p]) && s[p + 1..] + b == u
  {
    assert ("\"" + u)[0] == '"';
    NonBlankInside("\"" + u, s[p..], b, 0);
    assert s[p] == (s[p..] + b)[0];
    assert s[p + 1..] + b == (s[p..] + b)[1..] == u;
  }

  /** What is cut off a value is blank. */
  lemma {:induction false} TrimmedIs(t: string, u: string)
    requires Reads(t, u)
    ensures exists b :: Blanks(b) && Trimmed(Cells(t)) + b == u
  {
    var cells := Cells(t);
    var n := KeptLen(cells);
    CellsPlain(t);
    hide Cells, Complete;
    hide Chars, KeptLen;
    var b := u[n..];
    assert forall i :: 0 <= i < |b| ==> b[i] == cells[n + i].c;
    assert Trimmed(cells) + b == u[..n] + u[n..] == u;
  }

  lemma {:induction false} CellsPlain(t: string)
    ensures forall i :: 0 <= i < |Cells(t)| && !Cells(t)[i].kept ==> Cells(t)[i].c == ' ' || Cells(t)[i].c == '\t'
  {
    if t != "" && t[0] != '\\' {
      CellsPlain(t[1..]);
    } else if |t| > 1 {
      CellsPlain(t[2..]);
    }
  }

  /**
   The whole chain: what the joiner writes to a line of the configuration file, the
   reader unescapes and parseArgs() splits is the argument vector without its empty
   arguments. An argument with a newline ends the line inside a quote, and parseArgs()
   runs past the end of the text.
   */
  lemma {:induction false} ChainRoundTrip(args: seq<string>)
    ensures Args(Plain, Value(LineOf(Joined(Config, args)))) ==
      if exists i :: 0 <= i < |args| && '\n' in args[i] then None else Some(NonEmpty(args))
  {
    hide *;
    HasNewlineIs(args);
    JoinedNewline(args);
    if HasNewline(args) {
      LineJoined(args);
      LeadCut(args);
      var a := DropFront(args);
      ReadsCut(a);
      TrimmedIs(Cut(Config, a), Cut(Plain, a));
      ValueIs(Cut(Config, args));
      var s := Value(LineOf(Joined(Config, args)));
      var b :| Blanks(b) && s + b == Cut(Plain, a);
      assert s[0..] == s;
      CutRead(s, 0, a, b);
      ArgsIs(s);
    } else {
      LineAlone(Joined(Config, args));
      ValueIs(Joined(Config, args));
      LeadJoined(args);
      var a := DropFront(args);
      TrimmedJoined(a);
      var s := Joined(Plain, DropBack(a));
      assert s[0..] == s;
      JoinedRead(Plain, s, 0, DropBack(a));
      ArgsIs(s);
      BackNonEmpty(a);
      FrontNonEmpty(args);
    }
  }

  lemma {:induction false} ValueIs(line: string)
    ensures Value(line) == Trimmed(Cells(SkipLead(line)))
  {
  }

  lemma {:induction false} ArgsIs(s: string)
    ensures Args(Plain, s) == ArgsAt(Plain, s, 0)
  {
  }
}
