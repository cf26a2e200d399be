/**
 Typed configuration values on their way to the daemon: the reader collects and counts
 them, and the daemon lays them out in one block of the announced size.
 */
module ConfigTransport {
  import opened Wrappers
  import opened Wire

  const ID_LIMIT := 0x1_0000_0000
  const TYPE_UNIT := 0x0100_0000
  const PRIVATE_UNIT := 0x1000_0000

  /** `id & C_TYPE_MASK`: 0 for integers, 1 for strings, 2 for string lists. */
  function TypeOf(id: nat): nat {
    id / TYPE_UNIT % 16
  }

  /** `id & ~C_PRIVATE` */
  function PublicId(id: nat): nat {
    id % PRIVATE_UNIT
  }

  lemma {:induction false} TypeIsPublic(id: nat)
    requires id < ID_LIMIT
    ensures TypeOf(PublicId(id)) == TypeOf(id)
  {
    var high, low := id / PRIVATE_UNIT, id % PRIVATE_UNIT;
    assert id == high * PRIVATE_UNIT + low && low / TYPE_UNIT < 16;
    assert id / TYPE_UNIT == high * 16 + low / TYPE_UNIT;
  }

  /** `pub` is the ID without its private bits: they count multiples of 0x10000000. */
  predicate SameId(pub: int, id: nat) {
    0 <= pub < 0x1000_0000 && (id - pub) % 0x1000_0000 == 0
  }

  lemma {:induction false} PublicIsSame(id: nat, pub: nat)
    ensures SameId(pub, id) <==> pub == PublicId(id)
  {
    var high := id / 0x1000_0000;
    assert id == high * 0x1000_0000 + PublicId(id);
    if SameId(pub, id) {
      var k := (id - pub) / 0x1000_0000;
      assert id - pub == k * 0x1000_0000;
      assert k == high;
    }
  }

  /** The type is the lowest digit of the ID's highest byte. */
  lemma {:induction false} TypeByRange(id: nat, pub: nat)
    requires SameId(pub, id) && id < 0x1_0000_0000
    ensures TypeOf(id) == 0 <==> pub < 0x100_0000
    ensures TypeOf(id) == 1 <==> 0x100_0000 <= pub < 0x200_0000
    ensures TypeOf(id) == 2 <==> 0x200_0000 <= pub < 0x300_0000
  {
    PublicIsSame(id, pub);
    TypeIsPublic(id);
  }

  datatype Value = Number(num: int) | Str(s: string) | List(ss: seq<string>)

  datatype Entry = Entry(id: nat, val: Value)

  /** The value is of the type that the ID says, and can be a C string. */
  ghost predicate Typed(e: Entry) {
    && e.id < ID_LIMIT
    && (e.val.Number? <==> TypeOf(e.id) == 0) && (e.val.Str? <==> TypeOf(e.id) == 1)
    && (e.val.List? <==> TypeOf(e.id) == 2)
    && (e.val.Str? ==> CString(e.val.s)) && (e.val.List? ==> forall s :: s in e.val.ss ==> CString(s))
  }

  predicate CString(s: string) {
    '\0' !in s && |s| + 1 < MAX_LENGTH
  }

  function TotLen(ss: seq<string>): nat {
    if ss == [] then 0 else TotLen(ss[..|ss| - 1]) + |ss[|ss| - 1]| + 1
  }

  function CharsOf(v: Value): nat {
    match v
    case Number(_) => 0
    case Str(s) => |s| + 1
    case List(ss) => TotLen(ss)
  }

  function PtrsOf(v: Value): nat {
    if v.List? then |v.ss| + 1 else 0
  }

  function SumChars(es: seq<Entry>): nat {
    if es == [] then 0 else SumChars(es[..|es| - 1]) + CharsOf(es[|es| - 1].val)
  }

  function SumPtrs(es: seq<Entry>): nat {
    if es == [] then 0 else SumPtrs(es[..|es| - 1]) + PtrsOf(es[|es| - 1].val)
  }

  lemma {:induction false} SumSnoc(es: seq<Entry>, e: Entry)
    ensures SumChars(es + [e]) == SumChars(es) + CharsOf(e.val) && SumPtrs(es + [e]) == SumPtrs(es) + PtrsOf(e.val)
  {
    assert (es + [e])[..|es|] == es;
  }

  lemma {:induction false} TotSnoc(ss: seq<string>, s: string)
    ensures TotLen(ss + [s]) == TotLen(ss) + |s| + 1
  {
    assert (ss + [s])[..|ss|] == ss;
  }

  /** The sums only grow. */
  lemma {:induction false} SumMore(es: seq<Entry>, i: nat)
    requires i <= |es|
    ensures SumChars(es[..i]) <= SumChars(es) && SumPtrs(es[..i]) <= SumPtrs(es)
    decreases |es| - i
  {
    if i == |es| {
      assert es[..i] == es;
    } else {
      UpTo(es, i);
      SumSnoc(es[..i], es[i]);
      SumMore(es, i + 1);
    }
  }

  lemma {:induction false} TotMore(ss: seq<string>, i: nat)
    requires i <= |ss|
    ensures TotLen(ss[..i]) <= TotLen(ss)
    decreases |ss| - i
  {
    if i == |ss| {
      assert ss[..i] == ss;
    } else {
      UpTo(ss, i);
      TotSnoc(ss[..i], ss[i]);
      TotMore(ss, i + 1);
    }
  }

  // ------------------------------------------------------------------ sending

  function ListItems(ss: seq<string>): seq<Item> {
    if ss == [] then [] else [Text(ss[0])] + ListItems(ss[1..])
  }

  function ValueItems(v: Value): seq<Item> {
    match v
    case Number(num) => [Num(num)]
    case Str(s) => [Text(s)]
    case List(ss) => [Num(|ss|)] + ListItems(ss)
  }

  function EntryItems(e: Entry): seq<Item> {
    [Num(PublicId(e.id))] + ValueItems(e.val)
  }

  function EntriesItems(es: seq<Entry>): seq<Item> {
    if es == [] then [] else EntryItems(es[0]) + EntriesItems(es[1..])
  }

  function AllItems(es: seq<Entry>): seq<Item> {
    [Num(|es|)] + ([Num(SumPtrs(es))] + ([Num(0)] + ([Num(SumChars(es))] + EntriesItems(es))))
  }

  lemma {:induction false} EntriesSnoc(es: seq<Entry>, e: Entry)
    ensures EntriesItems(es + [e]) == EntriesItems(es) + EntryItems(e)
    decreases |es|
  {
    hide EntryItems;
    if es == [] {
      assert [e][1..] == [] && es + [e] == [e];
      assert EntriesItems([e]) == EntryItems(e) + [];
    } else {
      assert (es + [e])[1..] == es[1..] + [e];
      EntriesSnoc(es[1..], e);
    }
  }

  lemma {:induction false} ListSnoc(ss: seq<string>, s: string)
    ensures ListItems(ss + [s]) == ListItems(ss) + [Text(s)]
    decreases |ss|
  {
    if ss == [] {
      assert [s][1..] == [] && ss + [s] == [s];
    } else {
      assert (ss + [s])[1..] == ss[1..] + [s];
      ListSnoc(ss[1..], s);
    }
  }

  /** The value array of the reader, with its running counts. */
  class ValArr {
    var ents: seq<Entry>
    var nchars: nat
    var nptrs: nat

    constructor ()
      ensures Counted() && ents == []
    {
      ents, nchars, nptrs := [], 0, 0;
    }

    ghost predicate Counted()
      reads this
    {
      nchars == SumChars(ents) && nptrs == SumPtrs(ents)
    }

    method AddValue(id: nat, val: Value)
      requires Counted() && Typed(Entry(id, val))
      modifies this
      ensures Counted() && ents == old(ents) + [Entry(id, val)]
    {
      SumSnoc(ents, Entry(id, val));
      ents := ents + [Entry(id, val)];
      match TypeOf(id) {
        case 1 => nchars := nchars + |val.s| + 1;
        case 2 =>
          nchars := nchars + TotLen(val.ss);
          nptrs := nptrs + |val.ss| + 1;
        case _ =>
      }
    }

    method SendValues() returns (out: seq<Item>)
      requires Counted() && forall e :: e in ents ==> Typed(e)
      ensures out == AllItems(ents)
    {
      hide TypeOf, PublicId, EntriesItems, SumChars, SumPtrs, ListItems;
      NothingSent();
      var body: seq<Item> := [];
      var i := 0;
      while i < |ents|
        invariant i <= |ents| && body == EntriesItems(ents[..i])
      {
        var e := ents[i];
        assert e in ents;
        UpTo(ents, i);
        EntriesSnoc(ents[..i], e);
        body := body + [Num(PublicId(e.id))];
        match TypeOf(e.id) {
          case 0 => body := body + [Num(e.val.num)];
          case 1 => body := body + [Text(e.val.s)];
          case _ =>
            body := body + [Num(|e.val.ss|)];
            var list: seq<Item> := [];
            var j := 0;
            while j < |e.val.ss|
              invariant j <= |e.val.ss| && list == ListItems(e.val.ss[..j])
            {
              UpTo(e.val.ss, j);
              ListSnoc(e.val.ss[..j], e.val.ss[j]);
              list := list + [Text(e.val.ss[j])];
              j := j + 1;
            }
            assert e.val.ss[..j] == e.val.ss;
            body := body + list;
        }
        assert body == EntriesItems(ents[..i]) + EntryItems(e);
        i := i + 1;
      }
      assert ents[..i] == ents;
      out := [Num(|ents|)] + ([Num(nptrs)] + ([Num(0)] + ([Num(nchars)] + body)));
    }
  }

  lemma {:induction false} NothingSent()
    ensures EntriesItems([]) == [] && ListItems([]) == []
  {
  }

  // ---------------------------------------------------------------- receiving

  const NULL := -1

  /** The characters have `s` and its terminator at `o`. */
  ghost predicate StrAt(chars: seq<char>, o: int, s: string) {
    0 <= o && o + |s| < |chars| && chars[o..o + |s|] == s && chars[o + |s|] == '\0'
  }

  /** The pointers have the list, and a null, at `o`. */
  ghost predicate ListAt(ptrs: seq<int>, chars: seq<char>, o: int, ss: seq<string>) {
    && 0 <= o && o + |ss| < |ptrs| && ptrs[o + |ss|] == NULL
    && forall j :: 0 <= j < |ss| ==> StrAt(chars, ptrs[o + j], ss[j])
  }

  /** What the pointer or number of an entry stands for. */
  ghost predicate ValueAt(ptrs: seq<int>, chars: seq<char>, o: int, v: Value) {
    match v
    case Number(num) => o == num
    case Str(s) => StrAt(chars, o, s)
    case List(ss) => ListAt(ptrs, chars, o, ss)
  }

  lemma {:induction false} StrStays(chars: seq<char>, more: seq<char>, o: int, s: string)
    requires StrAt(chars, o, s) && chars <= more
    ensures StrAt(more, o, s)
  {
    assert more[o..o + |s|] == chars[o..o + |s|];
  }

  lemma {:induction false} ValueStays(ptrs: seq<int>, chars: seq<char>, ptrs2: seq<int>, chars2: seq<char>, o: int, v: Value)
    requires ValueAt(ptrs, chars, o, v) && ptrs <= ptrs2 && chars <= chars2
    ensures ValueAt(ptrs2, chars2, o, v)
  {
    hide StrAt;
    if v.Str? {
      StrStays(chars, chars2, o, v.s);
    } else if v.List? {
      forall j | 0 <= j < |v.ss|
        ensures StrAt(chars2, ptrs2[o + j], v.ss[j])
      {
        StrStays(chars, chars2, ptrs[o + j], v.ss[j]);
      }
    }
  }

  /** A string at `o` is the only one there: reading up to the terminator gives it back. */
  lemma {:induction false} StrUnique(chars: seq<char>, o: int, s: string, t: string)
    requires StrAt(chars, o, s) && StrAt(chars, o, t) && '\0' !in s && '\0' !in t
    ensures s == t
  {
    assert forall i :: 0 <= i < |s| ==> s[i] in s && chars[o + i] == chars[o..o + |s|][i] == s[i];
    assert forall i :: 0 <= i < |t| ==> t[i] in t && chars[o + i] == chars[o..o + |t|][i] == t[i];
  }

  /** What the block holds for an entry determines the value. */
  lemma {:induction false} ValueUnique(ptrs: seq<int>, chars: seq<char>, o: int, v: Value, w: Value)
    requires ValueAt(ptrs, chars, o, v) && ValueAt(ptrs, chars, o, w)
    requires v.Number? == w.Number? && v.Str? == w.Str?
    requires v.Str? ==> CString(v.s) && CString(w.s)
    requires v.List? ==> forall s :: s in v.ss || s in w.ss ==> CString(s)
    ensures v == w
  {
    if v.Str? {
      StrUnique(chars, o, v.s, w.s);
    } else if v.List? {
      assert forall j :: 0 <= j < |v.ss| ==> StrAt(chars, ptrs[o + j], v.ss[j]);
      assert forall j :: 0 <= j < |w.ss| ==> StrAt(chars, ptrs[o + j], w.ss[j]);
      assert |v.ss| == |w.ss| by {
        ListLengths(ptrs, chars, o, v.ss, w.ss);
        ListLengths(ptrs, chars, o, w.ss, v.ss);
      }
      forall j | 0 <= j < |v.ss|
        ensures v.ss[j] == w.ss[j]
      {
        assert v.ss[j] in v.ss && w.ss[j] in w.ss;
        StrUnique(chars, ptrs[o + j], v.ss[j], w.ss[j]);
      }
    }
  }

  lemma {:induction false} ListLengths(ptrs: seq<int>, chars: seq<char>, o: int, ss: seq<string>, ts: seq<string>)
    requires ListAt(ptrs, chars, o, ss) && ListAt(ptrs, chars, o, ts)
    ensures |ss| >= |ts|
  {
    assert forall j :: 0 <= j < |ts| ==> StrAt(chars, ptrs[o + j], ts[j]);
    assert |ss| < |ts| ==> StrAt(chars, ptrs[o + |ss|], ts[|ss|]);
  }

  /** The daemon's block: IDs, a word for each value, pointers and characters. */
  class CfgArr {
    const idx: array<nat>
    const vptr: array<int>
    const ptrs: array<int>
    const chars: array<char>

    constructor (n: nat, nptr: nat, nchr: nat)
      ensures fresh(idx) && fresh(vptr) && fresh(ptrs) && fresh(chars)
      ensures vptr != ptrs
      ensures idx.Length == n && vptr.Length == n && ptrs.Length == nptr && chars.Length == nchr
    {
      idx, chars := new nat[n], new char[nchr];
      vptr := new int[n];
      ptrs := new int[nptr];
    }
  }

  /** gRecvStrBuf(cptr): the string and its terminator are written at `cptr`. */
  method RecvStrBuf(g: Getter, chars: array<char>, cptr: nat, ghost s: string, ghost rest: seq<Item>) returns (len: nat)
    requires g.queue == [Text(s)] + rest && CString(s) && cptr + |s| + 1 <= chars.Length
    modifies g, chars
    ensures g.queue == rest && len == |s| + 1
    ensures chars[..cptr] == old(chars[..cptr]) && StrAt(chars[..cptr + len], cptr, s)
  {
    ItemFirst(Text(s), rest);
    var t := g.RecvStrBuf(rest);
    ghost var was := chars[..cptr];
    var i := 0;
    while i < |t|
      invariant i <= |t| && chars[..cptr] == was && chars[cptr..cptr + i] == t[..i]
      modifies chars
    {
      chars[cptr + i] := t[i];
      i := i + 1;
    }
    chars[cptr + i] := '\0';
    len := i + 1;
    assert chars[..cptr + len][cptr..cptr + i] == chars[cptr..cptr + i] == t[..i] == s;
  }

  /** The strings of a list, and the null behind their pointers. */
  method RecvList(g: Getter, conf: CfgArr, p0: nat, c0: nat, ghost ss: seq<string>, n: nat, ghost rest: seq<Item>)
    returns (pptr: nat, cptr: nat)
    requires g.queue == ListItems(ss) + rest && n == |ss| && forall s :: s in ss ==> CString(s)
    requires p0 + |ss| < conf.ptrs.Length && c0 + TotLen(ss) <= conf.chars.Length
    modifies g, conf.ptrs, conf.chars
    ensures g.queue == rest && pptr == p0 + |ss| + 1 && cptr == c0 + TotLen(ss)
    ensures conf.ptrs[..p0] == old(conf.ptrs[..p0]) && conf.chars[..c0] == old(conf.chars[..c0])
    ensures ListAt(conf.ptrs[..pptr], conf.chars[..cptr], p0, ss)
  {
    hide StrAt, CString, TotLen, ListItems;
    ghost var ptrs0, chars0 := conf.ptrs[..p0], conf.chars[..c0];
    pptr, cptr := p0, c0;
    var j := 0;
    assert ss[0..] == ss && ss[..0] == [];
    TotNothing();
    while j < n
      invariant j <= n && pptr == p0 + j && cptr == c0 + TotLen(ss[..j]) <= conf.chars.Length
      invariant g.queue == ListItems(ss[j..]) + rest
      invariant conf.ptrs[..p0] == ptrs0 && conf.chars[..c0] == chars0
      invariant forall k :: 0 <= k < j ==> StrAt(conf.chars[..cptr], conf.ptrs[p0 + k], ss[k])
    {
      ListItemsAt(ss, j);
      UpTo(ss, j);
      TotSnoc(ss[..j], ss[j]);
      TotMore(ss, j + 1);
      ghost var had, more := conf.chars[..cptr], ListItems(ss[j + 1..]) + rest;
      assert g.queue == [Text(ss[j])] + more;
      assert ss[j] in ss;
      conf.ptrs[pptr] := cptr;
      var len := RecvStrBuf(g, conf.chars, cptr, ss[j], more);
      PrefixStays(had, conf.chars[..cptr + len], conf.chars[..cptr]);
      forall k | 0 <= k < j
        ensures StrAt(conf.chars[..cptr + len], conf.ptrs[p0 + k], ss[k])
      {
        StrStays(had, conf.chars[..cptr + len], conf.ptrs[p0 + k], ss[k]);
      }
      assert conf.chars[..c0] == had[..c0];
      pptr, cptr := pptr + 1, cptr + len;
      j := j + 1;
    }
    conf.ptrs[pptr] := NULL;
    pptr := pptr + 1;
    assert ss[..j] == ss && ss[j..] == [];
    TotNothing();
    assert forall k :: p0 <= k < pptr ==> conf.ptrs[..pptr][k] == conf.ptrs[k];
  }

  lemma {:induction false} TotNothing()
    ensures TotLen([]) == 0 && ListItems([]) == []
  {
  }

  lemma {:induction false} ListItemsAt(ss: seq<string>, j: nat)
    requires j < |ss|
    ensures ListItems(ss[j..]) == [Text(ss[j])] + ListItems(ss[j + 1..])
  {
    assert ss[j..][1..] == ss[j + 1..];
  }

  lemma {:induction false} PrefixStays<T>(a: seq<T>, b: seq<T>, c: seq<T>)
    requires a == c && |c| <= |b| && c == b[..|c|]
    ensures a <= b
  {
  }

  /** Entry `i` has arrived. */
  ghost predicate Loaded(idx: seq<nat>, vptr: seq<int>, ptrs: seq<int>, chars: seq<char>, es: seq<Entry>, i: nat)
    requires i < |es| && |idx| >= |es| && |vptr| >= |es|
  {
    idx[i] == PublicId(es[i].id) && ValueAt(ptrs, chars, vptr[i], es[i].val)
  }

  /** All entries have arrived, and the cells are just as many as they need. */
  ghost predicate AllLoaded(idx: seq<nat>, vptr: seq<int>, ptrs: seq<int>, chars: seq<char>, es: seq<Entry>) {
    && |idx| == |vptr| == |es|
    && (forall i :: 0 <= i < |es| ==> Loaded(idx, vptr, ptrs, chars, es, i))
    && |ptrs| == SumPtrs(es) && |chars| == SumChars(es)
  }

  lemma {:induction false} LoadedStays(idx: seq<nat>, vptr: seq<int>, ptrs: seq<int>, chars: seq<char>,
                                       es: seq<Entry>, i: nat,
                                       idx2: seq<nat>, vptr2: seq<int>, ptrs2: seq<int>, chars2: seq<char>)
    requires i < |es| && |idx| >= |es| && |vptr| >= |es| && |idx2| >= |es| && |vptr2| >= |es|
    requires Loaded(idx, vptr, ptrs, chars, es, i)
    requires idx2[i] == idx[i] && vptr2[i] == vptr[i] && ptrs <= ptrs2 && chars <= chars2
    ensures Loaded(idx2, vptr2, ptrs2, chars2, es, i)
  {
    hide ValueAt, PublicId;
    ValueStays(ptrs, chars, ptrs2, chars2, vptr[i], es[i].val);
  }

  /** The switch over the type of one entry. */
  method LoadEntry(g: Getter, conf: CfgArr, i: nat, p0: nat, c0: nat, ghost e: Entry, ghost rest: seq<Item>)
    returns (pptr: nat, cptr: nat)
    requires g.queue == EntryItems(e) + rest && Typed(e)
    requires i < conf.idx.Length && i < conf.vptr.Length
    requires p0 + PtrsOf(e.val) <= conf.ptrs.Length && c0 + CharsOf(e.val) <= conf.chars.Length
    requires conf.vptr != conf.ptrs
    modifies g, conf.idx, conf.vptr, conf.ptrs, conf.chars
    ensures g.queue == rest && pptr == p0 + PtrsOf(e.val) && cptr == c0 + CharsOf(e.val)
    ensures conf.ptrs[..p0] == old(conf.ptrs[..p0]) && conf.chars[..c0] == old(conf.chars[..c0])
    ensures conf.idx[..] == old(conf.idx[..])[i := PublicId(e.id)]
    ensures forall k :: 0 <= k < conf.vptr.Length && k != i ==> conf.vptr[k] == old(conf.vptr[k])
    ensures ValueAt(conf.ptrs[..pptr], conf.chars[..cptr], conf.vptr[i], e.val)
  {
    hide TypeOf, PublicId, StrAt, ListAt, TotLen, ListItems;
    TypeIsPublic(e.id);
    pptr, cptr := p0, c0;
    ItemFirst(Num(PublicId(e.id)), ValueItems(e.val) + rest);
    assert EntryItems(e) + rest == [Num(PublicId(e.id))] + (ValueItems(e.val) + rest);
    var id := g.RecvInt(ValueItems(e.val) + rest);
    conf.idx[i] := id;
    match TypeOf(id) {
      case 0 =>
        var n := g.RecvInt(rest);
        conf.vptr[i] := n;
      case 1 =>
        conf.vptr[i] := cptr;
        var len := RecvStrBuf(g, conf.chars, cptr, e.val.s, rest);
        cptr := cptr + len;
      case _ =>
        ItemFirst(Num(|e.val.ss|), ListItems(e.val.ss) + rest);
        assert ValueItems(e.val) + rest == [Num(|e.val.ss|)] + (ListItems(e.val.ss) + rest);
        var nu := g.RecvInt(ListItems(e.val.ss) + rest);
        conf.vptr[i] := pptr;
        pptr, cptr := RecvList(g, conf, pptr, cptr, e.val.ss, nu, rest);
    }
  }

  // ------------------------------------------------------------------- lookups

  /** The first place of the ID, or the length of the list. */
  function FindId(idx: seq<nat>, id: nat): (k: nat)
    ensures k <= |idx| && (k < |idx| ==> idx[k] == id) && forall j :: 0 <= j < k ==> idx[j] != id
  {
    if idx == [] || idx[0] == id then 0 else 1 + FindId(idx[1..], id)
  }

  lemma {:induction false} FindIdIs(idx: seq<nat>, id: nat, k: nat)
    requires k <= |idx| && (k < |idx| ==> idx[k] == id) && forall j :: 0 <= j < k ==> idx[j] != id
    ensures FindId(idx, id) == k
  {
  }

  /** Entry `k` is the first that was added under the public ID; there is none if it is the length of the list. */
  ghost predicate FirstUnder(es: seq<Entry>, id: nat, k: nat) {
    k <= |es| && (k < |es| ==> SameId(id, es[k].id)) && forall j :: 0 <= j < k ==> !SameId(id, es[j].id)
  }

  /** Looking for a public ID finds the first entry that was added under it. */
  lemma {:induction false} FindsFirst(idx: seq<nat>, vptr: seq<int>, ptrs: seq<int>, chars: seq<char>, es: seq<Entry>,
                                      id: nat, k: nat)
    requires AllLoaded(idx, vptr, ptrs, chars, es) && FirstUnder(es, id, k) && id < 0x1000_0000
    ensures FindId(idx, id) == k && (k < |es| ==> ValueAt(ptrs, chars, vptr[k], es[k].val))
  {
    hide PublicId, ValueAt, SumPtrs, SumChars, SameId;
    forall j | 0 <= j < |es|
      ensures idx[j] == id <==> SameId(id, es[j].id)
    {
      assert Loaded(idx, vptr, ptrs, chars, es, j);
      PublicIsSame(es[j].id, id);
    }
    if k < |es| {
      assert Loaded(idx, vptr, ptrs, chars, es, k);
    }
    FindIdIs(idx, id, k);
  }

  /** The entries' IDs differ without their private bits. */
  ghost predicate DifferentIds(es: seq<Entry>) {
    forall i, j :: 0 <= i < j < |es| ==> (es[i].id - es[j].id) % 0x1000_0000 != 0
  }

  /** Then the entry under an ID is the only one, and the one that is found. */
  lemma {:induction false} OneUnder(es: seq<Entry>, id: nat, k: nat)
    requires DifferentIds(es) && k < |es| && SameId(id, es[k].id)
    ensures FirstUnder(es, id, k)
  {
    forall j | 0 <= j < k
      ensures !SameId(id, es[j].id)
    {
      if SameId(id, es[j].id) {
        SameDifference(es[j].id, es[k].id, id);
      }
    }
  }

  lemma {:induction false} SameDifference(a: nat, b: nat, id: nat)
    requires SameId(id, a) && SameId(id, b)
    ensures (a - b) % 0x1000_0000 == 0
  {
    var i, j := (a - id) / 0x1000_0000, (b - id) / 0x1000_0000;
    assert a - b == (i - j) * 0x1000_0000;
  }

  /** What a lookup in the block gives: for each public ID the value that was added under it first, or nothing. */
  ghost predicate Answers(idx: seq<nat>, vptr: seq<int>, ptrs: seq<int>, chars: seq<char>, es: seq<Entry>) {
    && |idx| == |vptr| == |es|
    && forall id: nat, k: nat :: id < 0x1000_0000 && FirstUnder(es, id, k) ==>
         FindId(idx, id) == k && (k < |es| ==> ValueAt(ptrs, chars, vptr[k], es[k].val))
  }

  lemma {:induction false} LoadedAnswers(idx: seq<nat>, vptr: seq<int>, ptrs: seq<int>, chars: seq<char>, es: seq<Entry>)
    requires AllLoaded(idx, vptr, ptrs, chars, es)
    ensures Answers(idx, vptr, ptrs, chars, es)
    ensures forall i :: 0 <= i < |es| ==> SameId(idx[i], es[i].id)
    ensures DifferentIds(es) ==> forall i :: 0 <= i < |es| ==> FindId(idx, idx[i]) == i
  {
    hide FirstUnder, DifferentIds, ValueAt, SumPtrs, SumChars, PublicId;
    forall id: nat, k: nat | id < 0x1000_0000 && FirstUnder(es, id, k)
      ensures FindId(idx, id) == k && (k < |es| ==> ValueAt(ptrs, chars, vptr[k], es[k].val))
    {
      FindsFirst(idx, vptr, ptrs, chars, es, id, k);
      UnderIs(es, id, k);
    }
    forall i | 0 <= i < |es|
      ensures SameId(idx[i], es[i].id)
    {
      assert Loaded(idx, vptr, ptrs, chars, es, i);
      PublicIsSame(es[i].id, idx[i]);
    }
    if DifferentIds(es) {
      forall i | 0 <= i < |es|
        ensures FindId(idx, idx[i]) == i
      {
        OneUnder(es, idx[i], i);
        SameIsPublic(idx[i], es[i].id);
      }
    }
  }

  lemma {:induction false} SameIsPublic(pub: int, id: nat)
    requires SameId(pub, id)
    ensures 0 <= pub < 0x1000_0000
  {
  }

  lemma {:induction false} UnderIs(es: seq<Entry>, id: nat, k: nat)
    ensures FirstUnder(es, id, k) ==> k <= |es|
  {
  }

  /** findCfgEnt(): the word for an ID, looked for in the global block and then in the display's. */
  method FindCfgEnt(cfg: CfgArr, d: Option<CfgArr>, id: nat) returns (word: Option<int>)
    requires cfg.idx.Length == cfg.vptr.Length && (d.Some? ==> d.value.idx.Length == d.value.vptr.Length)
    ensures var k := FindId(cfg.idx[..], id);
      if k < cfg.idx.Length then word == Some(cfg.vptr[k])
      else if d.Some? && FindId(d.value.idx[..], id) < d.value.idx.Length
      then word == Some(d.value.vptr[FindId(d.value.idx[..], id)])
      else word == None
  {
    hide FindId;
    var i := FindIn(cfg, id);
    if i < cfg.idx.Length {
      return Some(cfg.vptr[i]);
    }
    if d.Some? {
      i := FindIn(d.value, id);
      if i < d.value.idx.Length {
        return Some(d.value.vptr[i]);
      }
    }
    return None;
  }

  method FindIn(cfg: CfgArr, id: nat) returns (i: nat)
    ensures i == FindId(cfg.idx[..], id)
  {
    i := 0;
    while i < cfg.idx.Length && cfg.idx[i] != id
      invariant i <= cfg.idx.Length && forall j :: 0 <= j < i ==> cfg.idx[j] != id
    {
      i := i + 1;
    }
    FindIdIs(cfg.idx[..], id, i);
  }

  /** loadResources(): every value comes back, under its ID and no other, and the block is used up exactly. */
  method LoadResources(items: seq<Item>, ghost es: seq<Entry>) returns (conf: CfgArr, pptr: nat, cptr: nat)
    requires items == AllItems(es) && forall e :: e in es ==> Typed(e)
    ensures AllLoaded(conf.idx[..], conf.vptr[..], conf.ptrs[..], conf.chars[..], es)
    ensures Answers(conf.idx[..], conf.vptr[..], conf.ptrs[..], conf.chars[..], es)
    ensures forall i :: 0 <= i < |es| ==> SameId(conf.idx[i], es[i].id)
    ensures DifferentIds(es) ==> forall i :: 0 <= i < |es| ==> FindId(conf.idx[..], conf.idx[i]) == i
    ensures pptr == conf.ptrs.Length && cptr == conf.chars.Length
  {
    hide EntryItems, EntriesItems, SumChars, SumPtrs, CharsOf, PtrsOf, Loaded, Typed, PublicId, ValueAt, Answers, SameId, DifferentIds, FindId;
    var g := new Getter(items);
    ghost var body := EntriesItems(es);
    var n := g.RecvInt([Num(SumPtrs(es))] + ([Num(0)] + ([Num(SumChars(es))] + body)));
    var nptr := g.RecvInt([Num(0)] + ([Num(SumChars(es))] + body));
    var _ := g.RecvInt([Num(SumChars(es))] + body);
    var nchr := g.RecvInt(body);
    conf := new CfgArr(n, nptr, nchr);
    pptr, cptr := 0, 0;
    var i := 0;
    SumNothing();
    assert es[0..] == es && body + [] == body;
    while i < n
      invariant i <= n && g.queue == EntriesItems(es[i..]) + []
      invariant pptr == SumPtrs(es[..i]) <= conf.ptrs.Length && cptr == SumChars(es[..i]) <= conf.chars.Length
      invariant forall k :: 0 <= k < i ==>
        Loaded(conf.idx[..], conf.vptr[..], conf.ptrs[..pptr], conf.chars[..cptr], es, k)
      modifies g, conf.idx, conf.vptr, conf.ptrs, conf.chars
    {
      EntriesAt(es, i);
      UpTo(es, i);
      SumSnoc(es[..i], es[i]);
      SumMore(es, i + 1);
      assert es[i] in es;
      ghost var idx, vptr, ptrs, chars := conf.idx[..], conf.vptr[..], conf.ptrs[..pptr], conf.chars[..cptr];
      assert g.queue == EntryItems(es[i]) + (EntriesItems(es[i + 1..]) + []);
      var p, c := LoadEntry(g, conf, i, pptr, cptr, es[i], EntriesItems(es[i + 1..]) + []);
      PrefixStays(ptrs, conf.ptrs[..p], conf.ptrs[..pptr]);
      PrefixStays(chars, conf.chars[..c], conf.chars[..cptr]);
      forall k | 0 <= k < i
        ensures Loaded(conf.idx[..], conf.vptr[..], conf.ptrs[..p], conf.chars[..c], es, k)
      {
        LoadedStays(idx, vptr, ptrs, chars, es, k, conf.idx[..], conf.vptr[..], conf.ptrs[..p], conf.chars[..c]);
      }
      LoadedIs(conf.idx[..], conf.vptr[..], conf.ptrs[..p], conf.chars[..c], es, i);
      pptr, cptr := p, c;
      i := i + 1;
    }
    assert es[..i] == es;
    assert conf.ptrs[..pptr] == conf.ptrs[..] && conf.chars[..cptr] == conf.chars[..];
    LoadedAnswers(conf.idx[..], conf.vptr[..], conf.ptrs[..], conf.chars[..], es);
    assert forall k :: 0 <= k < |es| ==> conf.idx[..][k] == conf.idx[k];
  }

  lemma {:induction false} SumNothing()
    ensures SumChars([]) == 0 && SumPtrs([]) == 0
  {
  }

  lemma {:induction false} EntriesAt(es: seq<Entry>, i: nat)
    requires i < |es|
    ensures EntriesItems(es[i..]) == EntryItems(es[i]) + EntriesItems(es[i + 1..])
  {
    hide EntryItems;
    assert es[i..][1..] == es[i + 1..];
  }

  lemma {:induction false} LoadedIs(idx: seq<nat>, vptr: seq<int>, ptrs: seq<int>, chars: seq<char>, es: seq<Entry>, i: nat)
    requires i < |es| && |idx| >= |es| && |vptr| >= |es|
    ensures Loaded(idx, vptr, ptrs, chars, es, i) <==>
      idx[i] == PublicId(es[i].id) && ValueAt(ptrs, chars, vptr[i], es[i].val)
  {
    hide PublicId, ValueAt;
  }
}
