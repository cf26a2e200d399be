/**
 convertValue() for strings and string lists.
 */
module ConfigValue {
  import opened ArgText
  import opened ConfigTransport

  /** The end of `s[b..e]` without the white space at its end. */
  function TrimEnd(s: string, b: nat, e: nat): (r: nat)
    requires b <= e <= |s|
    ensures b <= r <= e
    ensures forall i :: r <= i < e ==> IsSpace(s[i])
    ensures r > b ==> !IsSpace(s[r - 1])
    decreases e
  {
    if e > b && IsSpace(s[e - 1]) then TrimEnd(s, b, e - 1) else e
  }

  function SkipSpace(s: string, p: nat): (q: nat)
    requires p <= |s|
    ensures p <= q <= |s|
    ensures forall i :: p <= i < q ==> IsSpace(s[i])
    ensures q < |s| ==> !IsSpace(s[q])
    decreases |s| - p
  {
    if p < |s| && IsSpace(s[p]) then SkipSpace(s, p + 1) else p
  }

  function ToComma(s: string, p: nat): (q: nat)
    requires p <= |s|
    ensures p <= q <= |s|
    ensures forall i :: p <= i < q ==> s[i] != ','
    ensures q < |s| ==> s[q] == ','
    decreases |s| - p
  {
    if p < |s| && s[p] != ',' then ToComma(s, p + 1) else p
  }

  /** The items from `p` on: separated by commas, white space around them dropped, up to the first that is blank. */
  function ItemsAt(s: string, p: nat): seq<string>
    requires p <= |s|
    decreases |s| - p
  {
    var b := SkipSpace(s, p);
    var i := ToComma(s, b);
    if b == i then []
    else [s[b..TrimEnd(s, b, i)]] + if i < |s| then ItemsAt(s, i + 1) else []
  }

  /** An item that comes back as it is. */
  predicate ItemOk(t: string) {
    t != "" && !IsSpace(t[0]) && !IsSpace(t[|t| - 1]) && ',' !in t
  }

  lemma {:induction false} ItemsStep(s: string, p: nat)
    requires p <= |s|
    ensures var b := SkipSpace(s, p);
      var i := ToComma(s, b);
      ItemsAt(s, p) ==
        if b == i then [] else [s[b..TrimEnd(s, b, i)]] + if i < |s| then ItemsAt(s, i + 1) else []
  {
    hide IsSpace, SkipSpace, ToComma, TrimEnd;
  }

  lemma {:induction false} ItemHere(s: string, b: nat, i: nat)
    requires b < i <= |s| && !IsSpace(s[b]) && forall k :: b <= k < i ==> s[k] != ','
    ensures var t := s[b..TrimEnd(s, b, i)]; ItemOk(t) && ('\0' !in s ==> '\0' !in t)
  {
    hide IsSpace, TrimEnd;
    var t := s[b..TrimEnd(s, b, i)];
    assert forall k :: 0 <= k < |t| ==> t[k] == s[b + k];
  }

  lemma {:induction false} ItemsOk(s: string, p: nat)
    requires p <= |s|
    ensures forall t :: t in ItemsAt(s, p) ==> ItemOk(t)
    ensures '\0' !in s ==> forall t :: t in ItemsAt(s, p) ==> '\0' !in t
    decreases |s| - p
  {
    hide IsSpace, SkipSpace, ToComma, TrimEnd, ItemsAt, ItemOk;
    ItemsStep(s, p);
    var b := SkipSpace(s, p);
    var i := ToComma(s, b);
    if b < i {
      ItemHere(s, b, i);
      if i < |s| {
        ItemsOk(s, i + 1);
      }
    }
  }

  /** How a list is written. */
  function Written(ts: seq<string>): string {
    if ts == [] then "" else if |ts| == 1 then ts[0] else ts[0] + "," + Written(ts[1..])
  }

  lemma {:induction false} ItemFound(s: string, p: nat, e: nat)
    requires p < e <= |s| && !IsSpace(s[p]) && !IsSpace(s[e - 1])
    requires (forall k :: p <= k < e ==> s[k] != ',') && (e < |s| ==> s[e] == ',')
    ensures SkipSpace(s, p) == p && ToComma(s, p) == e && TrimEnd(s, p, e) == e
  {
    ToCommaIs(s, p, e);
  }

  lemma {:induction false} WrittenParts(ts: seq<string>, s: string, p: nat)
    requires ts != [] && p <= |s| && s[p..] == Written(ts)
    ensures var e := p + |ts[0]|;
      && e <= |s| && s[p..e] == ts[0]
      && (if |ts| == 1 then e == |s| else e < |s| && s[e] == ',' && s[e + 1..] == Written(ts[1..]))
  {
    var t := ts[0];
    var rest := if |ts| == 1 then "" else "," + Written(ts[1..]);
    assert Written(ts) == t + rest;
    assert s[p..][..|t|] == t && s[p..][|t|..] == rest;
    var e := p + |t|;
    assert s[e..] == rest;
    if |ts| > 1 {
      assert s[e] == rest[0] && s[e + 1..] == rest[1..];
    }
  }

  /** A written list comes back. */
  lemma {:induction false} WrittenRead(ts: seq<string>, s: string, p: nat)
    requires forall t :: t in ts ==> ItemOk(t)
    requires p <= |s| && s[p..] == Written(ts)
    ensures ItemsAt(s, p) == ts
    decreases |ts|
  {
    hide IsSpace, Written, SkipSpace, ToComma, TrimEnd, ItemsAt, ItemOk;
    ItemsStep(s, p);
    if ts == [] {
      NothingWritten();
      NothingFound(s);
    } else {
      var t := ts[0];
      assert t in ts;
      var e := p + |t|;
      WrittenParts(ts, s, p);
      WrittenFirst(s, p, e, t);
      if |ts| > 1 {
        WrittenRead(ts[1..], s, e + 1);
      } else {
        assert ts == [t];
      }
    }
  }

  lemma {:induction false} WrittenFirst(s: string, p: nat, e: nat, t: string)
    requires p <= e <= |s| && s[p..e] == t && ItemOk(t) && (e < |s| ==> s[e] == ',')
    ensures p < e && SkipSpace(s, p) == p && ToComma(s, p) == e && TrimEnd(s, p, e) == e
  {
    hide IsSpace, SkipSpace, ToComma, TrimEnd;
    SliceAt(s, p, e);
    ItemFound(s, p, e);
  }

  lemma {:induction false} SliceAt(s: string, p: nat, e: nat)
    requires p < e <= |s|
    ensures forall k :: p <= k < e ==> s[k] in s[p..e]
    ensures s[p] == s[p..e][0] && s[e - 1] == s[p..e][e - p - 1]
  {
    assert forall k :: p <= k < e ==> s[k] == s[p..e][k - p];
  }

  lemma {:induction false} NothingWritten()
    ensures Written([]) == ""
  {
  }

  lemma {:induction false} NothingFound(s: string)
    ensures SkipSpace(s, |s|) == |s| && ToComma(s, |s|) == |s|
  {
  }

  lemma {:induction false} ToCommaIs(s: string, p: nat, q: nat)
    requires p <= q <= |s| && (forall i :: p <= i < q ==> s[i] != ',') && (q < |s| ==> s[q] == ',')
    ensures ToComma(s, p) == q
    decreases q - p
  {
    if p < q {
      ToCommaIs(s, p + 1, q);
    }
  }

  /** Where the next item is, and the comma or end behind it. */
  method ScanItem(val: string, i0: nat) returns (b: nat, i: nat)
    requires i0 <= |val|
    ensures b == SkipSpace(val, i0) && i == ToComma(val, b)
  {
    hide IsSpace, SkipSpace, ToComma;
    b := i0;
    while b < |val| && IsSpace(val[b])
      invariant i0 <= b <= |val| && SkipSpace(val, b) == SkipSpace(val, i0)
    {
      SkipStep(val, b);
      b := b + 1;
    }
    SkipStep(val, b);
    i := b;
    while i < |val| && val[i] != ','
      invariant b <= i <= |val| && forall k :: b <= k < i ==> val[k] != ','
    {
      i := i + 1;
    }
    ToCommaIs(val, b, i);
  }

  method ScanBack(val: string, b: nat, i: nat) returns (e: nat)
    requires b <= i <= |val|
    ensures e == TrimEnd(val, b, i)
  {
    hide IsSpace, TrimEnd;
    e := i;
    while e > b && IsSpace(val[e - 1])
      invariant b <= e <= i && TrimEnd(val, b, e) == TrimEnd(val, b, i)
    {
      TrimStep(val, b, e);
      e := e - 1;
    }
    TrimStep(val, b, e);
  }

  /** The case of a string list: the items, and how many characters they take with their terminators. */
  method ConvertArgv(val: string) returns (ents: seq<string>, tlen: nat)
    ensures ents == ItemsAt(val, 0) && tlen == TotLen(ents)
  {
    hide TotLen, IsSpace, SkipSpace, ToComma, TrimEnd, ItemsAt;
    TotNothing();
    ents, tlen := [], 0;
    var i := 0;
    while true
      invariant i <= |val| && ents + ItemsAt(val, i) == ItemsAt(val, 0) && tlen == TotLen(ents)
      decreases |val| - i
    {
      ItemsStep(val, i);
      var b;
      b, i := ScanItem(val, i);
      if b == i {
        break;
      }
      var e := ScanBack(val, b, i);
      TotSnoc(ents, val[b..e]);
      ents, tlen := ents + [val[b..e]], tlen + (e - b) + 1;
      if i == |val| {
        break;
      }
      i := i + 1;
    }
  }

  lemma {:induction false} SkipStep(s: string, p: nat)
    requires p <= |s|
    ensures SkipSpace(s, p) == if p < |s| && IsSpace(s[p]) then SkipSpace(s, p + 1) else p
  {
  }

  lemma {:induction false} TrimStep(s: string, b: nat, e: nat)
    requires b <= e <= |s|
    ensures TrimEnd(s, b, e) == if e > b && IsSpace(s[e - 1]) then TrimEnd(s, b, e - 1) else e
  {
  }
}
