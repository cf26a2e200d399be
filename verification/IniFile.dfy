/**
 iniEntry() and iniMerge(): looking up and changing entries in the text itself.
 A text is a C string: reading at its end gives the terminator.
 */
module IniFile {
  import opened IniText
  import opened Wrappers
  import opened IniLines
  import opened IniEdit

  /** What the scan of a text has found out when it is at the start `p` of a line. */
  ghost predicate ScanInv(s: string, p: nat, insect: bool, secinsert: int, pastinsert: int,
                          section: string, key: string)
  {
    && p <= |s| && Terminated(s[..p])
    && -1 <= secinsert <= p && (secinsert != -1 ==> Terminated(s[..secinsert]))
    && -1 <= pastinsert <= p && (pastinsert != -1 ==> Terminated(s[..pastinsert]))
    && (insect ==> secinsert != -1)
    && (secinsert == -1 ==> BlankText(s[if pastinsert == -1 then 0 else pastinsert..p]))
    && (ValidSection(section) && ValidKey(key) ==>
          && (insect <==> EndSection(s[..p], None) == Some(section))
          && (section, key) !in TextMap(s[..p], None)
          && (secinsert != -1 ==> EndSection(s[..secinsert], None) == Some(section)))
  }

  lemma {:induction false} LineSplit(s: string, p: nat, e: nat)
    requires IsLine(s, p, e)
    ensures s[..e + 1] == s[..p] + s[p..e] + "\n" && '\n' !in s[p..e]
    ensures s == s[..p] + s[p..e] + "\n" + s[e + 1..]
  {
  }

  lemma {:induction false} ScanBlank(s: string, p: nat, e: nat, insect: bool, secinsert: int, pastinsert: int,
                  section: string, key: string)
    requires IsLine(s, p, e) && SkipBlanks(s, p) == e
    requires ScanInv(s, p, insect, secinsert, pastinsert, section, key)
    ensures ScanInv(s, e + 1, insect, secinsert, pastinsert, section, key)
  {
    hide TextMap, EndSection, SkipBlanks;
    var b := s[p..e + 1];
    assert BlankText(b);
    assert s[..e + 1] == s[..p] + b;
    ConcatMap(s[..p], b, None);
    BlankMap(b, EndSection(s[..p], None));
  }

  lemma {:induction false} ScanLine(s: string, p: nat, e: nat, insect: bool, secinsert: int, pastinsert: int,
                 section: string, key: string, insect2: bool)
    requires IsLine(s, p, e)
    requires ScanInv(s, p, insect, secinsert, pastinsert, section, key)
    requires ValidSection(section) && ValidKey(key) ==>
      var sec := EndSection(s[..p], None);
      && (insect2 <==> SectionAfter(s[p..e], sec) == Some(section))
      && (section, key) !in LineMap(s[p..e], sec)
    ensures ScanInv(s, e + 1, insect2, if insect2 then e + 1 else secinsert,
                    if insect2 then pastinsert else e + 1, section, key)
  {
    hide TextMap, EndSection, Classify, SectionAfter, LineMap;
    LineSplit(s, p, e);
    LineBetween(s[..p], s[p..e], "", None);
  }

  /** The header test reads the section of the line at `p`. */
  ghost predicate HeaderTest(s: string, p: nat, e: nat, section: string, hit: bool)
    requires p <= e <= |s|
  {
    ValidSection(section) ==>
      forall sec :: LineMap(s[p..e], sec) == map[] && (SectionAfter(s[p..e], sec) == Some(section) <==> hit)
  }

  /** A header line: the scan knows afterwards whether it is in the section. */
  lemma {:induction false} HeaderStep(s: string, p: nat, e: nat, section: string, q: nat, k: nat)
    requires IsLine(s, p, e) && SkipBlanks(s, p) < e && q == SkipBlanks(s, p) + 1 && s[q - 1] == '['
    requires '\n' !in section && k == CommonPrefix(s, q, section)
    ensures q + k <= e && HeaderTest(s, p, e, section, k == |section| && s[q + k] == ']')
  {
    hide SkipBlanks, CommonPrefix, Find, TrimLeft, TrimRight, Trim;
    LineAt(s, p, e);
    HeaderAt(s, q - 1, e, section);
    var t := TrimLeft(s[p..e]);
    assert t == s[q - 1..e] && t[0] == '[';
  }

  /** A line that is no header: the key test stays in it ... */
  lemma {:induction false} KeyStepBounds(s: string, p: nat, e: nat, key: string)
    requires IsLine(s, p, e) && SkipBlanks(s, p) < e && '\n' !in key
    ensures var q := SkipBlanks(s, p);
      q + CommonPrefix(s, q, key) <= e && SkipBlanks(s, q + CommonPrefix(s, q, key)) <= e
  {
    var q := SkipBlanks(s, p);
    hide SkipBlanks, CommonPrefix;
    LineTail(s, p, q, e);
    PrefixInLine(s, q, e, key);
    LineTail(s, q, q + CommonPrefix(s, q, key), e);
    BlanksInLine(s, q + CommonPrefix(s, q, key), e);
  }

  predicate HasKey(line: string, key: string) {
    Classify(line).Entry? && Classify(line).key == key
  }

  /** ... and says whether the line has the key. */
  lemma {:induction false} KeyStep(s: string, p: nat, e: nat, key: string)
    requires IsLine(s, p, e) && SkipBlanks(s, p) < e && s[SkipBlanks(s, p)] != '['
    requires ValidKey(key)
    ensures var q := SkipBlanks(s, p);
      var k := CommonPrefix(s, q, key);
      && q + k <= e && SkipBlanks(s, q + k) <= e
      && !Classify(s[p..e]).Header?
      && (HasKey(s[p..e], key) <==> k == |key| && s[SkipBlanks(s, q + k)] == '=')
  {
    hide SkipBlanks, CommonPrefix, Find, TrimmedLen, TrimRight, TrimLeft, Trim, Classify, HasKey;
    KeyStepBounds(s, p, e, key);
    var q := SkipBlanks(s, p);
    var k := CommonPrefix(s, q, key);
    hide *;
    ClassifyAt(s, p, q, e);
    LineTail(s, p, q, e);
    if k == |key| && s[SkipBlanks(s, q + k)] == '=' {
      KeyFound(s, q, e, key);
      assert HasKey(s[p..e], key) by {
        HasKeyIs(s[p..e], key);
      }
    } else if HasKey(s[p..e], key) {
      HasKeyIs(s[p..e], key);
      KeyFinds(s, q, e, key);
    }
  }

  lemma {:induction false} HasKeyIs(line: string, key: string)
    ensures HasKey(line, key) <==> Classify(line).Entry? && Classify(line).key == key
  {
  }

  /** The line with the key, up to its value, with a value put behind it. */
  lemma {:induction false} FoundStep(s: string, p: nat, e: nat, key: string, cb: nat, v: string)
    requires IsLine(s, p, e) && SkipBlanks(s, p) < e && s[SkipBlanks(s, p)] != '['
    requires ValidKey(key)
    requires var q := SkipBlanks(s, p);
      CommonPrefix(s, q, key) == |key| && SkipBlanks(s, q + |key|) < e &&
      s[SkipBlanks(s, q + |key|)] == '=' && cb == SkipBlanks(s, SkipBlanks(s, q + |key|) + 1)
    ensures p <= cb <= e && Classify(s[p..cb] + v) == Entry(key, Trim(v))
  {
    hide SkipBlanks, CommonPrefix, Find, TrimmedLen, Trim, TrimRight, Classify;
    var q := SkipBlanks(s, p);
    var r := SkipBlanks(s, q + |key|);
    LineTail(s, p, r + 1, e);
    BlanksInLine(s, r + 1, e);
    HeadOf(s, p, e, q, r, key);
    hide *;
    FoundEntry(s, p, q, r, cb, key, v);
  }

  lemma {:induction false} FoundEntry(s: string, p: nat, q: nat, r: nat, cb: nat, key: string, v: string)
    requires p <= q <= r < cb <= |s| && s[r] == '='
    requires forall i :: r < i < cb ==> IsBlank(s[i])
    requires '=' !in s[p..r] && TrimLeft(s[p..r]) == s[q..r] && TrimRight(s[q..r]) == key
    requires q < r ==> s[q] != '['
    ensures Classify(s[p..cb] + v) == Entry(key, Trim(v))
  {
    hide TrimLeft, TrimRight, Trim, Classify, IsBlank;
    var blanks := s[r + 1..cb];
    assert forall i :: 0 <= i < |blanks| ==> blanks[i] == s[r + 1 + i];
    BlanksBefore(blanks, v);
    EntryLine(s[p..r], blanks + v);
    assert s[p..cb] + v == s[p..r] + "=" + (blanks + v);
  }

  lemma {:induction false} HeadOf(s: string, p: nat, e: nat, q: nat, r: nat, key: string)
    requires IsLine(s, p, e) && q == SkipBlanks(s, p) && q < e && s[q] != '[' && ValidKey(key)
    requires q + |key| <= e && CommonPrefix(s, q, key) == |key|
    requires r == SkipBlanks(s, q + |key|) && r < e && s[r] == '='
    ensures '=' !in s[p..r] && TrimLeft(s[p..r]) == s[q..r] && TrimRight(s[q..r]) == key
  {
    hide SkipBlanks, CommonPrefix, Find, TrimmedLen;
    LineTail(s, p, q, e);
    KeyFound(s, q, e, key);
    SkipBlanksIs(s[p..r], 0, q - p);
    assert s[q..r] == s[q..e][..r - q];
    assert forall i :: p <= i < r ==> if i < q then IsBlank(s[i]) else s[i] == s[q..e][i - q];
  }

  // ------------------------------------------------------------------ methods

  method SkipBlanksFrom(s: string, p: nat) returns (q: nat)
    requires p <= |s|
    ensures q == SkipBlanks(s, p)
  {
    q := p;
    while q < |s| && IsBlank(s[q])
      invariant p <= q <= |s| && SkipBlanks(s, q) == SkipBlanks(s, p)
    {
      q := q + 1;
    }
  }

  method MatchAt(s: string, p: nat, t: string) returns (k: nat)
    requires p <= |s|
    ensures k == CommonPrefix(s, p, t)
  {
    k := 0;
    while k < |t| && p + k < |s| && s[p + k] == t[k]
      invariant k <= |t| && p + k <= |s|
      invariant CommonPrefix(s, p, t) == k + CommonPrefix(s, p + k, t[k..])
    {
      k := k + 1;
    }
  }

  /** Behind the newline at or after `p`. */
  method PastLine(s: string, p: nat, ghost e: nat) returns (q: nat)
    requires IsLine(s, p, e)
    ensures q == e + 1
  {
    q := p;
    while s[q] != '\n'
      invariant p <= q <= e
      decreases e - q
    {
      q := q + 1;
    }
    q := q + 1;
  }

  method AppArr(buf: array<char>, p: nat, src: string) returns (q: nat)
    requires p + |src| <= buf.Length
    modifies buf
    ensures q == p + |src| && buf[..q] == old(buf[..p]) + src
  {
    q := p;
    var i := 0;
    while i < |src|
      invariant i <= |src| && q == p + i
      invariant buf[..q] == old(buf[..p]) + src[..i]
    {
      buf[q] := src[i];
      q, i := q + 1, i + 1;
    }
    assert src[..i] == src;
  }

  method AppByte(buf: array<char>, p: nat, b: char) returns (q: nat)
    requires p < buf.Length
    modifies buf
    ensures q == p + 1 && buf[..q] == old(buf[..p]) + [b]
  {
    buf[p] := b;
    q := p + 1;
  }

  function HeaderText(section: string, ll: nat): string {
    (if ll == 0 then "" else "\n") + "[" + section + "]" + "\n"
  }

  method AppHeader(buf: array<char>, p: nat, section: string, ll: nat) returns (q: nat)
    requires ll <= 1 && p + ll + |section| + 3 <= buf.Length
    modifies buf
    ensures q == p + ll + |section| + 3 && buf[..q] == old(buf[..p]) + HeaderText(section, ll)
  {
    q := p;
    if ll != 0 {
      q := AppByte(buf, q, '\n');
    }
    q := AppByte(buf, q, '[');
    q := AppArr(buf, q, section);
    q := AppByte(buf, q, ']');
    q := AppByte(buf, q, '\n');
  }

  /** What goes between the two parts of the text that are kept. */
  function Inserted(section: string, key: string, value: string, ll: nat, sl: nat, kl: nat): string {
    (if kl == 0 then "" else KeyText(section, key, ll, sl)) + value + "\n"
  }

  /** The writing half of iniEntry(): the computed size is filled to the last byte. */
  method Splice(data: string, cb: nat, ce: nat, section: string, key: string, value: string,
                ll: nat, sl: nat, kl: nat) returns (buf: array<char>)
    requires cb <= ce <= |data|
    requires kl == 0 || kl == |key| + 1
    requires sl == 0 || sl == |section| + 3
    requires kl == 0 ==> sl == 0
    requires ll <= 1 && (sl == 0 ==> ll == 0)
    ensures fresh(buf)
    ensures buf[..] == data[..cb] + Inserted(section, key, value, ll, sl, kl) + data[ce..] + ['\0']
  {
    hide HeaderText;
    var vl := |value|;
    var nlen := |data| - (ce - cb) + ll + sl + kl + vl + 1;
    buf := new char[nlen + 1];
    ghost var t := data[..cb];
    var p := AppArr(buf, 0, data[..cb]);
    assert buf[..p] == t;
    if kl != 0 {
      p := AppKey(buf, p, section, key, ll, sl);
      t := t + KeyText(section, key, ll, sl);
    }
    assert buf[..p] == t;
    p := AppArr(buf, p, value);
    p := AppByte(buf, p, '\n');
    t := t + value + ['\n'];
    assert buf[..p] == t;
    p := AppArr(buf, p, data[ce..]);
    p := AppByte(buf, p, '\0');
    t := t + data[ce..] + ['\0'];
    assert buf[..p] == t && p == buf.Length;
    SpliceText(data[..cb], data[ce..], section, key, value, ll, sl, kl);
  }

  /** The key, with a header before it if there is none yet. */
  function KeyText(section: string, key: string, ll: nat, sl: nat): string {
    (if sl == 0 then "" else HeaderText(section, ll)) + key + "="
  }

  method AppKey(buf: array<char>, p: nat, section: string, key: string, ll: nat, sl: nat) returns (q: nat)
    requires sl == 0 || sl == |section| + 3
    requires ll <= 1 && (sl == 0 ==> ll == 0)
    requires p + ll + sl + |key| + 1 <= buf.Length
    modifies buf
    ensures q == p + ll + sl + |key| + 1 && buf[..q] == old(buf[..p]) + KeyText(section, key, ll, sl)
  {
    hide HeaderText;
    q := p;
    ghost var head := "";
    if sl != 0 {
      q := AppHeader(buf, q, section, ll);
      head := HeaderText(section, ll);
    }
    assert buf[..q] == old(buf[..p]) + head;
    q := AppArr(buf, q, key);
    q := AppByte(buf, q, '=');
  }

  lemma {:induction false} SpliceText(a: string, b: string, section: string, key: string, value: string,
                                      ll: nat, sl: nat, kl: nat)
    ensures (if kl != 0 then a + KeyText(section, key, ll, sl) else a) + value + ['\n'] + b + ['\0'] ==
      a + Inserted(section, key, value, ll, sl, kl) + b + ['\0']
  {
    hide KeyText;
    assert value + "\n" == value + ['\n'];
  }

  // ----------------------------------------------------------------- iniEntry

  function TextOf(data: Option<string>): string {
    if data.Some? then data.value else ""
  }

  predicate Valid(section: string, key: string) {
    ValidSection(section) && ValidKey(key)
  }

  /** `s2` is `s` with something put in, in place of nothing or of the end of one line. */
  ghost predicate EditedAt(s: string, s2: string, cb: nat, ce: nat, ins: string) {
    && cb <= ce <= |s| && s2 == s[..cb] + ins + s[ce..]
    && (cb == ce || (s[ce - 1] == '\n' && '\n' !in s[cb..ce - 1]))
  }

  ghost predicate Edited(s: string, s2: string) {
    exists cb, ce, ins :: EditedAt(s, s2, cb, ce, ins)
  }

  /** The entry was found: what its value is, and what replacing it does. */
  lemma {:induction false} FoundMeaning(s: string, p: nat, e: nat, section: string, key: string, cb: nat, v: string)
    requires IsLine(s, p, e) && Terminated(s[..p]) && EndSection(s[..p], None) == Some(section)
    requires (section, key) !in TextMap(s[..p], None) && ValidKey(key)
    requires p <= cb <= e && '\n' !in v
    requires Classify(s[p..cb] + v) == Entry(key, Trim(v))
    requires Classify(s[p..cb] + s[cb..e]) == Entry(key, Trim(s[cb..e]))
    ensures (section, key) in TextMap(s, None) && TextMap(s, None)[(section, key)] == Trim(s[cb..e])
    ensures TextMap(s[..cb] + v + "\n" + s[e + 1..], None) == TextMap(s, None)[(section, key) := Trim(v)]
  {
    hide TextMap, EndSection, Classify, Terminated, Trim;
    LineSplit(s, p, e);
    assert s[p..cb] + s[cb..e] == s[p..e];
    ReplaceValue(s[..p], s[p..e], s[p..cb] + v, s[e + 1..], section, key);
    assert s[..p] + (s[p..cb] + v) + "\n" + s[e + 1..] == s[..cb] + v + "\n" + s[e + 1..];
  }

  /** A line that writes the key and the value. */
  lemma {:induction false} WrittenLine(key: string, value: string)
    requires ValidKey(key) && '\n' !in value
    ensures Classify(key + "=" + value) == Entry(key, Trim(value)) && '\n' !in key + "=" + value
  {
    ValidKeyTrims(key);
    hide Classify, Trim, TrimLeft, TrimRight;
    EntryLine(key, value);
  }

  /** The scan ended without finding the entry: adding its line to its section ... */
  lemma {:induction false} KeyAdded(s: string, at: nat, section: string, key: string, line: string)
    requires at <= |s| && Terminated(s[..at]) && EndSection(s[..at], None) == Some(section)
    requires (section, key) !in TextMap(s, None)
    requires '\n' !in line && HasKey(line, key)
    ensures TextMap(s[..at] + (line + "\n") + s[at..], None) ==
            TextMap(s, None)[(section, key) := Classify(line).value]
  {
    hide TextMap, EndSection, Classify, Terminated;
    var a, b := s[..at], s[at..];
    assert a + b == s;
    ConcatMap(a, b, None);
    EntryBehind(a, line, b, section, key);
    assert a + line + "\n" + b == a + (line + "\n") + b;
  }

  /** ... or behind everything, in a new section. */
  lemma {:induction false} SectionAdded(s: string, at: nat, ll: nat, section: string, key: string, line: string)
    requires at <= |s| && Terminated(s[..at]) && BlankText(s[at..]) && ll <= 1
    requires (section, key) !in TextMap(s, None) && ValidSection(section)
    requires '\n' !in line && HasKey(line, key)
    ensures TextMap(s[..at] + (HeaderText(section, ll) + line + "\n") + s[at..], None) ==
            TextMap(s, None)[(section, key) := Classify(line).value]
  {
    hide TextMap, EndSection, Classify, Terminated, BlankText;
    var gap := if ll == 0 then "" else "\n";
    var a, b := s[..at], s[at..];
    assert a + b == s;
    SectionBehind(a, gap, section, line, b, key);
    assert a + gap + "[" + section + "]" + "\n" + line + "\n" + b ==
           a + (gap + "[" + section + "]" + "\n" + line + "\n") + b;
  }

  lemma {:induction false} InsertedIs(section: string, key: string, value: string, ll: nat)
    ensures Inserted(section, key, value, 0, 0, |key| + 1) == (key + "=" + value) + "\n"
    ensures Inserted(section, key, value, ll, |section| + 3, |key| + 1) ==
            HeaderText(section, ll) + (key + "=" + value) + "\n"
  {
    hide HeaderText;
    assert "" + key + "=" + value + "\n" == key + "=" + value + "\n";
    var h := HeaderText(section, ll);
    assert h + key + "=" + value + "\n" == h + (key + "=" + value) + "\n";
  }

  lemma {:induction false} AddedMeaning(s: string, at: nat, ll: nat, sl: nat, section: string, key: string, value: string)
    requires at <= |s| && Terminated(s[..at]) && ll <= 1
    requires Valid(section, key) && (section, key) !in TextMap(s, None) && '\n' !in value
    requires if sl == 0 then ll == 0 && EndSection(s[..at], None) == Some(section)
             else sl == |section| + 3 && BlankText(s[at..])
    ensures TextMap(s[..at] + Inserted(section, key, value, ll, sl, |key| + 1) + s[at..], None) ==
            TextMap(s, None)[(section, key) := Trim(value)]
  {
    hide TextMap, EndSection, Classify, Terminated, BlankText, Inserted, HeaderText, Trim, ValidKey, ValidSection;
    WrittenLine(key, value);
    InsertedIs(section, key, value, ll);
    if sl == 0 {
      KeyAdded(s, at, section, key, key + "=" + value);
    } else {
      SectionAdded(s, at, ll, section, key, key + "=" + value);
    }
  }

  /** The line `s[p..e]`, in the section, has the key; `cb` is where its value starts. */
  ghost predicate FoundAt(s: string, p: nat, e: nat, section: string, key: string, cb: nat) {
    && IsLine(s, p, e) && Terminated(s[..p]) && EndSection(s[..p], None) == Some(section)
    && SkipBlanks(s, p) < e && s[SkipBlanks(s, p)] != '['
    && (section, key) !in TextMap(s[..p], None) && ValidKey(key)
    && (var q := SkipBlanks(s, p);
        CommonPrefix(s, q, key) == |key| && SkipBlanks(s, q + |key|) < e &&
        s[SkipBlanks(s, q + |key|)] == '=' && cb == SkipBlanks(s, SkipBlanks(s, q + |key|) + 1))
  }

  lemma {:induction false} FoundLine(s: string, p: nat, e: nat, section: string, key: string, cb: nat, v: string)
    requires FoundAt(s, p, e, section, key, cb)
    ensures p <= cb <= e
    ensures (section, key) in TextMap(s, None) && TextMap(s, None)[(section, key)] == Trim(s[cb..e])
    ensures '\n' !in v ==>
      TextMap(s[..cb] + (v + "\n") + s[e + 1..], None) == TextMap(s, None)[(section, key) := Trim(v)]
  {
    hide TextMap, EndSection, Classify, Terminated, Trim, ValidKey, SkipBlanks, CommonPrefix;
    FoundStep(s, p, e, key, cb, "");
    FoundStep(s, p, e, key, cb, s[cb..e]);
    FoundStep(s, p, e, key, cb, v);
    FoundMeaning(s, p, e, section, key, cb, "");
    if '\n' !in v {
      FoundMeaning(s, p, e, section, key, cb, v);
      assert s[..cb] + v + "\n" + s[e + 1..] == s[..cb] + (v + "\n") + s[e + 1..];
    }
  }

  /** Where the value of a found entry lies, without the blanks around it. */
  method ValueAt(s: string, cb: nat, e: nat) returns (v: string)
    requires cb <= e <= |s| && (cb < e ==> !IsBlank(s[cb]))
    ensures v == Trim(s[cb..e])
  {
    var ce := e;
    while ce != cb && IsBlank(s[ce - 1])
      invariant cb <= ce <= e
      invariant forall i :: ce <= i < e ==> IsBlank(s[i])
    {
      ce := ce - 1;
    }
    v := s[cb..ce];
    SkipBlanksIs(s[cb..e], 0, 0);
    TrimmedLenIs(s[cb..e], ce - cb);
  }

  lemma {:induction false} LineBounds(s: string, p: nat, e: nat, q: nat)
    requires IsLine(s, p, e) && p <= q <= e
    ensures s[q] == '\n' <==> q == e
  {
  }

  /** The scan behind a line that is not blank. */
  ghost predicate ScanPast(s: string, e: nat, secinsert: int, pastinsert: int,
                           section: string, key: string, insect2: bool)
  {
    ScanInv(s, e + 1, insect2, if insect2 then e + 1 else secinsert,
            if insect2 then pastinsert else e + 1, section, key)
  }

  lemma {:induction false} HeaderScan(s: string, p: nat, e: nat, insect: bool, secinsert: int, pastinsert: int,
                   section: string, key: string, insect2: bool)
    requires IsLine(s, p, e) && ScanInv(s, p, insect, secinsert, pastinsert, section, key)
    requires SkipBlanks(s, p) < e && s[SkipBlanks(s, p)] == '[' && '\n' !in section
    requires var q := SkipBlanks(s, p) + 1;
      var k := CommonPrefix(s, q, section);
      q + k <= e && insect2 == (k == |section| && s[q + k] == ']')
    ensures ScanPast(s, e, secinsert, pastinsert, section, key, insect2)
  {
    hide TextMap, EndSection, Classify, SectionAfter, LineMap, SkipBlanks, CommonPrefix, Terminated,
      BlankText, IsLine, ValidKey, ValidSection;
    HeaderStep(s, p, e, section, SkipBlanks(s, p) + 1, CommonPrefix(s, SkipBlanks(s, p) + 1, section));
    ScanLine(s, p, e, insect, secinsert, pastinsert, section, key, insect2);
  }

  lemma {:induction false} KeyScan(s: string, p: nat, e: nat, insect: bool, secinsert: int, pastinsert: int,
                section: string, key: string)
    requires IsLine(s, p, e) && ScanInv(s, p, insect, secinsert, pastinsert, section, key)
    requires SkipBlanks(s, p) < e && s[SkipBlanks(s, p)] != '[' && '\n' !in key
    requires insect ==>
      var q := SkipBlanks(s, p);
      var k := CommonPrefix(s, q, key);
      q + k <= e && SkipBlanks(s, q + k) <= e && !(k == |key| && s[SkipBlanks(s, q + k)] == '=')
    ensures ScanPast(s, e, secinsert, pastinsert, section, key, insect)
  {
    hide TextMap, EndSection, SkipBlanks, CommonPrefix, Terminated, BlankText, IsLine, ValidKey,
      ValidSection, Classify;
    if Valid(section, key) {
      KeyStep(s, p, e, key);
    }
    ScanLine(s, p, e, insect, secinsert, pastinsert, section, key, insect);
  }

  lemma {:induction false} KeyHit(s: string, p: nat, e: nat, secinsert: int, pastinsert: int, section: string, key: string)
    requires IsLine(s, p, e) && ScanInv(s, p, true, secinsert, pastinsert, section, key)
    requires SkipBlanks(s, p) < e && s[SkipBlanks(s, p)] != '['
    requires var q := SkipBlanks(s, p);
      CommonPrefix(s, q, key) == |key| && SkipBlanks(s, q + |key|) < e &&
      s[SkipBlanks(s, q + |key|)] == '='
    ensures var cb := SkipBlanks(s, SkipBlanks(s, SkipBlanks(s, p) + |key|) + 1);
      && SkipBlanks(s, p) < cb <= e
      && (Valid(section, key) ==> FoundAt(s, p, e, section, key, cb))
  {
    hide TextMap, EndSection, SkipBlanks, CommonPrefix;
    var q := SkipBlanks(s, p);
    LineTail(s, p, SkipBlanks(s, q + |key|) + 1, e);
    BlanksInLine(s, SkipBlanks(s, q + |key|) + 1, e);
  }

  /** A line that starts with '[': is it the header of the section? */
  method TryHeader(s: string, ghost start: nat, ghost e: nat, first: nat, ghost insect0: bool,
                   ghost secinsert: int, ghost pastinsert: int, section: string, ghost key: string)
    returns (p: nat, insect: bool)
    requires IsLine(s, start, e) && ScanInv(s, start, insect0, secinsert, pastinsert, section, key)
    requires first == SkipBlanks(s, start) && first < e && s[first] == '[' && '\n' !in section
    ensures start <= p <= e && ScanPast(s, e, secinsert, pastinsert, section, key, insect)
  {
    hide TextMap, EndSection, SkipBlanks, CommonPrefix, ScanInv, ScanPast;
    BlanksInLine(s, start, e);
    p := first + 1;
    var k := MatchAt(s, p, section);
    HeaderStep(s, start, e, section, p, k);
    p := p + k;
    insect := k == |section| && s[p] == ']';
    HeaderScan(s, start, e, insect0, secinsert, pastinsert, section, key, insect);
  }

  /** Another line in the section: is it the entry for the key? If so, `p` is where its value starts. */
  method TryKey(s: string, ghost start: nat, ghost e: nat, first: nat,
                ghost secinsert: int, ghost pastinsert: int, ghost section: string, key: string)
    returns (p: nat, found: bool)
    requires IsLine(s, start, e) && ScanInv(s, start, true, secinsert, pastinsert, section, key)
    requires first == SkipBlanks(s, start) && first < e && s[first] != '[' && '\n' !in key
    ensures start <= p <= e
    ensures !found ==> ScanPast(s, e, secinsert, pastinsert, section, key, true)
    ensures found ==> (p < e ==> !IsBlank(s[p]))
    ensures found && Valid(section, key) ==> FoundAt(s, start, e, section, key, p)
  {
    hide TextMap, EndSection, SkipBlanks, CommonPrefix, ScanInv, ScanPast, FoundAt, Valid;
    BlanksInLine(s, start, e);
    KeyStepBounds(s, start, e, key);
    var k := MatchAt(s, first, key);
    p := SkipBlanksFrom(s, first + k);
    LineBounds(s, start, e, p);
    found := k == |key| && s[p] == '=';
    if found {
      KeyHit(s, start, e, secinsert, pastinsert, section, key);
      p := SkipBlanksFrom(s, p + 1);
    } else {
      KeyScan(s, start, e, true, secinsert, pastinsert, section, key);
    }
  }

  /** One round of the scan of iniEntry(): a line is passed, or the entry is found in it. */
  method ScanOneLine(s: string, start: nat, ghost e: nat, insect0: bool, secinsert0: int, pastinsert0: int,
                     section: string, key: string)
    returns (p: nat, insect: bool, secinsert: int, pastinsert: int, found: bool)
    requires IsLine(s, start, e) && '\n' !in section && '\n' !in key
    requires ScanInv(s, start, insect0, secinsert0, pastinsert0, section, key)
    ensures !found ==> p == e + 1 && ScanInv(s, p, insect, secinsert, pastinsert, section, key)
    ensures found ==> start <= p <= e && (p < e ==> !IsBlank(s[p]))
    ensures found && Valid(section, key) ==> FoundAt(s, start, e, section, key, p)
  {
    hide TextMap, EndSection, SkipBlanks, CommonPrefix, ScanInv, FoundAt, Valid;
    insect, secinsert, pastinsert, found := insect0, secinsert0, pastinsert0, false;
    BlanksInLine(s, start, e);
    p := SkipBlanksFrom(s, start);
    LineBounds(s, start, e, p);
    if s[p] == '\n' {
      p := p + 1;
      ScanBlank(s, start, e, insect, secinsert, pastinsert, section, key);
      return;
    }
    if s[p] == '[' {
      p, insect := TryHeader(s, start, e, p, insect0, secinsert, pastinsert, section, key);
    } else if insect {
      p, found := TryKey(s, start, e, p, secinsert, pastinsert, section, key);
      if found {
        return;
      }
    } else {
      KeyScan(s, start, e, insect0, secinsert, pastinsert, section, key);
    }
    LineTail(s, start, p, e);
    p := PastLine(s, p, e);
    if insect {
      secinsert := p;
    } else {
      pastinsert := p;
    }
  }

  /**
   Without a value, looks up a key in a section; with one, makes the text define it.
   For a section and key that a text can name, a lookup is a lookup in the map of the
   text, and setting is exactly an update of that map.
   */
  method IniEntry(data: Option<string>, section: string, key: string, value: Option<string>)
    returns (r: Option<string>)
    requires Terminated(TextOf(data)) && '\n' !in section && '\n' !in key
    ensures value.None? && Valid(section, key) ==>
      r == if (section, key) in Meaning(data) then Some(Meaning(data)[(section, key)]) else None
    ensures value.Some? ==> r.Some? && Terminated(r.value) && Edited(TextOf(data), r.value)
    ensures value.Some? && Valid(section, key) && '\n' !in value.value ==>
      Meaning(r) == Meaning(data)[(section, key) := Trim(value.value)]
  {
    hide TextMap, EndSection, ScanInv, FoundAt, Valid, Trim, Inserted, Edited;
    var s := TextOf(data);
    MeaningIs(data);
    ScanStart(s, section, key);
    var p, insect, secinsert, pastinsert := 0, false, -1, -1;
    while p < |s|
      invariant p <= |s| && ScanInv(s, p, insect, secinsert, pastinsert, section, key)
      decreases |s| - p
    {
      ghost var start := p;
      ghost var e := Find(s, '\n', p);
      LineHere(s, p);
      var found;
      p, insect, secinsert, pastinsert, found := ScanOneLine(s, p, e, insect, secinsert, pastinsert, section, key);
      if found {
        var cb := p;
        LineTail(s, start, p, e);
        var ce := PastLine(s, p, e);
        if Valid(section, key) {
          FoundLine(s, start, e, section, key, cb, if value.Some? then value.value else "");
        }
        if value.Some? {
          var buf := Splice(s, cb, ce, section, key, value.value, 0, 0, 0);
          InsertedValue(section, key, value.value);
          SpliceDone(s, cb, ce, value.value + "\n", buf[..]);
          r := Some(buf[..buf.Length - 1]);
        } else {
          var v := ValueAt(s, cb, ce - 1);
          r := Some(v);
        }
        return;
      }
    }
    ScanEnd(s, insect, secinsert, pastinsert, section, key);
    if value.None? {
      return None;
    }
    var at, ll, sl := secinsert, 0, 0;
    if secinsert == -1 {
      sl := |section| + 3;
      if pastinsert != -1 {
        at, ll := pastinsert, 1;
      } else {
        at, ll := 0, 0;
      }
    }
    var buf := Splice(s, at, at, section, key, value.value, ll, sl, |key| + 1);
    InsertedEnds(section, key, value.value, ll, sl, |key| + 1);
    SpliceDone(s, at, at, Inserted(section, key, value.value, ll, sl, |key| + 1), buf[..]);
    r := Some(buf[..buf.Length - 1]);
    if Valid(section, key) && '\n' !in value.value {
      AddedMeaning(s, at, ll, sl, section, key, value.value);
    }
  }

  lemma {:induction false} MeaningIs(data: Option<string>)
    ensures Meaning(data) == TextMap(TextOf(data), None)
  {
  }

  lemma {:induction false} ScanStart(s: string, section: string, key: string)
    ensures ScanInv(s, 0, false, -1, -1, section, key)
  {
    assert s[..0] == "";
  }

  lemma {:induction false} LineHere(s: string, p: nat)
    requires p < |s| && Terminated(s)
    ensures IsLine(s, p, Find(s, '\n', p))
  {
  }

  /** What the scan knows when it has seen the whole text. */
  lemma {:induction false} ScanEnd(s: string, insect: bool, secinsert: int, pastinsert: int, section: string, key: string)
    requires ScanInv(s, |s|, insect, secinsert, pastinsert, section, key)
    ensures -1 <= secinsert <= |s| && -1 <= pastinsert <= |s|
    ensures secinsert != -1 ==> Terminated(s[..secinsert])
    ensures pastinsert != -1 ==> Terminated(s[..pastinsert])
    ensures Terminated(s[..0])
    ensures secinsert == -1 ==> BlankText(s[if pastinsert == -1 then 0 else pastinsert..])
    ensures Valid(section, key) ==>
      (section, key) !in TextMap(s, None) &&
      (secinsert != -1 ==> EndSection(s[..secinsert], None) == Some(section))
  {
    hide TextMap, EndSection;
    assert s[..|s|] == s;
    assert s[if pastinsert == -1 then 0 else pastinsert..|s|] == s[if pastinsert == -1 then 0 else pastinsert..];
  }

  lemma {:induction false} InsertedValue(section: string, key: string, value: string)
    ensures Inserted(section, key, value, 0, 0, 0) == value + "\n"
  {
    assert "" + value + "\n" == value + "\n";
  }

  lemma {:induction false} InsertedEnds(section: string, key: string, value: string, ll: nat, sl: nat, kl: nat)
    ensures Terminated(Inserted(section, key, value, ll, sl, kl)) && Inserted(section, key, value, ll, sl, kl) != ""
  {
  }

  lemma {:induction false} SpliceDone(s: string, cb: nat, ce: nat, ins: string, buf: string)
    requires Terminated(s) && cb <= ce <= |s| && ins != "" && Terminated(ins)
    requires buf == s[..cb] + ins + s[ce..] + ['\0']
    requires cb == ce || IsLine(s, cb, ce - 1)
    ensures buf[..|buf| - 1] == s[..cb] + ins + s[ce..]
    ensures Terminated(s[..cb] + ins + s[ce..])
    ensures Edited(s, s[..cb] + ins + s[ce..])
  {
    assert EditedAt(s, s[..cb] + ins + s[ce..], cb, ce, ins);
  }
}
