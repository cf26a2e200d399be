/**
 What the lines of an ini text look like: blanks around a key and a value do not matter,
 nor does what follows the header of a section.
 */
module IniLaws {
  import opened Wrappers
  import opened IniText
  import opened IniLines

  /** Spaces and tabs only. */
  predicate Blanks(t: string) {
    forall i :: 0 <= i < |t| ==> t[i] == ' ' || t[i] == '\t'
  }

  /** No space or tab at either end. */
  predicate Tight(t: string) {
    t == "" || (t[0] != ' ' && t[0] != '\t' && t[|t| - 1] != ' ' && t[|t| - 1] != '\t')
  }

  lemma {:induction false} TrimmedTight(a: string, t: string, b: string)
    requires Blanks(a) && Tight(t) && Blanks(b)
    ensures Trim(a + t + b) == t
  {
    hide SkipBlanks, TrimmedLen;
    var s := a + t + b;
    if t == "" {
      SkipBlanksIs(s, 0, |s|);
      assert s[|s|..] == "";
      TrimmedLenIs("", 0);
    } else {
      SkipBlanksIs(s, 0, |a|);
      var u := t + b;
      assert s[|a|..] == u;
      TrimmedLenIs(u, |t|);
      assert u[..|t|] == t;
    }
  }

  /** An entry, with blanks wherever they may stand. */
  lemma {:induction false} EntryAmongBlanks(a: string, key: string, b: string, c: string, value: string, d: string)
    requires Blanks(a) && Blanks(b) && Blanks(c) && Blanks(d)
    requires key != "" && Tight(key) && key[0] != '[' && '=' !in key && Tight(value)
    ensures Classify(a + key + b + "=" + (c + value + d)) == Entry(key, value)
  {
    hide Classify, Trim, TrimLeft, TrimRight;
    var head := a + key + b;
    assert '=' !in head by {
      assert forall i :: 0 <= i < |head| ==>
        head[i] == if i < |a| then a[i] else if i < |a| + |key| then key[i - |a|] else b[i - |a| - |key|];
    }
    HeadTrims(a, key, b);
    EntryLine(head, c + value + d);
    TrimmedTight(c, value, d);
    assert head + "=" + (c + value + d) == a + key + b + "=" + (c + value + d);
  }

  lemma {:induction false} HeadTrims(a: string, key: string, b: string)
    requires Blanks(a) && Blanks(b) && key != "" && Tight(key) && key[0] != '['
    ensures TrimLeft(a + key + b) != "" && TrimLeft(a + key + b)[0] != '['
    ensures TrimRight(TrimLeft(a + key + b)) == key
  {
    TrimmedTight(a, key, b);
    hide SkipBlanks, TrimmedLen;
    var s := a + key + b;
    SkipBlanksIs(s, 0, |a|);
    assert s[|a|..] == key + b;
  }

  /** A header, with blanks in front and anything behind. */
  lemma {:induction false} HeaderAmongBlanks(a: string, section: string, rest: string)
    requires Blanks(a) && ']' !in section
    ensures Classify(a + "[" + section + "]" + rest) == Header(Some(section))
  {
    hide SkipBlanks, Find, TrimmedLen;
    var s := a + "[" + section + "]" + rest;
    SkipBlanksIs(s, 0, |a|);
    var t := "[" + section + "]" + rest;
    assert s[|a|..] == t;
    FindIs(t, ']', 0, |section| + 1);
    assert t[1..|section| + 1] == section;
  }

  /** A line of blanks is empty. */
  lemma {:induction false} NothingAmongBlanks(a: string)
    requires Blanks(a)
    ensures Classify(a) == Empty
  {
    SkipBlanksIs(a, 0, |a|);
  }
}
