/**
 What the four ways in which iniEntry() changes a text do to its map.
 */
module IniEdit {
  import opened IniText
  import opened Wrappers
  import opened IniLines

  lemma {:induction false} LineBetween(a: string, line: string, b: string, sec: Option<string>)
    requires Terminated(a) && '\n' !in line
    ensures var sec1 := EndSection(a, sec);
      && TextMap(a + line + "\n" + b, sec) ==
           TextMap(b, SectionAfter(line, sec1)) + LineMap(line, sec1) + TextMap(a, sec)
      && EndSection(a + line + "\n", sec) == SectionAfter(line, sec1)
      && TextMap(a + line + "\n", sec) == LineMap(line, sec1) + TextMap(a, sec)
  {
    hide *;
    var sec1 := EndSection(a, sec);
    assert Terminated(line + "\n") by {
      NewlineTerminates(line);
    }
    ConcatMap(a, line + "\n" + b, sec);
    ConcatMap(line + "\n", b, sec1);
    ConcatMap(a, line + "\n", sec);
    OneLine(line, sec1);
    assert a + line + "\n" + b == a + (line + "\n" + b);
    assert a + line + "\n" == a + (line + "\n");
  }

  lemma {:induction false} NewlineTerminates(line: string)
    ensures Terminated(line + "\n")
  {
  }

  /** Cases 1 and 2: a line for the key, behind a text in the section that lacks the key. */
  lemma {:induction false} EntryBehind(a: string, line: string, b: string, section: string, key: string)
    requires Terminated(a) && '\n' !in line && EndSection(a, None) == Some(section)
    requires Classify(line).Entry? && Classify(line).key == key
    requires (section, key) !in TextMap(a, None)
    ensures TextMap(a + line + "\n" + b, None) == TextMap(a + b, None)[(section, key) := Classify(line).value]
  {
    hide Terminated, TextMap, EndSection, Classify;
    LineBetween(a, line, b, None);
    ConcatMap(a, b, None);
  }

  lemma {:induction false} ReplaceValue(a: string, line: string, line2: string, b: string, section: string, key: string)
    requires Terminated(a) && '\n' !in line && '\n' !in line2 && EndSection(a, None) == Some(section)
    requires Classify(line).Entry? && Classify(line).key == key
    requires Classify(line2).Entry? && Classify(line2).key == key
    requires (section, key) !in TextMap(a, None)
    ensures TextMap(a + line2 + "\n" + b, None) ==
            TextMap(a + line + "\n" + b, None)[(section, key) := Classify(line2).value]
    ensures (section, key) in TextMap(a + line + "\n" + b, None)
    ensures TextMap(a + line + "\n" + b, None)[(section, key)] == Classify(line).value
  {
    hide Terminated, TextMap, EndSection, Classify;
    EntryBehind(a, line, b, section, key);
    EntryBehind(a, line2, b, section, key);
  }

  /** Cases 3 and 4: a new section, behind everything that is not blank. */
  lemma {:induction false} SectionBehind(a: string, gap: string, section: string, line: string, b: string, key: string)
    requires Terminated(a) && BlankText(b) && ValidSection(section) && '\n' !in line
    requires gap == "" || gap == "\n"
    requires Classify(line).Entry? && Classify(line).key == key
    requires (section, key) !in TextMap(a + b, None)
    ensures TextMap(a + gap + "[" + section + "]" + "\n" + line + "\n" + b, None) ==
            TextMap(a + b, None)[(section, key) := Classify(line).value]
  {
    hide Terminated, TextMap, EndSection, Classify;
    var a1 := a + gap;
    var header := "[" + section + "]";
    var a2 := a1 + header + "\n";
    assert Terminated(a1) && BlankText(gap) by {
      if gap == "\n" { NewlineTerminates(a); }
      assert a + "" == a;
    }
    assert Terminated(a2) by {
      NewlineTerminates(a1 + header);
    }
    HeaderLine(section);
    ConcatMap(a, gap, None);
    BlankMap(gap, EndSection(a, None));
    LineBetween(a1, header, "", None);
    ConcatMap(a, b, None);
    BlankMap(b, EndSection(a, None));
    BlankMap(b, Some(section));
    LineBetween(a2, line, b, None);
    assert a + gap + "[" + section + "]" + "\n" + line + "\n" + b == a2 + line + "\n" + b;
  }
}
