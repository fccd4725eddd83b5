/** `facts_to_str`: the session dictionary as text, one `key - value` line per entry. */
module Facts {
  import Text
  import UserData

  /** `f"{key} - {value}"` for every entry, in dictionary order. */
  function FactLines(d: UserData.Entries): (facts: seq<string>)
    ensures |facts| == |d|
    ensures forall i :: 0 <= i < |d| ==> facts[i] == d[i].0 + " - " + d[i].1
  {
    if d == [] then [] else [d[0].0 + " - " + d[0].1] + FactLines(d[1..])
  }

  /** `"\n".join(facts).join(["\n", "\n"])`: the joined lines between two newlines. */
  function FactsToStr(d: UserData.Entries): (r: string)
    ensures r == "\n" + Text.Join("\n", FactLines(d)) + "\n"
  {
    var joined := Text.Join("\n", FactLines(d));
    var ends: seq<string> := ["\n", "\n"];
    assert Text.Join(joined, ends[1..]) == "\n" by { assert ends[1..] == ["\n"]; }
    assert Text.Join(joined, ends) == ends[0] + joined + Text.Join(joined, ends[1..]);
    Text.Join(joined, ends)
  }

  /** A newer key adds its line at the end. */
  lemma FactsToStrAppend(d: UserData.Entries, k: string, v: string)
    requires d != []
    ensures FactsToStr(d + [(k, v)]) == FactsToStr(d) + k + " - " + v + "\n"
  {
    assert FactLines(d + [(k, v)]) == FactLines(d) + [k + " - " + v];
    Text.JoinSnoc("\n", FactLines(d), k + " - " + v);
  }

  lemma {:induction false} SplitAppendSeparator(s: string, sep: char)
    ensures Text.Split(s + [sep], sep) == Text.Split(s, sep) + [[]]
  {
    if s == [] {
      assert Text.Split([sep], sep) == [[]] + Text.Split([], sep);
    } else {
      assert (s + [sep])[0] == s[0] && (s + [sep])[1..] == s[1..] + [sep];
      SplitAppendSeparator(s[1..], sep);
    }
  }

  lemma SplitBetweenSeparators(s: string, sep: char)
    ensures Text.Split([sep] + s + [sep], sep) == [[]] + Text.Split(s, sep) + [[]]
  {
    assert [sep] + s + [sep] == [] + [sep] + (s + [sep]);
    Text.SplitAtSeparator([], s + [sep], sep);
    SplitAppendSeparator(s, sep);
  }

  lemma FactLinesWithoutNewline(d: UserData.Entries)
    requires forall i :: 0 <= i < |d| ==> '\n' !in d[i].0 && '\n' !in d[i].1
    ensures forall i :: 0 <= i < |FactLines(d)| ==> '\n' !in FactLines(d)[i]
  {
    var facts := FactLines(d);
    forall i | 0 <= i < |facts| ensures '\n' !in facts[i] {
      assert facts[i] == d[i].0 + " - " + d[i].1;
    }
  }

  /**
   * Split at its newlines, the text is an empty line, the facts (or one empty
   * line when there are none), and an empty line, provided no key or value
   * holds a newline itself.
   */
  lemma FactsToStrLines(d: UserData.Entries)
    requires forall i :: 0 <= i < |d| ==> '\n' !in d[i].0 && '\n' !in d[i].1
    ensures Text.Split(FactsToStr(d), '\n') == [""] + (if d == [] then [""] else FactLines(d)) + [""]
  {
    if d == [] {
      SplitBetweenSeparators([], '\n');
    } else {
      FactLinesWithoutNewline(d);
      Text.SplitJoin(FactLines(d), '\n');
      SplitBetweenSeparators(Text.Join("\n", FactLines(d)), '\n');
    }
  }
}
