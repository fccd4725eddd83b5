/**
 * The "weight x reps" message of `logging_exercise`.
 *
 * The conversation table only hands a message to `logging_exercise` when it
 * matches `^(\d+([.,]?\d*)?)\s*x\s*(\d+)$`; the handler then searches the same
 * pattern without anchors and keeps group 1 (with `,` replaced by `.`) as the
 * weight and group 3 as the reps. `Parse` is a hand-written recogniser that
 * scans the text as the greedy pattern does; `Shape`/`Render` describe the
 * language of the anchored pattern independently, and the lemmas below prove
 * that the two agree and that `Parse` returns exactly the two groups.
 */
module Measurement {
  import opened Wrappers
  import Text

  /** Weight and reps, both kept as the strings the bot echoes back. */
  datatype Sample = Sample(weight: string, reps: string)

  /** `[.,]` */
  predicate IsSeparator(c: char) {
    c == '.' || c == ','
  }

  /** The two character classes the pattern repeats: `\d` and `\s`. */
  datatype CharClass = Digit | Space

  predicate In(k: CharClass, c: char) {
    match k
    case Digit => Text.IsDigit(c)
    case Space => Text.IsSpace(c)
  }

  /** The longest prefix of `s` in class `k`, and the rest of `s`: what a greedy `\d*` or `\s*` consumes. */
  function Span(k: CharClass, s: string): (r: (string, string))
    ensures r.0 + r.1 == s
    ensures forall i :: 0 <= i < |r.0| ==> In(k, r.0[i])
    ensures r.1 == [] || !In(k, r.1[0])
  {
    if s != [] && In(k, s[0]) then
      var tail := Span(k, s[1..]);
      var run := [s[0]] + tail.0;
      assert forall i :: 1 <= i < |run| ==> run[i] == tail.0[i - 1];
      assert run + tail.1 == s by {
        assert run + tail.1 == [s[0]] + (tail.0 + tail.1);
      }
      (run, tail.1)
    else ([], s)
  }

  /** The greedy split is the only one: a run of `p` followed by a non-`p` is what `Span` finds. */
  lemma {:induction false} SpanUnique(k: CharClass, a: string, b: string)
    requires forall i :: 0 <= i < |a| ==> In(k, a[i])
    requires b == [] || !In(k, b[0])
    ensures Span(k, a + b) == (a, b)
  {
    if a == [] {
      assert a + b == b;
    } else {
      assert (a + b)[0] == a[0] && (a + b)[1..] == a[1..] + b;
      SpanUnique(k, a[1..], b);
      assert [a[0]] + a[1..] == a;
    }
  }

  /** Group 1, `\d+([.,]?\d*)?` taken greedily from the start of `text`, and what follows it. */
  function WeightPrefix(text: string): (r: (string, string))
    ensures r.0 + r.1 == text
    ensures Span(Digit, text).0 <= r.0
    ensures forall i :: 0 <= i < |r.0| ==> In(Digit, r.0[i]) || IsSeparator(r.0[i])
    ensures r.1 == [] || !In(Digit, r.1[0])
  {
    var (intPart, t1) := Span(Digit, text);
    if t1 != [] && IsSeparator(t1[0]) then
      var (frac, t2) := Span(Digit, t1[1..]);
      var group1 := intPart + ([t1[0]] + frac);
      assert forall i :: |intPart| + 1 <= i < |group1| ==> group1[i] == frac[i - |intPart| - 1];
      assert group1 + t2 == text by {
        assert group1 + t2 == intPart + ([t1[0]] + (frac + t2));
        assert [t1[0]] + t1[1..] == t1;
      }
      (group1, t2)
    else (intPart, t1)
  }

  /** The weight and reps of a message the measurement filter accepts; `None` for any other text. */
  function Parse(text: string): (r: Option<Sample>)
    ensures r.Some? ==> r.value.weight != [] && Text.IsDigit(r.value.weight[0]) && ',' !in r.value.weight
    ensures r.Some? ==> r.value.reps != [] && AllDigits(r.value.reps)
  {
    if Span(Digit, text).0 == [] then None
    else
      var (group1, t2) := WeightPrefix(text);
      var t3 := Span(Space, t2).1;
      if t3 == [] || t3[0] != 'x' then None
      else
        var (reps, tail) := Span(Digit, Span(Space, t3[1..]).1);
        if reps != [] && (tail == [] || tail == "\n") then
          Some(Sample(Text.ReplaceAll(group1, ',', '.'), reps))
        else None
  }

  /**
   * One way of writing a text the anchored pattern matches: the pieces matched by
   * `\d+`, `[.,]?`, `\d*`, `\s*`, `x`, `\s*`, `\d+`, and whether the final newline
   * that Python's `$` lets through is present.
   */
  datatype Shape = Shape(intPart: string, separator: string, fraction: string,
                         before: string, after: string, reps: string, newline: bool)

  predicate AllDigits(s: string) {
    forall i :: 0 <= i < |s| ==> In(Digit, s[i])
  }

  predicate AllSpaces(s: string) {
    forall i :: 0 <= i < |s| ==> In(Space, s[i])
  }

  predicate WellFormed(sh: Shape) {
    && |sh.intPart| > 0 && AllDigits(sh.intPart)
    && |sh.separator| <= 1 && (forall i :: 0 <= i < |sh.separator| ==> IsSeparator(sh.separator[i]))
    && AllDigits(sh.fraction)
    && AllSpaces(sh.before) && AllSpaces(sh.after)
    && |sh.reps| > 0 && AllDigits(sh.reps)
  }

  function Group1(sh: Shape): string {
    sh.intPart + (sh.separator + sh.fraction)
  }

  /** What follows group 1: `\s*x\s*(\d+)` and the optional final newline. */
  function Suffix(sh: Shape): string {
    sh.before + ("x" + (sh.after + (sh.reps + if sh.newline then "\n" else "")))
  }

  function Render(sh: Shape): string {
    sh.intPart + (sh.separator + (sh.fraction + Suffix(sh)))
  }

  /** The texts `filters.Regex("^(\d+([.,]?\d*)?)\s*x\s*(\d+)$")` lets through. */
  ghost predicate Accepts(text: string) {
    exists sh :: WellFormed(sh) && Render(sh) == text
  }

  /** After group 1 comes a character that is neither a digit nor a separator: the scan stops there. */
  lemma WeightPrefixOfGroup1(sh: Shape, t2: string)
    requires WellFormed(sh)
    requires t2 != [] && !In(Digit, t2[0]) && !IsSeparator(t2[0])
    ensures WeightPrefix(sh.intPart + (sh.separator + (sh.fraction + t2))) == (Group1(sh), t2)
  {
    var text := sh.intPart + (sh.separator + (sh.fraction + t2));
    if sh.separator == [] {
      var digits := sh.intPart + sh.fraction;
      assert text == digits + t2;
      assert Group1(sh) == digits;
      assert AllDigits(digits) by {
        forall i | 0 <= i < |digits| ensures In(Digit, digits[i]) {
          if i < |sh.intPart| { assert digits[i] == sh.intPart[i]; }
          else { assert digits[i] == sh.fraction[i - |sh.intPart|]; }
        }
      }
      SpanUnique(Digit, digits, t2);
    } else {
      var t1 := sh.separator + (sh.fraction + t2);
      SpanUnique(Digit, sh.intPart, t1);
      assert t1[0] == sh.separator[0] && t1[1..] == sh.fraction + t2;
      assert sh.separator == [t1[0]];
      SpanUnique(Digit, sh.fraction, t2);
    }
  }

  /** Past the weight, `\s*x\s*(\d+)` followed by nothing or a newline is read as the reps. */
  lemma RepsOfSuffix(sh: Shape)
    requires WellFormed(sh)
    ensures var t3 := Span(Space, Suffix(sh)).1;
            && t3 == "x" + (sh.after + (sh.reps + if sh.newline then "\n" else ""))
            && Span(Digit, Span(Space, t3[1..]).1) == (sh.reps, if sh.newline then "\n" else "")
  {
    var nl: string := if sh.newline then "\n" else "";
    var t3 := "x" + (sh.after + (sh.reps + nl));
    SpanUnique(Space, sh.before, t3);
    assert t3[1..] == sh.after + (sh.reps + nl);
    assert !In(Space, sh.reps[0]);
    SpanUnique(Space, sh.after, sh.reps + nl);
    SpanUnique(Digit, sh.reps, nl);
  }

  /** Completeness: every text of the pattern's language parses, to group 1 with `,` made `.` and group 3. */
  lemma {:induction false} ParseRender(sh: Shape)
    requires WellFormed(sh)
    ensures Parse(Render(sh)) == Some(Sample(Text.ReplaceAll(Group1(sh), ',', '.'), sh.reps))
  {
    var t2 := Suffix(sh);
    assert t2 != [] && !In(Digit, t2[0]) && !IsSeparator(t2[0]) by {
      if sh.before != [] { assert t2[0] == sh.before[0]; } else { assert t2[0] == 'x'; }
    }
    WeightPrefixOfGroup1(sh, t2);
    RepsOfSuffix(sh);
    assert Span(Digit, Render(sh)).0 != [] by {
      assert Render(sh)[0] == sh.intPart[0];
    }
  }

  /** The pieces of group 1 as `WeightPrefix` scans them. */
  lemma WeightPieces(text: string) returns (intPart: string, separator: string, fraction: string, t2: string)
    ensures text == intPart + (separator + (fraction + t2))
    ensures WeightPrefix(text) == (intPart + (separator + fraction), t2)
    ensures intPart == Span(Digit, text).0
    ensures AllDigits(intPart) && AllDigits(fraction)
    ensures |separator| <= 1 && (forall i :: 0 <= i < |separator| ==> IsSeparator(separator[i]))
  {
    var t1;
    intPart, t1 := Span(Digit, text).0, Span(Digit, text).1;
    if t1 != [] && IsSeparator(t1[0]) {
      separator := [t1[0]];
      fraction, t2 := Span(Digit, t1[1..]).0, Span(Digit, t1[1..]).1;
      assert t1 == separator + t1[1..];
      assert WeightPrefix(text) == (intPart + ([t1[0]] + fraction), t2);
    } else {
      separator, fraction, t2 := [], [], t1;
      assert separator + fraction == [] && intPart + [] == intPart;
      assert fraction + t2 == t2 && separator + t2 == t2;
    }
  }

  /** The pieces of `\s*x\s*\d*` and what follows them, as `Parse` scans them. */
  lemma TailPieces(t2: string) returns (before: string, after: string, reps: string, tail: string)
    requires Span(Space, t2).1 != [] && Span(Space, t2).1[0] == 'x'
    ensures t2 == before + ("x" + (after + (reps + tail)))
    ensures AllSpaces(before) && AllSpaces(after) && AllDigits(reps)
    ensures reps == Span(Digit, Span(Space, Span(Space, t2).1[1..]).1).0
    ensures tail == Span(Digit, Span(Space, Span(Space, t2).1[1..]).1).1
  {
    var t3 := Span(Space, t2).1;
    before := Span(Space, t2).0;
    var t4 := Span(Space, t3[1..]).1;
    after := Span(Space, t3[1..]).0;
    reps := Span(Digit, t4).0;
    tail := Span(Digit, t4).1;
    LeadingX(t3);
  }

  lemma LeadingX(s: string)
    requires s != [] && s[0] == 'x'
    ensures s == "x" + s[1..]
  {
  }

  /** Soundness: whatever parses is a text of the pattern's language, read back as its groups. */
  lemma ParseSound(text: string)
    requires Parse(text).Some?
    ensures exists sh :: WellFormed(sh) && Render(sh) == text
                         && Parse(text).value == Sample(Text.ReplaceAll(Group1(sh), ',', '.'), sh.reps)
  {
    var intPart, separator, fraction, t2 := WeightPieces(text);
    var before, after, reps, tail := TailPieces(t2);
    assert reps != [] && (tail == [] || tail == "\n");
    var sh := Shape(intPart, separator, fraction, before, after, reps, tail == "\n");
    assert tail == if sh.newline then "\n" else "";
    assert Suffix(sh) == t2;
    assert Render(sh) == text;
    assert WellFormed(sh);
  }

  /** `Parse` succeeds exactly on the texts the measurement filter accepts. */
  lemma ParseAcceptsFilter(text: string)
    ensures Parse(text).Some? <==> Accepts(text)
  {
    if Parse(text).Some? {
      ParseSound(text);
    }
    if Accepts(text) {
      var sh :| WellFormed(sh) && Render(sh) == text;
      ParseRender(sh);
    }
  }

  /** A decimal comma becomes a dot in the weight. */
  lemma ParseDecimalComma()
    ensures Parse("82,5x8") == Some(Sample("82.5", "8"))
  {
    var sh := Shape("82", ",", "5", "", "", "8", false);
    DecimalCommaShape(sh);
    CommaToDot();
    ParseRender(sh);
  }

  lemma DecimalCommaShape(sh: Shape)
    requires sh == Shape("82", ",", "5", "", "", "8", false)
    ensures WellFormed(sh) && Render(sh) == "82,5x8" && Group1(sh) == "82,5"
  {
  }

  lemma CommaToDot()
    ensures Text.ReplaceAll("82,5", ',', '.') == "82.5"
  {
    var w := Text.ReplaceAll("82,5", ',', '.');
    assert w[0] == '8' && w[1] == '2' && w[2] == '.' && w[3] == '5';
  }

  /** Spaces around the `x` are skipped. */
  lemma ParseSpaced()
    ensures Parse("12 x 3") == Some(Sample("12", "3"))
  {
    var sh := Shape("12", "", "", " ", " ", "3", false);
    SpacedShape(sh);
    ParseRender(sh);
  }

  lemma SpacedShape(sh: Shape)
    requires sh == Shape("12", "", "", " ", " ", "3", false)
    ensures WellFormed(sh) && Render(sh) == "12 x 3" && Group1(sh) == "12"
    ensures Text.ReplaceAll("12", ',', '.') == "12"
  {
  }

  /** Without a weight before the `x` the text is not a measurement. */
  lemma ParseMissingWeight()
    ensures Parse("x8") == None
  {
    assert !In(Digit, 'x');
  }

  /** The confirmation `f"{exercise}: {weight}kg x {reps} times \n"`. */
  function Confirmation(exercise: string, sample: Sample): (r: string)
    ensures exercise + ": " <= r
    ensures |r| == |exercise| + |sample.weight| + |sample.reps| + 15
    ensures r[|exercise| + 2..|exercise| + 2 + |sample.weight|] == sample.weight
    ensures r[|exercise| + 2 + |sample.weight|..|exercise| + 7 + |sample.weight|] == "kg x "
    ensures r[|exercise| + 7 + |sample.weight|..|exercise| + 7 + |sample.weight| + |sample.reps|] == sample.reps
    ensures r[|exercise| + 7 + |sample.weight| + |sample.reps|..] == " times \n"
  {
    exercise + ": " + sample.weight + "kg x " + sample.reps + " times \n"
  }
}
