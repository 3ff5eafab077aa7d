/**
 * The line-prefix parser of `classify_event_with_claude` in app.py: the
 * completion text is split into lines, and each line that starts with
 * `Classification:`, `Confidence:` or `Reasoning:` overwrites the
 * matching field. The fields start unset and stay unset when no line
 * names them.
 */
module ResponseParser {
  import opened Wrappers
  import opened PyStr

  const ClassificationPrefix: string := "Classification:"
  const ConfidencePrefix: string := "Confidence:"
  const ReasoningPrefix: string := "Reasoning:"

  /** The dictionary the parser returns; `None` is Python's `None`. */
  datatype Parsed = Parsed(classification: Option<string>, confidence: Option<int>, reasoning: Option<string>)

  /** All three fields unset, as before the first line is read. */
  const Unset := Parsed(None, None, None)

  // ---------------------------------------------------------------------
  // One line

  /** The category a `Classification:` line carries: every copy of the prefix removed, then stripped. */
  function ClassificationOf(line: string): string {
    Strip(RemoveAll(line, ClassificationPrefix))
  }

  /** The score a `Confidence:` line carries: prefix removed, stripped,
      every `%` removed, then `int()`; `None` where `int()` raises. */
  function ConfidenceOf(line: string): Option<int> {
    ParseInt(RemoveAll(Strip(RemoveAll(line, ConfidencePrefix)), "%"))
  }

  /** The text a `Reasoning:` line carries, taken as for the category. */
  function ReasoningOf(line: string): string {
    Strip(RemoveAll(line, ReasoningPrefix))
  }

  predicate HasKnownPrefix(line: string) {
    StartsWith(line, ClassificationPrefix) || StartsWith(line, ConfidencePrefix) || StartsWith(line, ReasoningPrefix)
  }

  /** One turn of the loop: the `if`/`elif` chain over the three prefixes. */
  function Step(acc: Parsed, line: string): Parsed {
    if StartsWith(line, ClassificationPrefix) then acc.(classification := Some(ClassificationOf(line)))
    else if StartsWith(line, ConfidencePrefix) then acc.(confidence := ConfidenceOf(line))
    else if StartsWith(line, ReasoningPrefix) then acc.(reasoning := Some(ReasoningOf(line)))
    else acc
  }

  // ---------------------------------------------------------------------
  // The whole response

  /** The fields after the loop has read `lines` in order, from `Unset`. */
  function ParseLines(lines: seq<string>): Parsed
    decreases |lines|
  {
    if |lines| == 0 then Unset else Step(ParseLines(lines[..|lines| - 1]), lines[|lines| - 1])
  }

  /** What the parser returns for a completion text. */
  function Parse(text: string): Parsed {
    ParseLines(Split(text, '\n'))
  }

  /** The parser as the source runs it: three variables set to `None`,
      then one pass over the lines that reassigns them. */
  method ParseResponse(text: string) returns (result: Parsed)
    ensures result == Parse(text)
  {
    var classification: Option<string> := None;
    var confidence: Option<int> := None;
    var reasoning: Option<string> := None;
    var lines := Split(text, '\n');
    for i := 0 to |lines|
      invariant Parsed(classification, confidence, reasoning) == ParseLines(lines[..i])
    {
      var line := lines[i];
      if StartsWith(line, ClassificationPrefix) {
        classification := Some(Strip(RemoveAll(line, ClassificationPrefix)));
      } else if StartsWith(line, ConfidencePrefix) {
        var confidenceText := RemoveAll(Strip(RemoveAll(line, ConfidencePrefix)), "%");
        confidence := ParseInt(confidenceText);
      } else if StartsWith(line, ReasoningPrefix) {
        reasoning := Some(Strip(RemoveAll(line, ReasoningPrefix)));
      }
      assert lines[..i + 1][..i] == lines[..i];
    }
    assert lines[..|lines|] == lines;
    result := Parsed(classification, confidence, reasoning);
  }

  // ---------------------------------------------------------------------
  // Which line decides which field

  /** No line starts with two of the prefixes, so the order of the
      `elif` chain never decides which field a line sets. */
  lemma PrefixesExclusive(line: string)
    ensures !(StartsWith(line, ClassificationPrefix) && StartsWith(line, ConfidencePrefix))
    ensures !(StartsWith(line, ClassificationPrefix) && StartsWith(line, ReasoningPrefix))
    ensures !(StartsWith(line, ConfidencePrefix) && StartsWith(line, ReasoningPrefix))
  {
    if StartsWith(line, ClassificationPrefix) {
      assert line[1] == 'l' && line[0] == 'C';
    }
    if StartsWith(line, ConfidencePrefix) {
      assert line[1] == 'o' && line[0] == 'C';
    }
  }

  /** Each line sets at most one field, the one its prefix names, and leaves the other two alone. */
  lemma StepSetsOneField(acc: Parsed, line: string)
    ensures StartsWith(line, ClassificationPrefix) ==>
      Step(acc, line) == Parsed(Some(ClassificationOf(line)), acc.confidence, acc.reasoning)
    ensures StartsWith(line, ConfidencePrefix) ==>
      Step(acc, line) == Parsed(acc.classification, ConfidenceOf(line), acc.reasoning)
    ensures StartsWith(line, ReasoningPrefix) ==>
      Step(acc, line) == Parsed(acc.classification, acc.confidence, Some(ReasoningOf(line)))
    ensures !HasKnownPrefix(line) ==> Step(acc, line) == acc
  {
    PrefixesExclusive(line);
  }

  /** The category is unset exactly when no line starts with `Classification:`. */
  lemma {:induction false} ClassificationAbsent(lines: seq<string>)
    ensures ParseLines(lines).classification == None
        <==> forall j :: 0 <= j < |lines| ==> !StartsWith(lines[j], ClassificationPrefix)
    decreases |lines|
  {
    if |lines| > 0 {
      var init := lines[..|lines| - 1];
      ClassificationAbsent(init);
      assert forall j :: 0 <= j < |init| ==> init[j] == lines[j];
    }
  }

  /** Last match wins: the category comes from the last `Classification:` line. */
  lemma {:induction false} ClassificationLastMatch(lines: seq<string>, i: nat)
    requires i < |lines| && StartsWith(lines[i], ClassificationPrefix)
    requires forall j :: i < j < |lines| ==> !StartsWith(lines[j], ClassificationPrefix)
    ensures ParseLines(lines).classification == Some(ClassificationOf(lines[i]))
    decreases |lines|
  {
    if i < |lines| - 1 {
      var init := lines[..|lines| - 1];
      assert init[i] == lines[i];
      assert forall j :: i < j < |init| ==> init[j] == lines[j];
      ClassificationLastMatch(init, i);
    }
  }

  /** The score is unset when no line starts with `Confidence:` (it can
      also be unset because the last such line does not parse). */
  lemma {:induction false} ConfidenceAbsent(lines: seq<string>)
    requires forall j :: 0 <= j < |lines| ==> !StartsWith(lines[j], ConfidencePrefix)
    ensures ParseLines(lines).confidence == None
    decreases |lines|
  {
    if |lines| > 0 {
      var init := lines[..|lines| - 1];
      assert forall j :: 0 <= j < |init| ==> init[j] == lines[j];
      ConfidenceAbsent(init);
    }
  }

  /** Last match wins for the score too, and that includes an unparseable
      last `Confidence:` line, which leaves the score unset whatever came before. */
  lemma {:induction false} ConfidenceLastMatch(lines: seq<string>, i: nat)
    requires i < |lines| && StartsWith(lines[i], ConfidencePrefix)
    requires forall j :: i < j < |lines| ==> !StartsWith(lines[j], ConfidencePrefix)
    ensures ParseLines(lines).confidence == ConfidenceOf(lines[i])
    decreases |lines|
  {
    PrefixesExclusive(lines[|lines| - 1]);
    if i < |lines| - 1 {
      var init := lines[..|lines| - 1];
      assert init[i] == lines[i];
      assert forall j :: i < j < |init| ==> init[j] == lines[j];
      ConfidenceLastMatch(init, i);
    }
  }

  /** The reasoning is unset exactly when no line starts with `Reasoning:`. */
  lemma {:induction false} ReasoningAbsent(lines: seq<string>)
    ensures ParseLines(lines).reasoning == None
        <==> forall j :: 0 <= j < |lines| ==> !StartsWith(lines[j], ReasoningPrefix)
    decreases |lines|
  {
    if |lines| > 0 {
      var init := lines[..|lines| - 1];
      PrefixesExclusive(lines[|lines| - 1]);
      ReasoningAbsent(init);
      assert forall j :: 0 <= j < |init| ==> init[j] == lines[j];
    }
  }

  /** Last match wins: the reasoning comes from the last `Reasoning:` line. */
  lemma {:induction false} ReasoningLastMatch(lines: seq<string>, i: nat)
    requires i < |lines| && StartsWith(lines[i], ReasoningPrefix)
    requires forall j :: i < j < |lines| ==> !StartsWith(lines[j], ReasoningPrefix)
    ensures ParseLines(lines).reasoning == Some(ReasoningOf(lines[i]))
    decreases |lines|
  {
    PrefixesExclusive(lines[|lines| - 1]);
    if i < |lines| - 1 {
      var init := lines[..|lines| - 1];
      assert init[i] == lines[i];
      assert forall j :: i < j < |init| ==> init[j] == lines[j];
      ReasoningLastMatch(init, i);
    }
  }

  /** A line without a known prefix can be dropped from anywhere without changing the result. */
  lemma {:induction false} UnknownLineIgnored(before: seq<string>, line: string, after: seq<string>)
    requires !HasKnownPrefix(line)
    ensures ParseLines(before + [line] + after) == ParseLines(before + after)
    decreases |after|
  {
    if |after| == 0 {
      assert before + [line] + after == before + [line];
      assert before + after == before;
      ParseLinesSnoc(before, line);
    } else {
      var init, last := after[..|after| - 1], after[|after| - 1];
      assert before + [line] + after == (before + [line] + init) + [last];
      assert before + after == (before + init) + [last];
      ParseLinesSnoc(before + [line] + init, last);
      ParseLinesSnoc(before + init, last);
      UnknownLineIgnored(before, line, init);
    }
  }

  /** Reading one more line is one more step. */
  lemma ParseLinesSnoc(lines: seq<string>, line: string)
    ensures ParseLines(lines + [line]) == Step(ParseLines(lines), line)
  {
    assert (lines + [line])[..|lines|] == lines;
  }

  /** Matching is anchored at column 0 and case-sensitive: a line that
      starts with whitespace (as the indented output layout in the prompt
      does) or with a lower-case letter has no known prefix. */
  lemma AnchoredAndCaseSensitive(line: string)
    requires |line| > 0 && (IsSpace(line[0]) || 'a' <= line[0] <= 'z')
    ensures !HasKnownPrefix(line)
  {
  }

  // ---------------------------------------------------------------------
  // Text-level consequences

  /** A response of one line is that line's step from `Unset`. */
  lemma SingleLine(line: string)
    requires '\n' !in line
    ensures Parse(line) == Step(Unset, line)
  {
    SplitNoSeparator(line, '\n');
    assert [line][..0] == [];
  }

  /** Appending a `Confidence:` line whose score does not parse unsets the score. */
  lemma ConfidenceReset(text: string, line: string)
    requires '\n' !in line && StartsWith(line, ConfidencePrefix) && ConfidenceOf(line) == None
    ensures Parse(text + "\n" + line).confidence == None
    ensures Parse(text + "\n" + line).classification == Parse(text).classification
    ensures Parse(text + "\n" + line).reasoning == Parse(text).reasoning
  {
    SplitAppend(text, line, '\n');
    SplitNoSeparator(line, '\n');
    var lines := Split(text, '\n') + [line];
    assert lines[..|lines| - 1] == Split(text, '\n');
    PrefixesExclusive(line);
  }

  /** A line without a break, followed by a break, is split off whole. */
  lemma SplitFirstLine(line: string, b: string)
    requires '\n' !in line
    ensures Split(line + ['\n'] + b, '\n') == [line] + Split(b, '\n')
  {
    SplitAppend(line, b, '\n');
    SplitNoSeparator(line, '\n');
  }

  /** Splitting around a middle line that holds no line break. */
  lemma SplitAround(a: string, line: string, b: string)
    requires '\n' !in line
    ensures Split(a + "\n" + line + "\n" + b, '\n') == Split(a, '\n') + [line] + Split(b, '\n')
  {
    var tail := line + ['\n'] + b;
    calc {
      Split(a + "\n" + line + "\n" + b, '\n');
      { assert a + "\n" + line + "\n" + b == a + ['\n'] + tail; }
      Split(a + ['\n'] + tail, '\n');
      { SplitAppend(a, tail, '\n'); }
      Split(a, '\n') + Split(tail, '\n');
      { SplitFirstLine(line, b); }
      Split(a, '\n') + ([line] + Split(b, '\n'));
    }
  }

  /** Dropping a line that has no known prefix from between two others
      leaves every field as it was. */
  lemma UnknownTextLineIgnored(a: string, line: string, b: string)
    requires '\n' !in line && !HasKnownPrefix(line)
    ensures Parse(a + "\n" + line + "\n" + b) == Parse(a + "\n" + b)
  {
    SplitAround(a, line, b);
    assert a + "\n" + b == a + ['\n'] + b;
    SplitAppend(a, b, '\n');
    UnknownLineIgnored(Split(a, '\n'), line, Split(b, '\n'));
  }

  /** A category or reasoning the parser returns has no whitespace at either
      end and no line break in it. */
  lemma {:induction false} ValuesAreTrimmedLines(lines: seq<string>)
    requires forall j :: 0 <= j < |lines| ==> '\n' !in lines[j]
    ensures ParseLines(lines).classification.Some? ==>
      IsTrimmed(ParseLines(lines).classification.value) && '\n' !in ParseLines(lines).classification.value
    ensures ParseLines(lines).reasoning.Some? ==>
      IsTrimmed(ParseLines(lines).reasoning.value) && '\n' !in ParseLines(lines).reasoning.value
    decreases |lines|
  {
    if |lines| > 0 {
      var init := lines[..|lines| - 1];
      var line := lines[|lines| - 1];
      assert forall j :: 0 <= j < |init| ==> init[j] == lines[j];
      ValuesAreTrimmedLines(init);
      StripHasNoNewline(RemoveAll(line, ClassificationPrefix), line);
      StripHasNoNewline(RemoveAll(line, ReasoningPrefix), line);
    }
  }

  lemma StripHasNoNewline(s: string, line: string)
    requires forall k :: 0 <= k < |s| ==> s[k] in line
    requires '\n' !in line
    ensures '\n' !in Strip(s)
  {
    var r := Strip(s);
    var i, j :| 0 <= i <= j <= |s| && r == s[i..j] && AllSpace(s[..i]) && AllSpace(s[j..]);
    assert forall k :: 0 <= k < |r| ==> r[k] == s[i + k];
  }

  /** The same for a whole completion text. */
  lemma ParsedValuesTrimmed(text: string)
    ensures Parse(text).classification.Some? ==>
      IsTrimmed(Parse(text).classification.value) && '\n' !in Parse(text).classification.value
    ensures Parse(text).reasoning.Some? ==>
      IsTrimmed(Parse(text).reasoning.value) && '\n' !in Parse(text).reasoning.value
  {
    ValuesAreTrimmedLines(Split(text, '\n'));
  }

  /** `replace` deletes every copy of the prefix, not only the leading
      one: text between and after two copies is run together. */
  lemma InnerCopiesRemoved(x: string, y: string)
    requires 'R' !in x && 'R' !in y
    ensures RemoveAll(ReasoningPrefix + x + ReasoningPrefix + y, ReasoningPrefix) == x + y
  {
    assert ReasoningPrefix + x + ReasoningPrefix + y == ReasoningPrefix + (x + (ReasoningPrefix + y));
    RemoveAllPrefix(ReasoningPrefix, x + (ReasoningPrefix + y));
    PrefixBetween(x, y);
  }

  /** A copy of `Reasoning:` between two `R`-free texts is deleted and the
      texts are joined. */
  lemma PrefixBetween(x: string, y: string)
    requires 'R' !in x && 'R' !in y
    ensures RemoveAll(x + (ReasoningPrefix + y), ReasoningPrefix) == x + y
  {
    RemoveAllKeeps(x, ReasoningPrefix + y, ReasoningPrefix);
    RemoveAllPrefix(ReasoningPrefix, y);
    NotContainsWithoutFirstChar(y, ReasoningPrefix);
  }

  // ---------------------------------------------------------------------
  // The output layout the prompt asks for, and the round trip

  /** A value that fits on its line and comes back unchanged: one line,
      no surrounding whitespace, no copy of its line's prefix. */
  predicate Renderable(value: string, prefix: string) {
    '\n' !in value && IsTrimmed(value) && !Contains(value, prefix)
  }

  /** A field line `prefix + " " + value` gives `value` back. */
  lemma FieldLineValue(prefix: string, value: string)
    requires |prefix| > 0 && prefix[0] != ' ' && Renderable(value, prefix)
    ensures StartsWith(prefix + " " + value, prefix)
    ensures Strip(RemoveAll(prefix + " " + value, prefix)) == value
  {
    assert prefix + " " + value == prefix + (" " + value);
    StartsWithPrefix(prefix, " " + value);
    RemoveAllPrefix(prefix, " " + value);
    ContainsCons(' ', value, prefix);
    assert [' '] + value == " " + value;
    StripSurrounded(" ", value, "");
    assert " " + value + "" == " " + value;
    StripFixed(value);
  }

  lemma ConfidencePrefixRemoved(word: string)
    requires 'C' !in word
    ensures StartsWith(ConfidencePrefix + " " + word + "%", ConfidencePrefix)
    ensures RemoveAll(ConfidencePrefix + " " + word + "%", ConfidencePrefix) == " " + word + "%"
  {
    var tail := " " + word + "%";
    assert ConfidencePrefix + " " + word + "%" == ConfidencePrefix + tail;
    StartsWithPrefix(ConfidencePrefix, tail);
    RemoveAllPrefix(ConfidencePrefix, tail);
    assert 'C' !in tail;
    NotContainsWithoutFirstChar(tail, ConfidencePrefix);
  }

  /** The `%` behind the score keeps `strip()` away from whitespace at the
      end of the score itself. */
  lemma ScoreStripped(word: string)
    requires |word| == 0 || !IsSpace(word[0])
    ensures Strip(" " + word + "%") == word + "%"
  {
    var t := word + "%";
    assert IsTrimmed(t) by {
      assert t[|t| - 1] == '%';
      if |word| > 0 { assert t[0] == word[0]; }
    }
    assert " " + word + "%" == " " + t;
    StripLeadingSpace(t);
  }

  /** A score line `Confidence: <word>%` scores what `int(word)` gives,
      when `word` has no whitespace in front and no `%` or `C` in it.
      Whitespace at the end of `word` reaches `int()` unstripped, because
      `strip()` runs while the `%` still follows it. */
  lemma ConfidenceLineScore(word: string)
    requires (|word| == 0 || !IsSpace(word[0])) && '%' !in word && 'C' !in word
    ensures StartsWith(ConfidencePrefix + " " + word + "%", ConfidencePrefix)
    ensures ConfidenceOf(ConfidencePrefix + " " + word + "%") == ParseInt(word)
  {
    ConfidencePrefixRemoved(word);
    ScoreStripped(word);
    RemoveAllPercent(word);
  }

  /** The score line `Confidence: <n>%` gives `n` back. */
  lemma ConfidenceLineValue(score: int)
    ensures StartsWith(ConfidencePrefix + " " + IntToString(score) + "%", ConfidencePrefix)
    ensures ConfidenceOf(ConfidencePrefix + " " + IntToString(score) + "%") == Some(score)
  {
    IntToStringChars(score);
    ConfidenceLineScore(IntToString(score));
    ParseIntOfIntToString(score);
  }

  lemma {:induction false} RemoveAllPercent(s: string)
    requires '%' !in s
    ensures RemoveAll(s + "%", "%") == s
    decreases |s|
  {
    if |s| == 0 {
      assert s + "%" == "%";
    } else {
      assert (s + "%")[1..] == s[1..] + "%";
      RemoveAllPercent(s[1..]);
      assert [s[0]] + s[1..] == s;
    }
  }

  /** The three lines of the requested output format (app.py, lines
      32-34), filled in, without the prompt's indentation. */
  function RenderedLines(category: string, score: int, reasoning: string): seq<string> {
    [ClassificationPrefix + " " + category,
     ConfidencePrefix + " " + IntToString(score) + "%",
     ReasoningPrefix + " " + reasoning]
  }

  /** A response in the requested format: the three lines, joined by line breaks. */
  function Render(category: string, score: int, reasoning: string): string {
    Join(RenderedLines(category, score, reasoning), '\n')
  }

  lemma RenderedLinesUnbroken(category: string, score: int, reasoning: string)
    requires '\n' !in category && '\n' !in reasoning
    ensures forall k :: 0 <= k < 3 ==> '\n' !in RenderedLines(category, score, reasoning)[k]
  {
    IntToStringChars(score);
  }

  /** The three field lines of a rendered response. */
  lemma SplitRender(category: string, score: int, reasoning: string)
    requires '\n' !in category && '\n' !in reasoning
    ensures Split(Render(category, score, reasoning), '\n') == RenderedLines(category, score, reasoning)
  {
    RenderedLinesUnbroken(category, score, reasoning);
    SplitJoin(RenderedLines(category, score, reasoning), '\n');
  }

  /** `prefix + rest` starts with `prefix`. */
  lemma StartsWithPrefix(prefix: string, rest: string)
    ensures StartsWith(prefix + rest, prefix)
  {
    assert (prefix + rest)[..|prefix|] == prefix;
  }

  /** Three lines, one per prefix in the layout's order, set the three fields. */
  lemma ParseLayoutLines(l1: string, l2: string, l3: string)
    requires StartsWith(l1, ClassificationPrefix) && StartsWith(l2, ConfidencePrefix) && StartsWith(l3, ReasoningPrefix)
    ensures ParseLines([l1, l2, l3]) == Parsed(Some(ClassificationOf(l1)), ConfidenceOf(l2), Some(ReasoningOf(l3)))
  {
    var lines := [l1, l2, l3];
    assert lines[..2] == [l1, l2] && [l1, l2][..1] == [l1] && [l1][..0] == [];
    var p1 := Parsed(Some(ClassificationOf(l1)), None, None);
    var p2 := Parsed(Some(ClassificationOf(l1)), ConfidenceOf(l2), None);
    StepSetsOneField(Unset, l1);
    assert ParseLines([l1]) == p1;
    StepSetsOneField(p1, l2);
    assert ParseLines([l1, l2]) == p2;
    StepSetsOneField(p2, l3);
  }

  /** Round trip: a response written in the requested layout parses back
      to the category, score and reasoning it was written from. */
  lemma RoundTrip(category: string, score: int, reasoning: string)
    requires Renderable(category, ClassificationPrefix) && Renderable(reasoning, ReasoningPrefix)
    ensures Parse(Render(category, score, reasoning)) == Parsed(Some(category), Some(score), Some(reasoning))
  {
    var l1 := ClassificationPrefix + " " + category;
    var l2 := ConfidencePrefix + " " + IntToString(score) + "%";
    var l3 := ReasoningPrefix + " " + reasoning;
    SplitRender(category, score, reasoning);
    FieldLineValue(ClassificationPrefix, category);
    FieldLineValue(ReasoningPrefix, reasoning);
    ConfidenceLineValue(score);
    ParseLayoutLines(l1, l2, l3);
  }
}
