/**
 * Concrete replies and what the parser model gives for them: the
 * well-formed reply, a score that is not a number, a score that is reset,
 * a score that `int()` rejects although `strip()` would have cleaned it,
 * and two consequences of `replace` deleting every copy of a prefix.
 */
module ParserExamples {
  import opened Wrappers
  import opened PyStr
  import opened ResponseParser

  lemma JoinThree(a: string, b: string, c: string, sep: char)
    ensures Join([a, b, c], sep) == a + [sep] + b + [sep] + c
  {
    assert [a, b, c][1..] == [b, c] && [b, c][1..] == [c];
    assert Join([c], sep) == c;
    assert Join([b, c], sep) == b + [sep] + c;
    assert a + [sep] + (b + [sep] + c) == a + [sep] + b + [sep] + c;
  }

  lemma WellFormedLines()
    ensures RenderedLines("WIMP", 87, "high recoil") == ["Classification: WIMP", "Confidence: 87%", "Reasoning: high recoil"]
  {
    assert IntToString(87) == "87";
    assert ClassificationPrefix + " " + "WIMP" == "Classification: WIMP";
    assert ConfidencePrefix + " " + "87" + "%" == "Confidence: 87%";
    assert ReasoningPrefix + " " + "high recoil" == "Reasoning: high recoil";
  }

  lemma WellFormedRender()
    ensures Render("WIMP", 87, "high recoil")
         == "Classification: WIMP" + "\n" + "Confidence: 87%" + "\n" + "Reasoning: high recoil"
  {
    WellFormedLines();
    JoinThree("Classification: WIMP", "Confidence: 87%", "Reasoning: high recoil", '\n');
  }

  lemma CategoryRenderable()
    ensures Renderable("WIMP", ClassificationPrefix)
  {
    NotContainsWithoutFirstChar("WIMP", ClassificationPrefix);
  }

  lemma ReasoningRenderable()
    ensures Renderable("high recoil", ReasoningPrefix)
  {
    assert IsTrimmed("high recoil") && '\n' !in "high recoil";
    assert ReasoningPrefix[0] == 'R';
    NotContainsWithoutFirstChar("high recoil", ReasoningPrefix);
  }

  /** The well-formed response gives all three fields. */
  lemma WellFormedResponse()
    ensures Parse("Classification: WIMP" + "\n" + "Confidence: 87%" + "\n" + "Reasoning: high recoil")
         == Parsed(Some("WIMP"), Some(87), Some("high recoil"))
  {
    WellFormedRender();
    CategoryRenderable();
    ReasoningRenderable();
    RoundTrip("WIMP", 87, "high recoil");
  }

  lemma HighNotAnInteger()
    ensures ParseInt("high") == None
  {
    IntStripFixed("high");
  }

  /** `Confidence: high%` leaves the score unset instead of raising. */
  lemma NonNumericConfidence()
    ensures StartsWith("Confidence: high%", ConfidencePrefix)
    ensures ConfidenceOf("Confidence: high%") == None
  {
    assert ConfidencePrefix + " " + "high" + "%" == "Confidence: high%";
    ConfidenceLineScore("high");
    HighNotAnInteger();
  }

  /** A score line that does not parse resets an earlier valid score. */
  lemma ResetAfterValidScore()
    ensures Parse("Confidence: 5%" + "\n" + "Confidence: high%").confidence == None
  {
    HighLineUnbroken();
    NonNumericConfidence();
    ConfidenceReset("Confidence: 5%", "Confidence: high%");
  }

  lemma HighLineUnbroken()
    ensures '\n' !in "Confidence: high%"
  {
  }

  /** `strip()` removes the information separator 0x1C. */
  lemma StripRemovesSeparator()
    ensures Strip("87\U{1C}") == "87"
  {
    assert "87\U{1C}" == "87" + "\U{1C}";
    TrimEndSkipsSpace("87", "\U{1C}");
  }

  /** `int()` does not skip the information separator 0x1C. */
  lemma IntKeepsSeparator()
    ensures ParseInt("87\U{1C}") == None
  {
    assert IntStrip("87\U{1C}") == "87\U{1C}";
    assert !IsDigit("87\U{1C}"[2]);
  }

  /** `Confidence: 87<0x1C>%` scores `None`: the `%` behind the separator
      keeps `strip()` from removing it, and `int()` rejects it. */
  lemma SeparatorBlocksScore()
    ensures ConfidenceOf("Confidence: 87\U{1C}%") == None
  {
    assert ConfidencePrefix + " " + "87\U{1C}" + "%" == "Confidence: 87\U{1C}%";
    ConfidenceLineScore("87\U{1C}");
    IntKeepsSeparator();
  }

  /** `replace` also deletes a copy of the prefix inside the reasoning. */
  lemma ReplaceRemovesInnerCopies()
    ensures ReasoningOf("Reasoning: see Reasoning: it") == "see  it"
  {
    calc {
      ReasoningOf("Reasoning: see Reasoning: it");
    == { assert ReasoningPrefix + " see " + ReasoningPrefix + " it" == "Reasoning: see Reasoning: it"; }
      Strip(RemoveAll(ReasoningPrefix + " see " + ReasoningPrefix + " it", ReasoningPrefix));
    == { InnerCopiesRemoved(" see ", " it"); }
      Strip(" see " + " it");
    == { assert " see " + " it" == " " + "see  it"; }
      Strip(" " + "see  it");
    == { StripLeadingSpace("see  it"); }
      "see  it";
    }
  }

  lemma ReappearRest()
    ensures RemoveAll("ReasReasoning:oning:", ReasoningPrefix) == "R" + RemoveAll("easReasoning:oning:", ReasoningPrefix)
  {
    var s := "ReasReasoning:oning:";
    ReappearFirstChar();
    assert s[1..] == "easReasoning:oning:";
  }

  lemma ReappearFirstChar()
    ensures !StartsWith("ReasReasoning:oning:", ReasoningPrefix)
  {
    assert "ReasReasoning:oning:"[4] != ReasoningPrefix[4];
  }

  lemma ReappearTail()
    ensures RemoveAll("easReasoning:oning:", ReasoningPrefix) == "eas" + "oning:"
  {
    assert "easReasoning:oning:" == "eas" + (ReasoningPrefix + "oning:");
    PrefixBetween("eas", "oning:");
  }

  /** Deleting the prefix can put a new copy of it together, so a
      reasoning value may itself contain `Reasoning:`. */
  lemma PrefixCanReappear()
    ensures ReasoningOf("Reasoning:ReasReasoning:oning:") == "Reasoning:"
  {
    calc {
      ReasoningOf("Reasoning:ReasReasoning:oning:");
    == { assert ReasoningPrefix + "ReasReasoning:oning:" == "Reasoning:ReasReasoning:oning:"; }
      Strip(RemoveAll(ReasoningPrefix + "ReasReasoning:oning:", ReasoningPrefix));
    == { RemoveAllPrefix(ReasoningPrefix, "ReasReasoning:oning:"); }
      Strip(RemoveAll("ReasReasoning:oning:", ReasoningPrefix));
    == { ReappearRest(); }
      Strip("R" + RemoveAll("easReasoning:oning:", ReasoningPrefix));
    == { ReappearTail(); }
      Strip("R" + ("eas" + "oning:"));
    == { assert "R" + ("eas" + "oning:") == "Reasoning:"; }
      Strip("Reasoning:");
    == { StripFixed("Reasoning:"); }
      "Reasoning:";
    }
  }
}
