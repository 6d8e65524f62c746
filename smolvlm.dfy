/**
 * The SmolVLM2-256M evaluator: a short prompt, then seven score patterns run
 * over the generated text in a fixed order, the first score found for each
 * criterion kept.
 */
module SmolVlm {
  import opened Wrappers
  import opened Text
  import opened Types
  import opened Pattern
  import opened Extraction
  import opened Evaluators

  const Capabilities: ModelCapabilities :=
    ModelCapabilities("SmolVLM2-256M", EvaluatorType.SmolVlm, "256M", 1.0, true, false, false, "none")

  /** `[:\s-]`: a colon, whitespace or a hyphen. */
  const Separators: set<char> := PySpaces + {':', '-'}

  const SepPlus: Atom := Atom(Separators, Plus)

  /** `[Cc]olor[s]?[:\s-]+(\d+)` */
  const ColorPattern: ScorePattern := ScorePattern(Label('C', 'c', "olor") + [Atom({'s'}, Opt), SepPlus], "color")
  /** `[Ll]ayout[:\s-]+(\d+)` */
  const LayoutPattern: ScorePattern := ScorePattern(Label('L', 'l', "ayout") + [SepPlus], "layout")
  /** `[Ww]hite\s*[Ss]pace[:\s-]+(\d+)` */
  const WhiteSpacePattern: ScorePattern :=
    ScorePattern(Label('W', 'w', "hite") + ([Atom(PySpaces, Star)] + (Label('S', 's', "pace") + [SepPlus])), "layout")
  /** `[Tt]ypograph[y]?[:\s-]+(\d+)` */
  const TypographyPattern: ScorePattern :=
    ScorePattern(Label('T', 't', "ypograph") + [Atom({'y'}, Opt), SepPlus], "typography")
  /** `[Ff]ont[s]?[:\s-]+(\d+)` */
  const FontPattern: ScorePattern := ScorePattern(Label('F', 'f', "ont") + [Atom({'s'}, Opt), SepPlus], "typography")
  /** `[Oo]verall[:\s-]+(\d+)` */
  const OverallPattern: ScorePattern := ScorePattern(Label('O', 'o', "verall") + [SepPlus], "overall")
  /** `[Qq]uality[:\s-]+(\d+)` */
  const QualityPattern: ScorePattern := ScorePattern(Label('Q', 'q', "uality") + [SepPlus], "overall")

  const Patterns: seq<ScorePattern> := [
    ColorPattern, LayoutPattern, WhiteSpacePattern, TypographyPattern, FontPattern, OverallPattern, QualityPattern
  ]

  /** `parse_scores`: the pattern loop filling the dictionary, then the shared second half. */
  method ParseScores(text: string) returns (criteria: seq<CriteriaScore>, overall: real)
    ensures (criteria, overall) == Extract(Patterns, text)
  {
    var found: Found := [];
    var i := 0;
    while i < |Patterns|
      invariant 0 <= i <= |Patterns|
      invariant found == Collect(Patterns[..i], text)
    {
      var p := Patterns[i];
      assert Patterns[..i + 1] == Patterns[..i] + [p];
      var m := Captured(p, text);
      if m.Some? {
        var score := Scale(m.value);
        if p.name !in Keys(found) {
          found := found + [(p.name, score)];
        }
      }
      i := i + 1;
    }
    assert Patterns[..i] == Patterns;
    criteria, overall := BuildCriteria(found);
  }

  /** `evaluate`: the parsed scores of a completed inference, or the errored result. */
  function ResultOf(image: string, outcome: Inference<string>): (r: EvaluationResult)
    ensures outcome.Raised? ==> r == ErrorResult(Capabilities.name, image, outcome.message)
    ensures r.evaluator == Capabilities.name && r.image == image
    ensures outcome.Completed? ==> r.inferenceTimeMs == outcome.timeMs && r.vramUsedMb == outcome.vramMb
    ensures outcome.Completed? ==>
      r.error == None && r.rawOutput == outcome.output && (r.criteriaScores, r.overallScore) == Extract(Patterns, outcome.output)
  {
    match outcome
    case Raised(message) => ErrorResult(Capabilities.name, image, message)
    case Completed(text, timeMs, vramMb) =>
      var (criteria, overall) := Extract(Patterns, text);
      EvaluationResult(Capabilities.name, image, overall, criteria, text, timeMs, vramMb, None)
  }

  // ---------------------------------------------------------------------
  // Properties of the pattern table.
  // ---------------------------------------------------------------------

  lemma SeparatorsAreNotDigits()
    ensures Separators !! Digits
  {
    SpacesAreNotPrintable();
    forall c | c in Separators ensures c !in Digits {
      DigitsRange(c);
    }
  }

  /** `[:\s-]+(\d+)`, `[s]?[:\s-]+(\d+)` and `[y]?[:\s-]+(\d+)` need no backtracking. */
  lemma TailsUnambiguous()
    ensures Unambiguous([SepPlus], Digits)
    ensures Unambiguous([Atom({'s'}, Opt), SepPlus], Digits)
    ensures Unambiguous([Atom({'y'}, Opt), SepPlus], Digits)
  {
    SeparatorsAreNotDigits();
    var tail := [SepPlus];
    assert tail[1..] == [];
    assert First(tail, Digits) == Separators;
    assert 's' !in Separators && 'y' !in Separators;
    assert [Atom({'s'}, Opt), SepPlus][1..] == tail;
    assert [Atom({'y'}, Opt), SepPlus][1..] == tail;
  }

  lemma SpaceUnambiguous()
    ensures Unambiguous(Label('S', 's', "pace") + [SepPlus], Digits)
  {
    TailsUnambiguous();
    LabelThen('S', 's', "pace", [SepPlus], Digits);
  }

  lemma SpacesThenSpace(space: seq<Atom>)
    requires space == Label('S', 's', "pace") + [SepPlus]
    ensures Unambiguous([Atom(PySpaces, Star)] + space, Digits)
  {
    SpaceUnambiguous();
    assert PySpaces !! {'S', 's'};
    StarThen(PySpaces, space, Digits);
  }

  lemma WhiteSpaceUnambiguous()
    ensures Unambiguous(WhiteSpacePattern.prefix, Digits)
  {
    var star := [Atom(PySpaces, Star)] + (Label('S', 's', "pace") + [SepPlus]);
    SpacesThenSpace(Label('S', 's', "pace") + [SepPlus]);
    LabelThen('W', 'w', "hite", star, Digits);
  }

  lemma ColorUnambiguous()
    ensures Unambiguous(ColorPattern.prefix, Digits)
  {
    TailsUnambiguous();
    LabelledUnambiguous(ColorPattern, 'C', 'c', "olor", [Atom({'s'}, Opt), SepPlus]);
  }

  lemma LayoutUnambiguous()
    ensures Unambiguous(LayoutPattern.prefix, Digits)
  {
    TailsUnambiguous();
    LabelledUnambiguous(LayoutPattern, 'L', 'l', "ayout", [SepPlus]);
  }

  lemma TypographyUnambiguous()
    ensures Unambiguous(TypographyPattern.prefix, Digits)
  {
    TailsUnambiguous();
    LabelledUnambiguous(TypographyPattern, 'T', 't', "ypograph", [Atom({'y'}, Opt), SepPlus]);
  }

  lemma FontUnambiguous()
    ensures Unambiguous(FontPattern.prefix, Digits)
  {
    TailsUnambiguous();
    LabelledUnambiguous(FontPattern, 'F', 'f', "ont", [Atom({'s'}, Opt), SepPlus]);
  }

  lemma OverallUnambiguous()
    ensures Unambiguous(OverallPattern.prefix, Digits)
  {
    TailsUnambiguous();
    LabelledUnambiguous(OverallPattern, 'O', 'o', "verall", [SepPlus]);
  }

  lemma QualityUnambiguous()
    ensures Unambiguous(QualityPattern.prefix, Digits)
  {
    TailsUnambiguous();
    LabelledUnambiguous(QualityPattern, 'Q', 'q', "uality", [SepPlus]);
  }

  /** No separator is a digit, and an optional `s`/`y` is not a separator: no pattern needs backtracking. */
  lemma PatternsUnambiguous()
    ensures forall i :: 0 <= i < |Patterns| ==> Unambiguous(Patterns[i].prefix, Digits)
  {
    forall i | 0 <= i < |Patterns|
      ensures Unambiguous(Patterns[i].prefix, Digits)
    {
      var p := Patterns[i];
      if i == 0 {
        ColorUnambiguous();
      } else if i == 1 {
        LayoutUnambiguous();
      } else if i == 2 {
        WhiteSpaceUnambiguous();
      } else if i == 3 {
        TypographyUnambiguous();
      } else if i == 4 {
        FontUnambiguous();
      } else if i == 5 {
        OverallUnambiguous();
      } else {
        QualityUnambiguous();
      }
    }
  }

  /** The pattern list, criterion by criterion: color, layout (twice), typography (twice), overall (twice). */
  lemma PatternNames()
    ensures |Patterns| == 7
    ensures Patterns[0].name == "color" && Patterns[1].name == "layout" && Patterns[2].name == "layout"
    ensures Patterns[3].name == "typography" && Patterns[4].name == "typography"
    ensures Patterns[5].name == "overall" && Patterns[6].name == "overall"
  {
  }

  /** The name of the pattern at position `k`. */
  lemma NameAt(k: nat)
    requires k < 7
    ensures |Patterns| == 7
    ensures Patterns[k].name ==
      if k == 0 then "color" else if k <= 2 then "layout" else if k <= 4 then "typography" else "overall"
  {
    PatternNames();
    if k == 0 {
    } else if k == 1 {
    } else if k == 2 {
    } else if k == 3 {
    } else if k == 4 {
    } else if k == 5 {
    } else {
    }
  }

  /** Only positions `i` and `j` carry `name` when the table groups it there. */
  lemma OthersNotNamed(name: string, i: nat, j: nat)
    requires (name, i, j) in {("color", 0, 0), ("layout", 1, 2), ("typography", 3, 4), ("overall", 5, 6)}
    ensures |Patterns| == 7 && i <= j < 7 && Patterns[i].name == name && Patterns[j].name == name
    ensures forall k :: 0 <= k < |Patterns| && k != i && k != j ==> Patterns[k].name != name
  {
    NameAt(i);
    NameAt(j);
    forall k | 0 <= k < |Patterns| && k != i && k != j ensures Patterns[k].name != name {
      NameAt(k);
    }
  }

  lemma PatternsGrouped()
    ensures Grouped(Patterns, Rank)
  {
    PatternNames();
  }

  /**
   * The criteria are a subset of color, layout, typography, in that order,
   * each once; "overall" (from either Overall or Quality) is never one.
   */
  lemma CriteriaNamesAndOrder(text: string)
    ensures var cs := Extract(Patterns, text).0;
      (forall k :: 0 <= k < |cs| ==> cs[k].name in ["color", "layout", "typography"]) &&
      (forall a, b :: 0 <= a < b < |cs| ==> Rank(cs[a].name) < Rank(cs[b].name))
  {
    PatternsGrouped();
    PatternNames();
    RankedCriteria(Patterns, text);
  }

  lemma PatternsInOrder()
    ensures Patterns[0] == ColorPattern && Patterns[1] == LayoutPattern && Patterns[2] == WhiteSpacePattern
    ensures Patterns[3] == TypographyPattern && Patterns[4] == FontPattern
    ensures Patterns[5] == OverallPattern && Patterns[6] == QualityPattern
  {
  }

  /** Color has one pattern; the other criteria take the first of two that matches. */
  lemma ColorScore(text: string)
    ensures FirstScore(Patterns, text, "color") == ScoreOf(ColorPattern, text)
  {
    PatternsInOrder();
    OthersNotNamed("color", 0, 0);
    FirstScoreOne(Patterns, text, "color", 0);
  }

  /** "Layout" beats "White space". */
  lemma LayoutScore(text: string)
    ensures FirstScore(Patterns, text, "layout") ==
      if ScoreOf(LayoutPattern, text).Some? then ScoreOf(LayoutPattern, text) else ScoreOf(WhiteSpacePattern, text)
  {
    PatternsInOrder();
    OthersNotNamed("layout", 1, 2);
    FirstScoreTwo(Patterns, text, "layout", 1, 2);
  }

  /** "Typography" beats "Font". */
  lemma TypographyScore(text: string)
    ensures FirstScore(Patterns, text, "typography") ==
      if ScoreOf(TypographyPattern, text).Some? then ScoreOf(TypographyPattern, text) else ScoreOf(FontPattern, text)
  {
    PatternsInOrder();
    OthersNotNamed("typography", 3, 4);
    FirstScoreTwo(Patterns, text, "typography", 3, 4);
  }

  /** "Overall" beats "Quality". */
  lemma OverallCandidate(text: string)
    ensures FirstScore(Patterns, text, "overall") ==
      if ScoreOf(OverallPattern, text).Some? then ScoreOf(OverallPattern, text) else ScoreOf(QualityPattern, text)
  {
    PatternsInOrder();
    OthersNotNamed("overall", 5, 6);
    FirstScoreTwo(Patterns, text, "overall", 5, 6);
  }

  /**
   * The "layout" criterion is present exactly when Layout or White space
   * matches, with the first of them's score and an empty explanation, passed
   * at 6.0; "color" and "typography" follow the same rule through
   * CriterionPresent and FirstScores.
   */
  lemma LayoutCriterion(text: string)
    ensures var cs := Extract(Patterns, text).0;
      var v := if ScoreOf(LayoutPattern, text).Some? then ScoreOf(LayoutPattern, text) else ScoreOf(WhiteSpacePattern, text);
      ((exists c :: c in cs && c.name == "layout") <==> v.Some?) &&
      (forall c :: c in cs && c.name == "layout" ==>
         c.score == v.value && c.explanation == "" && (c.passed <==> c.score >= 6.0))
  {
    LayoutScore(text);
    CriterionPresent(Patterns, text, "layout");
  }

  lemma ColorCriterion(text: string)
    ensures var cs := Extract(Patterns, text).0;
      var v := ScoreOf(ColorPattern, text);
      ((exists c :: c in cs && c.name == "color") <==> v.Some?) &&
      (forall c :: c in cs && c.name == "color" ==>
         c.score == v.value && c.explanation == "" && (c.passed <==> c.score >= 6.0))
  {
    ColorScore(text);
    CriterionPresent(Patterns, text, "color");
  }

  lemma TypographyCriterion(text: string)
    ensures var cs := Extract(Patterns, text).0;
      var v := if ScoreOf(TypographyPattern, text).Some? then ScoreOf(TypographyPattern, text) else ScoreOf(FontPattern, text);
      ((exists c :: c in cs && c.name == "typography") <==> v.Some?) &&
      (forall c :: c in cs && c.name == "typography" ==>
         c.score == v.value && c.explanation == "" && (c.passed <==> c.score >= 6.0))
  {
    TypographyScore(text);
    CriterionPresent(Patterns, text, "typography");
  }

  /** The overall score: the first of Overall, Quality that matches, unless it is 0; otherwise the mean. */
  lemma OverallFromOverallOrQuality(text: string)
    ensures var (criteria, overall) := Extract(Patterns, text);
      var v := if ScoreOf(OverallPattern, text).Some? then ScoreOf(OverallPattern, text) else ScoreOf(QualityPattern, text);
      (v.Some? && v.value != 0.0 ==> overall == v.value) &&
      ((v.None? || v.value == 0.0) ==> overall == if criteria == [] then 0.0 else Mean(criteria))
  {
    OverallCandidate(text);
    OverallScore(Patterns, text);
  }

  /** With no recognised label the parser returns no criteria and 0.0. */
  lemma NoLabelNoScores(text: string)
    requires forall p :: p in Patterns ==> Captured(p, text) == None
    ensures Extract(Patterns, text) == ([], 0.0)
  {
    NothingFound(Patterns, text);
  }

  /** The label scan of "Color - 8" ends at position 8. */
  lemma ColorHyphenScan()
    ensures Scan(ColorPattern.prefix, "Color - 8", 0) == Some(8)
  {
    var t := "Color - 8";
    var atoms := [Atom({'C', 'c'}, One), Atom({'o'}, One), Atom({'l'}, One), Atom({'o'}, One), Atom({'r'}, One),
                  Atom({'s'}, Opt), SepPlus];
    assert Word("olor") == atoms[1..5];
    assert ColorPattern.prefix == atoms;
    assert RunEnd(Separators, t, 5) == 8 by {
      assert t[5] == ' ' && t[6] == '-' && t[7] == ' ' && t[8] == '8';
      SeparatorsAreNotDigits();
      DigitsRange('8');
    }
    assert Scan(atoms[6..], t, 5) == Some(8);
    assert Scan(atoms[5..], t, 5) == Some(8);
    assert Scan(atoms[4..], t, 4) == Some(8);
    assert Scan(atoms[3..], t, 3) == Some(8);
    assert Scan(atoms[2..], t, 2) == Some(8);
    assert Scan(atoms[1..], t, 1) == Some(8);
    assert Scan(atoms, t, 0) == Some(8);
  }

  /** A hyphen separates a label from its score here: "Color - 8" scores color 8. */
  lemma HyphenSeparates()
    ensures Captured(ColorPattern, "Color - 8") == Some(8)
  {
    var t := "Color - 8";
    ColorHyphenScan();
    assert RunEnd(Digits, t, 8) == 9 by {
      assert RunEnd(Digits, t, 9) == 9;
      DigitsRange(t[8]);
    }
    MatchAtFromScan(ColorPattern, t, 0, 8);
    assert Search(ColorPattern, t) == Some(Capture(0, 8, 9));
    assert t[8..9] == ['8'];
    NatOfDigit('8');
  }

  /** An exception while evaluating yields overall 0.0, no criteria and the error message. */
  lemma ErrorBranch(image: string, message: string)
    ensures var r := ResultOf(image, Raised(message));
      r.overallScore == 0.0 && r.criteriaScores == [] && r.error == Some(message) && !r.Passed()
  {
  }
}
