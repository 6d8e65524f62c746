/**
 * The LLaVA-OneVision-0.5B evaluator: four score patterns, one per criterion,
 * whose separators are a colon or whitespace only; a later score for a name
 * would overwrite an earlier one, but no name repeats.
 */
module MobileVlm {
  import opened Wrappers
  import opened Text
  import opened Types
  import opened Pattern
  import opened Extraction
  import opened Evaluators

  const Capabilities: ModelCapabilities :=
    ModelCapabilities("LLaVA-OneVision-0.5B", EvaluatorType.MobileVlm, "0.5B", 2.0, true, true, true, "none")

  /** `[:\s]`: a colon or whitespace. */
  const Separators: set<char> := PySpaces + {':'}

  const SepPlus: Atom := Atom(Separators, Plus)

  /** `[Cc]olor[s]?[:\s]+(\d+)` */
  const ColorPattern: ScorePattern := ScorePattern(Label('C', 'c', "olor") + [Atom({'s'}, Opt), SepPlus], "color")
  /** `[Ll]ayout[:\s]+(\d+)` */
  const LayoutPattern: ScorePattern := ScorePattern(Label('L', 'l', "ayout") + [SepPlus], "layout")
  /** `[Tt]ypograph[y]?[:\s]+(\d+)` */
  const TypographyPattern: ScorePattern :=
    ScorePattern(Label('T', 't', "ypograph") + [Atom({'y'}, Opt), SepPlus], "typography")
  /** `[Oo]verall[:\s]+(\d+)` */
  const OverallPattern: ScorePattern := ScorePattern(Label('O', 'o', "verall") + [SepPlus], "overall")

  const Patterns: seq<ScorePattern> := [ColorPattern, LayoutPattern, TypographyPattern, OverallPattern]

  /** `parse_scores`: every matching pattern writes its scaled score into the dictionary, then the shared second half. */
  method ParseScores(text: string) returns (criteria: seq<CriteriaScore>, overall: real)
    ensures (criteria, overall) == Extract(Patterns, text)
  {
    var found: Found := [];
    var i := 0;
    while i < |Patterns|
      invariant 0 <= i <= |Patterns|
      invariant found == CollectPut(Patterns[..i], text)
    {
      var p := Patterns[i];
      assert Patterns[..i + 1] == Patterns[..i] + [p];
      var m := Captured(p, text);
      if m.Some? {
        found := Put(found, p.name, Scale(m.value));
      }
      i := i + 1;
    }
    assert Patterns[..i] == Patterns;
    NamesDistinct();
    OverwriteIsFirstWins(Patterns, text);
    criteria, overall := BuildCriteria(found);
  }

  /** `evaluate`: the parsed scores of a completed inference, or the errored result. */
  function ResultOf(image: string, outcome: Inference<string>): (r: EvaluationResult)
    ensures outcome.Raised? ==> r == ErrorResult(Capabilities.name, image, outcome.message)
    ensures r.evaluator == Capabilities.name && r.image == image
    ensures outcome.Completed? ==> r.inferenceTimeMs == outcome.timeMs && r.vramUsedMb == outcome.vramMb
    ensures outcome.Completed? ==>
      r.error == None && r.rawOutput == outcome.output && (r.criteriaScores, r.overallScore) == Extract(Patterns, outcome.output)
  {
    match outcome
    case Raised(message) => ErrorResult(Capabilities.name, image, message)
    case Completed(text, timeMs, vramMb) =>
      var (criteria, overall) := Extract(Patterns, text);
      EvaluationResult(Capabilities.name, image, overall, criteria, text, timeMs, vramMb, None)
  }

  // ---------------------------------------------------------------------
  // Properties of the pattern table.
  // ---------------------------------------------------------------------

  lemma PatternNames()
    ensures |Patterns| == 4
    ensures Patterns[0].name == "color" && Patterns[1].name == "layout"
    ensures Patterns[2].name == "typography" && Patterns[3].name == "overall"
  {
  }

  lemma PatternsInOrder()
    ensures Patterns[0] == ColorPattern && Patterns[1] == LayoutPattern
    ensures Patterns[2] == TypographyPattern && Patterns[3] == OverallPattern
  {
  }

  lemma PatternsGrouped()
    ensures Grouped(Patterns, Rank)
  {
    PatternNames();
  }

  /** Each criterion has exactly one pattern, so overwriting never happens. */
  lemma NamesDistinct()
    ensures forall i, j :: 0 <= i < j < |Patterns| ==> Patterns[i].name != Patterns[j].name
  {
    PatternNames();
  }

  lemma SeparatorsAreNotDigits()
    ensures Separators !! Digits
  {
    SpacesAreNotPrintable();
    forall c | c in Separators ensures c !in Digits {
      DigitsRange(c);
    }
  }

  lemma TailsUnambiguous()
    ensures Unambiguous([SepPlus], Digits)
    ensures Unambiguous([Atom({'s'}, Opt), SepPlus], Digits)
    ensures Unambiguous([Atom({'y'}, Opt), SepPlus], Digits)
  {
    SeparatorsAreNotDigits();
    var tail := [SepPlus];
    assert tail[1..] == [];
    assert First(tail, Digits) == Separators;
    assert 's' !in Separators && 'y' !in Separators;
    assert [Atom({'s'}, Opt), SepPlus][1..] == tail;
    assert [Atom({'y'}, Opt), SepPlus][1..] == tail;
  }

  lemma ColorUnambiguous()
    ensures Unambiguous(ColorPattern.prefix, Digits)
  {
    TailsUnambiguous();
    LabelledUnambiguous(ColorPattern, 'C', 'c', "olor", [Atom({'s'}, Opt), SepPlus]);
  }

  lemma LayoutUnambiguous()
    ensures Unambiguous(LayoutPattern.prefix, Digits)
  {
    TailsUnambiguous();
    LabelledUnambiguous(LayoutPattern, 'L', 'l', "ayout", [SepPlus]);
  }

  lemma TypographyUnambiguous()
    ensures Unambiguous(TypographyPattern.prefix, Digits)
  {
    TailsUnambiguous();
    LabelledUnambiguous(TypographyPattern, 'T', 't', "ypograph", [Atom({'y'}, Opt), SepPlus]);
  }

  lemma OverallUnambiguous()
    ensures Unambiguous(OverallPattern.prefix, Digits)
  {
    TailsUnambiguous();
    LabelledUnambiguous(OverallPattern, 'O', 'o', "verall", [SepPlus]);
  }

  /** No separator is a digit, and an optional `s`/`y` is not a separator: no pattern needs backtracking. */
  lemma PatternsUnambiguous()
    ensures forall i :: 0 <= i < |Patterns| ==> Unambiguous(Patterns[i].prefix, Digits)
  {
    forall i | 0 <= i < |Patterns|
      ensures Unambiguous(Patterns[i].prefix, Digits)
    {
      if i == 0 {
        ColorUnambiguous();
      } else if i == 1 {
        LayoutUnambiguous();
      } else if i == 2 {
        TypographyUnambiguous();
      } else {
        OverallUnambiguous();
      }
    }
  }

  /** A criterion is present exactly when its own pattern matches, with that pattern's scaled score. */
  lemma CriterionFromItsPattern(text: string, i: nat)
    requires i < 3
    ensures var cs := Extract(Patterns, text).0;
      var name := Patterns[i].name;
      var v := ScoreOf(Patterns[i], text);
      ((exists c :: c in cs && c.name == name) <==> v.Some?) &&
      (forall c :: c in cs && c.name == name ==>
         c.score == v.value && c.explanation == "" && (c.passed <==> c.score >= 6.0))
  {
    PatternNames();
    FirstScoreOne(Patterns, text, Patterns[i].name, i);
    CriterionPresent(Patterns, text, Patterns[i].name);
  }

  /** The criteria come in the order color, layout, typography, each at most once, never "overall". */
  lemma CriteriaNamesAndOrder(text: string)
    ensures var cs := Extract(Patterns, text).0;
      (forall k :: 0 <= k < |cs| ==> cs[k].name in ["color", "layout", "typography"]) &&
      (forall a, b :: 0 <= a < b < |cs| ==> Rank(cs[a].name) < Rank(cs[b].name))
  {
    PatternsGrouped();
    PatternNames();
    RankedCriteria(Patterns, text);
  }

  /** The overall score: Overall's score unless it is missing or 0; otherwise the mean of the criteria. */
  lemma OverallFromOverall(text: string)
    ensures var (criteria, overall) := Extract(Patterns, text);
      var v := ScoreOf(OverallPattern, text);
      (v.Some? && v.value != 0.0 ==> overall == v.value) &&
      ((v.None? || v.value == 0.0) ==> overall == if criteria == [] then 0.0 else Mean(criteria))
  {
    PatternNames();
    PatternsInOrder();
    FirstScoreOne(Patterns, text, "overall", 3);
    OverallScore(Patterns, text);
  }

  /** The label scan of "Color - 8" ends at position 6. */
  lemma ColorHyphenScan()
    ensures Scan(ColorPattern.prefix, "Color - 8", 0) == Some(6)
  {
    var t := "Color - 8";
    var atoms := [Atom({'C', 'c'}, One), Atom({'o'}, One), Atom({'l'}, One), Atom({'o'}, One), Atom({'r'}, One),
                  Atom({'s'}, Opt), SepPlus];
    assert Word("olor") == atoms[1..5];
    assert ColorPattern.prefix == atoms;
    assert RunEnd(Separators, t, 5) == 6 by {
      assert t[5] == ' ' && t[6] == '-';
      assert '-' !in Separators;
    }
    assert Scan(atoms[6..], t, 5) == Some(6);
    assert Scan(atoms[5..], t, 5) == Some(6);
    assert Scan(atoms[4..], t, 4) == Some(6);
    assert Scan(atoms[3..], t, 3) == Some(6);
    assert Scan(atoms[2..], t, 2) == Some(6);
    assert Scan(atoms[1..], t, 1) == Some(6);
    assert Scan(atoms, t, 0) == Some(6);
  }

  /** A hyphen is not a separator here: "Color - 8" gives no color score. */
  lemma HyphenDoesNotSeparate()
    ensures Captured(ColorPattern, "Color - 8") == None
  {
    var t := "Color - 8";
    ColorHyphenScan();
    DigitsRange(t[6]);
    MatchAtFromScan(ColorPattern, t, 0, 6);
    forall j | 1 <= j <= |t| ensures MatchAt(ColorPattern, t, j) == None {
      NoMatchWithoutStart(ColorPattern, t, j);
    }
    NoMatchNoCapture(ColorPattern, t);
  }

  /** The prompt's own upper-case labels are not recognised: "COLOR: 8" gives no color score. */
  lemma UpperCaseLabelIgnored()
    ensures Captured(ColorPattern, "COLOR: 8") == None
  {
    var t := "COLOR: 8";
    var atoms := [Atom({'C', 'c'}, One), Atom({'o'}, One), Atom({'l'}, One), Atom({'o'}, One), Atom({'r'}, One),
                  Atom({'s'}, Opt), SepPlus];
    assert Word("olor") == atoms[1..5];
    assert ColorPattern.prefix == atoms;
    assert Scan(atoms[1..], t, 1) == None;
    assert MatchAt(ColorPattern, t, 0) == None;
    forall j | 1 <= j <= |t| ensures MatchAt(ColorPattern, t, j) == None {
      NoMatchWithoutStart(ColorPattern, t, j);
    }
    NoMatchNoCapture(ColorPattern, t);
  }

  /** An exception while evaluating yields overall 0.0, no criteria and the error message. */
  lemma ErrorBranch(image: string, message: string)
    ensures var r := ResultOf(image, Raised(message));
      r.overallScore == 0.0 && r.criteriaScores == [] && r.error == Some(message) && !r.Passed()
  {
  }
}
