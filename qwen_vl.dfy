/**
 * The Qwen2-VL-2B evaluator. Its parser post-processes the match list of
 * `(\w+):\s*\[?(\d+(?:\.\d+)?)\]?/10\s*-?\s*(.*?)(?=\n|$)` (found with
 * `re.findall`, ignoring case) and the first group of a separate
 * `OVERALL:\s*\[?(\d+(?:\.\d+)?)\]?/10` search; both are inputs here.
 */
module QwenVl {
  import opened Wrappers
  import opened Text
  import opened Types
  import opened Pattern
  import opened Extraction
  import opened Evaluators

  const Capabilities: ModelCapabilities :=
    ModelCapabilities("Qwen2-VL-2B", EvaluatorType.QwenVl, "2B", 5.0, true, true, true, "4bit")

  /** One `re.findall` tuple: the label, the score text and the rest of the line. */
  datatype FindallMatch = FindallMatch(tag: string, scoreText: string, explanation: string)

  // ---------------------------------------------------------------------
  // `float()` of a `\d+(?:\.\d+)?` group.
  // ---------------------------------------------------------------------

  predicate DigitString(s: string) {
    |s| > 0 && forall k :: 0 <= k < |s| ==> s[k] in Digits
  }

  /** The index of the first '.' in `s`, or `|s|`. */
  function DotIndex(s: string): (d: nat)
    ensures d <= |s| && (d < |s| ==> s[d] == '.')
    ensures forall k :: 0 <= k < d ==> s[k] != '.'
  {
    if s == [] then 0 else if s[0] == '.' then 0 else 1 + DotIndex(s[1..])
  }

  /** What the group `(\d+(?:\.\d+)?)` can capture: digits, then optionally a dot and digits. */
  predicate DecimalShaped(s: string) {
    var d := DotIndex(s);
    DigitString(s[..d]) && (d == |s| || DigitString(s[d + 1..]))
  }

  function Pow10(n: nat): (p: nat)
    ensures p >= 1
  {
    if n == 0 then 1 else 10 * Pow10(n - 1)
  }

  /** `float(s)` for a decimal-shaped `s`: the integer part plus the fraction digits over a power of ten. */
  function DecimalValue(s: string): real
    requires DecimalShaped(s)
  {
    var d := DotIndex(s);
    if d == |s| then NatOf(s) as real
    else NatOf(s[..d]) as real + NatOf(s[d + 1..]) as real / Pow10(|s| - d - 1) as real
  }

  /** The decimal digits of `n`, most significant first. */
  function NatText(n: nat): (s: string)
    ensures DigitString(s)
    decreases n
  {
    if n < 10 then [('0' as int + n) as char] else NatText(n / 10) + [('0' as int + n % 10) as char]
  }

  lemma {:induction false} NatOfNatText(n: nat)
    ensures NatOf(NatText(n)) == n
    decreases n
  {
    var s := NatText(n);
    if n >= 10 {
      NatOfNatText(n / 10);
      assert s[..|s| - 1] == NatText(n / 10);
    }
  }

  lemma {:induction false} NoDot(s: string)
    requires DigitString(s)
    ensures DotIndex(s) == |s|
  {
    if |s| > 1 {
      NoDot(s[1..]);
    }
  }

  /** Printing a whole number and reading it back with `float()` gives the number. */
  lemma DecimalValueOfNatText(n: nat)
    ensures DecimalShaped(NatText(n)) && DecimalValue(NatText(n)) == n as real
  {
    var s := NatText(n);
    NoDot(s);
    assert s[..|s|] == s;
    NatOfNatText(n);
  }

  /** Decimals are read as written: "7.5" is 7.5. */
  lemma DecimalFraction()
    ensures DecimalShaped("7.5") && DecimalValue("7.5") == 7.5
  {
    var s := "7.5";
    assert DotIndex(s) == 1;
    assert s[..1] == "7" && s[2..] == "5";
    assert NatOf("7") == 7 && NatOf("5") == 5;
  }

  // ---------------------------------------------------------------------
  // The parser.
  // ---------------------------------------------------------------------

  /** The regular expressions guarantee the score groups are decimal-shaped, so `float()` never raises. */
  predicate WellFormed(ms: seq<FindallMatch>) {
    forall k :: 0 <= k < |ms| ==> DecimalShaped(ms[k].scoreText)
  }

  predicate IsOverall(m: FindallMatch) {
    Lower(m.tag) == "overall"
  }

  /** The matches that become criteria: every one whose lower-cased label is not "overall", in order. */
  function Kept(ms: seq<FindallMatch>): seq<FindallMatch> {
    if ms == [] then [] else (if IsOverall(ms[0]) then [] else [ms[0]]) + Kept(ms[1..])
  }

  /** The criterion one match becomes: lower-cased label, the score as written, the explanation stripped. */
  function ToCriterion(m: FindallMatch): CriteriaScore
    requires DecimalShaped(m.scoreText)
  {
    Criterion(Lower(m.tag), DecimalValue(m.scoreText), Strip(m.explanation))
  }

  function Criteria(ms: seq<FindallMatch>): seq<CriteriaScore>
    requires WellFormed(ms)
  {
    if ms == [] then [] else (if IsOverall(ms[0]) then [] else [ToCriterion(ms[0])]) + Criteria(ms[1..])
  }

  /** `float(overall_match.group(1)) if overall_match else 0.0` */
  function OverallValue(capture: Option<string>): real
    requires capture.Some? ==> DecimalShaped(capture.value)
  {
    if capture.Some? then DecimalValue(capture.value) else 0.0
  }

  /** What `parse_scores` returns for the findall list and the OVERALL capture. */
  function Parse(ms: seq<FindallMatch>, capture: Option<string>): (seq<CriteriaScore>, real)
    requires WellFormed(ms) && (capture.Some? ==> DecimalShaped(capture.value))
  {
    (Criteria(ms), WithFallback(OverallValue(capture), Criteria(ms)))
  }

  /** `parse_scores`: the loop appending one criterion per kept match, then the overall score and its fallback. */
  method ParseScores(matches: seq<FindallMatch>, overallCapture: Option<string>)
    returns (criteria: seq<CriteriaScore>, overall: real)
    requires WellFormed(matches) && (overallCapture.Some? ==> DecimalShaped(overallCapture.value))
    ensures (criteria, overall) == Parse(matches, overallCapture)
  {
    criteria := [];
    var i := 0;
    while i < |matches|
      invariant 0 <= i <= |matches|
      invariant criteria == Criteria(matches[..i])
    {
      var m := matches[i];
      CriteriaAppend(matches[..i], m);
      assert matches[..i + 1] == matches[..i] + [m];
      var nameLower := Lower(m.tag);
      if nameLower != "overall" {
        var score := DecimalValue(m.scoreText);
        criteria := criteria + [Criterion(nameLower, score, Strip(m.explanation))];
      }
      i := i + 1;
    }
    assert matches[..i] == matches;
    overall := if overallCapture.Some? then DecimalValue(overallCapture.value) else 0.0;
    if overall == 0.0 && criteria != [] {
      overall := Sum(criteria) / |criteria| as real;
    }
  }

  /** `evaluate`: the parsed scores of a completed inference, or the errored result. */
  function ResultOf(image: string, outcome: Inference<string>, matches: seq<FindallMatch>, overallCapture: Option<string>)
    : (r: EvaluationResult)
    requires WellFormed(matches) && (overallCapture.Some? ==> DecimalShaped(overallCapture.value))
    ensures outcome.Raised? ==> r == ErrorResult(Capabilities.name, image, outcome.message)
    ensures r.evaluator == Capabilities.name && r.image == image
    ensures outcome.Completed? ==> r.inferenceTimeMs == outcome.timeMs && r.vramUsedMb == outcome.vramMb
    ensures outcome.Completed? ==>
      r.error == None && r.rawOutput == outcome.output &&
      (r.criteriaScores, r.overallScore) == Parse(matches, overallCapture)
  {
    match outcome
    case Raised(message) => ErrorResult(Capabilities.name, image, message)
    case Completed(text, timeMs, vramMb) =>
      var (criteria, overall) := Parse(matches, overallCapture);
      EvaluationResult(Capabilities.name, image, overall, criteria, text, timeMs, vramMb, None)
  }

  // ---------------------------------------------------------------------
  // Properties.
  // ---------------------------------------------------------------------

  lemma {:induction false} CriteriaAppend(ms: seq<FindallMatch>, m: FindallMatch)
    requires WellFormed(ms) && DecimalShaped(m.scoreText)
    ensures WellFormed(ms + [m])
    ensures Criteria(ms + [m]) == Criteria(ms) + (if IsOverall(m) then [] else [ToCriterion(m)])
  {
    if ms != [] {
      var h := if IsOverall(ms[0]) then [] else [ToCriterion(ms[0])];
      var last := if IsOverall(m) then [] else [ToCriterion(m)];
      assert (ms + [m])[0] == ms[0];
      assert (ms + [m])[1..] == ms[1..] + [m];
      CriteriaAppend(ms[1..], m);
      assert Criteria(ms + [m]) == h + (Criteria(ms[1..]) + last);
      assert h + (Criteria(ms[1..]) + last) == (h + Criteria(ms[1..])) + last;
    }
  }

  lemma {:induction false} KeptAppend(a: seq<FindallMatch>, b: seq<FindallMatch>)
    ensures Kept(a + b) == Kept(a) + Kept(b)
  {
    if a == [] {
      assert a + b == b;
    } else {
      assert (a + b)[0] == a[0] && (a + b)[1..] == a[1..] + b;
      KeptAppend(a[1..], b);
      var h := if IsOverall(a[0]) then [] else [a[0]];
      assert Kept(a + b) == h + (Kept(a[1..]) + Kept(b));
      assert h + (Kept(a[1..]) + Kept(b)) == (h + Kept(a[1..])) + Kept(b);
    }
  }

  /** A match is kept exactly when its label is not "overall" in any case; the kept ones are never more. */
  lemma {:induction false} KeptMeaning(ms: seq<FindallMatch>)
    ensures forall m :: m in Kept(ms) <==> m in ms && !IsOverall(m)
    ensures |Kept(ms)| <= |ms|
  {
    if ms != [] {
      KeptMeaning(ms[1..]);
      assert ms == [ms[0]] + ms[1..];
    }
  }

  /**
   * One criterion per kept match, in the same order, duplicates included:
   * the lower-cased label, the score exactly as written (no rescaling, so it
   * may exceed 10), the stripped explanation, passed at 6.0.
   */
  lemma {:induction false} CriteriaOfKept(ms: seq<FindallMatch>)
    requires WellFormed(ms)
    ensures |Criteria(ms)| == |Kept(ms)|
    ensures forall k :: 0 <= k < |Kept(ms)| ==>
      DecimalShaped(Kept(ms)[k].scoreText) && Criteria(ms)[k] == ToCriterion(Kept(ms)[k])
  {
    if ms != [] {
      CriteriaOfKept(ms[1..]);
      KeptMeaning(ms[1..]);
      forall k | 0 <= k < |Kept(ms[1..])| ensures DecimalShaped(Kept(ms[1..])[k].scoreText) {
        assert Kept(ms[1..])[k] in Kept(ms[1..]);
      }
    }
  }

  /** Every criterion name is lower case and none is "overall". */
  lemma CriterionNames(ms: seq<FindallMatch>)
    requires WellFormed(ms)
    ensures forall c :: c in Criteria(ms) ==> Lower(c.name) == c.name && c.name != "overall"
  {
    CriteriaOfKept(ms);
    KeptMeaning(ms);
    forall c | c in Criteria(ms) ensures Lower(c.name) == c.name && c.name != "overall" {
      var k :| 0 <= k < |Criteria(ms)| && Criteria(ms)[k] == c;
      var m := Kept(ms)[k];
      assert m in Kept(ms);
      LowerIdempotent(m.tag);
    }
  }

  /** Overall is the OVERALL capture when it is non-zero; otherwise the mean of the criteria, or 0.0 with none. */
  lemma OverallMeaning(ms: seq<FindallMatch>, capture: Option<string>)
    requires WellFormed(ms) && (capture.Some? ==> DecimalShaped(capture.value))
    ensures var (criteria, overall) := Parse(ms, capture);
      (capture.Some? && DecimalValue(capture.value) != 0.0 ==> overall == DecimalValue(capture.value)) &&
      ((capture.None? || DecimalValue(capture.value) == 0.0) ==>
         overall == if criteria == [] then 0.0 else Mean(criteria))
  {
  }

  /** With nothing matched the parser returns no criteria and 0.0. */
  lemma NothingMatched()
    ensures Parse([], None) == ([], 0.0)
  {
  }

  lemma StripExample()
    ensures Strip(" bold ") == "bold"
  {
    var s := " bold ";
    SpacesAreNotPrintable();
    assert s[1] == 'b' && s[4] == 'd';
    assert SkipSpaces(s, 1) == 1;
    assert SkipSpaces(s, 0) == 1;
    assert TrimEnd(s, 1, 5) == 5;
    assert TrimEnd(s, 1, 6) == 5;
  }

  lemma WholeScores()
    ensures DecimalShaped("85") && DecimalValue("85") == 85.0
    ensures DecimalShaped("7") && DecimalValue("7") == 7.0
  {
    DecimalValueOfNatText(85);
    DecimalValueOfNatText(7);
    assert NatText(85) == "85";
  }

  lemma ColorLine(tag: string, scoreText: string, explanation: string, score: real, stripped: string)
    requires Lower(tag) == "color" && DecimalShaped(scoreText) && DecimalValue(scoreText) == score
    requires Strip(explanation) == stripped
    ensures !IsOverall(FindallMatch(tag, scoreText, explanation))
    ensures ToCriterion(FindallMatch(tag, scoreText, explanation)) == Criterion("color", score, stripped)
  {
  }

  /** Two lines for one label both stay, and "85/10" is 85.0, not rescaled to 8.5. */
  lemma DuplicatesAndNoRescaling()
    ensures var ms := [FindallMatch("Color", "85", " bold "), FindallMatch("COLOR", "7", "")];
      WellFormed(ms) &&
      Criteria(ms) == [Criterion("color", 85.0, "bold"), Criterion("color", 7.0, "")]
  {
    WholeScores();
    StripExample();
    var m0, m1 := FindallMatch("Color", "85", " bold "), FindallMatch("COLOR", "7", "");
    assert Lower("Color") == "color";
    assert Lower("COLOR") == "color";
    assert Strip("") == "";
    ColorLine("Color", "85", " bold ", 85.0, "bold");
    ColorLine("COLOR", "7", "", 7.0, "");
    CriteriaAppend([], m0);
    assert [] + [m0] == [m0];
    CriteriaAppend([m0], m1);
    assert [m0] + [m1] == [m0, m1];
  }

  /** An OVERALL line never becomes a criterion, whatever its case. */
  lemma OverallLineSkipped(tag: string, score: string, explanation: string)
    requires Lower(tag) == "overall" && DecimalShaped(score)
    ensures Criteria([FindallMatch(tag, score, explanation)]) == []
  {
    assert [FindallMatch(tag, score, explanation)][1..] == [];
  }

  /** An exception while evaluating yields overall 0.0, no criteria and the error message. */
  lemma ErrorBranch(image: string, message: string)
    ensures var r := ResultOf(image, Raised(message), [], None);
      r.overallScore == 0.0 && r.criteriaScores == [] && r.error == Some(message) && !r.Passed()
  {
  }
}
