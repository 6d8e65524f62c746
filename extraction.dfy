/**
 * The text-pattern extraction shared by the SmolVLM and MobileVLM evaluators:
 * run an ordered list of score patterns over the generated text, keep one
 * score per criterion name in a dictionary (in insertion order, as Python's
 * `dict` does), pull "overall" out, turn the rest into criteria and fall back
 * to the mean of the criteria when there is no non-zero overall score.
 */
module Extraction {
  import opened Wrappers
  import opened Types
  import opened Pattern

  /** A captured integer as a score: above 10 it is read as a 0-100 score and divided by 10. */
  function Scale(n: nat): (s: real)
    ensures n <= 10 ==> s == n as real
    ensures n > 10 ==> s * 10.0 == n as real
  {
    if n > 10 then n as real / 10.0 else n as real
  }

  /** A criterion whose `passed` flag is decided by the 6.0 criterion threshold. */
  function Criterion(name: string, score: real, explanation: string): (c: CriteriaScore)
    ensures c.name == name && c.score == score && c.explanation == explanation
    ensures c.passed <==> score >= 6.0
  {
    CriteriaScore(name, score, score >= CriterionThreshold, explanation)
  }

  /** A Python `dict[str, float]`, as its entries in insertion order. */
  type Found = seq<(string, real)>

  function Keys(f: Found): (ks: seq<string>)
    ensures |ks| == |f| && forall k :: 0 <= k < |f| ==> ks[k] == f[k].0
  {
    if f == [] then [] else [f[0].0] + Keys(f[1..])
  }

  predicate DistinctKeys(f: Found) {
    forall i, j :: 0 <= i < j < |f| ==> f[i].0 != f[j].0
  }

  /** `f.get(name)`. */
  function Lookup(f: Found, name: string): Option<real> {
    if f == [] then None
    else if f[0].0 == name then Some(f[0].1)
    else Lookup(f[1..], name)
  }

  /** `if name not in f: f[name] = v`. */
  function AddIfAbsent(f: Found, name: string, v: real): Found {
    if name in Keys(f) then f else f + [(name, v)]
  }

  /** `f[name] = v`: an existing key keeps its place and takes the new value. */
  function Put(f: Found, name: string, v: real): Found {
    if f == [] then [(name, v)]
    else if f[0].0 == name then [(name, v)] + f[1..]
    else [f[0]] + Put(f[1..], name, v)
  }

  /** `f.pop(name, None)`, keeping what is left in order. */
  function Remove(f: Found, name: string): (r: Found)
    ensures forall e :: e in r <==> e in f && e.0 != name
  {
    if f == [] then []
    else if f[0].0 == name then Remove(f[1..], name)
    else [f[0]] + Remove(f[1..], name)
  }

  /** The dictionary the pattern loop of the SmolVLM parser fills: the first score found for a name stays. */
  function Collect(ps: seq<ScorePattern>, t: string): Found
    decreases |ps|
  {
    if ps == [] then []
    else
      var f := Collect(ps[..|ps| - 1], t);
      var p := ps[|ps| - 1];
      match Captured(p, t)
      case None => f
      case Some(n) => AddIfAbsent(f, p.name, Scale(n))
  }

  /** The dictionary the pattern loop of the MobileVLM parser fills: a later score for a name overwrites. */
  function CollectPut(ps: seq<ScorePattern>, t: string): Found
    decreases |ps|
  {
    if ps == [] then []
    else
      var f := CollectPut(ps[..|ps| - 1], t);
      var p := ps[|ps| - 1];
      match Captured(p, t)
      case None => f
      case Some(n) => Put(f, p.name, Scale(n))
  }

  /** Reference: the score of the first pattern in list order that is named `name` and matches the text. */
  function FirstScore(ps: seq<ScorePattern>, t: string, name: string): Option<real> {
    if ps == [] then None
    else if ps[0].name == name && Captured(ps[0], t).Some? then Some(Scale(Captured(ps[0], t).value))
    else FirstScore(ps[1..], t, name)
  }

  /** The scaled score one pattern captures, if it matches. */
  function ScoreOf(p: ScorePattern, t: string): Option<real> {
    if Captured(p, t).Some? then Some(Scale(Captured(p, t).value)) else None
  }

  lemma {:induction false} FirstScoreSkip(ps: seq<ScorePattern>, t: string, name: string, i: nat)
    requires i <= |ps| && forall k :: 0 <= k < i ==> ps[k].name != name
    ensures FirstScore(ps, t, name) == FirstScore(ps[i..], t, name)
  {
    if i > 0 {
      FirstScoreSkip(ps[1..], t, name, i - 1);
      assert ps[1..][i - 1..] == ps[i..];
    }
  }

  /** With exactly one pattern of a name, the first score is that pattern's. */
  lemma FirstScoreOne(ps: seq<ScorePattern>, t: string, name: string, i: nat)
    requires i < |ps| && ps[i].name == name
    requires forall k :: 0 <= k < |ps| && k != i ==> ps[k].name != name
    ensures FirstScore(ps, t, name) == ScoreOf(ps[i], t)
  {
    FirstScoreSkip(ps, t, name, i);
    FirstScoreSkip(ps[i + 1..], t, name, |ps| - i - 1);
  }

  /** With exactly two patterns of a name, the first of them that matches gives the score. */
  lemma FirstScoreTwo(ps: seq<ScorePattern>, t: string, name: string, i: nat, j: nat)
    requires i < j < |ps| && ps[i].name == name && ps[j].name == name
    requires forall k :: 0 <= k < |ps| && k != i && k != j ==> ps[k].name != name
    ensures FirstScore(ps, t, name) == if ScoreOf(ps[i], t).Some? then ScoreOf(ps[i], t) else ScoreOf(ps[j], t)
  {
    FirstScoreSkip(ps, t, name, i);
    FirstScoreSkip(ps[i + 1..], t, name, j - i - 1);
    assert ps[i + 1..][j - i - 1..] == ps[j..];
    FirstScoreSkip(ps[j + 1..], t, name, |ps| - j - 1);
  }

  /** Reference: the list index of that pattern. */
  function FirstIndex(ps: seq<ScorePattern>, t: string, name: string): (r: Option<nat>)
    ensures r.Some? ==> r.value < |ps| && ps[r.value].name == name && Captured(ps[r.value], t).Some?
    ensures r.Some? <==> FirstScore(ps, t, name).Some?
  {
    if ps == [] then None
    else if ps[0].name == name && Captured(ps[0], t).Some? then Some(0)
    else match FirstIndex(ps[1..], t, name)
      case None => None
      case Some(j) => Some(j + 1)
  }

  function Sum(cs: seq<CriteriaScore>): real {
    if cs == [] then 0.0 else cs[0].score + Sum(cs[1..])
  }

  /** `sum(c.score for c in cs) / len(cs)`. */
  function Mean(cs: seq<CriteriaScore>): real
    requires cs != []
  {
    Sum(cs) / |cs| as real
  }

  /** `if not overall and criteria: overall = mean(criteria)`. */
  function WithFallback(overall: real, criteria: seq<CriteriaScore>): real {
    if overall == 0.0 && criteria != [] then Mean(criteria) else overall
  }

  /** One criterion per dictionary entry, in order, with an empty explanation. */
  function ToCriteria(f: Found): (cs: seq<CriteriaScore>)
    ensures |cs| == |f|
    ensures forall k :: 0 <= k < |f| ==> cs[k] == Criterion(f[k].0, f[k].1, "")
  {
    if f == [] then [] else [Criterion(f[0].0, f[0].1, "")] + ToCriteria(f[1..])
  }

  /** What the second half of the parser returns for a filled dictionary. */
  function Finish(f: Found): (seq<CriteriaScore>, real) {
    var criteria := ToCriteria(Remove(f, "overall"));
    (criteria, WithFallback(Lookup(f, "overall").GetOr(0.0), criteria))
  }

  /** The pattern loop and its result, as the SmolVLM parser computes them. */
  function Extract(ps: seq<ScorePattern>, t: string): (seq<CriteriaScore>, real) {
    Finish(Collect(ps, t))
  }

  /**
   * The second half of both parsers: pop "overall", build one criterion per
   * remaining entry in dictionary order, and fall back to the mean.
   */
  method BuildCriteria(found: Found) returns (criteria: seq<CriteriaScore>, overall: real)
    ensures (criteria, overall) == Finish(found)
  {
    overall := Lookup(found, "overall").GetOr(0.0);
    var rest := Remove(found, "overall");
    criteria := [];
    var i := 0;
    while i < |rest|
      invariant 0 <= i <= |rest|
      invariant criteria == ToCriteria(rest[..i])
    {
      var (name, score) := rest[i];
      criteria := criteria + [Criterion(name, score, "")];
      i := i + 1;
    }
    assert rest[..i] == rest;
    if overall == 0.0 && criteria != [] {
      overall := Sum(criteria) / |criteria| as real;
    }
  }

  // ---------------------------------------------------------------------
  // The dictionary the pattern loop fills.
  // ---------------------------------------------------------------------

  lemma {:induction false} LookupAbsent(f: Found, name: string)
    requires name !in Keys(f)
    ensures Lookup(f, name) == None
  {
    if f != [] {
      assert Keys(f)[1..] == Keys(f[1..]);
      LookupAbsent(f[1..], name);
    }
  }

  lemma {:induction false} LookupAppend(f: Found, e: (string, real), name: string)
    ensures Lookup(f + [e], name) == if name in Keys(f) then Lookup(f, name) else if e.0 == name then Some(e.1) else None
  {
    if f == [] {
      assert [e][1..] == [];
    } else {
      assert (f + [e])[1..] == f[1..] + [e];
      assert Keys(f)[1..] == Keys(f[1..]);
      LookupAppend(f[1..], e, name);
    }
  }

  lemma {:induction false} FirstScoreAppend(ps: seq<ScorePattern>, p: ScorePattern, t: string, name: string)
    ensures FirstScore(ps + [p], t, name) ==
      if FirstScore(ps, t, name).Some? then FirstScore(ps, t, name)
      else if p.name == name && Captured(p, t).Some? then Some(Scale(Captured(p, t).value))
      else None
  {
    if ps == [] {
      assert [p][1..] == [];
    } else {
      assert (ps + [p])[1..] == ps[1..] + [p];
      FirstScoreAppend(ps[1..], p, t, name);
    }
  }

  lemma {:induction false} FirstIndexAppend(ps: seq<ScorePattern>, p: ScorePattern, t: string, name: string)
    ensures FirstIndex(ps + [p], t, name) ==
      if FirstIndex(ps, t, name).Some? then FirstIndex(ps, t, name)
      else if p.name == name && Captured(p, t).Some? then Some(|ps|)
      else None
  {
    if ps == [] {
      assert [p][1..] == [];
    } else {
      assert (ps + [p])[1..] == ps[1..] + [p];
      FirstIndexAppend(ps[1..], p, t, name);
    }
  }

  /**
   * The dictionary holds each name once; a name is present exactly when some
   * pattern of that name matches, and its score is the one of the FIRST such
   * pattern in list order, wherever the other matches sit in the text.
   */
  lemma {:induction false} CollectFirstWins(ps: seq<ScorePattern>, t: string, name: string)
    ensures DistinctKeys(Collect(ps, t))
    ensures Lookup(Collect(ps, t), name) == FirstScore(ps, t, name)
    ensures name in Keys(Collect(ps, t)) <==> FirstScore(ps, t, name).Some?
    decreases |ps|
  {
    if ps != [] {
      var init, p := ps[..|ps| - 1], ps[|ps| - 1];
      assert ps == init + [p];
      var f := Collect(init, t);
      CollectFirstWins(init, t, name);
      FirstScoreAppend(init, p, t, name);
      if Captured(p, t).Some? {
        CollectFirstWins(init, t, p.name);
        if p.name !in Keys(f) {
          LookupAppend(f, (p.name, Scale(Captured(p, t).value)), name);
          assert Keys(f + [(p.name, Scale(Captured(p, t).value))]) == Keys(f) + [p.name];
        }
      }
    }
  }

  /**
   * Dictionary order: the entries appear in the order in which their FIRST
   * matching pattern appears in the pattern list.
   */
  lemma {:induction false} CollectOrder(ps: seq<ScorePattern>, t: string)
    ensures forall k :: 0 <= k < |Collect(ps, t)| ==> FirstIndex(ps, t, Collect(ps, t)[k].0).Some?
    ensures forall a, b :: 0 <= a < b < |Collect(ps, t)| ==>
      FirstIndex(ps, t, Collect(ps, t)[a].0).value < FirstIndex(ps, t, Collect(ps, t)[b].0).value
    decreases |ps|
  {
    if ps != [] {
      var init, p := ps[..|ps| - 1], ps[|ps| - 1];
      assert ps == init + [p];
      var f := Collect(init, t);
      CollectOrder(init, t);
      forall k | 0 <= k < |f| ensures FirstIndex(ps, t, f[k].0) == FirstIndex(init, t, f[k].0) {
        FirstIndexAppend(init, p, t, f[k].0);
      }
      if Captured(p, t).Some? && p.name !in Keys(f) {
        CollectFirstWins(init, t, p.name);
        FirstIndexAppend(init, p, t, p.name);
        var e := (p.name, Scale(Captured(p, t).value));
        assert Collect(ps, t) == f + [e];
        forall k | 0 <= k < |f| ensures FirstIndex(ps, t, f[k].0).value < |init| {
          assert FirstIndex(init, t, f[k].0).Some?;
        }
        CollectOrderAppended(ps, t, f, e, |init|);
      }
    }
  }

  /** The step of `CollectOrder` where the last pattern adds a new name `e.0` at the end. */
  lemma CollectOrderAppended(ps: seq<ScorePattern>, t: string, f: Found, e: (string, real), n: nat)
    requires FirstIndex(ps, t, e.0) == Some(n)
    requires forall k :: 0 <= k < |f| ==> FirstIndex(ps, t, f[k].0).Some? && FirstIndex(ps, t, f[k].0).value < n
    requires forall a, b :: 0 <= a < b < |f| ==>
      FirstIndex(ps, t, f[a].0).value < FirstIndex(ps, t, f[b].0).value
    ensures forall k :: 0 <= k < |f + [e]| ==> FirstIndex(ps, t, (f + [e])[k].0).Some?
    ensures forall a, b :: 0 <= a < b < |f + [e]| ==>
      FirstIndex(ps, t, (f + [e])[a].0).value < FirstIndex(ps, t, (f + [e])[b].0).value
  {
    var g := f + [e];
    forall k | 0 <= k < |g| ensures FirstIndex(ps, t, g[k].0).Some? {
      if k < |f| {
        assert g[k] == f[k];
      }
    }
    forall a, b | 0 <= a < b < |g|
      ensures FirstIndex(ps, t, g[a].0).value < FirstIndex(ps, t, g[b].0).value
    {
      assert g[a] == f[a];
      if b < |f| {
        assert g[b] == f[b];
      }
    }
  }

  lemma {:induction false} PutAbsent(f: Found, name: string, v: real)
    requires name !in Keys(f)
    ensures Put(f, name, v) == f + [(name, v)]
  {
    if f != [] {
      assert Keys(f)[1..] == Keys(f[1..]);
      PutAbsent(f[1..], name, v);
    }
  }

  function Names(ps: seq<ScorePattern>): set<string> {
    set p | p in ps :: p.name
  }

  lemma {:induction false} CollectKeysFromPatterns(ps: seq<ScorePattern>, t: string)
    ensures forall k :: 0 <= k < |Collect(ps, t)| ==> Collect(ps, t)[k].0 in Names(ps)
    decreases |ps|
  {
    if ps != [] {
      var init, p := ps[..|ps| - 1], ps[|ps| - 1];
      assert ps == init + [p];
      CollectKeysFromPatterns(init, t);
      assert Names(ps) == Names(init) + {p.name};
    }
  }

  /**
   * When no two patterns share a name, overwriting (`found[name] = score`)
   * and first-wins (`if name not in found`) fill the same dictionary.
   */
  lemma {:induction false} OverwriteIsFirstWins(ps: seq<ScorePattern>, t: string)
    requires forall i, j :: 0 <= i < j < |ps| ==> ps[i].name != ps[j].name
    ensures CollectPut(ps, t) == Collect(ps, t)
    decreases |ps|
  {
    if ps != [] {
      var init, p := ps[..|ps| - 1], ps[|ps| - 1];
      OverwriteIsFirstWins(init, t);
      if Captured(p, t).Some? {
        var f := Collect(init, t);
        CollectKeysFromPatterns(init, t);
        assert forall j :: 0 <= j < |init| ==> init[j].name != p.name;
        assert p.name !in Names(init);
        PutAbsent(f, p.name, Scale(Captured(p, t).value));
      }
    }
  }

  // ---------------------------------------------------------------------
  // The second half: criteria and the overall score.
  // ---------------------------------------------------------------------

  /** `n` copies of `x` added up: `n * x` without a product, so the sum bounds stay linear. */
  function Times(n: nat, x: real): real {
    if n == 0 then 0.0 else x + Times(n - 1, x)
  }

  lemma {:induction false} TimesIsProduct(n: nat, x: real)
    ensures Times(n, x) == n as real * x
  {
    if n > 0 {
      TimesIsProduct(n - 1, x);
      assert n as real * x == (n - 1) as real * x + x;
    }
  }

  lemma {:induction false} SumAtLeast(cs: seq<CriteriaScore>, lo: real)
    requires forall k :: 0 <= k < |cs| ==> lo <= cs[k].score
    ensures Times(|cs|, lo) <= Sum(cs)
  {
    if cs != [] {
      SumAtLeast(cs[1..], lo);
    }
  }

  lemma {:induction false} SumAtMost(cs: seq<CriteriaScore>, hi: real)
    requires forall k :: 0 <= k < |cs| ==> cs[k].score <= hi
    ensures Sum(cs) <= Times(|cs|, hi)
  {
    if cs != [] {
      SumAtMost(cs[1..], hi);
    }
  }

  /** A quotient by a positive count lies between the bounds its numerator is a multiple of. */
  lemma DivideBounds(s: real, n: real, lo: real, hi: real)
    requires n > 0.0 && n * lo <= s <= n * hi
    ensures lo <= s / n <= hi
  {
    assert s / n - lo == (s - n * lo) / n;
    assert hi - s / n == (n * hi - s) / n;
  }

  /** A sum of `n` values between `lo` and `hi`, divided by `n`, lies between them too. */
  lemma QuotientBounds(s: real, n: nat, lo: real, hi: real)
    requires n > 0 && Times(n, lo) <= s <= Times(n, hi)
    ensures lo <= s / n as real <= hi
  {
    TimesIsProduct(n, lo);
    TimesIsProduct(n, hi);
    DivideBounds(s, n as real, lo, hi);
  }

  /** The mean lies between the smallest and the largest criterion score. */
  lemma MeanBounds(cs: seq<CriteriaScore>, lo: real, hi: real)
    requires cs != [] && forall c :: c in cs ==> lo <= c.score <= hi
    ensures lo <= Mean(cs) <= hi
  {
    forall k | 0 <= k < |cs| ensures lo <= cs[k].score <= hi {
      assert cs[k] in cs;
    }
    SumAtLeast(cs, lo);
    SumAtMost(cs, hi);
    QuotientBounds(Sum(cs), |cs|, lo, hi);
  }

  /**
   * What the second half returns: "overall" is never a criterion; every other
   * entry becomes one criterion, in order, passed at 6.0 with an empty
   * explanation; the overall score is the "overall" entry unless that is
   * absent or zero, in which case it is the criteria's mean (0.0 with none).
   */
  lemma {:induction false} FinishMeaning(f: Found)
    ensures var (criteria, overall) := Finish(f);
      (forall c :: c in criteria ==> c.name != "overall" && c.explanation == "" && (c.passed <==> c.score >= 6.0)) &&
      (forall e :: e in f && e.0 != "overall" ==> Criterion(e.0, e.1, "") in criteria) &&
      (Lookup(f, "overall").Some? && Lookup(f, "overall").value != 0.0 ==> overall == Lookup(f, "overall").value) &&
      ((Lookup(f, "overall").None? || Lookup(f, "overall").value == 0.0) ==>
        overall == if criteria == [] then 0.0 else Mean(criteria))
  {
    var rest := Remove(f, "overall");
    var criteria := ToCriteria(rest);
    forall e | e in f && e.0 != "overall" ensures Criterion(e.0, e.1, "") in criteria {
      var k :| 0 <= k < |rest| && rest[k] == e;
      assert criteria[k] == Criterion(e.0, e.1, "");
    }
    forall c | c in criteria ensures c.name != "overall" {
      var k :| 0 <= k < |criteria| && criteria[k] == c;
      assert rest[k] in rest;
    }
  }

  /** With no match at all the parser returns no criteria and 0.0, and does not fail. */
  lemma NothingFound(ps: seq<ScorePattern>, t: string)
    requires forall p :: p in ps ==> Captured(p, t) == None
    ensures Extract(ps, t) == ([], 0.0)
  {
    assert Collect(ps, t) == [] by {
      NothingCollected(ps, t);
    }
  }

  lemma {:induction false} NothingCollected(ps: seq<ScorePattern>, t: string)
    requires forall p :: p in ps ==> Captured(p, t) == None
    ensures Collect(ps, t) == []
    decreases |ps|
  {
    if ps != [] {
      var init := ps[..|ps| - 1];
      assert forall p :: p in init ==> p in ps;
      assert ps[|ps| - 1] in ps;
      NothingCollected(init, t);
    }
  }

  // ---------------------------------------------------------------------
  // What the whole parser returns, in terms of the reference definitions.
  // ---------------------------------------------------------------------

  lemma {:induction false} LookupDistinct(f: Found, e: (string, real))
    requires DistinctKeys(f) && e in f
    ensures Lookup(f, e.0) == Some(e.1)
  {
    if f[0] != e {
      assert e in f[1..];
      var k :| 1 <= k < |f| && f[k] == e;
      assert f[0].0 != e.0;
      LookupDistinct(f[1..], e);
    }
  }

  lemma {:induction false} LookupPresent(f: Found, name: string)
    requires Lookup(f, name).Some?
    ensures (name, Lookup(f, name).value) in f
  {
    if f[0].0 != name {
      LookupPresent(f[1..], name);
    }
  }

  /** `Remove` keeps the surviving entries in their relative order. */
  lemma {:induction false} RemoveKeepsOrder(f: Found, name: string, before: ((string, real), (string, real)) -> bool)
    requires forall a, b :: 0 <= a < b < |f| ==> before(f[a], f[b])
    ensures forall a, b :: 0 <= a < b < |Remove(f, name)| ==> before(Remove(f, name)[a], Remove(f, name)[b])
  {
    if f != [] {
      RemoveKeepsOrder(f[1..], name, before);
      var r := Remove(f[1..], name);
      assert forall e :: e in r ==> e in f[1..];
      assert forall e :: e in f[1..] ==> before(f[0], e);
    }
  }

  /**
   * A criterion other than "overall" is present exactly when some pattern of
   * its name matches, and then carries the first such pattern's score.
   */
  lemma CriterionPresent(ps: seq<ScorePattern>, t: string, name: string)
    requires name != "overall"
    ensures (exists c :: c in Extract(ps, t).0 && c.name == name) <==> FirstScore(ps, t, name).Some?
    ensures forall c :: c in Extract(ps, t).0 && c.name == name ==>
      c == Criterion(name, FirstScore(ps, t, name).value, "")
  {
    var f := Collect(ps, t);
    var cs := Extract(ps, t).0;
    CollectFirstWins(ps, t, name);
    FinishMeaning(f);
    var rest := Remove(f, "overall");
    forall c | c in cs && c.name == name
      ensures c == Criterion(name, FirstScore(ps, t, name).value, "")
    {
      var k :| 0 <= k < |cs| && cs[k] == c;
      assert rest[k] in rest;
      LookupDistinct(f, rest[k]);
    }
    if FirstScore(ps, t, name).Some? {
      LookupPresent(f, name);
    }
  }

  /** The overall score: the first "overall" score if it is non-zero, else the criteria's mean, else 0.0. */
  lemma OverallScore(ps: seq<ScorePattern>, t: string)
    ensures var (criteria, overall) := Extract(ps, t);
      var v := FirstScore(ps, t, "overall");
      (v.Some? && v.value != 0.0 ==> overall == v.value) &&
      ((v.None? || v.value == 0.0) ==> overall == if criteria == [] then 0.0 else Mean(criteria))
  {
    CollectFirstWins(ps, t, "overall");
    FinishMeaning(Collect(ps, t));
  }

  /**
   * Patterns grouped by criterion: along the list the rank never goes down,
   * and two neighbours share a rank only when they fill the same criterion.
   */
  predicate Grouped(ps: seq<ScorePattern>, rank: string -> nat) {
    forall i :: 0 <= i < |ps| - 1 ==>
      rank(ps[i].name) <= rank(ps[i + 1].name) &&
      (rank(ps[i].name) == rank(ps[i + 1].name) ==> ps[i].name == ps[i + 1].name)
  }

  lemma {:induction false} GroupedChain(ps: seq<ScorePattern>, rank: string -> nat, i: nat, j: nat)
    requires Grouped(ps, rank) && i <= j < |ps|
    ensures rank(ps[i].name) <= rank(ps[j].name)
    ensures rank(ps[i].name) == rank(ps[j].name) ==> ps[i].name == ps[j].name
    decreases j - i
  {
    if i < j {
      GroupedChain(ps, rank, i + 1, j);
    }
  }

  /**
   * When the patterns come grouped by criterion, the criteria come out in
   * group order, each name once.
   */
  lemma CriteriaInRankOrder(ps: seq<ScorePattern>, t: string, rank: string -> nat)
    requires Grouped(ps, rank)
    ensures var cs := Extract(ps, t).0;
      (forall k :: 0 <= k < |cs| ==> cs[k].name in Names(ps)) &&
      (forall a, b :: 0 <= a < b < |cs| ==> rank(cs[a].name) < rank(cs[b].name))
  {
    var f := Collect(ps, t);
    CollectOrder(ps, t);
    CollectFirstWins(ps, t, "");
    CollectKeysFromPatterns(ps, t);
    var before := (x: (string, real), y: (string, real)) => rank(x.0) < rank(y.0);
    forall a, b | 0 <= a < b < |f| ensures before(f[a], f[b]) {
      var ja := FirstIndex(ps, t, f[a].0).value;
      var jb := FirstIndex(ps, t, f[b].0).value;
      GroupedChain(ps, rank, ja, jb);
      assert rank(f[a].0) <= rank(f[b].0);
    }
    RemoveKeepsOrder(f, "overall", before);
    var rest := Remove(f, "overall");
    forall k | 0 <= k < |rest| ensures rest[k].0 in Names(ps) {
      assert rest[k] in f;
    }
  }

  /** The criteria the SmolVLM and MobileVLM parsers know, in their list order; anything else last. */
  function Rank(name: string): nat {
    if name == "color" then 0 else if name == "layout" then 1 else if name == "typography" then 2 else 3
  }

  lemma RankedCriteria(ps: seq<ScorePattern>, text: string)
    requires Grouped(ps, Rank)
    requires forall i :: 0 <= i < |ps| ==> ps[i].name in ["color", "layout", "typography", "overall"]
    ensures var cs := Extract(ps, text).0;
      (forall k :: 0 <= k < |cs| ==> cs[k].name in ["color", "layout", "typography"]) &&
      (forall a, b :: 0 <= a < b < |cs| ==> Rank(cs[a].name) < Rank(cs[b].name))
  {
    CriteriaInRankOrder(ps, text, Rank);
    FinishMeaning(Collect(ps, text));
    var cs := Extract(ps, text).0;
    forall k | 0 <= k < |cs| ensures cs[k].name in ["color", "layout", "typography"] {
      assert cs[k] in cs;
      var p :| p in ps && p.name == cs[k].name;
      var i :| 0 <= i < |ps| && ps[i] == p;
    }
  }
}
