/** When the Bradley-Terry engine stops asking (lib/bradleyTerry.ts,
    shouldStop and its helpers), how consistent the answers were, how
    confident the ranking is, and the final ranking. The cycle ratio
    `cycleCount / used` and the other quotients are exact reals. */
module Stopping {
  import opened Common
  import opened Ranking
  import opened KendallTau
  import opened BradleyTerry

  const WindowSize: nat := 5
  const TopKCritical: nat := 5
  const LikelihoodEpsilon: real := 0.02
  const SigmaTop5: real := 0.35
  const SigmaTop11: real := 0.5
  const InconsistencyThreshold: real := 0.1
  const MaxComparisonsExtension: real := 1.5

  /** The share of comparisons that closed a cycle; 0 before the first one. */
  function CycleRatio(s: State): (r: real)
    ensures r >= 0.0
  {
    if s.used > 0 then s.cycleCount as real / s.used as real else 0.0
  }

  /** `x / u` lies below `t * 1` exactly when `x` lies below `t * u`. */
  lemma RatioBelow(x: real, u: real, t: real)
    requires u > 0.0
    ensures x / u < t <==> x < t * u
    ensures x / u > t <==> x > t * u
  {
    assert x == (x / u) * u;
    if x / u < t {
      assert (t - x / u) * u > 0.0;
    }
    if x / u > t {
      assert (x / u - t) * u > 0.0;
    }
    if x < t * u {
      assert (t - x / u) * u == t * u - x;
    }
    if x > t * u {
      assert (x / u - t) * u == x - t * u;
    }
  }

  /** hasExtendedComparisons: more than one comparison in ten closed a cycle. */
  function HasExtended(s: State): (r: bool)
    ensures r ==> s.used > 0 && s.cycleCount > 0
  {
    CycleRatio(s) > InconsistencyThreshold
  }

  /** getExtendedMaxComparisons: the maximum, raised by half (rounded down)
      for an inconsistent user. */
  function ExtendedMax(s: State): (r: int)
    ensures r >= s.maxComparisons
  {
    if HasExtended(s) then (s.maxComparisons as real * MaxComparisonsExtension).Floor
    else s.maxComparisons
  }

  /** The extension in whole numbers: more than one cycle per ten
      comparisons, and then `3 max / 2` rounded down, which exceeds the
      maximum exactly when the maximum is at least 2. */
  lemma ExtendedMaxByCounts(s: State)
    ensures HasExtended(s) <==> s.used > 0 && 10 * s.cycleCount > s.used
    ensures ExtendedMax(s) == if HasExtended(s) then (3 * s.maxComparisons) / 2 else s.maxComparisons
    ensures ExtendedMax(s) >= s.maxComparisons
    ensures ExtendedMax(s) > s.maxComparisons <==> HasExtended(s) && s.maxComparisons >= 2
  {
    if s.used > 0 {
      RatioBelow(s.cycleCount as real, s.used as real, InconsistencyThreshold);
    }
    var n := s.maxComparisons;
    var q := (3 * n) / 2;
    assert 3 * n == 2 * q + (3 * n) % 2;
    assert (n as real * MaxComparisonsExtension) == (3 * n) as real / 2.0;
    assert q as real <= (3 * n) as real / 2.0 < q as real + 1.0;
  }

  datatype Level = Consistent | SomeInconsistency | Inconsistent

  /** getInconsistencyLevel: below 5% of cycles consistent, below 15% some
      inconsistency, otherwise inconsistent. */
  function InconsistencyLevel(s: State): (r: Level)
    ensures r == Consistent ==> !HasExtended(s)
    ensures r == Inconsistent ==> HasExtended(s)
  {
    var ratio := CycleRatio(s);
    if ratio < 0.05 then Consistent
    else if ratio < 0.15 then SomeInconsistency
    else Inconsistent
  }

  /** The levels in whole numbers of cycles per comparison; a user whose
      comparisons are extended is never called consistent. */
  lemma LevelByCounts(s: State)
    ensures InconsistencyLevel(s) == Consistent <==> s.used == 0 || 20 * s.cycleCount < s.used
    ensures InconsistencyLevel(s) == SomeInconsistency <==>
              s.used > 0 && s.used <= 20 * s.cycleCount && 20 * s.cycleCount < 3 * s.used
    ensures InconsistencyLevel(s) == Inconsistent <==> s.used > 0 && 20 * s.cycleCount >= 3 * s.used
    ensures HasExtended(s) ==> InconsistencyLevel(s) != Consistent
  {
    if s.used > 0 {
      var c, u := s.cycleCount as real, s.used as real;
      RatioBelow(c, u, 0.05);
      RatioBelow(c, u, 0.15);
      RatioBelow(c, u, InconsistencyThreshold);
    }
  }

  /** `values.reduce((a, b) => a + b, 0)`. */
  function RealSum(xs: seq<real>): real {
    if xs == [] then 0.0 else RealSum(xs[..|xs| - 1]) + xs[|xs| - 1]
  }

  /** `values.reduce((sum, v) => sum + (v - mean) ** 2, 0)`. */
  function Deviations(xs: seq<real>, mean: real): (d: real)
    ensures d >= 0.0
  {
    if xs == [] then 0.0
    else
      var x := xs[|xs| - 1];
      Square(x - mean);
      Deviations(xs[..|xs| - 1], mean) + (x - mean) * (x - mean)
  }

  lemma Square(x: real)
    ensures x * x >= 0.0
  {
    if x < 0.0 {
      assert x * x == (-x) * (-x);
    }
  }

  /** calculateWindowVariance with a window of 5: the variance of the last
      five values, `None` standing for the `Infinity` of a shorter history. */
  function WindowVariance(values: seq<real>): (v: Option<real>)
    ensures v.None? <==> |values| < WindowSize
    ensures v.Some? ==> v.value >= 0.0
  {
    if |values| < WindowSize then None
    else
      var recent := values[|values| - WindowSize..];
      var mean := RealSum(recent) / |recent| as real;
      Some(Deviations(recent, mean) / |recent| as real)
  }

  /** A constant run of values has the constant as its sum per entry. */
  lemma {:induction false} SumOfConstant(xs: seq<real>, c: real)
    requires forall k :: 0 <= k < |xs| ==> xs[k] == c
    ensures RealSum(xs) == |xs| as real * c
  {
    if xs != [] {
      SumOfConstant(xs[..|xs| - 1], c);
    }
  }

  /** A constant run of values does not deviate from its own value. */
  lemma {:induction false} NoDeviation(xs: seq<real>, c: real)
    requires forall k :: 0 <= k < |xs| ==> xs[k] == c
    ensures Deviations(xs, c) == 0.0
  {
    if xs != [] {
      NoDeviation(xs[..|xs| - 1], c);
    }
  }

  /** A likelihood that has not moved over the last five steps has variance 0. */
  lemma SteadyWindow(values: seq<real>, c: real)
    requires |values| >= WindowSize
    requires forall k :: |values| - WindowSize <= k < |values| ==> values[k] == c
    ensures WindowVariance(values) == Some(0.0)
  {
    var recent := values[|values| - WindowSize..];
    SumOfConstant(recent, c);
    NoDeviation(recent, c);
  }

  /** `Math.max(...ids.map((id) => sigma[id]))`, with `None` for the
      `-Infinity` of an empty list. */
  function MaxSigma(ids: seq<string>, sigma: map<string, real>): Option<real>
    requires forall k :: 0 <= k < |ids| ==> ids[k] in sigma
  {
    if ids == [] then None
    else
      var rest := MaxSigma(ids[..|ids| - 1], sigma);
      var x := sigma[ids[|ids| - 1]];
      if rest.None? || x > rest.value then Some(x) else rest
  }

  /** The test `max < t`, which `-Infinity` passes. */
  predicate Below(mx: Option<real>, t: real) {
    mx.None? || mx.value < t
  }

  /** The largest uncertainty is below `t` exactly when every one is. */
  lemma {:induction false} MaxSigmaBelow(ids: seq<string>, sigma: map<string, real>, t: real)
    requires forall k :: 0 <= k < |ids| ==> ids[k] in sigma
    ensures Below(MaxSigma(ids, sigma), t) <==> forall k :: 0 <= k < |ids| ==> sigma[ids[k]] < t
  {
    if ids != [] {
      var before := ids[..|ids| - 1];
      MaxSigmaBelow(before, sigma, t);
      assert forall k :: 0 <= k < |before| ==> before[k] == ids[k];
    }
  }

  /** The ids the ranking takes its top from are all ranked ones. */
  lemma TopKIsRated(s: State, k: nat)
    requires Rated(s)
    ensures Scored(s.allCardIds, s.mu)
    ensures var top := TopK(s.mu, s.allCardIds, k);
            forall i :: 0 <= i < |top| ==> top[i] in s.allCardIds && top[i] in s.sigma
  {
    assert Scored(s.allCardIds, s.mu);
    var ranked := SortByStrength(s.allCardIds, s.mu);
    var top := TopK(s.mu, s.allCardIds, k);
    forall i | 0 <= i < |top|
      ensures top[i] in s.allCardIds && top[i] in s.sigma
    {
      assert top[i] == ranked[i];
      assert ranked[i] in multiset(ranked);
    }
  }

  /** `s.slice(0, k)`. */
  function Prefix(s: seq<string>, k: nat): (p: seq<string>)
    ensures p <= s && |p| == if k < |s| then k else |s|
  {
    s[..if k < |s| then k else |s|]
  }

  /** `current.slice(0, 3).every((id, idx) => past[idx] === id)`. */
  predicate Top3Stable(current: seq<string>, past: seq<string>) {
    forall i :: 0 <= i < |Prefix(current, 3)| ==> i < |past| && past[i] == current[i]
  }

  /** The kendall tau threshold: 0.8 for an inconsistent user, 0.9 otherwise. */
  function TauThreshold(inconsistent: bool): real {
    if inconsistent then 0.8 else 0.9
  }

  /** shouldStop: never below the minimum, always at the (extended)
      maximum, and in between only once the likelihood has settled over the
      window, the top 5 and top 11 are sure enough, the top 3 match those of
      five steps before and the top 11 agree with them by Kendall's tau;
      an inconsistent user must also have the last three rankings agree. */
  function ShouldStop(s: State): (r: bool)
    requires Rated(s)
    ensures s.used < s.minComparisons ==> !r
    ensures s.minComparisons <= s.used && ExtendedMax(s) <= s.used ==> r
  {
    if s.used < s.minComparisons then false
    else if s.used >= ExtendedMax(s) then true
    else if |s.likelihoodHistory| < WindowSize + 1 then false
    else if |s.rankHistory| < WindowSize + 1 then false
    else
      var inconsistent := HasExtended(s);
      var variance := WindowVariance(s.likelihoodHistory);
      TopKIsRated(s, TopKCritical);
      TopKIsRated(s, TopKImportant);
      if !(variance.Some? && variance.value < LikelihoodEpsilon * LikelihoodEpsilon) then false
      else if !Below(MaxSigma(TopK(s.mu, s.allCardIds, TopKCritical), s.sigma), SigmaTop5) then false
      else if !Below(MaxSigma(TopK(s.mu, s.allCardIds, TopKImportant), s.sigma), SigmaTop11) then false
      else
        var current := s.rankHistory[|s.rankHistory| - 1];
        var past := s.rankHistory[|s.rankHistory| - WindowSize - 1];
        if !Top3Stable(current, past) then false
        else if Tau(Prefix(current, TopKImportant), Prefix(past, TopKImportant)) < TauThreshold(inconsistent) then false
        else if inconsistent then
          var recent := s.rankHistory[|s.rankHistory| - 3..];
          Tau(Prefix(recent[0], TopKImportant), Prefix(recent[1], TopKImportant)) >= 0.85 &&
          Tau(Prefix(recent[1], TopKImportant), Prefix(recent[2], TopKImportant)) >= 0.85
        else true
  }

  /** What an early stop guarantees: six entries of history, a settled
      likelihood, every top-5 uncertainty below 0.35 and every top-11 one
      below 0.5, the same top 3 as five steps before, and a tau of at least
      0.8 against that ranking. */
  lemma EarlyStopIsSettled(s: State)
    requires Rated(s) && ShouldStop(s) && s.used < ExtendedMax(s)
    ensures |s.likelihoodHistory| > WindowSize && |s.rankHistory| > WindowSize
    ensures var v := WindowVariance(s.likelihoodHistory); v.Some? && v.value < 0.0004
    ensures var top5 := TopK(s.mu, s.allCardIds, TopKCritical);
            forall i :: 0 <= i < |top5| ==> top5[i] in s.sigma && s.sigma[top5[i]] < SigmaTop5
    ensures var top11 := TopK(s.mu, s.allCardIds, TopKImportant);
            forall i :: 0 <= i < |top11| ==> top11[i] in s.sigma && s.sigma[top11[i]] < SigmaTop11
    ensures var current, past := s.rankHistory[|s.rankHistory| - 1], s.rankHistory[|s.rankHistory| - 6];
            Top3Stable(current, past) &&
            Tau(Prefix(current, TopKImportant), Prefix(past, TopKImportant)) >= 0.8
  {
    TopKIsRated(s, TopKCritical);
    TopKIsRated(s, TopKImportant);
    MaxSigmaBelow(TopK(s.mu, s.allCardIds, TopKCritical), s.sigma, SigmaTop5);
    MaxSigmaBelow(TopK(s.mu, s.allCardIds, TopKImportant), s.sigma, SigmaTop11);
  }

  /** A prefix of a list without duplicates has none. */
  lemma PrefixDistinct(s: seq<string>, k: nat)
    requires Distinct(s)
    ensures Distinct(Prefix(s, k))
  {
  }

  /** A settled run stops early: a consistent user, a likelihood unchanged
      over the window, every top-11 uncertainty below 0.35, and the same
      ranking of two or more distinct cards at the last six steps. */
  lemma SteadyRunStops(s: State, r: seq<string>, ll: real)
    requires Rated(s) && s.minComparisons <= s.used && !HasExtended(s)
    requires Distinct(r) && |r| >= 2
    requires |s.likelihoodHistory| > WindowSize && |s.rankHistory| > WindowSize
    requires forall k :: |s.likelihoodHistory| - WindowSize <= k < |s.likelihoodHistory| ==> s.likelihoodHistory[k] == ll
    requires s.rankHistory[|s.rankHistory| - 1] == r && s.rankHistory[|s.rankHistory| - 6] == r
    requires forall id :: id in s.allCardIds ==> id in s.sigma && s.sigma[id] < SigmaTop5
    ensures ShouldStop(s)
  {
    SteadyWindow(s.likelihoodHistory, ll);
    TopKIsRated(s, TopKCritical);
    TopKIsRated(s, TopKImportant);
    MaxSigmaBelow(TopK(s.mu, s.allCardIds, TopKCritical), s.sigma, SigmaTop5);
    MaxSigmaBelow(TopK(s.mu, s.allCardIds, TopKImportant), s.sigma, SigmaTop11);
    var p := Prefix(r, TopKImportant);
    PrefixDistinct(r, TopKImportant);
    TauOfItself(p);
  }

  /** The three numbers getConfidenceInfo reports. */
  datatype Confidence = Confidence(top5: real, top11: real, overall: real)

  function Clamp(x: real): (c: real)
    ensures 0.0 <= c <= 1.0
    ensures 0.0 <= x <= 1.0 ==> c == x
  {
    if x < 0.0 then 0.0 else if x > 1.0 then 1.0 else x
  }

  /** `ids.reduce((sum, id) => sum + sigma[id], 0)`. */
  function SigmaSum(ids: seq<string>, sigma: map<string, real>): real
    requires forall k :: 0 <= k < |ids| ==> ids[k] in sigma
  {
    if ids == [] then 0.0 else SigmaSum(ids[..|ids| - 1], sigma) + sigma[ids[|ids| - 1]]
  }

  /** A sum of uncertainties each below `t` is below `n t`. */
  lemma {:induction false} SigmaSumBelow(ids: seq<string>, sigma: map<string, real>, t: real)
    requires forall k :: 0 <= k < |ids| ==> ids[k] in sigma && sigma[ids[k]] < t
    ensures ids != [] ==> SigmaSum(ids, sigma) < |ids| as real * t
  {
    if |ids| > 1 {
      SigmaSumBelow(ids[..|ids| - 1], sigma, t);
    }
  }

  /** The mean uncertainty of a non-empty list. */
  function Average(ids: seq<string>, sigma: map<string, real>): real
    requires forall k :: 0 <= k < |ids| ==> ids[k] in sigma
    requires ids != []
  {
    SigmaSum(ids, sigma) / |ids| as real
  }

  /** Uncertainties each below `t` average below `t`. */
  lemma AverageBelow(ids: seq<string>, sigma: map<string, real>, t: real)
    requires forall k :: 0 <= k < |ids| ==> ids[k] in sigma && sigma[ids[k]] < t
    requires ids != []
    ensures Average(ids, sigma) < t
  {
    SigmaSumBelow(ids, sigma, t);
    RatioBelow(SigmaSum(ids, sigma), |ids| as real, t);
  }

  /** `1 - sigma / 2`, clamped to [0, 1]. */
  function SigmaConfidence(avg: real): real {
    Clamp(1.0 - avg / 2.0)
  }

  /** Confidence never rises with uncertainty; it is 1 without uncertainty
      and 0 from an uncertainty of 2 on. */
  lemma SigmaConfidenceFalls(a: real, b: real)
    ensures a <= b ==> SigmaConfidence(b) <= SigmaConfidence(a)
    ensures SigmaConfidence(a) == 1.0 <==> a <= 0.0
    ensures SigmaConfidence(a) == 0.0 <==> a >= 2.0
  {
  }

  /** The cards seen at least once: `Object.values(appearedCount).filter((c) => c > 0)`. */
  function Covered(counts: map<string, nat>): set<string> {
    set id | id in counts && counts[id] > 0
  }

  /** getConfidenceInfo: zeros before the first comparison; otherwise the
      confidence of the top 5 and of the top 11, and the overall progress. */
  function ConfidenceInfo(s: State): (c: Confidence)
    requires Rated(s) && (s.used == 0 || |s.allCardIds| > 0)
    ensures 0.0 <= c.top5 <= 1.0 && 0.0 <= c.top11 <= 1.0 && 0.0 <= c.overall <= 1.0
  {
    if s.used == 0 then Confidence(0.0, 0.0, 0.0)
    else
      TopKIsRated(s, TopKCritical);
      TopKIsRated(s, TopKImportant);
      var top5 := TopK(s.mu, s.allCardIds, TopKCritical);
      var top11 := TopK(s.mu, s.allCardIds, TopKImportant);
      var top5Confidence := SigmaConfidence(Average(top5, s.sigma));
      var top11Confidence := SigmaConfidence(Average(top11, s.sigma));
      var coverageRatio := |Covered(s.appearedCount)| as real / |s.allCardIds| as real;
      Confidence(top5Confidence, top11Confidence,
                 OverallProgress(coverageRatio, s.used, s.minComparisons, top11Confidence))
  }

  /** The overall progress: the mean of the coverage, the share of the
      minimum done and the top-11 confidence, capped at 1; a minimum of 0
      makes the share infinite and the progress 1. */
  function OverallProgress(coverage: real, used: nat, minComparisons: nat, top11: real): (p: real)
    requires 0.0 <= coverage && 0.0 <= top11
    ensures 0.0 <= p <= 1.0
  {
    if minComparisons == 0 then 1.0
    else
      var minProgressRatio := used as real / minComparisons as real;
      var progress := (coverage + minProgressRatio + top11) / 3.0;
      if progress < 1.0 then progress else 1.0
  }

  /** All figures are 0 before the first comparison, and the progress is
      complete when no minimum is set. */
  lemma ConfidenceEdgeCases(s: State)
    requires Rated(s) && (s.used == 0 || |s.allCardIds| > 0)
    ensures s.used == 0 ==> ConfidenceInfo(s) == Confidence(0.0, 0.0, 0.0)
    ensures s.used > 0 && s.minComparisons == 0 ==> ConfidenceInfo(s).overall == 1.0
  {
  }

  /** An early stop reports a confident ranking: above 0.825 for the top 5
      and above 0.75 for the top 11. */
  lemma EarlyStopIsConfident(s: State)
    requires Rated(s) && |s.allCardIds| > 0 && s.used > 0
    requires ShouldStop(s) && s.used < ExtendedMax(s)
    ensures ConfidenceInfo(s).top5 > 0.825 && ConfidenceInfo(s).top11 > 0.75
  {
    EarlyStopIsSettled(s);
    var top5 := TopK(s.mu, s.allCardIds, TopKCritical);
    var top11 := TopK(s.mu, s.allCardIds, TopKImportant);
    AverageBelow(top5, s.sigma, SigmaTop5);
    AverageBelow(top11, s.sigma, SigmaTop11);
  }

  /** getFinalRanking: every card, strongest first, a stable sort of `allCardIds`. */
  function FinalRanking(s: State): (r: seq<string>)
    requires Scored(s.allCardIds, s.mu)
    ensures multiset(r) == multiset(s.allCardIds)
  {
    SortByStrength(s.allCardIds, s.mu)
  }

  /** The final ranking is strongest first, with equal strengths in the
      order of `allCardIds`. */
  lemma FinalRankingIsSorted(s: State)
    requires Scored(s.allCardIds, s.mu)
    ensures Scored(FinalRanking(s), s.mu) && StrongestFirst(FinalRanking(s), s.mu)
    ensures forall v :: OfStrength(FinalRanking(s), s.mu, v) == OfStrength(s.allCardIds, s.mu, v)
  {
    SortIsOrdered(s.allCardIds, s.mu);
    forall v
      ensures OfStrength(FinalRanking(s), s.mu, v) == OfStrength(s.allCardIds, s.mu, v)
    {
      SortIsStable(s.allCardIds, s.mu, v);
    }
  }

  /** Any permutation of the cards that is strongest first and keeps equal
      strengths in the order of `allCardIds` is the final ranking. */
  lemma FinalRankingIsUnique(s: State, r: seq<string>)
    requires Scored(s.allCardIds, s.mu) && Scored(r, s.mu)
    requires multiset(r) == multiset(s.allCardIds) && StrongestFirst(r, s.mu)
    requires forall v :: OfStrength(r, s.mu, v) == OfStrength(s.allCardIds, s.mu, v)
    ensures r == FinalRanking(s)
  {
    SortIsUnique(s.allCardIds, r, s.mu);
  }
}
