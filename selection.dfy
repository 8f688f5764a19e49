/** Active pair selection of the Bradley-Terry engine (lib/bradleyTerry.ts):
    calculateSelectionScore and the three tiers of selectNextPair. */
module Selection {
  import opened Common
  import opened Ranking
  import opened BradleyTerry

  function Abs(x: real): real {
    if x < 0.0 then -x else x
  }

  function Min(a: nat, b: nat): nat {
    if a <= b then a else b
  }

  /** `state.appearedCount[id] ?? 0`. */
  function Appearances(s: State, id: string): nat {
    if id in s.appearedCount then s.appearedCount[id] else 0
  }

  /** The bonus of a card among the 11 strongest. */
  function TopBonus(s: State, id: string): (b: real)
    requires Scored(s.allCardIds, s.mu)
    ensures b == 1.0 || b == 1.5
  {
    if id in TopK(s.mu, s.allCardIds, TopKImportant) then 1.5 else 1.0
  }

  /** `1 - 2 |p - 0.5|`: 1 for an even match, towards 0 for a foregone one. */
  function Closeness(p: real): (c: real)
    requires 0.0 < p < 1.0
    ensures 0.0 < c <= 1.0
    ensures c == 1.0 <==> p == 0.5
  {
    1.0 - 2.0 * Abs(p - 0.5)
  }

  /** `1 / (1 + 0.1 n)`: the bonus of a pair whose less seen card has `n` appearances. */
  function CoverageBonus(n: nat): (b: real)
    ensures 0.0 < b <= 1.0
    ensures b == 1.0 <==> n == 0
  {
    1.0 / (1.0 + n as real * 0.1)
  }

  /** calculateSelectionScore: how much the comparison of `i` and `j` is
      worth: the closeness of the match, times the two uncertainties, times
      1.5 for each of the two among the 11 strongest, divided by one tenth
      more per appearance of the less seen of the two. With some uncertainty
      left, the score is positive and at most 2.25 times the summed sigmas. */
  function Score(m: Numerics, s: State, i: string, j: string): (r: real)
    requires Lawful(m) && Scored(s.allCardIds, s.mu)
    requires i in s.mu && j in s.mu && i in s.sigma && j in s.sigma
    ensures s.sigma[i] + s.sigma[j] > 0.0 ==> 0.0 < r <= 2.25 * (s.sigma[i] + s.sigma[j])
  {
    var uncertainty := Closeness(Probability(m, s.mu[i], s.mu[j]));
    var combinedSigma := s.sigma[i] + s.sigma[j];
    var topBonus := TopBonus(s, i) * TopBonus(s, j);
    var coverageBonus := CoverageBonus(Min(Appearances(s, i), Appearances(s, j)));
    var w := Weight(uncertainty, combinedSigma, topBonus, coverageBonus);
    if combinedSigma > 0.0 then
      BonusProduct(TopBonus(s, i), TopBonus(s, j));
      Factors(uncertainty, combinedSigma, topBonus, coverageBonus, w);
      w
    else w
  }

  /** The product of the four factors of a pair's score. */
  function Weight(uncertainty: real, combinedSigma: real, topBonus: real, coverageBonus: real): real {
    uncertainty * combinedSigma * topBonus * coverageBonus
  }

  /** The score does not depend on the order of the two cards, which is why
      only the pairs i < j are tried. */
  lemma ScoreSymmetric(m: Numerics, s: State, i: string, j: string)
    requires Lawful(m) && Scored(s.allCardIds, s.mu)
    requires i in s.mu && j in s.mu && i in s.sigma && j in s.sigma
    ensures Score(m, s, i, j) == Score(m, s, j, i)
  {
    ProbabilityComplement(m, s.mu[i], s.mu[j]);
    var u := Closeness(Probability(m, s.mu[i], s.mu[j]));
    assert Closeness(Probability(m, s.mu[j], s.mu[i])) == u;
    var sigma := s.sigma[i] + s.sigma[j];
    var top := TopBonus(s, i) * TopBonus(s, j);
    assert TopBonus(s, j) * TopBonus(s, i) == top;
    assert s.sigma[j] + s.sigma[i] == sigma;
    assert Min(Appearances(s, j), Appearances(s, i)) == Min(Appearances(s, i), Appearances(s, j));
  }

  /** Two bonuses of 1 or 1.5 multiply to at most 2.25. */
  lemma BonusProduct(x: real, y: real)
    requires x == 1.0 || x == 1.5
    requires y == 1.0 || y == 1.5
    ensures 1.0 <= x * y <= 2.25
  {
  }

  /** The four factors of a score, and their bounds. */
  lemma Factors(a: real, b: real, c: real, d: real, r: real)
    requires 0.0 < a <= 1.0 && 0.0 < b && 1.0 <= c <= 2.25 && 0.0 < d <= 1.0
    requires r == Weight(a, b, c, d)
    ensures 0.0 < r <= 2.25 * b
  {
    var ab := a * b;
    Shrinks(a, b);
    var abc := ab * c;
    Grows(ab, c, b);
    assert r == d * abc;
    Shrinks(d, abc);
    assert 0.0 < d * abc <= abc;
    assert abc <= 2.25 * b;
    assert 0.0 < r;
  }

  /** A factor in (0, 1] does not enlarge a positive number. */
  lemma Shrinks(a: real, b: real)
    requires 0.0 < a <= 1.0 && 0.0 < b
    ensures 0.0 < a * b <= b
  {
    assert b - a * b == (1.0 - a) * b;
  }

  /** A factor in [1, 2.25] keeps a number in (0, b] below 2.25 b. */
  lemma Grows(x: real, c: real, b: real)
    requires 0.0 < x <= b && 1.0 <= c <= 2.25
    ensures 0.0 < x * c <= 2.25 * b
  {
    assert 2.25 * b - x * c == (2.25 - c) * b + c * (b - x);
    assert (2.25 - c) * b >= 0.0;
    assert c * (b - x) >= 0.0;
  }

  /** The cards whose count is exactly 0, in the order of `ids`. */
  function Uncovered(ids: seq<string>, counts: map<string, nat>): (r: seq<string>)
    ensures |r| <= |ids|
    ensures forall id :: id in r <==> id in ids && id in counts && counts[id] == 0
    ensures Distinct(ids) ==> Distinct(r)
  {
    if ids == [] then []
    else
      var id := ids[|ids| - 1];
      assert forall x :: x in ids <==> x in ids[..|ids| - 1] || x == id;
      Uncovered(ids[..|ids| - 1], counts) + if id in counts && counts[id] == 0 then [id] else []
  }

  /** `allCardIds.find((id) => id !== uncovered)`. */
  function FirstOther(ids: seq<string>, u: string): (r: Option<string>)
    ensures r.None? <==> forall k :: 0 <= k < |ids| ==> ids[k] == u
    ensures r.Some? ==> r.value in ids && r.value != u
  {
    if ids == [] then None
    else if ids[0] != u then Some(ids[0])
    else
      var r := FirstOther(ids[1..], u);
      assert forall k :: 1 <= k < |ids| ==> ids[k] == ids[1..][k - 1];
      r
  }

  /** The card other than `u` of largest uncertainty, the first of them on a tie. */
  function BestPartnerOf(ids: seq<string>, sigma: map<string, real>, u: string): (r: Option<string>)
    requires Scored(ids, sigma)
    ensures r.Some? ==> r.value in ids && r.value != u
  {
    if ids == [] then None
    else
      var best := BestPartnerOf(ids[..|ids| - 1], sigma, u);
      var id := ids[|ids| - 1];
      if id == u then best
      else if best.None? || sigma[id] > sigma[best.value] then Some(id)
      else best
  }

  /** The partner exists exactly when some card is not `u`; it is at least
      as uncertain as every other card, and strictly more than every card
      before it. */
  lemma {:induction false} BestPartnerIsBest(ids: seq<string>, sigma: map<string, real>, u: string)
    requires Scored(ids, sigma)
    ensures BestPartnerOf(ids, sigma, u).None? <==> forall k :: 0 <= k < |ids| ==> ids[k] == u
    ensures BestPartnerOf(ids, sigma, u).Some? ==>
              var b := BestPartnerOf(ids, sigma, u).value;
              (forall k :: 0 <= k < |ids| && ids[k] != u ==> sigma[ids[k]] <= sigma[b]) &&
              exists i :: 0 <= i < |ids| && ids[i] == b &&
                forall k :: 0 <= k < i && ids[k] != u ==> sigma[ids[k]] < sigma[b]
  {
    if ids != [] {
      var before := ids[..|ids| - 1];
      BestPartnerIsBest(before, sigma, u);
      var best := BestPartnerOf(before, sigma, u);
      var id := ids[|ids| - 1];
      assert forall k :: 0 <= k < |before| ==> ids[k] == before[k];
      if id != u && (best.None? || sigma[id] > sigma[best.value]) {
        assert ids[|ids| - 1] == id;
      } else if best.Some? {
        var i :| 0 <= i < |before| && before[i] == best.value &&
                 forall k :: 0 <= k < i && before[k] != u ==> sigma[before[k]] < sigma[best.value];
        assert ids[i] == best.value;
      }
    }
  }

  /** The loop of the second tier: the covered card of largest uncertainty,
      starting from the first card other than `u` at score minus infinity
      (`None` below). */
  method BestPartner(ids: seq<string>, sigma: map<string, real>, u: string) returns (partner: Option<string>)
    requires Scored(ids, sigma)
    ensures partner == BestPartnerOf(ids, sigma, u)
  {
    partner := FirstOther(ids, u);
    var bestScore: Option<real> := None;
    for k := 0 to |ids|
      invariant var best := BestPartnerOf(ids[..k], sigma, u);
                if best.Some? then partner == best && bestScore == Some(sigma[best.value])
                else partner == FirstOther(ids, u) && bestScore.None?
    {
      assert ids[..k + 1][..k] == ids[..k];
      var id := ids[k];
      if id == u {
        continue;
      }
      var score := sigma[id];
      if bestScore.None? || score > bestScore.value {
        bestScore := Some(score);
        partner := Some(id);
      }
    }
    assert ids[..|ids|] == ids;
    BestPartnerIsBest(ids, sigma, u);
  }

  /** The pairs (ids[i], ids[j]) for one i and every j > i. */
  function Row(ids: seq<string>, i: nat): (r: seq<(string, string)>)
    requires i < |ids|
    ensures |r| == |ids| - i - 1
    ensures forall k :: 0 <= k < |r| ==> r[k] == (ids[i], ids[i + 1 + k])
  {
    seq(|ids| - i - 1, k requires 0 <= k < |ids| - i - 1 => (ids[i], ids[i + 1 + k]))
  }

  /** The pairs of the first `n` rows, in the order the nested loops visit them. */
  function Rows(ids: seq<string>, n: nat): (r: seq<(string, string)>)
    requires n <= |ids|
    ensures forall k :: 0 <= k < |r| ==> r[k].0 in ids && r[k].1 in ids
  {
    if n == 0 then [] else Rows(ids, n - 1) + Row(ids, n - 1)
  }

  /** Every unordered pair of cards, in index order. */
  function Candidates(ids: seq<string>): seq<(string, string)> {
    Rows(ids, |ids|)
  }

  /** The candidates are exactly the pairs of two positions i < j. */
  lemma {:induction false} RowsAre(ids: seq<string>, n: nat, a: string, b: string)
    requires n <= |ids|
    ensures (a, b) in Rows(ids, n) <==>
            exists i, j :: 0 <= i < n && i < j < |ids| && ids[i] == a && ids[j] == b
  {
    if n > 0 {
      RowsAre(ids, n - 1, a, b);
      var row := Row(ids, n - 1);
      if (a, b) in row {
        var k :| 0 <= k < |row| && row[k] == (a, b);
        assert ids[n - 1] == a && ids[n + k] == b;
      }
      if exists j :: n - 1 < j < |ids| && ids[n - 1] == a && ids[j] == b {
        var j :| n - 1 < j < |ids| && ids[n - 1] == a && ids[j] == b;
        assert row[j - n] == (a, b);
      }
    }
  }

  /** There is a candidate exactly when there are two cards. */
  lemma {:induction false} CandidatesExist(ids: seq<string>)
    ensures Candidates(ids) != [] <==> |ids| >= 2
  {
    if |ids| >= 2 {
      RowsAre(ids, |ids|, ids[0], ids[1]);
    } else if Candidates(ids) != [] {
      var c := Candidates(ids)[0];
      RowsAre(ids, |ids|, c.0, c.1);
    }
  }

  /** The score of every candidate pair of the state. */
  function ScoreTable(m: Numerics, s: State): (t: map<(string, string), real>)
    requires Lawful(m) && Rated(s)
    ensures forall c :: c in t <==> c in Candidates(s.allCardIds)
  {
    map c | c in Candidates(s.allCardIds) :: Score(m, s, c.0, c.1)
  }

  /** Every pair has a score in `scores`. */
  predicate Tabled(pairs: seq<(string, string)>, scores: map<(string, string), real>) {
    forall k :: 0 <= k < |pairs| ==> pairs[k] in scores
  }

  /** The pair of highest score, the first of them on a tie. */
  function BestPairOf(pairs: seq<(string, string)>, scores: map<(string, string), real>): (r: Option<(string, string)>)
    requires Tabled(pairs, scores)
    ensures r.None? <==> pairs == []
    ensures r.Some? ==> r.value in pairs
  {
    if pairs == [] then None
    else
      var best := BestPairOf(pairs[..|pairs| - 1], scores);
      var c := pairs[|pairs| - 1];
      if best.None? || scores[c] > scores[best.value] then Some(c)
      else best
  }

  /** The chosen pair scores at least as high as every pair, and strictly
      higher than every pair before it. */
  lemma {:induction false} BestPairIsBest(pairs: seq<(string, string)>, scores: map<(string, string), real>)
    requires Tabled(pairs, scores) && pairs != []
    ensures var b := BestPairOf(pairs, scores).value;
            (forall k :: 0 <= k < |pairs| ==> scores[pairs[k]] <= scores[b]) &&
            exists i :: 0 <= i < |pairs| && pairs[i] == b &&
              forall k :: 0 <= k < i ==> scores[pairs[k]] < scores[b]
  {
    var before := pairs[..|pairs| - 1];
    var c := pairs[|pairs| - 1];
    assert forall k :: 0 <= k < |before| ==> pairs[k] == before[k];
    if before == [] {
      assert BestPairOf(pairs, scores) == Some(c);
    } else {
      BestPairIsBest(before, scores);
      var best := BestPairOf(before, scores).value;
      if scores[c] <= scores[best] {
        var i :| 0 <= i < |before| && before[i] == best &&
                 forall k :: 0 <= k < i ==> scores[before[k]] < scores[best];
        assert pairs[i] == best;
      }
    }
  }

  /** The pairs the nested loops have visited before pair (i, j). */
  function Visited(ids: seq<string>, i: nat, j: nat): seq<(string, string)>
    requires i < j <= |ids|
  {
    Rows(ids, i) + Row(ids, i)[..j - i - 1]
  }

  /** Earlier rows are a prefix of later ones. */
  lemma {:induction false} RowsPrefix(ids: seq<string>, n: nat, n2: nat)
    requires n <= n2 <= |ids|
    ensures Rows(ids, n) <= Rows(ids, n2)
  {
    if n < n2 {
      RowsPrefix(ids, n, n2 - 1);
    }
  }

  /** A prefix of the candidates has every pair in the score table. */
  lemma PrefixTabled(m: Numerics, s: State, p: seq<(string, string)>)
    requires Lawful(m) && Rated(s) && p <= Candidates(s.allCardIds)
    ensures Tabled(p, ScoreTable(m, s))
  {
    var all := Candidates(s.allCardIds);
    forall k | 0 <= k < |p|
      ensures p[k] in ScoreTable(m, s)
    {
      assert p[k] == all[k];
    }
  }

  /** The rows visited so far are scored. */
  lemma RowsTabled(m: Numerics, s: State, n: nat)
    requires Lawful(m) && Rated(s) && n <= |s.allCardIds|
    ensures Tabled(Rows(s.allCardIds, n), ScoreTable(m, s))
  {
    RowsPrefix(s.allCardIds, n, |s.allCardIds|);
    PrefixTabled(m, s, Rows(s.allCardIds, n));
  }

  /** Where the inner loop starts and ends, and that what it visits is scored. */
  lemma VisitedRow(m: Numerics, s: State, i: nat, j: nat)
    requires Lawful(m) && Rated(s) && i < j <= |s.allCardIds|
    ensures Visited(s.allCardIds, i, i + 1) == Rows(s.allCardIds, i)
    ensures Visited(s.allCardIds, i, |s.allCardIds|) == Rows(s.allCardIds, i + 1)
    ensures Tabled(Visited(s.allCardIds, i, j), ScoreTable(m, s))
  {
    var ids := s.allCardIds;
    assert Row(ids, i)[..0] == [];
    assert Row(ids, i)[..|ids| - i - 1] == Row(ids, i);
    RowsPrefix(ids, i + 1, |ids|);
    PrefixTabled(m, s, Visited(ids, i, j));
  }

  /** Visiting pair (i, j) appends it, with its score from the table. */
  lemma VisitStep(m: Numerics, s: State, i: nat, j: nat)
    requires Lawful(m) && Rated(s) && i < j < |s.allCardIds|
    ensures Visited(s.allCardIds, i, j + 1) == Visited(s.allCardIds, i, j) + [(s.allCardIds[i], s.allCardIds[j])]
    ensures (s.allCardIds[i], s.allCardIds[j]) in ScoreTable(m, s)
    ensures ScoreTable(m, s)[(s.allCardIds[i], s.allCardIds[j])] == Score(m, s, s.allCardIds[i], s.allCardIds[j])
  {
    var ids := s.allCardIds;
    assert Row(ids, i)[..j - i] == Row(ids, i)[..j - i - 1] + [Row(ids, i)[j - i - 1]];
    RowsAre(ids, |ids|, ids[i], ids[j]);
  }

  /** One more pair: it becomes the best when it scores strictly higher. */
  lemma BestPairStep(pairs: seq<(string, string)>, c: (string, string), scores: map<(string, string), real>)
    requires Tabled(pairs + [c], scores) && c in scores
    ensures Tabled(pairs, scores)
    ensures var best := BestPairOf(pairs, scores);
            BestPairOf(pairs + [c], scores) ==
              if best.None? || scores[c] > scores[best.value] then Some(c) else best
  {
    assert forall k :: 0 <= k < |pairs| ==> (pairs + [c])[k] == pairs[k];
    assert (pairs + [c])[..|pairs|] == pairs;
  }

  /** The nested loops of the third tier over every pair i < j, keeping the
      first pair of highest score, from score minus infinity (`None` below). */
  method BestPair(m: Numerics, s: State) returns (bestPair: Option<(string, string)>)
    requires Lawful(m) && Rated(s)
    ensures bestPair == BestPairOf(Candidates(s.allCardIds), ScoreTable(m, s))
  {
    var ids := s.allCardIds;
    ghost var table := ScoreTable(m, s);
    bestPair := None;
    var bestScore: Option<real> := None;
    for i := 0 to |ids|
      invariant Tabled(Rows(ids, i), table)
      invariant bestPair == BestPairOf(Rows(ids, i), table)
      invariant bestPair.Some? ==> bestPair.value in table && bestScore == Some(table[bestPair.value])
      invariant bestPair.None? ==> bestScore.None?
    {
      VisitedRow(m, s, i, i + 1);
      for j := i + 1 to |ids|
        invariant Tabled(Visited(ids, i, j), table)
        invariant bestPair == BestPairOf(Visited(ids, i, j), table)
        invariant bestPair.Some? ==> bestPair.value in table && bestScore == Some(table[bestPair.value])
        invariant bestPair.None? ==> bestScore.None?
      {
        VisitStep(m, s, i, j);
        VisitedRow(m, s, i, j + 1);
        BestPairStep(Visited(ids, i, j), (ids[i], ids[j]), table);
        var score := Score(m, s, ids[i], ids[j]);
        if bestScore.None? || score > bestScore.value {
          bestScore := Some(score);
          bestPair := Some((ids[i], ids[j]));
        }
      }
      VisitedRow(m, s, i, |ids|);
    }
  }

  /** What selectNextPair chooses, with the second tier returning no pair
      when no second card exists. */
  function Selection(m: Numerics, s: State): Option<(string, string)>
    requires Lawful(m) && Rated(s)
  {
    var uncovered := Uncovered(s.allCardIds, s.appearedCount);
    if |uncovered| >= 2 then Some((uncovered[0], uncovered[1]))
    else if |uncovered| == 1 then
      match BestPartnerOf(s.allCardIds, s.sigma, uncovered[0])
      case Some(partner) => Some((uncovered[0], partner))
      case None => None
    else BestPairOf(Candidates(s.allCardIds), ScoreTable(m, s))
  }

  /** selectNextPair: coverage first, then the most uncertain partner of
      the one uncovered card, then the best scoring pair. */
  method SelectNextPair(m: Numerics, s: State) returns (pair: Option<(string, string)>)
    requires Lawful(m) && Rated(s)
    ensures pair == Selection(m, s)
  {
    var uncoveredCards := Uncovered(s.allCardIds, s.appearedCount);
    if |uncoveredCards| >= 2 {
      return Some((uncoveredCards[0], uncoveredCards[1]));
    }
    if |uncoveredCards| == 1 {
      var uncovered := uncoveredCards[0];
      var bestPartner := BestPartner(s.allCardIds, s.sigma, uncovered);
      if bestPartner.None? {
        return None;
      }
      return Some((uncovered, bestPartner.value));
    }
    pair := BestPair(m, s);
  }

  /** Of a duplicate-free list of cards, the selection is a pair of two
      different cards of the list, and there is one exactly when there are
      two cards. */
  lemma SelectionIsPair(m: Numerics, s: State)
    requires Lawful(m) && Rated(s) && Distinct(s.allCardIds)
    ensures Selection(m, s).Some? <==> |s.allCardIds| >= 2
    ensures Selection(m, s).Some? ==>
              var p := Selection(m, s).value;
              p.0 in s.allCardIds && p.1 in s.allCardIds && p.0 != p.1
  {
    var uncovered := Uncovered(s.allCardIds, s.appearedCount);
    if |uncovered| >= 2 {
      CoverTierIsPair(m, s);
    } else if |uncovered| == 1 {
      PartnerTierIsPair(m, s);
    } else {
      ScoreTierIsPair(m, s);
    }
  }

  lemma CoverTierIsPair(m: Numerics, s: State)
    requires Lawful(m) && Rated(s) && Distinct(s.allCardIds)
    requires |Uncovered(s.allCardIds, s.appearedCount)| >= 2
    ensures Selection(m, s).Some? && |s.allCardIds| >= 2
    ensures var p := Selection(m, s).value;
            p.0 in s.allCardIds && p.1 in s.allCardIds && p.0 != p.1
  {
    var uncovered := Uncovered(s.allCardIds, s.appearedCount);
    assert uncovered[0] in uncovered && uncovered[1] in uncovered;
  }

  lemma PartnerTierIsPair(m: Numerics, s: State)
    requires Lawful(m) && Rated(s) && Distinct(s.allCardIds)
    requires |Uncovered(s.allCardIds, s.appearedCount)| == 1
    ensures Selection(m, s).Some? <==> |s.allCardIds| >= 2
    ensures Selection(m, s).Some? ==>
              var p := Selection(m, s).value;
              p.0 in s.allCardIds && p.1 in s.allCardIds && p.0 != p.1
  {
    var uncovered := Uncovered(s.allCardIds, s.appearedCount);
    assert uncovered[0] in uncovered;
    PartnerExists(s.allCardIds, s.sigma, uncovered[0]);
  }

  lemma ScoreTierIsPair(m: Numerics, s: State)
    requires Lawful(m) && Rated(s) && Distinct(s.allCardIds)
    requires |Uncovered(s.allCardIds, s.appearedCount)| == 0
    ensures Selection(m, s).Some? <==> |s.allCardIds| >= 2
    ensures Selection(m, s).Some? ==>
              var p := Selection(m, s).value;
              p.0 in s.allCardIds && p.1 in s.allCardIds && p.0 != p.1
  {
    BestPairExists(s.allCardIds, ScoreTable(m, s));
  }

  /** A duplicate-free list with `u` in it has a card other than `u` exactly when it has two cards. */
  lemma PartnerExists(ids: seq<string>, sigma: map<string, real>, u: string)
    requires Scored(ids, sigma) && Distinct(ids) && u in ids
    ensures BestPartnerOf(ids, sigma, u).Some? <==> |ids| >= 2
  {
    BestPartnerIsBest(ids, sigma, u);
    if |ids| >= 2 {
      assert ids[0] != ids[1];
    }
  }

  /** Of a duplicate-free list, the best pair is two different cards of it,
      and there is one exactly when there are two cards. */
  lemma BestPairExists(ids: seq<string>, scores: map<(string, string), real>)
    requires Tabled(Candidates(ids), scores) && Distinct(ids)
    ensures BestPairOf(Candidates(ids), scores).Some? <==> |ids| >= 2
    ensures BestPairOf(Candidates(ids), scores).Some? ==>
              var p := BestPairOf(Candidates(ids), scores).value;
              p.0 in ids && p.1 in ids && p.0 != p.1
  {
    CandidatesExist(ids);
    var r := BestPairOf(Candidates(ids), scores);
    if r.Some? {
      RowsAre(ids, |ids|, r.value.0, r.value.1);
    }
  }

  /** The best pair scores at least as high as every pair i < j. */
  lemma BestPairTops(ids: seq<string>, scores: map<(string, string), real>)
    requires Tabled(Candidates(ids), scores) && BestPairOf(Candidates(ids), scores).Some?
    ensures forall i, j :: 0 <= i < j < |ids| ==>
              (ids[i], ids[j]) in scores &&
              scores[(ids[i], ids[j])] <= scores[BestPairOf(Candidates(ids), scores).value]
  {
    var pairs := Candidates(ids);
    BestPairIsBest(pairs, scores);
    forall i, j | 0 <= i < j < |ids|
      ensures (ids[i], ids[j]) in pairs
    {
      RowsAre(ids, |ids|, ids[i], ids[j]);
    }
  }

  /** The first tier picks the first two uncovered cards; the second pairs
      the uncovered card with the first most uncertain other card; the third
      picks the first pair of highest score. */
  lemma SelectionTiers(m: Numerics, s: State)
    requires Lawful(m) && Rated(s)
    ensures var uncovered := Uncovered(s.allCardIds, s.appearedCount);
            var r := Selection(m, s);
            (|uncovered| >= 2 ==> r == Some((uncovered[0], uncovered[1]))) &&
            (|uncovered| == 1 && r.Some? ==>
               r.value.0 == uncovered[0] && r.value.1 != uncovered[0] && r.value.1 in s.allCardIds &&
               forall id :: id in s.allCardIds && id != uncovered[0] ==> s.sigma[id] <= s.sigma[r.value.1]) &&
            (|uncovered| == 0 && r.Some? ==> ScoresHighest(m, s, r.value))
  {
    var uncovered := Uncovered(s.allCardIds, s.appearedCount);
    if |uncovered| == 1 {
      PartnerTierIsBest(m, s);
    } else if |uncovered| == 0 {
      ScoreTierIsBest(m, s);
    }
  }

  lemma PartnerTierIsBest(m: Numerics, s: State)
    requires Lawful(m) && Rated(s)
    requires |Uncovered(s.allCardIds, s.appearedCount)| == 1
    ensures var u := Uncovered(s.allCardIds, s.appearedCount)[0];
            var r := Selection(m, s);
            r.Some? ==>
              r.value.0 == u && r.value.1 != u && r.value.1 in s.allCardIds &&
              forall id :: id in s.allCardIds && id != u ==> s.sigma[id] <= s.sigma[r.value.1]
  {
    var ids := s.allCardIds;
    var u := Uncovered(ids, s.appearedCount)[0];
    BestPartnerIsBest(ids, s.sigma, u);
  }

  /** `p` is two cards of the deck, and no pair (ids[i], ids[j]) with i < j
      scores higher. */
  predicate ScoresHighest(m: Numerics, s: State, p: (string, string))
    requires Lawful(m) && Rated(s)
  {
    p.0 in s.allCardIds && p.1 in s.allCardIds &&
    forall i, j :: 0 <= i < j < |s.allCardIds| ==>
      Score(m, s, s.allCardIds[i], s.allCardIds[j]) <= Score(m, s, p.0, p.1)
  }

  lemma ScoreTierIsBest(m: Numerics, s: State)
    requires Lawful(m) && Rated(s)
    requires |Uncovered(s.allCardIds, s.appearedCount)| == 0
    ensures Selection(m, s).Some? ==> ScoresHighest(m, s, Selection(m, s).value)
  {
    var best := BestPairOf(Candidates(s.allCardIds), ScoreTable(m, s));
    assert Selection(m, s) == best;
    if best.Some? {
      BestPairScoresHighest(m, s);
    }
  }

  /** The best pair of the score table scores at least as high as every pair. */
  lemma BestPairScoresHighest(m: Numerics, s: State)
    requires Lawful(m) && Rated(s)
    requires BestPairOf(Candidates(s.allCardIds), ScoreTable(m, s)).Some?
    ensures ScoresHighest(m, s, BestPairOf(Candidates(s.allCardIds), ScoreTable(m, s)).value)
  {
    var ids := s.allCardIds;
    var table := ScoreTable(m, s);
    var best := BestPairOf(Candidates(ids), table).value;
    BestPairEntry(m, s);
    BestPairTops(ids, table);
    forall i, j | 0 <= i < j < |ids|
      ensures Score(m, s, ids[i], ids[j]) <= Score(m, s, best.0, best.1)
    {
      VisitStep(m, s, i, j);
    }
  }

  /** The best pair of the score table is two cards of the deck, and its
      entry is its score. */
  lemma BestPairEntry(m: Numerics, s: State)
    requires Lawful(m) && Rated(s)
    requires BestPairOf(Candidates(s.allCardIds), ScoreTable(m, s)).Some?
    ensures var best := BestPairOf(Candidates(s.allCardIds), ScoreTable(m, s)).value;
            best.0 in s.allCardIds && best.1 in s.allCardIds &&
            ScoreTable(m, s)[best] == Score(m, s, best.0, best.1)
  {
    var ids := s.allCardIds;
    var best := BestPairOf(Candidates(ids), ScoreTable(m, s)).value;
    RowsAre(ids, |ids|, best.0, best.1);
  }

  /** A pair as selectNextPair builds it: the second element may be `undefined`. */
  datatype Choice = Choice(first: string, second: Option<string>) | NoChoice

  /** selectNextPair as written: in the second tier the partner is
      `allCardIds.find((id) => id !== uncovered)!` unless the loop finds a
      better one, and the non-null assertion does not stop an `undefined`. */
  function SelectionAsWritten(m: Numerics, s: State): (c: Choice)
    requires Lawful(m) && Rated(s)
    ensures c.Choice? ==> c.first in s.allCardIds
    ensures c.Choice? && c.second.Some? ==> c.second.value in s.allCardIds
    ensures c.Choice? && c.second.None? ==>
              forall k :: 0 <= k < |s.allCardIds| ==> s.allCardIds[k] == c.first
    ensures c.NoChoice? <==> |s.allCardIds| < 2 && |Uncovered(s.allCardIds, s.appearedCount)| == 0
  {
    var uncovered := Uncovered(s.allCardIds, s.appearedCount);
    if |uncovered| >= 2 then Choice(uncovered[0], Some(uncovered[1]))
    else if |uncovered| == 1 then
      var best := BestPartnerOf(s.allCardIds, s.sigma, uncovered[0]);
      Choice(uncovered[0], if best.Some? then best else FirstOther(s.allCardIds, uncovered[0]))
    else BestChoice(s.allCardIds, ScoreTable(m, s))
  }

  /** The third tier as written: the best pair, or null when there is none. */
  function BestChoice(ids: seq<string>, scores: map<(string, string), real>): (c: Choice)
    requires Tabled(Candidates(ids), scores)
    ensures c.Choice? ==> c.first in ids && c.second.Some? && c.second.value in ids
    ensures c.NoChoice? <==> |ids| < 2
  {
    CandidatesExist(ids);
    match BestPairOf(Candidates(ids), scores)
    case Some(p) => RowsAre(ids, |ids|, p.0, p.1); Choice(p.0, Some(p.1))
    case None => NoChoice
  }

  /** With a single card never compared, selectNextPair as written returns
      `[id, undefined]` instead of no pair. */
  lemma LoneCardIsPairedWithUndefined(m: Numerics, s: State, id: string)
    requires Lawful(m) && Rated(s)
    requires s.allCardIds == [id] && id in s.appearedCount && s.appearedCount[id] == 0
    ensures SelectionAsWritten(m, s) == Choice(id, None)
    ensures Selection(m, s) == None
  {
    var uncovered := Uncovered(s.allCardIds, s.appearedCount);
    assert id in uncovered;
    assert FirstOther(s.allCardIds, id) == None;
    BestPartnerIsBest(s.allCardIds, s.sigma, id);
  }

  /** Whenever there are two cards, the code as written and the selection agree. */
  lemma AsWrittenAgrees(m: Numerics, s: State)
    requires Lawful(m) && Rated(s) && Distinct(s.allCardIds) && |s.allCardIds| >= 2
    ensures Selection(m, s).Some?
    ensures SelectionAsWritten(m, s) == Choice(Selection(m, s).value.0, Some(Selection(m, s).value.1))
  {
    SelectionIsPair(m, s);
    var uncovered := Uncovered(s.allCardIds, s.appearedCount);
    if |uncovered| == 1 {
      BestPartnerIsBest(s.allCardIds, s.sigma, uncovered[0]);
    }
  }
}
