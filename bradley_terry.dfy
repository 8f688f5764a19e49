/** The state of the Bradley-Terry pairwise-comparison engine
    (lib/bradleyTerry.ts) and the two operations that produce it:
    initBradleyTerry and updateAfterComparison. Strengths, information and
    uncertainties are reals; `Math.exp`, `Math.sqrt` and `Math.log` are
    parameters that obey the laws the engine relies on. */
module BradleyTerry {
  import opened Common
  import opened PreferenceGraph
  import opened Ranking

  /** The floating-point primitives the engine calls, `Math.exp`,
      `Math.sqrt` and `Math.log`, each as the table of its values. */
  datatype Numerics = Numerics(exp: imap<real, real>, sqrt: imap<real, real>, log: imap<real, real>)

  /** What the engine relies on: the three are defined everywhere, `exp`
      is positive, and `sqrt` is positive and increasing on positive arguments. */
  ghost predicate Lawful(m: Numerics) {
    (forall x :: LawfulAt(m, x)) && (forall x, y :: SqrtBelow(m, x, y))
  }

  /** The laws at one argument. They are named so that they are used only
      where a proof asks for them. */
  ghost predicate LawfulAt(m: Numerics, x: real) {
    x in m.exp && x in m.sqrt && x in m.log &&
    m.exp[x] > 0.0 && (x > 0.0 ==> m.sqrt[x] > 0.0)
  }

  /** `sqrt` keeps the order of two positive arguments. */
  ghost predicate SqrtBelow(m: Numerics, x: real, y: real) {
    (x in m.sqrt && y in m.sqrt && 0.0 < x < y) ==> m.sqrt[x] < m.sqrt[y]
  }

  /** `Math.exp(x)`. */
  function Exp(m: Numerics, x: real): (e: real)
    requires Lawful(m)
    ensures e > 0.0
  {
    assert LawfulAt(m, x);
    m.exp[x]
  }

  /** `Math.sqrt(x)`. */
  function Sqrt(m: Numerics, x: real): (r: real)
    requires Lawful(m)
    ensures x > 0.0 ==> r > 0.0
  {
    assert LawfulAt(m, x);
    m.sqrt[x]
  }

  /** `Math.log(x)`. */
  function Log(m: Numerics, x: real): real
    requires Lawful(m)
  {
    assert LawfulAt(m, x);
    m.log[x]
  }

  /** `exp` is increasing. */
  ghost predicate ExpIncreasing(m: Numerics)
    requires Lawful(m)
  {
    forall x, y :: x < y ==> Exp(m, x) < Exp(m, y)
  }

  /** `log` is zero at 1 and non-decreasing on positive arguments. */
  ghost predicate LogLaws(m: Numerics)
    requires Lawful(m)
  {
    Log(m, 1.0) == 0.0 && forall x, y :: 0.0 < x <= y ==> Log(m, x) <= Log(m, y)
  }

  const Epsilon: real := 0.01
  const BaseLearningRate: real := 0.15
  /** The length of the ranking stored after every comparison. */
  const TopKImportant: nat := 11

  /** calculateProbability: the chance that a card of strength `a` beats one of strength `b`. */
  function Probability(m: Numerics, a: real, b: real): (p: real)
    requires Lawful(m)
    ensures 0.0 < p < 1.0
  {
    var ea, eb := Exp(m, a), Exp(m, b);
    Share(ea, eb);
    ea / (ea + eb)
  }

  /** The arithmetic of a share x / (x + y) of two positive amounts. */
  lemma Share(x: real, y: real)
    requires x > 0.0 && y > 0.0
    ensures 0.0 < x / (x + y) < 1.0
    ensures x / (x + y) + y / (y + x) == 1.0
    ensures x / (x + y) > 0.5 <==> x > y
    ensures x == y ==> x / (x + y) == 0.5
  {
    ShareBounds(x, y);
    ShareComplement(x, y);
    ShareFavours(x, y);
  }

  lemma ShareBounds(x: real, y: real)
    requires x > 0.0 && y > 0.0
    ensures 0.0 < x / (x + y) < 1.0
  {
  }

  lemma ShareComplement(x: real, y: real)
    requires x > 0.0 && y > 0.0
    ensures x / (x + y) + y / (y + x) == 1.0
  {
  }

  lemma ShareFavours(x: real, y: real)
    requires x > 0.0 && y > 0.0
    ensures x / (x + y) > 0.5 <==> x > y
    ensures x == y ==> x / (x + y) == 0.5
  {
  }

  /** One of the two cards wins: the probabilities of the two orders add up to 1. */
  lemma ProbabilityComplement(m: Numerics, a: real, b: real)
    requires Lawful(m)
    ensures Probability(m, a, b) + Probability(m, b, a) == 1.0
  {
    Share(Exp(m, a), Exp(m, b));
  }

  /** The stronger card is the favourite, and equal strengths are a coin toss. */
  lemma ProbabilityFavoursStronger(m: Numerics, a: real, b: real)
    requires Lawful(m) && ExpIncreasing(m)
    ensures Probability(m, a, b) > 0.5 <==> a > b
    ensures a == b ==> Probability(m, a, b) == 0.5
  {
    var ea, eb := Exp(m, a), Exp(m, b);
    Share(ea, eb);
    if a > b {
      assert ea > eb;
    } else if a < b {
      assert ea < eb;
    }
  }

  /** A comparison as stored in comparisonHistory. */
  datatype Comparison = Comparison(winner: string, loser: string, logLikelihood: real)

  datatype State = State(
    mu: map<string, real>,
    fisher: map<string, real>,
    sigma: map<string, real>,
    graph: Graph,
    cycleCount: nat,
    comparisonHistory: seq<Comparison>,
    likelihoodHistory: seq<real>,
    rankHistory: seq<seq<string>>,
    minComparisons: nat,
    maxComparisons: nat,
    used: nat,
    allCardIds: seq<string>,
    appearedCount: map<string, nat>)

  /** Every card has a strength, an information, an uncertainty and a count, and no other key does. */
  ghost predicate WellFormed(s: State) {
    Distinct(s.allCardIds) &&
    (forall id :: id in s.mu <==> id in s.allCardIds) &&
    (forall id :: id in s.fisher <==> id in s.allCardIds) &&
    (forall id :: id in s.sigma <==> id in s.allCardIds) &&
    (forall id :: id in s.appearedCount <==> id in s.allCardIds)
  }

  /** The winner and loser of each comparison, as handed to calculateLogLikelihood. */
  function Matchups(h: seq<Comparison>): (r: seq<(string, string)>)
    ensures |r| == |h| && forall k :: 0 <= k < |h| ==> r[k] == (h[k].winner, h[k].loser)
  {
    seq(|h|, k requires 0 <= k < |h| => (h[k].winner, h[k].loser))
  }

  /** The preference graph that a history of comparisons builds. */
  function GraphOf(h: seq<Comparison>): Graph {
    if h == [] then map[]
    else AddEdge(GraphOf(h[..|h| - 1]), h[|h| - 1].winner, h[|h| - 1].loser)
  }

  /** The comparisons of `h` whose loser already reached their winner. */
  ghost function Cycles(h: seq<Comparison>): nat {
    if h == [] then 0
    else
      var before, c := h[..|h| - 1], h[|h| - 1];
      Cycles(before) + if Reachable(GraphOf(before), c.loser, c.winner) then 1 else 0
  }

  /** The comparisons of `h` in which `id` took part. */
  function Mentions(h: seq<Comparison>, id: string): nat {
    if h == [] then 0
    else
      var c := h[|h| - 1];
      Mentions(h[..|h| - 1], id) + if c.winner == id || c.loser == id then 1 else 0
  }

  /** The sum of the strengths of `ids`. */
  function StrengthSum(ids: seq<string>, mu: map<string, real>): real
    requires Scored(ids, mu)
  {
    if ids == [] then 0.0 else StrengthSum(ids[..|ids| - 1], mu) + mu[ids[|ids| - 1]]
  }

  /** The uncertainty of a card with information `f`. */
  function Uncertainty(m: Numerics, f: real): (u: real)
    requires Lawful(m) && f > 0.0
    ensures u > 0.0
  {
    1.0 / Sqrt(m, f)
  }

  /** More information, less uncertainty. */
  lemma UncertaintyFalls(m: Numerics, f: real, g: real)
    requires Lawful(m) && 0.0 < f < g
    ensures Uncertainty(m, g) < Uncertainty(m, f)
  {
    assert LawfulAt(m, f) && LawfulAt(m, g) && SqrtBelow(m, f, g);
    Reciprocal(Sqrt(m, f), Sqrt(m, g));
  }

  /** A larger positive number has a smaller reciprocal. */
  lemma Reciprocal(a: real, b: real)
    requires 0.0 < a < b
    ensures 1.0 / b < 1.0 / a
  {
  }

  /** Every comparison of `h` is between two distinct cards of `ids`. */
  ghost predicate Played(h: seq<Comparison>, ids: seq<string>) {
    forall k :: 0 <= k < |h| ==> h[k].winner in ids && h[k].loser in ids && h[k].winner != h[k].loser
  }

  /** Each count is the number of comparisons of `h` the card took part in. */
  ghost predicate Counted(counts: map<string, nat>, h: seq<Comparison>) {
    forall id :: id in counts ==> counts[id] == Mentions(h, id)
  }

  /** A card never compared has information Epsilon and uncertainty
      1/sqrt(Epsilon); a compared card has more information, and its
      uncertainty is 1/sqrt(information + Epsilon). */
  ghost predicate Calibrated(m: Numerics, counts: map<string, nat>, fisher: map<string, real>, sigma: map<string, real>)
    requires Lawful(m)
  {
    forall id :: id in fisher ==>
      id in counts && id in sigma &&
      if counts[id] == 0 then fisher[id] == Epsilon && sigma[id] == Uncertainty(m, Epsilon)
      else fisher[id] > Epsilon && sigma[id] == Uncertainty(m, fisher[id] + Epsilon)
  }

  /** The state agrees with its comparison history. */
  ghost predicate Valid(s: State, m: Numerics)
    requires Lawful(m)
  {
    WellFormed(s) &&
    s.used == |s.comparisonHistory| == |s.likelihoodHistory| == |s.rankHistory| &&
    Played(s.comparisonHistory, s.allCardIds) &&
    s.graph == GraphOf(s.comparisonHistory) &&
    s.cycleCount == Cycles(s.comparisonHistory) &&
    Counted(s.appearedCount, s.comparisonHistory) &&
    Calibrated(m, s.appearedCount, s.fisher, s.sigma) &&
    StrengthSum(s.allCardIds, s.mu) == 0.0
  }

  /** Every card of the state has a strength and an uncertainty, as the
      non-null assertions `state.mu[i]!` and `state.sigma[id]!` take for granted. */
  predicate Rated(s: State) {
    forall k :: 0 <= k < |s.allCardIds| ==> s.allCardIds[k] in s.mu && s.allCardIds[k] in s.sigma
  }

  /** A valid state is rated, and all its uncertainties are positive. */
  lemma ValidIsRated(m: Numerics, s: State)
    requires Lawful(m) && Valid(s, m)
    ensures Rated(s)
    ensures forall id :: id in s.allCardIds ==> s.sigma[id] > 0.0
  {
    forall id | id in s.allCardIds
      ensures s.sigma[id] > 0.0
    {
      assert id in s.fisher;
    }
  }

  /** initBradleyTerry: every card at strength 0, information Epsilon, uncertainty
      1/sqrt(Epsilon) and count 0; by default at least ceil(0.8 N) and at most
      2 N comparisons. */
  method InitBradleyTerry(m: Numerics, cardIds: seq<string>, minComparisons: Option<nat>, maxComparisons: Option<nat>)
    returns (s: State)
    requires Lawful(m) && Distinct(cardIds)
    ensures Valid(s, m)
    ensures s.allCardIds == cardIds && s.used == 0 && s.cycleCount == 0
    ensures forall id :: id in cardIds ==>
              s.mu[id] == 0.0 && s.fisher[id] == Epsilon &&
              s.sigma[id] == Uncertainty(m, Epsilon) && s.appearedCount[id] == 0
    ensures s.minComparisons == if minComparisons.Some? then minComparisons.value else (4 * |cardIds| + 4) / 5
    ensures s.maxComparisons == if maxComparisons.Some? then maxComparisons.value else 2 * |cardIds|
  {
    var mu: map<string, real> := map[];
    var fisher: map<string, real> := map[];
    var sigma: map<string, real> := map[];
    var appearedCount: map<string, nat> := map[];
    for k := 0 to |cardIds|
      invariant forall id :: id in mu <==> id in cardIds[..k]
      invariant forall id :: id in fisher <==> id in cardIds[..k]
      invariant forall id :: id in sigma <==> id in cardIds[..k]
      invariant forall id :: id in appearedCount <==> id in cardIds[..k]
      invariant forall id :: id in mu ==>
                  mu[id] == 0.0 && fisher[id] == Epsilon &&
                  sigma[id] == Uncertainty(m, Epsilon) && appearedCount[id] == 0
    {
      var id := cardIds[k];
      assert cardIds[..k + 1] == cardIds[..k] + [id];
      mu := mu[id := 0.0];
      fisher := fisher[id := Epsilon];
      sigma := sigma[id := 1.0 / Sqrt(m, Epsilon)];
      appearedCount := appearedCount[id := 0];
    }
    assert cardIds[..|cardIds|] == cardIds;
    s := State(mu, fisher, sigma, map[], 0, [], [], [],
               if minComparisons.Some? then minComparisons.value else (4 * |cardIds| + 4) / 5,
               if maxComparisons.Some? then maxComparisons.value else 2 * |cardIds|,
               0, cardIds, appearedCount);
    FreshIsValid(m, s);
  }

  /** A state with no comparisons, in which every card has its initial values, is valid. */
  lemma FreshIsValid(m: Numerics, s: State)
    requires Lawful(m) && WellFormed(s)
    requires s.used == 0 && s.cycleCount == 0 && s.graph == map[]
    requires s.comparisonHistory == [] && s.likelihoodHistory == [] && s.rankHistory == []
    requires forall id :: id in s.mu ==>
               s.mu[id] == 0.0 && s.fisher[id] == Epsilon &&
               s.sigma[id] == Uncertainty(m, Epsilon) && s.appearedCount[id] == 0
    ensures Valid(s, m)
  {
    ZeroStrengths(s.allCardIds, s.mu);
  }

  lemma {:induction false} ZeroStrengths(ids: seq<string>, mu: map<string, real>)
    requires Scored(ids, mu) && forall k :: 0 <= k < |ids| ==> mu[ids[k]] == 0.0
    ensures StrengthSum(ids, mu) == 0.0
  {
    if ids != [] {
      ZeroStrengths(ids[..|ids| - 1], mu);
    }
  }

  /** Changing the strength of one card of a duplicate-free list changes the sum by the difference. */
  lemma {:induction false} StrengthSumUpdate(ids: seq<string>, mu: map<string, real>, id: string, v: real)
    requires Scored(ids, mu) && Distinct(ids) && id in mu
    ensures Scored(ids, mu[id := v])
    ensures StrengthSum(ids, mu[id := v]) ==
            StrengthSum(ids, mu) + (if id in ids then v - mu[id] else 0.0)
  {
    if ids != [] {
      var before := ids[..|ids| - 1];
      StrengthSumUpdate(before, mu, id, v);
      if ids[|ids| - 1] == id {
        assert id !in before;
      } else if id in ids {
        assert id in before;
      }
    }
  }

  /** The learning rate: 0.15 / (1 + 2 cycleCount / used), the ratio 0 before any comparison. */
  function LearningRate(used: nat, cycleCount: nat): (lr: real)
    ensures 0.0 < lr <= BaseLearningRate
    ensures cycleCount == 0 ==> lr == BaseLearningRate
  {
    var ratio := if used > 0 then cycleCount as real / used as real else 0.0;
    assert ratio >= 0.0;
    BaseLearningRate / (1.0 + ratio * 2.0)
  }

  /** The step of a strength update: the learning rate times the surprise 1 - p. */
  function Gain(learningRate: real, p: real): (g: real)
    requires learningRate > 0.0 && p < 1.0
    ensures g > 0.0
  {
    learningRate * (1.0 - p)
  }

  /** The Fisher information p (1 - p) of one result of probability p. */
  function Information(p: real): (i: real)
    requires 0.0 < p < 1.0
    ensures i > 0.0
  {
    p * (1.0 - p)
  }

  /** The winner and the loser gain the same information. */
  lemma InformationSymmetric(p: real)
    requires 0.0 < p < 1.0
    ensures Information(1.0 - p) == Information(p)
  {
  }

  /** Both players of every game have a strength. */
  predicate Known(games: seq<(string, string)>, mu: map<string, real>) {
    forall k :: 0 <= k < |games| ==> games[k].0 in mu && games[k].1 in mu
  }

  /** calculateLogLikelihood: the log-probability, under strengths `mu`, of
      every recorded result, each probability floored at 0.0001. */
  function LogLikelihood(m: Numerics, mu: map<string, real>, games: seq<(string, string)>): real
    requires Lawful(m)
    requires Known(games, mu)
  {
    if games == [] then 0.0
    else
      var g := games[|games| - 1];
      LogLikelihood(m, mu, games[..|games| - 1]) + Log(m, Floor(Probability(m, mu[g.0], mu[g.1])))
  }

  /** `Math.max(p, 0.0001)`. */
  function Floor(p: real): real {
    if p > 0.0001 then p else 0.0001
  }

  /** The accumulating loop of calculateLogLikelihood. */
  method CalculateLogLikelihood(m: Numerics, mu: map<string, real>, games: seq<(string, string)>)
    returns (ll: real)
    requires Lawful(m)
    requires Known(games, mu)
    ensures ll == LogLikelihood(m, mu, games)
  {
    ll := 0.0;
    for k := 0 to |games|
      invariant ll == LogLikelihood(m, mu, games[..k])
    {
      assert games[..k + 1][..k] == games[..k];
      var p := Probability(m, mu[games[k].0], mu[games[k].1]);
      ll := ll + Log(m, Floor(p));
    }
    assert games[..|games|] == games;
  }

  /** Each result has probability below 1, so the log-likelihood is never
      positive, and the floor keeps it at or above |games| log(0.0001). */
  lemma {:induction false} LogLikelihoodBounds(m: Numerics, mu: map<string, real>, games: seq<(string, string)>)
    requires Lawful(m) && LogLaws(m)
    requires Known(games, mu)
    ensures |games| as real * Log(m, 0.0001) <= LogLikelihood(m, mu, games) <= 0.0
  {
    if games != [] {
      var g := games[|games| - 1];
      LogLikelihoodBounds(m, mu, games[..|games| - 1]);
      LogStep(m, Floor(Probability(m, mu[g.0], mu[g.1])), LogLikelihood(m, mu, games[..|games| - 1]),
              (|games| - 1) as real);
    }
  }

  /** Adding the log of a floored probability keeps the running sum within its bounds. */
  lemma LogStep(m: Numerics, q: real, sum: real, n: real)
    requires Lawful(m) && LogLaws(m) && 0.0001 <= q < 1.0
    requires n * Log(m, 0.0001) <= sum <= 0.0
    ensures (n + 1.0) * Log(m, 0.0001) <= sum + Log(m, q) <= 0.0
  {
    assert Log(m, 0.0001) <= Log(m, q) <= Log(m, 1.0);
    OneMore(n, Log(m, 0.0001));
  }

  lemma OneMore(n: real, x: real)
    ensures n * x + x == (n + 1.0) * x
  {
  }

  /** What updateAfterComparison needs of a state: two distinct players with
      an entry in every map, information at least Epsilon for both, and a
      strength for every card and for every earlier player. */
  ghost predicate Ready(s: State, winner: string, loser: string) {
    winner != loser &&
    winner in s.mu && loser in s.mu && winner in s.fisher && loser in s.fisher &&
    winner in s.sigma && loser in s.sigma && winner in s.appearedCount && loser in s.appearedCount &&
    s.fisher[winner] >= Epsilon && s.fisher[loser] >= Epsilon &&
    Scored(s.allCardIds, s.mu) && Known(Matchups(s.comparisonHistory), s.mu)
  }

  /** A valid state is ready for any comparison of two distinct cards. */
  lemma ValidIsReady(m: Numerics, s: State, winner: string, loser: string)
    requires Lawful(m) && Valid(s, m)
    requires winner != loser && winner in s.allCardIds && loser in s.allCardIds
    ensures Ready(s, winner, loser)
  {
    assert winner in s.fisher && loser in s.fisher;
    var h := s.comparisonHistory;
    forall k | 0 <= k < |h|
      ensures Matchups(h)[k].0 in s.mu && Matchups(h)[k].1 in s.mu
    {
      assert h[k].winner in s.allCardIds && h[k].loser in s.allCardIds;
    }
  }

  /** `counts[id] = (counts[id] ?? 0) + 1`. */
  function Bump(counts: map<string, nat>, id: string): map<string, nat> {
    counts[id := (if id in counts then counts[id] else 0) + 1]
  }

  /** The strengths, informations and uncertainties of the cards. */
  datatype Ratings = Ratings(mu: map<string, real>, fisher: map<string, real>, sigma: map<string, real>)

  /** The gradient step and the Fisher-information step of
      updateAfterComparison: with p the probability that `winner` beats
      `loser`, the winner gains the learning rate times 1 - p and the loser
      loses as much (its gradient is -learningRate * (1 - p)); both gain
      the information p (1 - p), since the loser's (1 - p) p is the same;
      and both uncertainties become 1/sqrt(information + Epsilon). */
  function Rate(m: Numerics, s: State, winner: string, loser: string): Ratings
    requires Lawful(m) && Ready(s, winner, loser)
  {
    var p := Probability(m, s.mu[winner], s.mu[loser]);
    var step := Gain(LearningRate(s.used, s.cycleCount), p);
    var pLoser := 1.0 - p;
    var fisher := s.fisher[winner := s.fisher[winner] + Information(p)][loser := s.fisher[loser] + Information(pLoser)];
    Ratings(
      s.mu[winner := s.mu[winner] + step][loser := s.mu[loser] - step],
      fisher,
      s.sigma[winner := Uncertainty(m, fisher[winner] + Epsilon)][loser := Uncertainty(m, fisher[loser] + Epsilon)])
  }

  /** The state after `winner` beat `loser`: one count more for each player,
      one cycle more when `loser` already reached `winner`, the edge added,
      the ratings of `Rate`, and the comparison, the log-likelihood of all
      results under the new strengths and the new top 11 recorded. */
  ghost function Step(m: Numerics, s: State, winner: string, loser: string): (r: State)
    requires Lawful(m) && Ready(s, winner, loser)
    ensures r.used == s.used + 1 && r.cycleCount <= s.cycleCount + 1
    ensures |r.comparisonHistory| == |s.comparisonHistory| + 1
    ensures r.comparisonHistory[..|s.comparisonHistory|] == s.comparisonHistory
    ensures r.comparisonHistory[|s.comparisonHistory|].winner == winner
    ensures r.comparisonHistory[|s.comparisonHistory|].loser == loser
    ensures r.allCardIds == s.allCardIds
    ensures r.minComparisons == s.minComparisons && r.maxComparisons == s.maxComparisons
  {
    var r := Rate(m, s, winner, loser);
    var games := Matchups(s.comparisonHistory) + [(winner, loser)];
    GamesScored(m, s, winner, loser);
    var ll := LogLikelihood(m, r.mu, games);
    s.(appearedCount := Bump(Bump(s.appearedCount, winner), loser),
       cycleCount := s.cycleCount + if Reachable(s.graph, loser, winner) then 1 else 0,
       graph := AddEdge(s.graph, winner, loser),
       mu := r.mu, fisher := r.fisher, sigma := r.sigma,
       comparisonHistory := s.comparisonHistory + [Comparison(winner, loser, ll)],
       likelihoodHistory := s.likelihoodHistory + [ll],
       rankHistory := s.rankHistory + [TopK(r.mu, s.allCardIds, TopKImportant)],
       used := s.used + 1)
  }

  /** updateAfterComparison: the copy of the state it returns, updated step
      by step, is the state `Step` describes. */
  method UpdateAfterComparison(m: Numerics, state: State, winner: string, loser: string)
    returns (next: State)
    requires Lawful(m) && Ready(state, winner, loser)
    ensures next == Step(m, state, winner, loser)
  {
    var appearedCount := state.appearedCount;
    appearedCount := Bump(appearedCount, winner);
    appearedCount := Bump(appearedCount, loser);

    var cycleCount := state.cycleCount;
    var cycle := WouldCreateCycle(state.graph, winner, loser);
    if cycle {
      cycleCount := state.cycleCount + 1;
    }
    var graph := AddEdge(state.graph, winner, loser);

    var ratings := Rate(m, state, winner, loser);

    var games := Matchups(state.comparisonHistory) + [(winner, loser)];
    GamesScored(m, state, winner, loser);
    var ll := CalculateLogLikelihood(m, ratings.mu, games);
    var currentTopK := TopK(ratings.mu, state.allCardIds, TopKImportant);
    next := state.(
      mu := ratings.mu, fisher := ratings.fisher, sigma := ratings.sigma,
      graph := graph, cycleCount := cycleCount,
      comparisonHistory := state.comparisonHistory + [Comparison(winner, loser, ll)],
      likelihoodHistory := state.likelihoodHistory + [ll],
      rankHistory := state.rankHistory + [currentTopK],
      used := state.used + 1,
      appearedCount := appearedCount);
  }

  /** Every card of the history, and the two new players, have a strength after the step. */
  lemma GamesScored(m: Numerics, s: State, winner: string, loser: string)
    requires Lawful(m) && Ready(s, winner, loser)
    ensures Known(Matchups(s.comparisonHistory) + [(winner, loser)], Rate(m, s, winner, loser).mu)
    ensures Scored(s.allCardIds, Rate(m, s, winner, loser).mu)
  {
    var games := Matchups(s.comparisonHistory);
    assert forall k :: 0 <= k < |games| ==> games[k].0 in s.mu && games[k].1 in s.mu;
  }

  /** Appending one comparison extends the graph, the cycle count and the
      counts by that comparison alone. */
  lemma HistoryStep(h: seq<Comparison>, c: Comparison)
    ensures GraphOf(h + [c]) == AddEdge(GraphOf(h), c.winner, c.loser)
    ensures Cycles(h + [c]) == Cycles(h) + if Reachable(GraphOf(h), c.loser, c.winner) then 1 else 0
    ensures forall id :: Mentions(h + [c], id) == Mentions(h, id) + if c.winner == id || c.loser == id then 1 else 0
  {
    assert (h + [c])[..|h|] == h;
  }

  /** Counting both players keeps the counts in step with the history. */
  lemma CountedStep(counts: map<string, nat>, h: seq<Comparison>, c: Comparison)
    requires Counted(counts, h) && c.winner != c.loser && c.winner in counts && c.loser in counts
    ensures Counted(Bump(Bump(counts, c.winner), c.loser), h + [c])
  {
    HistoryStep(h, c);
    var next := Bump(Bump(counts, c.winner), c.loser);
    forall id | id in next
      ensures next[id] == Mentions(h + [c], id)
    {
      if id != c.winner && id != c.loser {
        assert id in counts;
      }
    }
  }

  /** The winner gains exactly what the loser gives up, and no other card moves. */
  lemma RateMovesStrengths(m: Numerics, s: State, winner: string, loser: string)
    requires Lawful(m) && Ready(s, winner, loser)
    ensures var r := Rate(m, s, winner, loser);
            r.mu.Keys == s.mu.Keys &&
            r.mu[winner] > s.mu[winner] && r.mu[loser] < s.mu[loser] &&
            r.mu[winner] - s.mu[winner] == s.mu[loser] - r.mu[loser] &&
            forall id :: id in s.mu && id != winner && id != loser ==> r.mu[id] == s.mu[id]
  {
  }

  /** The strengths of a duplicate-free list of cards keep their sum through a step. */
  lemma RateCentred(m: Numerics, s: State, winner: string, loser: string)
    requires Lawful(m) && Ready(s, winner, loser) && Distinct(s.allCardIds)
    requires winner in s.allCardIds && loser in s.allCardIds
    ensures Scored(s.allCardIds, Rate(m, s, winner, loser).mu)
    ensures StrengthSum(s.allCardIds, Rate(m, s, winner, loser).mu) == StrengthSum(s.allCardIds, s.mu)
  {
    var p := Probability(m, s.mu[winner], s.mu[loser]);
    var step := Gain(LearningRate(s.used, s.cycleCount), p);
    var mu1 := s.mu[winner := s.mu[winner] + step];
    StrengthSumUpdate(s.allCardIds, s.mu, winner, s.mu[winner] + step);
    StrengthSumUpdate(s.allCardIds, mu1, loser, s.mu[loser] - step);
  }

  /** Both players gain information, and their uncertainties follow it. */
  lemma CalibratedStep(m: Numerics, s: State, winner: string, loser: string)
    requires Lawful(m) && Ready(s, winner, loser)
    requires Calibrated(m, s.appearedCount, s.fisher, s.sigma)
    ensures var r := Rate(m, s, winner, loser);
            Calibrated(m, Bump(Bump(s.appearedCount, winner), loser), r.fisher, r.sigma)
  {
    var p := Probability(m, s.mu[winner], s.mu[loser]);
    var fisher1 := s.fisher[winner := s.fisher[winner] + Information(p)];
    var fisher := fisher1[loser := s.fisher[loser] + Information(1.0 - p)];
    var sigma1 := s.sigma[winner := Uncertainty(m, fisher[winner] + Epsilon)];
    CalibratedUpdate(m, s.appearedCount, s.fisher, s.sigma, winner, fisher[winner], sigma1[winner]);
    CalibratedUpdate(m, Bump(s.appearedCount, winner), fisher1, sigma1, loser, fisher[loser],
                     Uncertainty(m, fisher[loser] + Epsilon));
  }

  /** One card gaining information keeps the informations and uncertainties calibrated. */
  lemma CalibratedUpdate(m: Numerics, counts: map<string, nat>, fisher: map<string, real>, sigma: map<string, real>,
                         id: string, f: real, u: real)
    requires Lawful(m) && Calibrated(m, counts, fisher, sigma)
    requires id in fisher && f > fisher[id] && u == Uncertainty(m, f + Epsilon)
    ensures Calibrated(m, Bump(counts, id), fisher[id := f], sigma[id := u])
  {
    assert fisher[id] >= Epsilon;
  }

  /** The new uncertainty of either player is below its old one. */
  lemma RateSharpens(m: Numerics, s: State, winner: string, loser: string)
    requires Lawful(m) && Ready(s, winner, loser)
    requires Calibrated(m, s.appearedCount, s.fisher, s.sigma)
    ensures var r := Rate(m, s, winner, loser);
            var p := Probability(m, s.mu[winner], s.mu[loser]);
            r.fisher[winner] - s.fisher[winner] == Information(p) &&
            r.fisher[loser] - s.fisher[loser] == Information(p)
    ensures var r := Rate(m, s, winner, loser);
            r.fisher[winner] > s.fisher[winner] && r.fisher[loser] > s.fisher[loser] &&
            r.sigma[winner] < s.sigma[winner] && r.sigma[loser] < s.sigma[loser]
  {
    InformationSymmetric(Probability(m, s.mu[winner], s.mu[loser]));
    var r := Rate(m, s, winner, loser);
    Sharper(m, s, r, winner);
    Sharper(m, s, r, loser);
  }

  lemma Sharper(m: Numerics, s: State, r: Ratings, id: string)
    requires Lawful(m) && Calibrated(m, s.appearedCount, s.fisher, s.sigma)
    requires id in s.fisher && id in r.fisher && id in r.sigma
    requires r.fisher[id] > s.fisher[id] && r.sigma[id] == Uncertainty(m, r.fisher[id] + Epsilon)
    ensures r.sigma[id] < s.sigma[id]
  {
    if s.appearedCount[id] == 0 {
      UncertaintyFalls(m, Epsilon, r.fisher[id] + Epsilon);
    } else {
      UncertaintyFalls(m, s.fisher[id] + Epsilon, r.fisher[id] + Epsilon);
    }
  }

  /** updateAfterComparison keeps a state in agreement with its history. */
  lemma StepKeepsValid(m: Numerics, s: State, winner: string, loser: string)
    requires Lawful(m) && Valid(s, m)
    requires winner != loser && winner in s.allCardIds && loser in s.allCardIds
    ensures Ready(s, winner, loser) && Valid(Step(m, s, winner, loser), m)
  {
    ValidIsReady(m, s, winner, loser);
    StepWellFormed(m, s, winner, loser);
    StepRecords(m, s, winner, loser);
    CalibratedStep(m, s, winner, loser);
    RateCentred(m, s, winner, loser);
  }

  lemma StepWellFormed(m: Numerics, s: State, winner: string, loser: string)
    requires Lawful(m) && Ready(s, winner, loser) && WellFormed(s)
    requires winner in s.allCardIds && loser in s.allCardIds
    ensures WellFormed(Step(m, s, winner, loser))
  {
  }

  lemma StepRecords(m: Numerics, s: State, winner: string, loser: string)
    requires Lawful(m) && Ready(s, winner, loser)
    requires Played(s.comparisonHistory, s.allCardIds) && winner in s.allCardIds && loser in s.allCardIds
    requires s.graph == GraphOf(s.comparisonHistory) && s.cycleCount == Cycles(s.comparisonHistory)
    requires Counted(s.appearedCount, s.comparisonHistory)
    ensures var n := Step(m, s, winner, loser);
            Played(n.comparisonHistory, n.allCardIds) &&
            n.graph == GraphOf(n.comparisonHistory) && n.cycleCount == Cycles(n.comparisonHistory) &&
            Counted(n.appearedCount, n.comparisonHistory)
  {
    var n := Step(m, s, winner, loser);
    var h := s.comparisonHistory;
    var c := n.comparisonHistory[|h|];
    assert n.comparisonHistory == h + [c];
    HistoryStep(h, c);
    CountedStep(s.appearedCount, h, c);
  }

  /** Comparisons only ever lower uncertainty: a card that has taken part in
      a comparison is less uncertain than a fresh one. */
  lemma ComparedIsSurer(m: Numerics, s: State, id: string)
    requires Lawful(m) && Valid(s, m) && id in s.allCardIds && s.appearedCount[id] > 0
    ensures s.sigma[id] < Uncertainty(m, Epsilon)
  {
    assert id in s.fisher;
    Surer(m, s.appearedCount, s.fisher, s.sigma, id);
  }

  lemma Surer(m: Numerics, counts: map<string, nat>, fisher: map<string, real>, sigma: map<string, real>, id: string)
    requires Lawful(m) && Calibrated(m, counts, fisher, sigma)
    requires id in fisher && id in counts && counts[id] > 0
    ensures sigma[id] < Uncertainty(m, Epsilon)
  {
    UncertaintyFalls(m, Epsilon, fisher[id] + Epsilon);
  }

  /** At most one cycle is counted per comparison. */
  lemma {:induction false} CyclesBounded(h: seq<Comparison>)
    ensures Cycles(h) <= |h|
  {
    if h != [] {
      CyclesBounded(h[..|h| - 1]);
    }
  }

  /** Every comparison involves two distinct cards, so the counts add up to twice the comparisons. */
  lemma {:induction false} MentionsTotal(ids: seq<string>, h: seq<Comparison>)
    requires Distinct(ids)
    requires forall k :: 0 <= k < |h| ==> h[k].winner in ids && h[k].loser in ids && h[k].winner != h[k].loser
    ensures MentionSum(ids, h) == 2 * |h|
  {
    if h != [] {
      var before, c := h[..|h| - 1], h[|h| - 1];
      assert h == before + [c];
      assert c.winner in ids && c.loser in ids && c.winner != c.loser;
      MentionsTotal(ids, before);
      MentionSumStep(ids, before, c);
      PairCounted(ids, c.winner, c.loser);
      assert MentionSum(ids, h) == MentionSum(ids, before) + 2;
    } else {
      NoMentions(ids);
    }
  }

  lemma {:induction false} NoMentions(ids: seq<string>)
    ensures MentionSum(ids, []) == 0
  {
    if ids != [] {
      NoMentions(ids[..|ids| - 1]);
    }
  }

  /** The total count over `ids`. */
  function MentionSum(ids: seq<string>, h: seq<Comparison>): nat {
    if ids == [] then 0 else MentionSum(ids[..|ids| - 1], h) + Mentions(h, ids[|ids| - 1])
  }

  /** The number of `ids` equal to `a` or `b`. */
  function Hits(ids: seq<string>, a: string, b: string): nat {
    if ids == [] then 0 else Hits(ids[..|ids| - 1], a, b) + if ids[|ids| - 1] == a || ids[|ids| - 1] == b then 1 else 0
  }

  lemma {:induction false} MentionSumStep(ids: seq<string>, h: seq<Comparison>, c: Comparison)
    ensures MentionSum(ids, h + [c]) == MentionSum(ids, h) + Hits(ids, c.winner, c.loser)
  {
    assert (h + [c])[..|h|] == h;
    if ids != [] {
      MentionSumStep(ids[..|ids| - 1], h, c);
    }
  }

  /** Two distinct members of a duplicate-free list are hit exactly twice. */
  lemma {:induction false} PairCounted(ids: seq<string>, a: string, b: string)
    requires Distinct(ids) && a != b
    ensures Hits(ids, a, b) == (if a in ids then 1 else 0) + (if b in ids then 1 else 0)
  {
    if ids != [] {
      var before, x := ids[..|ids| - 1], ids[|ids| - 1];
      PairCounted(before, a, b);
      assert ids == before + [x];
      assert x !in before;
    }
  }

  /** In a valid state the counts add up to twice the number of comparisons. */
  lemma AppearancesTotal(m: Numerics, s: State)
    requires Lawful(m) && Valid(s, m)
    ensures MentionSum(s.allCardIds, s.comparisonHistory) == 2 * s.used
    ensures s.cycleCount <= s.used
  {
    MentionsTotal(s.allCardIds, s.comparisonHistory);
    CyclesBounded(s.comparisonHistory);
  }
}
