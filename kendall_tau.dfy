/** Kendall's tau between two rankings (lib/bradleyTerry.ts, kendallTau):
    every pair of positions i < j of the first ranking is concordant when
    the second ranking puts the two ids in the same order, discordant
    otherwise, and skipped when either id is missing from the second; the
    result is (concordant - discordant) / (n (n - 1) / 2). */
module KendallTau {
  import opened Common

  /** `posB.get(x)`: the LAST index of `x` in `b`, since building the map
      from the entries of `b` lets later entries overwrite earlier ones. */
  function LastIndex(b: seq<string>, x: string): (r: Option<nat>)
    ensures r.Some? <==> x in b
    ensures r.Some? ==> r.value < |b| && b[r.value] == x
  {
    if b == [] then None
    else if b[|b| - 1] == x then Some(|b| - 1)
    else LastIndex(b[..|b| - 1], x)
  }

  /** No later entry of `b` holds `x`: the index is the last one. */
  lemma {:induction false} LastIndexIsLast(b: seq<string>, x: string)
    requires x in b
    ensures forall k :: LastIndex(b, x).value < k < |b| ==> b[k] != x
  {
    if b[|b| - 1] != x {
      var front := b[..|b| - 1];
      assert x in front by {
        var k :| 0 <= k < |b| && b[k] == x;
        assert front[k] == x;
      }
      LastIndexIsLast(front, x);
    }
  }

  datatype Order = Skipped | Concordant | Discordant

  /** How `b` orders the ids `x` (listed first by the first ranking) and `y`. */
  function Compare(b: seq<string>, x: string, y: string): (o: Order)
    ensures o.Skipped? <==> x !in b || y !in b
    ensures o.Concordant? <==> x in b && y in b && LastIndex(b, x).value < LastIndex(b, y).value
  {
    match (LastIndex(b, x), LastIndex(b, y))
    case (Some(px), Some(py)) => if px < py then Concordant else Discordant
    case _ => Skipped
  }

  /** The pairs (i, j) with i < j < m whose order is `o`. */
  function Tally(a: seq<string>, b: seq<string>, i: nat, m: nat, o: Order): nat
    requires i < m <= |a|
    decreases m
  {
    if m == i + 1 then 0
    else Tally(a, b, i, m - 1, o) + (if Compare(b, a[i], a[m - 1]) == o then 1 else 0)
  }

  /** The pairs (i, j) with i < r and i < j < |a| whose order is `o`. */
  function Total(a: seq<string>, b: seq<string>, r: nat, o: Order): nat
    requires r <= |a|
  {
    if r == 0 then 0 else Total(a, b, r - 1, o) + Tally(a, b, r - 1, |a|, o)
  }

  /** The number of pairs: `(n * (n - 1)) / 2` as a real. */
  function PairCount(n: nat): real {
    (n * (n - 1)) as real / 2.0
  }

  /** Kendall's tau of `a` against `b`; 0 when the lengths differ or there
      are fewer than two ids. */
  function Tau(a: seq<string>, b: seq<string>): real {
    if |a| != |b| || |a| < 2 then 0.0
    else (Total(a, b, |a|, Concordant) as real - Total(a, b, |a|, Discordant) as real) / PairCount(|a|)
  }

  /** kendallTau: builds the position map of `b`, then counts concordant and
      discordant pairs with two nested loops. */
  method KendallTau(a: seq<string>, b: seq<string>) returns (tau: real)
    ensures tau == Tau(a, b)
  {
    var n := |a|;
    if n != |b| || n < 2 {
      return 0.0;
    }
    var posB := PositionMap(b);
    var concordant, discordant := 0, 0;
    for i := 0 to n
      invariant concordant == Total(a, b, i, Concordant)
      invariant discordant == Total(a, b, i, Discordant)
    {
      RowStep(a, b, i, Concordant);
      RowStep(a, b, i, Discordant);
      for j := i + 1 to n
        invariant concordant == Total(a, b, i, Concordant) + Tally(a, b, i, j, Concordant)
        invariant discordant == Total(a, b, i, Discordant) + Tally(a, b, i, j, Discordant)
      {
        TallyStep(a, b, i, j, Concordant);
        TallyStep(a, b, i, j, Discordant);
        var idI, idJ := a[i], a[j];
        if idI !in posB || idJ !in posB {
          assert Compare(b, idI, idJ) == Skipped;
          continue;
        }
        assert Compare(b, idI, idJ) == if posB[idI] < posB[idJ] then Concordant else Discordant;
        if (posB[idI] < posB[idJ]) == (i < j) {
          concordant := concordant + 1;
        } else {
          discordant := discordant + 1;
        }
      }
    }
    assert concordant == Total(a, b, n, Concordant) && discordant == Total(a, b, n, Discordant);
    var totalPairs := PairCount(n);
    tau := (concordant as real - discordant as real) / totalPairs;
  }

  /** Visiting pair (i, j) adds it to the tally of its order and to no other. */
  lemma TallyStep(a: seq<string>, b: seq<string>, i: nat, j: nat, o: Order)
    requires i < j < |a|
    ensures Tally(a, b, i, j + 1, o) == Tally(a, b, i, j, o) + if Compare(b, a[i], a[j]) == o then 1 else 0
  {
  }

  /** Finishing row i adds its tally to the total of the rows before it. */
  lemma RowStep(a: seq<string>, b: seq<string>, i: nat, o: Order)
    requires i < |a|
    ensures Total(a, b, i + 1, o) == Total(a, b, i, o) + Tally(a, b, i, |a|, o)
  {
  }

  /** `new Map(rankingB.map((id, idx) => [id, idx]))`: each id of `b` mapped
      to its index, a later entry overwriting an earlier one. */
  method PositionMap(b: seq<string>) returns (pos: map<string, nat>)
    ensures forall x :: x in pos <==> x in b
    ensures forall x :: x in pos ==> LastIndex(b, x) == Some(pos[x])
  {
    pos := map[];
    for k := 0 to |b|
      invariant forall x :: x in pos <==> LastIndex(b[..k], x).Some?
      invariant forall x :: x in pos ==> LastIndex(b[..k], x) == Some(pos[x])
    {
      assert b[..k + 1][..k] == b[..k];
      pos := pos[b[k] := k];
    }
    assert b[..|b|] == b;
  }

  /** One row never counts more pairs than it has. */
  lemma {:induction false} TallyBound(a: seq<string>, b: seq<string>, i: nat, m: nat)
    requires i < m <= |a|
    ensures Tally(a, b, i, m, Concordant) + Tally(a, b, i, m, Discordant) <= m - i - 1
    decreases m
  {
    if m > i + 1 {
      TallyBound(a, b, i, m - 1);
    }
  }

  /** (n - 1) + (n - 2) + ... + (n - r): the number of pairs in the first `r` rows. */
  function Rows(n: nat, r: nat): int {
    if r == 0 then 0 else Rows(n, r - 1) + (n - r)
  }

  /** All rows together hold n (n - 1) / 2 pairs. */
  lemma {:induction false} RowsClosedForm(n: nat, r: nat)
    ensures 2 * Rows(n, r) == 2 * r * n - r * (r + 1)
  {
    if r > 0 {
      RowsClosedForm(n, r - 1);
      assert 2 * r * n - r * (r + 1) == 2 * (r - 1) * n - (r - 1) * r + 2 * (n - r);
    }
  }

  /** The first `r` rows count at most all their pairs. */
  lemma {:induction false} TotalBound(a: seq<string>, b: seq<string>, r: nat)
    requires r <= |a|
    ensures Total(a, b, r, Concordant) + Total(a, b, r, Discordant) <= Rows(|a|, r)
  {
    if r > 0 {
      TotalBound(a, b, r - 1);
      TallyBound(a, b, r - 1, |a|);
    }
  }

  /** Tau lies between -1 (every pair reversed) and 1 (every pair kept). */
  lemma TauBounds(a: seq<string>, b: seq<string>)
    ensures -1.0 <= Tau(a, b) <= 1.0
  {
    if |a| == |b| && |a| >= 2 {
      var n := |a|;
      TotalBound(a, b, n);
      RowsClosedForm(n, n);
      var c, d := Total(a, b, n, Concordant), Total(a, b, n, Discordant);
      assert 2 * (c + d) <= n * (n - 1);
      var p := PairCount(n);
      assert (c as real) + (d as real) <= p;
      assert p > 0.0 by {
        assert n * (n - 1) >= 2;
      }
      RatioWithin(c as real - d as real, p);
    }
  }

  /** |x| <= p with p > 0 puts x / p in [-1, 1]. */
  lemma RatioWithin(x: real, p: real)
    requires p > 0.0 && -p <= x <= p
    ensures -1.0 <= x / p <= 1.0
  {
  }

  /** A row where every pair has order `o` counts all of its pairs as `o`. */
  lemma {:induction false} TallyAll(a: seq<string>, b: seq<string>, i: nat, m: nat, o: Order)
    requires i < m <= |a|
    requires forall j :: i < j < m ==> Compare(b, a[i], a[j]) == o
    ensures Tally(a, b, i, m, o) == m - i - 1
    ensures forall o' :: o' != o ==> Tally(a, b, i, m, o') == 0
    decreases m
  {
    if m > i + 1 {
      TallyAll(a, b, i, m - 1, o);
    }
  }

  /** When every pair has order `o`, every pair of the first `r` rows counts as `o`. */
  lemma {:induction false} TotalAll(a: seq<string>, b: seq<string>, r: nat, o: Order)
    requires r <= |a|
    requires forall i, j :: 0 <= i < j < |a| ==> Compare(b, a[i], a[j]) == o
    ensures Total(a, b, r, o) == Rows(|a|, r)
    ensures forall o' :: o' != o ==> Total(a, b, r, o') == 0
  {
    if r > 0 {
      TotalAll(a, b, r - 1, o);
      TallyAll(a, b, r - 1, |a|, o);
      assert Total(a, b, r, o) == Total(a, b, r - 1, o) + Tally(a, b, r - 1, |a|, o);
      assert Rows(|a|, r) == Rows(|a|, r - 1) + (|a| - r);
      forall o' | o' != o
        ensures Total(a, b, r, o') == 0
      {
        assert Total(a, b, r, o') == Total(a, b, r - 1, o') + Tally(a, b, r - 1, |a|, o');
      }
    }
  }

  /** In a list without duplicates the last index of an entry is its index. */
  lemma LastIndexOfDistinct(s: seq<string>, k: nat)
    requires Distinct(s) && k < |s|
    ensures LastIndex(s, s[k]) == Some(k)
  {
  }

  /** The reversal of a list. */
  function Reverse(s: seq<string>): (r: seq<string>)
    ensures |r| == |s| && forall k :: 0 <= k < |s| ==> r[k] == s[|s| - 1 - k]
  {
    seq(|s|, k requires 0 <= k < |s| => s[|s| - 1 - k])
  }

  /** A ranking without duplicates agrees with itself completely: tau is 1. */
  lemma TauOfItself(a: seq<string>)
    requires Distinct(a) && |a| >= 2
    ensures Tau(a, a) == 1.0
  {
    var n := |a|;
    AllConcordant(a);
    TotalAll(a, a, n, Concordant);
    var c, d := Total(a, a, n, Concordant), Total(a, a, n, Discordant);
    assert d == 0 && c == Rows(n, n);
    AllRows(n);
    CountOverPairs(c, d, n);
  }

  /** Every pair of a duplicate-free ranking keeps its order in the ranking itself. */
  lemma AllConcordant(a: seq<string>)
    requires Distinct(a)
    ensures forall i, j :: 0 <= i < j < |a| ==> Compare(a, a[i], a[j]) == Concordant
  {
    forall i, j | 0 <= i < j < |a|
      ensures Compare(a, a[i], a[j]) == Concordant
    {
      LastIndexOfDistinct(a, i);
      LastIndexOfDistinct(a, j);
    }
  }

  /** A ranking without duplicates is completely reversed by its reverse: tau is -1. */
  lemma TauOfReverse(a: seq<string>)
    requires Distinct(a) && |a| >= 2
    ensures Tau(a, Reverse(a)) == -1.0
  {
    var b, n := Reverse(a), |a|;
    AllDiscordant(a);
    TotalAll(a, b, n, Discordant);
    var c, d := Total(a, b, n, Concordant), Total(a, b, n, Discordant);
    assert c == 0 && d == Rows(n, n);
    AllRows(n);
    CountOverPairs(c, d, n);
  }

  /** All the rows of an n-element ranking hold n (n - 1) / 2 pairs. */
  lemma AllRows(n: nat)
    ensures 2 * Rows(n, n) == n * (n - 1)
  {
    RowsClosedForm(n, n);
    assert 2 * n * n - n * (n + 1) == n * (n - 1);
  }

  /** The reverse of a duplicate-free ranking has no duplicates. */
  lemma ReverseDistinct(a: seq<string>)
    requires Distinct(a)
    ensures Distinct(Reverse(a))
  {
    var b, n := Reverse(a), |a|;
    forall i, j | 0 <= i < j < n ensures b[i] != b[j] {
      assert b[i] == a[n - 1 - i] && b[j] == a[n - 1 - j];
    }
  }

  /** Every pair of a duplicate-free ranking is discordant in its reverse. */
  lemma AllDiscordant(a: seq<string>)
    requires Distinct(a)
    ensures forall i, j :: 0 <= i < j < |a| ==> Compare(Reverse(a), a[i], a[j]) == Discordant
  {
    ReverseDistinct(a);
    forall i, j | 0 <= i < j < |a|
      ensures Compare(Reverse(a), a[i], a[j]) == Discordant
    {
      ReversedPair(a, Reverse(a), i, j);
    }
  }

  /** The reverse of a duplicate-free list orders every pair the other way round. */
  lemma ReversedPair(a: seq<string>, b: seq<string>, i: nat, j: nat)
    requires Distinct(b) && b == Reverse(a) && i < j < |a|
    ensures Compare(b, a[i], a[j]) == Discordant
  {
    var n := |a|;
    assert a[i] == b[n - 1 - i] && a[j] == b[n - 1 - j];
    LastIndexOfDistinct(b, n - 1 - i);
    LastIndexOfDistinct(b, n - 1 - j);
  }

  /** The arithmetic of the last step of kendallTau for the two extreme counts. */
  lemma CountOverPairs(c: nat, d: nat, n: nat)
    requires n >= 2
    requires (d == 0 && 2 * c == n * (n - 1)) || (c == 0 && 2 * d == n * (n - 1))
    ensures d == 0 ==> (c as real - d as real) / PairCount(n) == 1.0
    ensures c == 0 ==> (c as real - d as real) / PairCount(n) == -1.0
  {
    var p := PairCount(n);
    assert n * (n - 1) >= 2 by {
      assert n * (n - 1) >= 2 * (n - 1);
    }
    assert p > 0.0;
    if d == 0 {
      assert c as real == p;
    } else {
      assert d as real == p;
    }
  }

  /** Rankings of different lengths, or of fewer than two ids, give 0. */
  lemma TauDegenerate(a: seq<string>, b: seq<string>)
    requires |a| != |b| || |a| < 2
    ensures Tau(a, b) == 0.0
  {
  }
}
