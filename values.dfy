/** The value cards, the three-column split of a card count, the Fisher-Yates
    shuffle and the initial random layout of the board (lib/values.ts). */
module Values {
  import opened Common

  /** One value card; the list of cards is data loaded from a file, so it is a parameter here. */
  datatype ValueCard = ValueCard(id: CardId, name: string, description: string)

  /** The board always has three columns. */
  const ColumnCount: nat := 3

  /** The number of cards each column should hold when `total` cards are laid out:
      an even split, the remainder going to the leftmost columns. */
  function Distribution(total: nat): (d: seq<nat>)
    ensures |d| == ColumnCount
  {
    seq(ColumnCount, i requires 0 <= i < ColumnCount =>
      if i < total % ColumnCount then total / ColumnCount + 1 else total / ColumnCount)
  }

  /** A three-entry split of `total` that is as even as possible, larger entries first. */
  predicate EvenSplit(d: seq<nat>, total: nat) {
    |d| == ColumnCount && d[0] + d[1] + d[2] == total &&
    d[0] >= d[1] >= d[2] && d[0] <= d[2] + 1
  }

  lemma DistributionIsEvenSplit(total: nat)
    ensures EvenSplit(Distribution(total), total)
    ensures Sum(Distribution(total)) == total
  {
    SumOfThree(Distribution(total));
  }

  /** The even split is the only one: any three counts that sum to `total`, are
      non-increasing and differ by at most one are exactly `Distribution(total)`. */
  lemma {:induction false} EvenSplitUnique(d: seq<nat>, total: nat)
    requires EvenSplit(d, total)
    ensures d == Distribution(total)
  {
    var q := d[2];
    var r := (d[0] - q) + (d[1] - q);
    assert 0 <= r < 3 && total == 3 * q + r;
    assert total / 3 == q && total % 3 == r;
    var e := Distribution(total);
    assert d[0] == e[0] && d[1] == e[1] && d[2] == e[2];
  }

  /** Thirty-three cards give eleven per column. */
  lemma DistributionOfThirtyThree()
    ensures Distribution(33) == [11, 11, 11]
  {
    var d := Distribution(33);
    assert d[0] == 11 && d[1] == 11 && d[2] == 11;
  }

  /** calculateColumnDistribution: fills the three counts one column at a time. */
  method CalculateColumnDistribution(totalCards: nat) returns (distribution: seq<nat>)
    ensures EvenSplit(distribution, totalCards)
    ensures distribution == Distribution(totalCards)
  {
    var baseCardsPerColumn := totalCards / ColumnCount;
    var remainder := totalCards % ColumnCount;
    distribution := [];
    for i := 0 to ColumnCount
      invariant distribution == Distribution(totalCards)[..i]
    {
      if i < remainder {
        distribution := distribution + [baseCardsPerColumn + 1];
      } else {
        distribution := distribution + [baseCardsPerColumn];
      }
    }
    assert distribution == Distribution(totalCards);
    DistributionIsEvenSplit(totalCards);
  }

  /** shuffleArray: Fisher-Yates on a copy of the input. The i-th draw of
      `Math.random()` is `random[i]`, a number in [0, 1); the swap partner is
      `floor(random[i] * (i + 1))`. The input is a value and stays untouched. */
  method ShuffleArray<T>(items: seq<T>, random: seq<real>) returns (shuffled: seq<T>)
    requires |random| == |items|
    requires forall k :: 0 <= k < |random| ==> 0.0 <= random[k] < 1.0
    ensures shuffled == Shuffle(items, random)
    ensures |shuffled| == |items|
    ensures multiset(shuffled) == multiset(items)
  {
    var a := new T[|items|](k requires 0 <= k < |items| => items[k]);
    assert a[..] == items;
    ShuffleInPlace(a, random);
    shuffled := a[..];
    ShufflePermutes(items, random, |items| - 1);
  }

  /** The Fisher-Yates loop over the copy: steps `a.Length - 1` down to 1. */
  method ShuffleInPlace<T>(a: array<T>, random: seq<real>)
    requires |random| == a.Length
    requires forall k :: 0 <= k < |random| ==> 0.0 <= random[k] < 1.0
    modifies a
    ensures a[..] == Shuffle(old(a[..]), random)
  {
    var i := a.Length - 1;
    while i > 0
      invariant -1 <= i < a.Length
      invariant ShuffleFrom(a[..], random, i) == Shuffle(old(a[..]), random)
    {
      var j := SwapPartner(random[i], i);
      ghost var before := a[..];
      assert ShuffleFrom(before, random, i) == ShuffleFrom(Swap(before, i, j), random, i - 1);
      a[i], a[j] := a[j], a[i];
      assert a[..] == Swap(before, i, j);
      i := i - 1;
    }
  }

  /** Entries `i` and `j` exchanged. */
  function Swap<T>(s: seq<T>, i: nat, j: nat): (r: seq<T>)
    requires i < |s| && j < |s|
    ensures |r| == |s|
  {
    s[i := s[j]][j := s[i]]
  }

  /** The Fisher-Yates steps `i`, `i - 1`, ..., 1 applied to `s`, each
      exchanging entry `k` with the partner drawn from `random[k]`. */
  function ShuffleFrom<T>(s: seq<T>, random: seq<real>, i: int): (r: seq<T>)
    requires |random| == |s| && -1 <= i < |s|
    requires forall k :: 0 <= k < |random| ==> 0.0 <= random[k] < 1.0
    ensures |r| == |s|
    decreases i
  {
    if i <= 0 then s
    else ShuffleFrom(Swap(s, i, SwapPartner(random[i], i)), random, i - 1)
  }

  /** The shuffle of `items` under the draws `random`. */
  function Shuffle<T>(items: seq<T>, random: seq<real>): seq<T>
    requires |random| == |items|
    requires forall k :: 0 <= k < |random| ==> 0.0 <= random[k] < 1.0
  {
    ShuffleFrom(items, random, |items| - 1)
  }

  /** Every run of Fisher-Yates steps permutes its input. */
  lemma {:induction false} ShufflePermutes<T>(s: seq<T>, random: seq<real>, i: int)
    requires |random| == |s| && -1 <= i < |s|
    requires forall k :: 0 <= k < |random| ==> 0.0 <= random[k] < 1.0
    ensures multiset(ShuffleFrom(s, random, i)) == multiset(s)
    decreases i
  {
    if i > 0 {
      var j := SwapPartner(random[i], i);
      SwapKeepsMultiset(s, i, j);
      ShufflePermutes(Swap(s, i, j), random, i - 1);
    }
  }

  /** Exchanging two entries permutes a sequence. */
  lemma SwapKeepsMultiset<T>(s: seq<T>, i: nat, j: nat)
    requires i < |s| && j < |s|
    ensures multiset(s[i := s[j]][j := s[i]]) == multiset(s)
  {
  }

  /** The swap partner drawn at step `i`: `floor(r * (i + 1))` for a draw `0 <= r < 1`,
      which always lies in `[0, i]`. */
  function SwapPartner(r: real, i: nat): (j: nat)
    requires 0.0 <= r < 1.0
    ensures j <= i
  {
    var n := (i + 1) as real;
    ScaledDraw(r, n);
    (r * n).Floor
  }

  /** A draw in [0, 1) scaled by a positive `n` lies in [0, n). */
  lemma ScaledDraw(r: real, n: real)
    requires 0.0 <= r < 1.0 && n > 0.0
    ensures 0.0 <= r * n < n
  {
    var rest := 1.0 - r;
    assert rest * n > 0.0;
    assert r * n + rest * n == n;
  }

  /** The ids of a list of cards, in order. */
  function Ids(values: seq<ValueCard>): (ids: seq<CardId>)
    ensures |ids| == |values|
    ensures forall k :: 0 <= k < |values| ==> ids[k] == values[k].id
  {
    seq(|values|, k requires 0 <= k < |values| => values[k].id)
  }

  /** initializeColumns: shuffles the card ids and cuts them into the three
      columns at the distribution's boundaries. */
  method InitializeColumns(values: seq<ValueCard>, random: seq<real>) returns (columns: seq<seq<CardId>>)
    requires |random| == |values|
    requires forall k :: 0 <= k < |random| ==> 0.0 <= random[k] < 1.0
    ensures |columns| == ColumnCount
    ensures forall c :: 0 <= c < ColumnCount ==> |columns[c]| == Distribution(|values|)[c]
    ensures columns[0] + columns[1] + columns[2] == Shuffle(Ids(values), random)
    ensures multiset(columns[0] + columns[1] + columns[2]) == multiset(Ids(values))
  {
    var distribution := CalculateColumnDistribution(|values|);
    var shuffled := ShuffleArray(Ids(values), random);
    var startIndex := 0;
    var d0, d1 := distribution[0], distribution[1];
    columns := [shuffled[startIndex..startIndex + d0],
                shuffled[startIndex + d0..startIndex + d0 + d1],
                shuffled[startIndex + d0 + d1..]];
    SlicesOf(shuffled, distribution);
  }

  /** Three consecutive slices of the given lengths make up the whole list. */
  lemma SlicesOf(s: seq<CardId>, d: seq<nat>)
    requires |d| == ColumnCount && d[0] + d[1] + d[2] == |s|
    ensures s[..d[0]] + s[d[0]..d[0] + d[1]] + s[d[0] + d[1]..] == s
    ensures |s[..d[0]]| == d[0] && |s[d[0]..d[0] + d[1]]| == d[1] && |s[d[0] + d[1]..]| == d[2]
  {
  }
}
