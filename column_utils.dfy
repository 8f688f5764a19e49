/** The three-column board (lib/columnUtils.ts): rebalancing the columns to
    their target sizes, building columns from a flat order, flattening them
    back and finding a card's column.

    A board is the list of the three columns' card lists, indexed by position
    in `ColumnOrder`. Operations that only read columns take that list as a
    value; `BalanceTo` works on an `array` whose three cells are the column
    arrays the caller shares with it, and changes them in place. */
module ColumnUtils {
  import opened Common
  import Values

  datatype ColumnType = MostImportant | ModeratelyImportant | LeastImportant {
    /** The column's key in the JavaScript record. */
    function Name(): string {
      match this
      case MostImportant => "mostImportant"
      case ModeratelyImportant => "moderatelyImportant"
      case LeastImportant => "leastImportant"
    }
  }

  /** The display order of the columns, left to right. */
  const ColumnOrder: seq<ColumnType> := [MostImportant, ModeratelyImportant, LeastImportant]

  type Board = seq<seq<CardId>>

  predicate IsBoard(b: Board) {
    |b| == |ColumnOrder|
  }

  /** The lengths of the columns. */
  function Lengths(b: Board): (l: seq<nat>)
    ensures |l| == |b|
  {
    seq(|b|, c requires 0 <= c < |b| => |b[c]|)
  }

  /** All cards, column after column: the reading order of the board. */
  function Flatten(b: Board): seq<CardId>
    requires IsBoard(b)
  {
    b[0] + b[1] + b[2]
  }

  /** The first `c` columns appended in display order. */
  function FlattenFirst(b: Board, c: nat): seq<CardId>
    requires c <= |b|
  {
    if c == 0 then [] else FlattenFirst(b, c - 1) + b[c - 1]
  }

  /** The number of cards on a board is the sum of its column lengths. */
  lemma BoardSize(b: Board)
    requires IsBoard(b)
    ensures Sum(Lengths(b)) == |Flatten(b)|
  {
    SumOfThree(Lengths(b));
  }

  /** Cuts a flat order into three columns of the given lengths. */
  function Cut(order: seq<CardId>, d: seq<nat>): (b: Board)
    requires |d| == 3 && d[0] + d[1] + d[2] == |order|
    ensures IsBoard(b) && Lengths(b) == d
  {
    [order[..d[0]], order[d[0]..d[0] + d[1]], order[d[0] + d[1]..]]
  }

  lemma CutFlatten(order: seq<CardId>, d: seq<nat>)
    requires |d| == 3 && d[0] + d[1] + d[2] == |order|
    ensures Flatten(Cut(order, d)) == order
  {
    var b := Cut(order, d);
    assert b[0] + b[1] + b[2] == order;
  }

  /** Column `k` of a cut starts where the first `k` lengths end. */
  lemma CutAt(order: seq<CardId>, d: seq<nat>, k: nat)
    requires |d| == 3 && d[0] + d[1] + d[2] == |order| && k < 3
    ensures Sum(d[..k]) + d[k] == Sum(d[..k + 1]) <= |order|
    ensures order[Sum(d[..k])..Sum(d[..k + 1])] == Cut(order, d)[k]
  {
    assert d[..k + 1][..k] == d[..k];
    assert Sum(d[..k + 1]) == Sum(d[..k]) + d[k];
    assert d[..1][..0] == [] && d[..2][..1] == d[..1] && d[..3] == d;
    assert Sum(d[..1]) == d[0];
    assert Sum(d[..2]) == Sum(d[..2][..1]) + d[1];
  }

  /** A board is determined by its reading order and its column lengths. */
  lemma BoardFromFlatten(b: Board)
    requires IsBoard(b)
    ensures b == Cut(Flatten(b), Lengths(b))
  {
    var c := Cut(Flatten(b), Lengths(b));
    assert c[0] == b[0] && c[1] == b[1] && c[2] == b[2];
  }

  // ---------------------------------------------------------------------
  // Rebalancing. Each inner `while` loop of balanceColumns moves cards
  // one at a time between the ends of two neighbouring columns; the
  // functions below say where a whole loop leaves the board.
  // ---------------------------------------------------------------------

  /** The last `k` cards of column `i` moved to the front of column `i + 1`. */
  function ShiftTailRight(b: Board, i: nat, k: nat): (r: Board)
    requires IsBoard(b) && i + 1 < 3 && k <= |b[i]|
    ensures IsBoard(r)
    ensures |r[i]| == |b[i]| - k && |r[i + 1]| == |b[i + 1]| + k
    ensures forall c :: 0 <= c < 3 && c != i && c != i + 1 ==> r[c] == b[c]
  {
    var n := |b[i]| - k;
    b[i := b[i][..n]][i + 1 := b[i][n..] + b[i + 1]]
  }

  /** The first `k` cards of column `i` moved to the end of column `i - 1`. */
  function ShiftHeadLeft(b: Board, i: nat, k: nat): (r: Board)
    requires IsBoard(b) && 0 < i < 3 && k <= |b[i]|
    ensures IsBoard(r)
    ensures |r[i - 1]| == |b[i - 1]| + k && |r[i]| == |b[i]| - k
    ensures forall c :: 0 <= c < 3 && c != i - 1 && c != i ==> r[c] == b[c]
  {
    b[i - 1 := b[i - 1] + b[i][..k]][i := b[i][k..]]
  }

  lemma ShiftNothing(b: Board, i: nat)
    requires IsBoard(b) && 0 < i < 3
    ensures ShiftHeadLeft(b, i, 0) == b
  {
    assert b[i - 1] + b[i][..0] == b[i - 1] && b[i][0..] == b[i];
  }

  function Excess(len: nat, target: nat): nat {
    if len > target then len - target else 0
  }

  function Min(x: nat, y: nat): nat {
    if x <= y then x else y
  }

  /** First pass, one column: overflow of column `i` goes to the front of the next. */
  function OverflowRight(b: Board, i: nat, target: nat): (r: Board)
    requires IsBoard(b) && i + 1 < 3
    ensures IsBoard(r)
  {
    ShiftTailRight(b, i, Excess(|b[i]|, target))
  }

  /** Second pass, one column: overflow of column `i` goes to the end of the previous. */
  function OverflowLeft(b: Board, i: nat, target: nat): (r: Board)
    requires IsBoard(b) && 0 < i < 3
    ensures IsBoard(r)
  {
    ShiftHeadLeft(b, i, Excess(|b[i]|, target))
  }

  /** Third pass, one column: an underfull column `i` takes cards from the front of the next. */
  function FillFromNext(b: Board, i: nat, target: nat): (r: Board)
    requires IsBoard(b) && i + 1 < 3
    ensures IsBoard(r)
  {
    var want := if |b[i]| < target then target - |b[i]| else 0;
    ShiftHeadLeft(b, i + 1, Min(want, |b[i + 1]|))
  }

  /** The board after the first pass has handled columns `0 .. i - 1`
      (the last column has no next column and is skipped). */
  function RightPass(b: Board, t: seq<nat>, i: nat): (r: Board)
    requires IsBoard(b) && |t| == 3 && i <= 3
    ensures IsBoard(r)
  {
    if i == 0 then b
    else
      var p := RightPass(b, t, i - 1);
      if i < 3 then OverflowRight(p, i - 1, t[i - 1]) else p
  }

  /** The board after the second pass has handled columns `2` down to `i`. */
  function LeftPass(b: Board, t: seq<nat>, i: nat): (r: Board)
    requires IsBoard(b) && |t| == 3 && 1 <= i <= 3
    ensures IsBoard(r)
    decreases 3 - i
  {
    if i == 3 then b else OverflowLeft(LeftPass(b, t, i + 1), i, t[i])
  }

  /** The board after the third pass has handled columns `0 .. i - 1`. */
  function FillPass(b: Board, t: seq<nat>, i: nat): (r: Board)
    requires IsBoard(b) && |t| == 3 && i <= 2
    ensures IsBoard(r)
  {
    if i == 0 then b else FillFromNext(FillPass(b, t, i - 1), i - 1, t[i - 1])
  }

  /** The board after all three passes toward the per-column targets `t`. */
  function Balanced(b: Board, t: seq<nat>): (r: Board)
    requires IsBoard(b) && |t| == 3
    ensures IsBoard(r)
  {
    FillPass(LeftPass(RightPass(b, t, 3), t, 1), t, 2)
  }

  // --- Moving cards between column ends never changes the reading order.

  lemma ShiftTailRightFlatten(b: Board, i: nat, k: nat)
    requires IsBoard(b) && i + 1 < 3 && k <= |b[i]|
    ensures Flatten(ShiftTailRight(b, i, k)) == Flatten(b)
  {
    var r := ShiftTailRight(b, i, k);
    var n := |b[i]| - k;
    assert b[i][..n] + b[i][n..] == b[i];
    if i == 0 {
      assert r[0] + r[1] + r[2] == b[0][..n] + (b[0][n..] + b[1]) + b[2];
    } else {
      assert r[0] + r[1] + r[2] == b[0] + b[1][..n] + (b[1][n..] + b[2]);
    }
  }

  lemma ShiftHeadLeftFlatten(b: Board, i: nat, k: nat)
    requires IsBoard(b) && 0 < i < 3 && k <= |b[i]|
    ensures Flatten(ShiftHeadLeft(b, i, k)) == Flatten(b)
  {
    var r := ShiftHeadLeft(b, i, k);
    assert b[i][..k] + b[i][k..] == b[i];
    if i == 1 {
      assert r[0] + r[1] + r[2] == (b[0] + b[1][..k]) + b[1][k..] + b[2];
    } else {
      assert r[0] + r[1] + r[2] == b[0] + (b[1] + b[2][..k]) + b[2][k..];
    }
  }

  lemma {:induction false} RightPassFlatten(b: Board, t: seq<nat>, i: nat)
    requires IsBoard(b) && |t| == 3 && i <= 3
    ensures Flatten(RightPass(b, t, i)) == Flatten(b)
  {
    if i > 0 {
      RightPassFlatten(b, t, i - 1);
      var p := RightPass(b, t, i - 1);
      if i < 3 { ShiftTailRightFlatten(p, i - 1, Excess(|p[i - 1]|, t[i - 1])); }
    }
  }

  lemma {:induction false} LeftPassFlatten(b: Board, t: seq<nat>, i: nat)
    requires IsBoard(b) && |t| == 3 && 1 <= i <= 3
    ensures Flatten(LeftPass(b, t, i)) == Flatten(b)
    decreases 3 - i
  {
    if i < 3 {
      LeftPassFlatten(b, t, i + 1);
      var p := LeftPass(b, t, i + 1);
      ShiftHeadLeftFlatten(p, i, Excess(|p[i]|, t[i]));
    }
  }

  lemma {:induction false} FillPassFlatten(b: Board, t: seq<nat>, i: nat)
    requires IsBoard(b) && |t| == 3 && i <= 2
    ensures Flatten(FillPass(b, t, i)) == Flatten(b)
  {
    if i > 0 {
      FillPassFlatten(b, t, i - 1);
      var p := FillPass(b, t, i - 1);
      var want := if |p[i - 1]| < t[i - 1] then t[i - 1] - |p[i - 1]| else 0;
      ShiftHeadLeftFlatten(p, i, Min(want, |p[i]|));
    }
  }

  /** Balancing keeps every card and the order in which the board reads. */
  lemma BalancedKeepsOrder(b: Board, t: seq<nat>)
    requires IsBoard(b) && |t| == 3
    ensures Flatten(Balanced(b, t)) == Flatten(b)
  {
    RightPassFlatten(b, t, 3);
    LeftPassFlatten(RightPass(b, t, 3), t, 1);
    FillPassFlatten(LeftPass(RightPass(b, t, 3), t, 1), t, 2);
  }

  /** What the passes do to the column lengths. The first pass leaves the
      first two columns at most at their targets, the second pass does the
      same for the last two; when the targets add up to the number of cards
      the columns are then exactly at their targets and the third pass moves
      nothing. */
  lemma BalancedLengths(b: Board, t: seq<nat>)
    requires IsBoard(b) && |t| == 3
    ensures |Balanced(b, t)[1]| <= t[1] && |Balanced(b, t)[2]| <= t[2]
    ensures t[0] + t[1] + t[2] == |Flatten(b)| ==> Lengths(Balanced(b, t)) == t
  {
    var p1 := RightPass(b, t, 1);
    var p2 := RightPass(b, t, 2);
    assert RightPass(b, t, 0) == b;
    assert p1 == OverflowRight(b, 0, t[0]);
    assert p2 == OverflowRight(p1, 1, t[1]);
    assert RightPass(b, t, 3) == p2;
    assert |p2[0]| <= t[0] && |p2[1]| <= t[1];
    var q2 := LeftPass(p2, t, 2);
    var q1 := LeftPass(p2, t, 1);
    assert q2 == OverflowLeft(p2, 2, t[2]);
    assert q1 == OverflowLeft(q2, 1, t[1]);
    assert |q1[1]| <= t[1] && |q1[2]| <= t[2];
    var f1 := FillPass(q1, t, 1);
    var f2 := FillPass(q1, t, 2);
    assert FillPass(q1, t, 0) == q1;
    assert f1 == FillFromNext(q1, 0, t[0]);
    assert f2 == FillFromNext(f1, 1, t[1]);
    assert f2 == Balanced(b, t);
    if t[0] + t[1] + t[2] == |Flatten(b)| {
      RightPassFlatten(b, t, 3);
      LeftPassFlatten(p2, t, 1);
      assert |Flatten(q1)| == |Flatten(b)|;
      assert |q1[0]| == t[0] && |q1[1]| == t[1] && |q1[2]| == t[2];
      ShiftNothing(q1, 1);
      assert f1 == q1;
      ShiftNothing(q1, 2);
      assert f2 == q1;
      assert Lengths(f2) == [|f2[0]|, |f2[1]|, |f2[2]|];
    }
  }

  /** With targets that add up to the number of cards, every column ends at
      exactly its target, whatever the lengths it started with. */
  lemma BalancedReachesTargets(b: Board, t: seq<nat>)
    requires IsBoard(b) && |t| == 3
    requires t[0] + t[1] + t[2] == |Flatten(b)|
    ensures Lengths(Balanced(b, t)) == t
  {
    BalancedLengths(b, t);
  }

  /** Balancing toward the split of its own card count gives exactly the
      columns cut from the board's reading order. */
  lemma BalancedIsCut(b: Board, t: seq<nat>)
    requires IsBoard(b) && |t| == 3
    requires t[0] + t[1] + t[2] == |Flatten(b)|
    ensures Balanced(b, t) == Cut(Flatten(b), t)
  {
    var r := Balanced(b, t);
    BalancedReachesTargets(b, t);
    BalancedKeepsOrder(b, t);
    BoardFromFlatten(r);
  }

  /** A board whose columns are already at their targets is left unchanged. */
  lemma BalancedAtTargets(b: Board, t: seq<nat>)
    requires IsBoard(b) && Lengths(b) == t
    ensures Balanced(b, t) == b
  {
    BalancedIsCut(b, t);
    BoardFromFlatten(b);
  }

  // --- The loops.

  /** `while (col[i].length > target && nextCol) { next.unshift(col[i].pop()) }` */
  method OverflowRightLoop(cols: array<seq<CardId>>, i: nat, target: nat)
    requires cols.Length == 3 && i + 1 < 3
    modifies cols
    ensures cols[..] == OverflowRight(old(cols[..]), i, target)
  {
    ghost var b := cols[..];
    assert b[i][..|b[i]|] == b[i] && b[i][|b[i]|..] + b[i + 1] == b[i + 1];
    assert cols[..] == ShiftTailRight(b, i, 0);
    while |cols[i]| > target
      invariant |cols[i]| <= |b[i]|
      invariant |b[i]| <= target ==> |cols[i]| == |b[i]|
      invariant |b[i]| > target ==> |cols[i]| >= target
      invariant cols[..] == ShiftTailRight(b, i, |b[i]| - |cols[i]|)
      decreases |cols[i]|
    {
      ghost var before := cols[..];
      var n := |cols[i]| - 1;
      var overflow := cols[i][n];
      cols[i] := cols[i][..n];
      cols[i + 1] := [overflow] + cols[i + 1];
      ghost var k := |b[i]| - |before[i]|;
      assert b[i][..|b[i]| - k][..n] == b[i][..|b[i]| - (k + 1)];
      assert [overflow] + (b[i][|b[i]| - k..] + b[i + 1]) == b[i][|b[i]| - (k + 1)..] + b[i + 1];
    }
  }

  /** `while (col[i].length > target) { prev.push(col[i].shift()) }` */
  method OverflowLeftLoop(cols: array<seq<CardId>>, i: nat, target: nat)
    requires cols.Length == 3 && 0 < i < 3
    modifies cols
    ensures cols[..] == OverflowLeft(old(cols[..]), i, target)
  {
    ghost var b := cols[..];
    assert b[i][0..] == b[i] && b[i - 1] + b[i][..0] == b[i - 1];
    assert cols[..] == ShiftHeadLeft(b, i, 0);
    while |cols[i]| > target
      invariant |cols[i]| <= |b[i]|
      invariant |b[i]| <= target ==> |cols[i]| == |b[i]|
      invariant |b[i]| > target ==> |cols[i]| >= target
      invariant cols[..] == ShiftHeadLeft(b, i, |b[i]| - |cols[i]|)
      decreases |cols[i]|
    {
      ghost var k := |b[i]| - |cols[i]|;
      var overflow := cols[i][0];
      cols[i] := cols[i][1..];
      cols[i - 1] := cols[i - 1] + [overflow];
      assert b[i][k..][1..] == b[i][k + 1..];
      assert b[i - 1] + b[i][..k] + [overflow] == b[i - 1] + b[i][..k + 1];
    }
  }

  /** `while (col[i].length < target && next.length > 0) { col[i].push(next.shift()) }` */
  method FillFromNextLoop(cols: array<seq<CardId>>, i: nat, target: nat)
    requires cols.Length == 3 && i + 1 < 3
    modifies cols
    ensures cols[..] == FillFromNext(old(cols[..]), i, target)
  {
    ghost var b := cols[..];
    ghost var moved: nat := 0;
    assert b[i + 1][0..] == b[i + 1] && b[i] + b[i + 1][..0] == b[i];
    assert cols[..] == ShiftHeadLeft(b, i + 1, 0);
    while |cols[i]| < target && |cols[i + 1]| > 0
      invariant moved <= |b[i + 1]|
      invariant cols[..] == ShiftHeadLeft(b, i + 1, moved)
      invariant moved > 0 ==> |b[i]| + moved <= target
      decreases |b[i + 1]| - moved
    {
      ghost var before := cols[..];
      var current, next := cols[i], cols[i + 1];
      var card := next[0];
      cols[i + 1] := next[1..];
      cols[i] := current + [card];
      assert b[i + 1][moved..][1..] == b[i + 1][moved + 1..];
      assert b[i] + b[i + 1][..moved] + [card] == b[i] + b[i + 1][..moved + 1];
      assert cols[..] == before[i := current + [card]][i + 1 := next[1..]];
      moved := moved + 1;
    }
  }

  /** The three passes of balanceColumns toward per-column targets, changing
      the caller's column arrays in place. */
  method BalanceTo(cols: array<seq<CardId>>, target: seq<nat>)
    requires cols.Length == 3 && |target| == 3
    modifies cols
    ensures cols[..] == Balanced(old(cols[..]), target)
  {
    ghost var b := cols[..];
    // Balance from left to right
    for i := 0 to 3
      invariant cols[..] == RightPass(b, target, i)
    {
      if i + 1 < 3 {
        OverflowRightLoop(cols, i, target[i]);
      }
    }
    // Balance from right to left
    for i := 3 downto 1
      invariant cols[..] == LeftPass(RightPass(b, target, 3), target, i)
    {
      OverflowLeftLoop(cols, i, target[i]);
    }
    // Fill underflow from the next column
    for i := 0 to 2
      invariant cols[..] == FillPass(LeftPass(RightPass(b, target, 3), target, 1), target, i)
    {
      FillFromNextLoop(cols, i, target[i]);
    }
  }

  /** balanceColumns: rebalances the board to the even split of its card count.
      The record copy is shallow, so the caller's column arrays end up equal to
      the result: the cards in the same reading order, cut at the split. */
  method BalanceColumns(cols: array<seq<CardId>>)
    requires cols.Length == 3
    modifies cols
    ensures Flatten(cols[..]) == Flatten(old(cols[..]))
    ensures Lengths(cols[..]) == Values.Distribution(|Flatten(old(cols[..]))|)
    ensures cols[..] == Cut(Flatten(old(cols[..])), Values.Distribution(|Flatten(old(cols[..]))|))
  {
    ghost var b := cols[..];
    var totalCards := 0;
    for c := 0 to 3
      invariant totalCards == Sum(Lengths(b[..c]))
    {
      assert Lengths(b[..c + 1])[..c] == Lengths(b[..c]);
      totalCards := totalCards + |cols[c]|;
    }
    assert b[..3] == b;
    BoardSize(b);
    var distribution := Values.CalculateColumnDistribution(totalCards);
    BalanceTo(cols, distribution);
    BalancedIsCut(b, distribution);
    BalancedKeepsOrder(b, distribution);
  }

  /** Rebalancing a balanced board changes nothing. */
  lemma BalanceIdempotent(b: Board)
    requires IsBoard(b)
    ensures var once := Cut(Flatten(b), Values.Distribution(|Flatten(b)|));
      Cut(Flatten(once), Values.Distribution(|Flatten(once)|)) == once
  {
    Values.DistributionIsEvenSplit(|Flatten(b)|);
    CutFlatten(Flatten(b), Values.Distribution(|Flatten(b)|));
  }

  /** columnsFromOrder: cuts a flat order into the three columns at the even
      split, advancing a cursor past each column. */
  method ColumnsFromOrder(order: seq<CardId>) returns (columns: Board)
    ensures IsBoard(columns)
    ensures Flatten(columns) == order
    ensures Lengths(columns) == Values.Distribution(|order|)
  {
    var distribution := Values.CalculateColumnDistribution(|order|);
    SumOfThree(distribution);
    ghost var cut := Cut(order, distribution);
    columns := [[], [], []];
    var cursor := 0;
    for columnIndex := 0 to 3
      invariant IsBoard(columns)
      invariant cursor == Sum(distribution[..columnIndex])
      invariant forall c :: 0 <= c < columnIndex ==> columns[c] == cut[c]
    {
      var count := distribution[columnIndex];
      CutAt(order, distribution, columnIndex);
      columns := columns[columnIndex := order[cursor..cursor + count]];
      cursor := cursor + count;
    }
    assert columns == cut;
    CutFlatten(order, distribution);
  }

  /** flattenColumns: appends the columns, in display order, to one list. */
  method FlattenColumns(columns: Board) returns (result: seq<CardId>)
    requires IsBoard(columns)
    ensures result == Flatten(columns)
    ensures |result| == Sum(Lengths(columns))
  {
    result := [];
    for c := 0 to |ColumnOrder|
      invariant result == FlattenFirst(columns, c)
    {
      result := result + columns[c];
    }
    assert FlattenFirst(columns, 1) == columns[0];
    BoardSize(columns);
  }

  /** The first column, in display order, holding `id`. */
  function FirstHolding(b: Board, id: CardId): (r: Option<nat>)
    requires IsBoard(b)
    ensures r.Some? ==> r.value < 3 && id in b[r.value] && forall e :: 0 <= e < r.value ==> id !in b[e]
    ensures r.None? <==> forall c :: 0 <= c < 3 ==> id !in b[c]
  {
    if id in b[0] then Some(0)
    else if id in b[1] then Some(1)
    else if id in b[2] then Some(2)
    else None
  }

  /** findColumnForCard: scans the columns in entry order (taken to be the
      display order) and returns the first that holds the card, or null. */
  method FindColumnForCard(columns: Board, cardId: CardId) returns (r: Option<ColumnType>)
    requires IsBoard(columns)
    ensures r.None? <==> forall c :: 0 <= c < 3 ==> cardId !in columns[c]
    ensures r.Some? ==> FirstHolding(columns, cardId).Some? &&
                        r.value == ColumnOrder[FirstHolding(columns, cardId).value]
  {
    for c := 0 to 3
      invariant forall e :: 0 <= e < c ==> cardId !in columns[e]
    {
      if cardId in columns[c] {
        return Some(ColumnOrder[c]);
      }
    }
    return None;
  }
}
