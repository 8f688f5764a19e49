/** The sorting page's own column logic (app/page.tsx): its copy of the
    balancing routine, which aims at eleven cards per column, and the step of
    the drag-over handler that moves a card into another column. */
module Page {
  import opened Common
  import opened ColumnUtils
  import Values

  /** The page balances every column towards eleven cards. */
  const PageTargets: seq<nat> := [11, 11, 11]

  /** balanceColumns (page copy): the three passes of the library routine
      with eleven as every column's target. It works on the column arrays
      themselves, as the spread copy of the record shares them. */
  method BalanceColumns(cols: array<seq<CardId>>)
    requires cols.Length == 3
    modifies cols
    ensures cols[..] == Balanced(old(cols[..]), PageTargets)
    ensures Flatten(cols[..]) == Flatten(old(cols[..]))
    ensures |cols[1]| <= 11 && |cols[2]| <= 11
    ensures |Flatten(old(cols[..]))| == 33 ==> Lengths(cols[..]) == PageTargets
    ensures Lengths(old(cols[..])) == PageTargets ==> cols[..] == old(cols[..])
  {
    ghost var b := cols[..];
    BalanceTo(cols, PageTargets);
    PageBalanceKeepsOrder(b);
    PageBalanceCaps(b);
    if Lengths(b) == PageTargets {
      BalancedAtTargets(b, PageTargets);
    }
  }

  /** Balancing towards eleven keeps the reading order of the cards. */
  lemma PageBalanceKeepsOrder(b: Board)
    requires IsBoard(b)
    ensures Flatten(Balanced(b, PageTargets)) == Flatten(b)
  {
    BalancedKeepsOrder(b, PageTargets);
  }

  /** Balancing towards eleven leaves at most eleven cards in the middle and
      right columns, and with the app's thirty-three cards exactly eleven in each. */
  lemma PageBalanceCaps(b: Board)
    requires IsBoard(b)
    ensures |Balanced(b, PageTargets)[1]| <= 11 && |Balanced(b, PageTargets)[2]| <= 11
    ensures |Flatten(b)| == 33 ==> Lengths(Balanced(b, PageTargets)) == PageTargets
  {
    BalancedLengths(b, PageTargets);
  }

  /** With thirty-three cards the page's balancing agrees with the library's
      balanceColumns, which cuts by the even distribution. */
  lemma PageBalanceAgreesWithLibrary(b: Board)
    requires IsBoard(b) && |Flatten(b)| == 33
    ensures Balanced(b, PageTargets) == Cut(Flatten(b), Values.Distribution(|Flatten(b)|))
  {
    Values.DistributionOfThirtyThree();
    BalancedIsCut(b, PageTargets);
  }

  /** The column whose droppable id is `overId`, if any. */
  function ColumnNamed(overId: string): (r: Option<nat>)
    ensures r.Some? ==> r.value < 3 && ColumnOrder[r.value].Name() == overId
    ensures r.None? <==> forall c :: 0 <= c < 3 ==> ColumnOrder[c].Name() != overId
  {
    if overId == ColumnOrder[0].Name() then Some(0)
    else if overId == ColumnOrder[1].Name() then Some(1)
    else if overId == ColumnOrder[2].Name() then Some(2)
    else None
  }

  /** The column a card dragged out of column `source` lands in when it is over
      `overId`: a column named `overId`, otherwise the first column holding
      the card `overId`, otherwise `source` itself. */
  function TargetColumn(b: Board, source: nat, overId: string): (t: nat)
    requires IsBoard(b) && source < 3
    ensures t < 3
    ensures ColumnNamed(overId).Some? ==> t == ColumnNamed(overId).value
    ensures ColumnNamed(overId).None? && FirstHolding(b, overId).Some? ==> t == FirstHolding(b, overId).value
    ensures ColumnNamed(overId).None? && FirstHolding(b, overId).None? ==> t == source
  {
    match ColumnNamed(overId)
    case Some(c) => c
    case None =>
      match FirstHolding(b, overId)
      case Some(c) => c
      case None => source
  }

  /** The list without any occurrence of `x` (`filter((id) => id !== x)`). */
  function Without(s: seq<CardId>, x: CardId): (r: seq<CardId>)
    ensures x !in r
  {
    if s == [] then []
    else if s[0] == x then Without(s[1..], x)
    else [s[0]] + Without(s[1..], x)
  }

  /** Filtering removes exactly the occurrences of `x`: every other card keeps
      its multiplicity. */
  lemma {:induction false} WithoutMultiset(s: seq<CardId>, x: CardId)
    ensures multiset(Without(s, x)) == multiset(s)[x := 0]
  {
    if s == [] {
    } else {
      WithoutMultiset(s[1..], x);
      assert s == [s[0]] + s[1..];
    }
  }

  /** The first position of `x` in `s` (`indexOf`), None for -1. */
  function IndexOf(s: seq<CardId>, x: CardId): (r: Option<nat>)
    ensures r.Some? ==> r.value < |s| && s[r.value] == x && x !in s[..r.value]
    ensures r.None? <==> x !in s
  {
    if s == [] then None
    else if s[0] == x then Some(0)
    else match IndexOf(s[1..], x)
      case None => None
      case Some(k) => assert s[..k + 1] == [s[0]] + s[1..][..k]; Some(k + 1)
  }

  /** `s` with `x` placed at position `k`: `splice(k, 0, x)`, or `push` when `k == |s|`. */
  function InsertAt(s: seq<CardId>, k: nat, x: CardId): seq<CardId>
    requires k <= |s|
  {
    s[..k] + [x] + s[k..]
  }

  /** The cross-column move: the card leaves every place in its source column
      and is placed just before `overId` in the target column, or at its end. */
  function MoveAcross(b: Board, source: nat, target: nat, activeId: CardId, overId: string): (r: Board)
    requires IsBoard(b) && source < 3 && target < 3 && source != target
    ensures IsBoard(r)
  {
    var dest := b[target];
    var at := match IndexOf(dest, overId) case Some(k) => k case None => |dest|;
    b[source := Without(b[source], activeId)][target := InsertAt(dest, at, activeId)]
  }

  /** The board the drag-over handler leaves behind when the pointer is over `overId`. */
  function DragOver(b: Board, activeId: CardId, overId: string): (r: Board)
    requires IsBoard(b)
    ensures IsBoard(r)
  {
    match FirstHolding(b, activeId)
    case None => b
    case Some(source) =>
      var target := TargetColumn(b, source, overId);
      if source == target then b
      else Balanced(MoveAcross(b, source, target, activeId, overId), PageTargets)
  }

  /** After a cross-column move the card is gone from its source column and
      sits in the target column just before `overId` (or last), the target's
      other cards keeping their order; the third column is untouched. */
  lemma MoveAcrossPlaces(b: Board, source: nat, target: nat, activeId: CardId, overId: string)
    requires IsBoard(b) && source < 3 && target < 3 && source != target
    ensures var r := MoveAcross(b, source, target, activeId, overId);
            var k := if overId in b[target] then IndexOf(b[target], overId).value else |b[target]|;
            activeId !in r[source] &&
            k < |r[target]| && r[target][k] == activeId &&
            r[target][..k] + r[target][k + 1..] == b[target] &&
            (overId in b[target] ==> r[target][k + 1] == overId) &&
            forall c :: 0 <= c < 3 && c != source && c != target ==> r[c] == b[c]
  {
    var r := MoveAcross(b, source, target, activeId, overId);
    var dest := b[target];
    var k := if overId in dest then IndexOf(dest, overId).value else |dest|;
    assert r[target] == InsertAt(dest, k, activeId);
    InsertAtPlaces(dest, k, activeId);
  }

  /** Inserting at `k` puts `x` at index `k`, the old entry `k` right after it,
      and leaves the rest of the list in order around it. */
  lemma InsertAtPlaces(s: seq<CardId>, k: nat, x: CardId)
    requires k <= |s|
    ensures k < |InsertAt(s, k, x)| && InsertAt(s, k, x)[k] == x
    ensures InsertAt(s, k, x)[..k] + InsertAt(s, k, x)[k + 1..] == s
    ensures k < |s| ==> InsertAt(s, k, x)[k + 1] == s[k]
  {
    var r := InsertAt(s, k, x);
    assert r[..k] == s[..k];
    assert r[k + 1..] == s[k..];
    assert s[..k] + s[k..] == s;
  }

  /** The cards of a board, counted with multiplicity. */
  lemma FlattenMultiset(b: Board)
    requires IsBoard(b)
    ensures multiset(Flatten(b)) == multiset(b[0]) + multiset(b[1]) + multiset(b[2])
  {
  }

  /** Moving one copy of `card` from column `source` to column `target`, the
      third column untouched, keeps the number of copies of every card `x`. */
  lemma TradeCount(b: Board, r: Board, source: nat, target: nat, card: CardId, x: CardId)
    requires IsBoard(b) && IsBoard(r) && source < 3 && target < 3 && source != target
    requires multiset(r[source])[x] + multiset{card}[x] == multiset(b[source])[x]
    requires multiset(r[target])[x] == multiset(b[target])[x] + multiset{card}[x]
    requires r[3 - source - target] == b[3 - source - target]
    ensures multiset(Flatten(r))[x] == multiset(Flatten(b))[x]
  {
    FlattenMultiset(b);
    FlattenMultiset(r);
    var rc := [multiset(r[0])[x], multiset(r[1])[x], multiset(r[2])[x]];
    var bc := [multiset(b[0])[x], multiset(b[1])[x], multiset(b[2])[x]];
    assert rc[3 - source - target] == bc[3 - source - target];
    if source == 0 && target == 1 {
    } else if source == 0 {
    } else if source == 1 && target == 0 {
    } else if source == 1 {
    } else if target == 0 {
    } else {
    }
  }

  /** If one card leaves column `source` and arrives in column `target` while
      the third column stays as it is, the board holds the same cards. */
  lemma TradeKeepsCards(b: Board, r: Board, source: nat, target: nat, card: CardId)
    requires IsBoard(b) && IsBoard(r) && source < 3 && target < 3 && source != target
    requires multiset(r[source]) + multiset{card} == multiset(b[source])
    requires multiset(r[target]) == multiset(b[target]) + multiset{card}
    requires r[3 - source - target] == b[3 - source - target]
    ensures multiset(Flatten(r)) == multiset(Flatten(b))
  {
    forall x
      ensures multiset(Flatten(r))[x] == multiset(Flatten(b))[x]
    {
      assert multiset(r[source])[x] + multiset{card}[x] == multiset(b[source])[x];
      TradeCount(b, r, source, target, card, x);
    }
  }

  /** Filtering out a card that occurs once removes exactly that one copy. */
  lemma WithoutSingle(s: seq<CardId>, x: CardId)
    requires multiset(s)[x] == 1
    ensures multiset(Without(s, x)) + multiset{x} == multiset(s)
  {
    WithoutMultiset(s, x);
  }

  /** Inserting a card adds exactly one copy of it. */
  lemma InsertAtMultiset(s: seq<CardId>, k: nat, x: CardId)
    requires k <= |s|
    ensures multiset(InsertAt(s, k, x)) == multiset(s) + multiset{x}
  {
    assert s[..k] + s[k..] == s;
  }

  /** A card held once by the board and found in column `c` is held once by `c`. */
  lemma OnceInColumn(b: Board, c: nat, x: CardId)
    requires IsBoard(b) && c < 3 && x in b[c] && multiset(Flatten(b))[x] == 1
    ensures multiset(b[c])[x] == 1
  {
    FlattenMultiset(b);
    assert multiset(b[c])[x] >= 1;
    assert multiset(b[0])[x] + multiset(b[1])[x] + multiset(b[2])[x] == 1;
  }

  /** The move's effect column by column: the source loses the card, the
      target gains one copy of it, the third column is untouched. */
  lemma MoveAcrossColumns(b: Board, source: nat, target: nat, activeId: CardId, overId: string)
    requires IsBoard(b) && source < 3 && target < 3 && source != target
    ensures MoveAcross(b, source, target, activeId, overId)[source] == Without(b[source], activeId)
    ensures multiset(MoveAcross(b, source, target, activeId, overId)[target])
            == multiset(b[target]) + multiset{activeId}
    ensures MoveAcross(b, source, target, activeId, overId)[3 - source - target] == b[3 - source - target]
  {
    var dest := b[target];
    var k := match IndexOf(dest, overId) case Some(k) => k case None => |dest|;
    assert MoveAcross(b, source, target, activeId, overId)[target] == InsertAt(dest, k, activeId);
    InsertAtMultiset(dest, k, activeId);
  }

  /** A card that is on the board once is still on it once after the move, and
      no other card is gained or lost. */
  lemma MoveAcrossKeepsCards(b: Board, source: nat, target: nat, activeId: CardId, overId: string)
    requires IsBoard(b) && source < 3 && target < 3 && source != target
    requires activeId in b[source] && multiset(Flatten(b))[activeId] == 1
    ensures multiset(Flatten(MoveAcross(b, source, target, activeId, overId))) == multiset(Flatten(b))
  {
    OnceInColumn(b, source, activeId);
    var r := MoveAcross(b, source, target, activeId, overId);
    MoveAcrossColumns(b, source, target, activeId, overId);
    WithoutSingle(b[source], activeId);
    TradeKeepsCards(b, r, source, target, activeId);
  }

  /** A drag over the card's own column, or of a card that is on no column,
      changes nothing; a drag into another column keeps every card (if the
      dragged one was on the board once) and leaves the board balanced. */
  lemma DragOverKeepsCards(b: Board, activeId: CardId, overId: string)
    requires IsBoard(b) && multiset(Flatten(b))[activeId] <= 1
    ensures multiset(Flatten(DragOver(b, activeId, overId))) == multiset(Flatten(b))
    ensures DragOver(b, activeId, overId) != b ==>
              |DragOver(b, activeId, overId)[1]| <= 11 && |DragOver(b, activeId, overId)[2]| <= 11
    ensures |Flatten(b)| == 33 && DragOver(b, activeId, overId) != b ==>
              Lengths(DragOver(b, activeId, overId)) == PageTargets
  {
    match FirstHolding(b, activeId)
    case None =>
    case Some(source) =>
      var target := TargetColumn(b, source, overId);
      if source != target {
        assert multiset(Flatten(b)) == multiset(b[0]) + multiset(b[1]) + multiset(b[2]);
        MoveAcrossKeepsCards(b, source, target, activeId, overId);
        var m := MoveAcross(b, source, target, activeId, overId);
        PageBalanceKeepsOrder(m);
        PageBalanceCaps(m);
      }
  }

  /** The first column, in display order, whose list holds `id`. */
  method ColumnHolding(cols: array<seq<CardId>>, id: CardId) returns (r: Option<nat>)
    requires cols.Length == 3
    ensures r == FirstHolding(cols[..], id)
  {
    var c := 0;
    while c < 3 && id !in cols[c]
      invariant c <= 3
      invariant forall e :: 0 <= e < c ==> id !in cols[e]
    {
      c := c + 1;
    }
    r := if c < 3 then Some(c) else None;
  }

  /** The column update of a cross-column drag: the card is filtered out of
      its source column and spliced into the target before `overId`, or
      appended when `overId` is not a card of the target. */
  method MoveCard(cols: array<seq<CardId>>, source: nat, target: nat, activeId: CardId, overId: string)
    requires cols.Length == 3 && source < 3 && target < 3 && source != target
    modifies cols
    ensures cols[..] == MoveAcross(old(cols[..]), source, target, activeId, overId)
  {
    cols[source] := Without(cols[source], activeId);
    var dest := cols[target];
    var targetIndex := IndexOf(dest, overId);
    if targetIndex.Some? {
      cols[target] := InsertAt(dest, targetIndex.value, activeId);
    } else {
      cols[target] := InsertAt(dest, |dest|, activeId);
    }
  }

  /** A drag-over event, i.e. the pointer over the droppable `over` (None when
      it is over nothing). */
  method HandleDragOver(cols: array<seq<CardId>>, activeId: CardId, over: Option<string>)
    requires cols.Length == 3
    modifies cols
    ensures over.None? ==> cols[..] == old(cols[..])
    ensures over.Some? ==> cols[..] == DragOver(old(cols[..]), activeId, over.value)
  {
    if over.None? {
      return;
    }
    var overId := over.value;
    var sourceColumn := ColumnHolding(cols, activeId);
    if sourceColumn.None? {
      return;
    }
    var source := sourceColumn.value;

    var targetColumn: nat;
    var named := ColumnNamed(overId);
    if named.Some? {
      targetColumn := named.value;
    } else {
      var holder := ColumnHolding(cols, overId);
      targetColumn := if holder.Some? then holder.value else source;
    }
    assert targetColumn == TargetColumn(cols[..], source, overId);

    if source != targetColumn {
      MoveCard(cols, source, targetColumn, activeId, overId);
      BalanceColumns(cols);
    }
  }
}
