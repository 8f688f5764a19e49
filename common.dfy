/** Small shared vocabulary: optional values, card ids and duplicate-freedom. */
module Common {

  /** A value that may be absent: JavaScript's `null` / `undefined`. */
  datatype Option<+T> = None | Some(value: T)

  /** Cards and items are identified by opaque strings. */
  type CardId = string

  /** No element occurs twice. */
  predicate Distinct<T(==)>(s: seq<T>) {
    forall i, j :: 0 <= i < j < |s| ==> s[i] != s[j]
  }

  /** The sum of a sequence of counts, defined on prefixes so that loops can follow it. */
  function Sum(d: seq<nat>): nat {
    if d == [] then 0 else Sum(d[..|d| - 1]) + d[|d| - 1]
  }

  lemma SumOfThree(d: seq<nat>)
    requires |d| == 3
    ensures Sum(d) == d[0] + d[1] + d[2]
  {
    assert d[..2][..1] == d[..1] && d[..1][..0] == [];
    assert Sum(d[..1]) == d[0];
    assert Sum(d[..2]) == d[0] + d[1];
    assert d[..|d| - 1] == d[..2];
  }
}
