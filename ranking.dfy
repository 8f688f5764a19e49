/** The ranking order of the Bradley-Terry engine (lib/bradleyTerry.ts):
    card ids ordered by strength, strongest first, by a stable sort, so that
    cards of equal strength keep the order they were listed in. */
module Ranking {

  /** The strength `mu` of each card. */
  type Strengths = map<string, real>

  /** Every id of `s` has a strength. */
  predicate Scored(s: seq<string>, mu: Strengths) {
    forall k :: 0 <= k < |s| ==> s[k] in mu
  }

  /** Strongest first: strengths never increase along `s`. */
  predicate StrongestFirst(s: seq<string>, mu: Strengths)
    requires Scored(s, mu)
  {
    forall i, j :: 0 <= i < j < |s| ==> mu[s[i]] >= mu[s[j]]
  }

  /** The ids of `s` whose strength is exactly `v`, in their order in `s`. */
  function OfStrength(s: seq<string>, mu: Strengths, v: real): seq<string>
    requires Scored(s, mu)
  {
    if s == [] then []
    else (if mu[s[0]] == v then [s[0]] else []) + OfStrength(s[1..], mu, v)
  }

  /** Places `x` after every id at least as strong, before the first weaker one. */
  function InsertByStrength(x: string, s: seq<string>, mu: Strengths): (r: seq<string>)
    requires x in mu && Scored(s, mu)
    ensures multiset(r) == multiset(s) + multiset{x}
    ensures Scored(r, mu)
  {
    if s == [] then [x]
    else if mu[s[0]] < mu[x] then [x] + s
    else
      assert s == [s[0]] + s[1..];
      [s[0]] + InsertByStrength(x, s[1..], mu)
  }

  /** The ids ordered strongest first, equal strengths in list order: the
      comparator `(a, b) => mu[b] - mu[a]` under a stable sort. */
  function SortByStrength(ids: seq<string>, mu: Strengths): (r: seq<string>)
    requires Scored(ids, mu)
    ensures multiset(r) == multiset(ids)
    ensures Scored(r, mu)
  {
    if ids == [] then []
    else
      assert ids == ids[..|ids| - 1] + [ids[|ids| - 1]];
      InsertByStrength(ids[|ids| - 1], SortByStrength(ids[..|ids| - 1], mu), mu)
  }

  /** No id of `s` is stronger than `m`. */
  predicate AtMost(s: seq<string>, mu: Strengths, m: real)
    requires Scored(s, mu)
  {
    forall k :: 0 <= k < |s| ==> mu[s[k]] <= m
  }

  /** Inserting an id no stronger than `m` into ids no stronger than `m`
      yields ids no stronger than `m`. */
  lemma {:induction false} InsertAtMost(x: string, s: seq<string>, mu: Strengths, m: real)
    requires x in mu && Scored(s, mu) && AtMost(s, mu, m) && mu[x] <= m
    ensures AtMost(InsertByStrength(x, s, mu), mu, m)
  {
    if s != [] && mu[s[0]] >= mu[x] {
      InsertAtMost(x, s[1..], mu, m);
      var t := InsertByStrength(x, s[1..], mu);
      assert InsertByStrength(x, s, mu) == [s[0]] + t;
    }
  }

  /** A strongest-first list stays so under a head at least as strong as all of it. */
  lemma ConsOrdered(y: string, t: seq<string>, mu: Strengths)
    requires y in mu && Scored(t, mu) && StrongestFirst(t, mu) && AtMost(t, mu, mu[y])
    ensures Scored([y] + t, mu) && StrongestFirst([y] + t, mu)
  {
    var r := [y] + t;
    assert forall k :: 0 < k < |r| ==> r[k] == t[k - 1];
  }

  /** Inserting by strength keeps a list strongest first. */
  lemma {:induction false} InsertKeepsOrder(x: string, s: seq<string>, mu: Strengths)
    requires x in mu && Scored(s, mu) && StrongestFirst(s, mu)
    ensures StrongestFirst(InsertByStrength(x, s, mu), mu)
  {
    if s == [] {
    } else if mu[s[0]] < mu[x] {
      ConsOrdered(x, s, mu);
    } else {
      TailOrdered(s, mu);
      InsertKeepsOrder(x, s[1..], mu);
      InsertAtMost(x, s[1..], mu, mu[s[0]]);
      ConsOrdered(s[0], InsertByStrength(x, s[1..], mu), mu);
      assert InsertByStrength(x, s, mu) == [s[0]] + InsertByStrength(x, s[1..], mu);
    }
  }

  /** Within one strength, inserting `x` appends it after the ids already there. */
  lemma {:induction false} InsertOfStrength(x: string, s: seq<string>, mu: Strengths, v: real)
    requires x in mu && Scored(s, mu) && StrongestFirst(s, mu)
    ensures OfStrength(InsertByStrength(x, s, mu), mu, v) ==
            OfStrength(s, mu, v) + (if mu[x] == v then [x] else [])
  {
    if s == [] {
    } else if mu[s[0]] < mu[x] {
      ConsOfStrength(x, s, mu, v);
      if mu[x] == v {
        NoneOfStrength(s, mu, v);
      }
    } else {
      TailOrdered(s, mu);
      InsertOfStrength(x, s[1..], mu, v);
      InsertBehind(x, s, mu, v);
    }
  }

  /** Inserting behind the head: the head's layer entry comes first. */
  lemma InsertBehind(x: string, s: seq<string>, mu: Strengths, v: real)
    requires x in mu && Scored(s, mu) && s != [] && mu[s[0]] >= mu[x]
    requires OfStrength(InsertByStrength(x, s[1..], mu), mu, v) ==
             OfStrength(s[1..], mu, v) + (if mu[x] == v then [x] else [])
    ensures OfStrength(InsertByStrength(x, s, mu), mu, v) ==
            OfStrength(s, mu, v) + (if mu[x] == v then [x] else [])
  {
    HeadTail(s);
    var t := InsertByStrength(x, s[1..], mu);
    var head := if mu[s[0]] == v then [s[0]] else [];
    var tail := if mu[x] == v then [x] else [];
    var rest := OfStrength(s[1..], mu, v);
    assert InsertByStrength(x, s, mu) == [s[0]] + t;
    ConsOfStrength(s[0], t, mu, v);
    assert OfStrength(InsertByStrength(x, s, mu), mu, v) == head + (rest + tail);
    ConsOfStrength(s[0], s[1..], mu, v);
    assert OfStrength(s, mu, v) == head + rest;
    AppendAssoc(head, rest, tail);
  }

  /** A non-empty list is its head followed by its tail. */
  lemma HeadTail<T>(s: seq<T>)
    requires s != []
    ensures [s[0]] + s[1..] == s
  {
  }

  lemma AppendAssoc<T>(a: seq<T>, b: seq<T>, c: seq<T>)
    ensures a + (b + c) == (a + b) + c
  {
  }

  /** The ids of one strength in a list with a new head. */
  lemma ConsOfStrength(y: string, t: seq<string>, mu: Strengths, v: real)
    requires y in mu && Scored(t, mu)
    ensures Scored([y] + t, mu)
    ensures OfStrength([y] + t, mu, v) == (if mu[y] == v then [y] else []) + OfStrength(t, mu, v)
  {
    assert ([y] + t)[1..] == t;
  }

  /** A strongest-first list whose head is weaker than `v` has no id of strength `v`. */
  lemma {:induction false} NoneOfStrength(s: seq<string>, mu: Strengths, v: real)
    requires Scored(s, mu) && StrongestFirst(s, mu) && s != [] && mu[s[0]] < v
    ensures OfStrength(s, mu, v) == []
  {
    if |s| > 1 {
      NoneOfStrength(s[1..], mu, v);
    }
  }

  /** Selecting one strength distributes over concatenation. */
  lemma {:induction false} OfStrengthAppend(a: seq<string>, b: seq<string>, mu: Strengths, v: real)
    requires Scored(a, mu) && Scored(b, mu)
    ensures OfStrength(a + b, mu, v) == OfStrength(a, mu, v) + OfStrength(b, mu, v)
  {
    if a != [] {
      OfStrengthAppend(a[1..], b, mu, v);
      var head := if mu[a[0]] == v then [a[0]] else [];
      assert (a + b)[0] == a[0];
      assert (a + b)[1..] == a[1..] + b;
      calc {
        OfStrength(a + b, mu, v);
        head + OfStrength(a[1..] + b, mu, v);
        head + (OfStrength(a[1..], mu, v) + OfStrength(b, mu, v));
        (head + OfStrength(a[1..], mu, v)) + OfStrength(b, mu, v);
      }
    } else {
      assert a + b == b;
    }
  }

  /** The sort orders the ids strongest first. */
  lemma {:induction false} SortIsOrdered(ids: seq<string>, mu: Strengths)
    requires Scored(ids, mu)
    ensures StrongestFirst(SortByStrength(ids, mu), mu)
  {
    if ids != [] {
      SortIsOrdered(ids[..|ids| - 1], mu);
      InsertKeepsOrder(ids[|ids| - 1], SortByStrength(ids[..|ids| - 1], mu), mu);
    }
  }

  /** The sort is stable: the ids of any one strength come out in list order. */
  lemma {:induction false} SortIsStable(ids: seq<string>, mu: Strengths, v: real)
    requires Scored(ids, mu)
    ensures OfStrength(SortByStrength(ids, mu), mu, v) == OfStrength(ids, mu, v)
  {
    if ids != [] {
      var before, x := ids[..|ids| - 1], ids[|ids| - 1];
      assert ids == before + [x];
      var sorted := SortByStrength(before, mu);
      assert SortByStrength(ids, mu) == InsertByStrength(x, sorted, mu);
      SortIsStable(before, mu, v);
      SortIsOrdered(before, mu);
      InsertOfStrength(x, sorted, mu, v);
      OfStrengthAppend(before, [x], mu, v);
      assert OfStrength([x], mu, v) == (if mu[x] == v then [x] else []) + OfStrength([], mu, v);
    }
  }

  /** A list that is strongest first and lists each strength in the order of
      `ids` is the sort of `ids`: the order is fully determined. */
  lemma {:induction false} SortIsUnique(ids: seq<string>, r: seq<string>, mu: Strengths)
    requires Scored(ids, mu) && Scored(r, mu)
    requires multiset(r) == multiset(ids) && StrongestFirst(r, mu)
    requires forall v :: OfStrength(r, mu, v) == OfStrength(ids, mu, v)
    ensures r == SortByStrength(ids, mu)
  {
    var s := SortByStrength(ids, mu);
    SortIsOrdered(ids, mu);
    forall v ensures OfStrength(s, mu, v) == OfStrength(r, mu, v) {
      SortIsStable(ids, mu, v);
    }
    SameLayers(s, r, mu);
  }

  /** Two strongest-first lists with the same ids of every strength, in the same order, are equal. */
  lemma {:induction false} SameLayers(s: seq<string>, r: seq<string>, mu: Strengths)
    requires Scored(s, mu) && Scored(r, mu) && StrongestFirst(s, mu) && StrongestFirst(r, mu)
    requires forall v :: OfStrength(s, mu, v) == OfStrength(r, mu, v)
    ensures s == r
  {
    if s == [] && r != [] {
      HeadLayer(r, mu);
      assert false;
    } else if s != [] && r == [] {
      HeadLayer(s, mu);
      assert false;
    } else if s != [] && r != [] {
      SameHead(s, r, mu);
      SameTails(s, r, mu);
      TailOrdered(s, mu);
      TailOrdered(r, mu);
      SameLayers(s[1..], r[1..], mu);
      assert s == [s[0]] + s[1..] && r == [r[0]] + r[1..];
    }
  }

  /** The tail of a strongest-first list is strongest-first. */
  lemma TailOrdered(s: seq<string>, mu: Strengths)
    requires Scored(s, mu) && StrongestFirst(s, mu) && s != []
    ensures Scored(s[1..], mu) && StrongestFirst(s[1..], mu)
  {
    assert forall k :: 0 <= k < |s[1..]| ==> s[1..][k] == s[k + 1];
  }

  /** A non-empty list has some id of the strength of its head. */
  lemma HeadLayer(s: seq<string>, mu: Strengths)
    requires Scored(s, mu) && s != []
    ensures OfStrength(s, mu, mu[s[0]]) != []
  {
  }

  /** Strongest-first lists with the same layers start with the same id. */
  lemma SameHead(s: seq<string>, r: seq<string>, mu: Strengths)
    requires Scored(s, mu) && Scored(r, mu) && StrongestFirst(s, mu) && StrongestFirst(r, mu)
    requires s != [] && r != []
    requires forall v :: OfStrength(s, mu, v) == OfStrength(r, mu, v)
    ensures s[0] == r[0]
  {
    var top := if mu[s[0]] >= mu[r[0]] then mu[s[0]] else mu[r[0]];
    assert OfStrength(s, mu, top) == OfStrength(r, mu, top);
    if mu[s[0]] > mu[r[0]] {
      NoneOfStrength(r, mu, top);
      HeadLayer(s, mu);
      assert false;
    } else if mu[s[0]] < mu[r[0]] {
      NoneOfStrength(s, mu, top);
      HeadLayer(r, mu);
      assert false;
    } else {
      assert OfStrength(s, mu, top) == [s[0]] + OfStrength(s[1..], mu, top);
      assert OfStrength(r, mu, top) == [r[0]] + OfStrength(r[1..], mu, top);
      assert s[0] == OfStrength(s, mu, top)[0] == r[0];
    }
  }

  /** Lists with the same head and the same layers have tails with the same layers. */
  lemma SameTails(s: seq<string>, r: seq<string>, mu: Strengths)
    requires Scored(s, mu) && Scored(r, mu) && s != [] && r != [] && s[0] == r[0]
    requires forall v :: OfStrength(s, mu, v) == OfStrength(r, mu, v)
    ensures forall v :: OfStrength(s[1..], mu, v) == OfStrength(r[1..], mu, v)
  {
    forall v ensures OfStrength(s[1..], mu, v) == OfStrength(r[1..], mu, v) {
      var head := if mu[s[0]] == v then [s[0]] else [];
      assert OfStrength(s, mu, v) == head + OfStrength(s[1..], mu, v);
      assert OfStrength(r, mu, v) == head + OfStrength(r[1..], mu, v);
      assert OfStrength(s[1..], mu, v) == (head + OfStrength(s[1..], mu, v))[|head|..];
      assert OfStrength(r[1..], mu, v) == (head + OfStrength(r[1..], mu, v))[|head|..];
    }
  }

  /** getTopK: the `k` strongest ids of `order`, the entry order of `mu`, or
      all of them when there are fewer than `k`. */
  function TopK(mu: Strengths, order: seq<string>, k: nat): (top: seq<string>)
    requires Scored(order, mu)
    ensures |top| == if k < |order| then k else |order|
  {
    var ranked := SortByStrength(order, mu);
    assert |ranked| == |multiset(ranked)| == |order|;
    ranked[..if k < |ranked| then k else |ranked|]
  }

  /** The top `k` are as strong as every id left out of them. */
  lemma TopKIsTop(mu: Strengths, order: seq<string>, k: nat)
    requires Scored(order, mu)
    ensures var ranked := SortByStrength(order, mu);
            var top := TopK(mu, order, k);
            top == ranked[..|top|] &&
            forall i, j :: 0 <= i < |top| <= j < |ranked| ==> mu[top[i]] >= mu[ranked[j]]
  {
    SortIsOrdered(order, mu);
  }
}
