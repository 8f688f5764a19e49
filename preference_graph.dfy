/** The preference graph of the Bradley-Terry engine (lib/bradleyTerry.ts):
    each winner maps to the set of cards it has beaten, and a new comparison
    is inconsistent when the loser already reaches the winner. */
module PreferenceGraph {

  /** winner -> the losers it has beaten. */
  type Graph = map<string, set<string>>

  /** `winner` has beaten `loser`. */
  predicate Edge(g: Graph, winner: string, loser: string) {
    winner in g && loser in g[winner]
  }

  /** A walk along edges, of one or more cards. */
  predicate IsPath(g: Graph, p: seq<string>) {
    |p| >= 1 && forall i :: 0 <= i < |p| - 1 ==> Edge(g, p[i], p[i + 1])
  }

  /** `target` can be reached from `source` along zero or more edges. */
  ghost predicate Reachable(g: Graph, source: string, target: string) {
    exists p {:trigger IsPath(g, p)} :: IsPath(g, p) && p[0] == source && p[|p| - 1] == target
  }

  /** Every card that is the loser of some edge. */
  function Losers(g: Graph): set<string> {
    set k, v | k in g && v in g[k] :: v
  }

  /** No edges leave `s`. */
  ghost predicate Closed(g: Graph, s: set<string>) {
    forall v, w :: v in s && Edge(g, v, w) ==> w in s
  }

  /** A card reaches itself by the empty walk. */
  lemma ReachableSelf(g: Graph, a: string)
    ensures Reachable(g, a, a)
  {
    assert IsPath(g, [a]);
  }

  /** Reachability extends by one edge. */
  lemma ReachableStep(g: Graph, a: string, b: string, c: string)
    requires Reachable(g, a, b) && Edge(g, b, c)
    ensures Reachable(g, a, c)
  {
    var p :| IsPath(g, p) && p[0] == a && p[|p| - 1] == b;
    var q := p + [c];
    assert IsPath(g, q) && q[0] == a && q[|q| - 1] == c;
  }

  /** A walk that starts inside a set no edge leaves stays inside it. */
  lemma {:induction false} ClosedHoldsPath(g: Graph, s: set<string>, p: seq<string>)
    requires Closed(g, s) && IsPath(g, p) && p[0] in s
    ensures p[|p| - 1] in s
  {
    if |p| > 1 {
      var q := p[..|p| - 1];
      assert IsPath(g, q);
      ClosedHoldsPath(g, s, q);
      assert Edge(g, p[|p| - 2], p[|p| - 1]);
    }
  }

  /** Nothing outside a closed set is reachable from inside it. */
  lemma ClosedBlocks(g: Graph, s: set<string>, source: string, target: string)
    requires Closed(g, s) && source in s && target !in s
    ensures !Reachable(g, source, target)
  {
    if Reachable(g, source, target) {
      var p :| IsPath(g, p) && p[0] == source && p[|p| - 1] == target;
      ClosedHoldsPath(g, s, p);
    }
  }

  /** wouldCreateCycle: a breadth-first search from `loser`, with a queue and a
      visited set, that answers whether `winner` is reachable. The neighbours
      of a card are pushed in an arbitrary order, which the answer does not
      depend on. */
  method WouldCreateCycle(g: Graph, winner: string, loser: string) returns (found: bool)
    ensures found <==> Reachable(g, loser, winner)
  {
    var visited: set<string> := {};
    var queue := [loser];
    ghost var universe := {loser} + Losers(g);
    ReachableSelf(g, loser);
    while |queue| > 0
      invariant forall x :: x in queue ==> x in universe && Reachable(g, loser, x)
      invariant visited <= universe
      invariant forall x :: x in visited ==> Reachable(g, loser, x)
      invariant winner !in visited
      invariant loser in visited || loser in queue
      invariant Frontier(g, visited, queue)
      decreases |universe - visited|, |queue|
    {
      var current := queue[0];
      ghost var whole := queue;
      queue := queue[1..];
      if current == winner {
        return true;
      }
      if current in visited {
        FrontierSkip(g, visited, whole);
        continue;
      }
      assert universe - (visited + {current}) < universe - visited;
      assert |universe - (visited + {current})| < |universe - visited|;
      ghost var seen := visited;
      visited := visited + {current};
      if current in g {
        queue := PushNeighbours(g, current, visited, queue, loser, universe);
      }
      FrontierVisit(g, seen, whole, queue);
    }
    assert Closed(g, visited);
    ClosedBlocks(g, visited, loser, winner);
    return false;
  }

  /** Every edge out of a visited card leads to a visited or a queued card. */
  ghost predicate Frontier(g: Graph, visited: set<string>, queue: seq<string>) {
    forall v, w :: v in visited && Edge(g, v, w) ==> w in visited || w in queue
  }

  /** Dropping an already visited card from the front of the queue keeps the frontier. */
  lemma FrontierSkip(g: Graph, visited: set<string>, queue: seq<string>)
    requires Frontier(g, visited, queue) && |queue| > 0 && queue[0] in visited
    ensures Frontier(g, visited, queue[1..])
  {
    assert queue == [queue[0]] + queue[1..];
  }

  /** Visiting the front card and queueing its neighbours keeps the frontier. */
  lemma FrontierVisit(g: Graph, visited: set<string>, queue: seq<string>, next: seq<string>)
    requires Frontier(g, visited, queue) && |queue| > 0
    requires forall x :: x in queue[1..] ==> x in next
    requires forall w :: Edge(g, queue[0], w) ==> w in visited + {queue[0]} || w in next
    ensures Frontier(g, visited + {queue[0]}, next)
  {
    assert queue == [queue[0]] + queue[1..];
  }

  /** The inner loop of wouldCreateCycle: every unvisited neighbour of
      `current` joins the back of the queue. */
  method PushNeighbours(g: Graph, current: string, visited: set<string>, queue: seq<string>,
                        ghost loser: string, ghost universe: set<string>)
    returns (next: seq<string>)
    requires current in g && Reachable(g, loser, current) && Losers(g) <= universe
    requires forall x :: x in queue ==> x in universe && Reachable(g, loser, x)
    ensures forall x :: x in queue ==> x in next
    ensures forall x :: x in next ==> x in universe && Reachable(g, loser, x)
    ensures forall w :: Edge(g, current, w) ==> w in visited || w in next
  {
    next := queue;
    var neighbors := g[current];
    while neighbors != {}
      invariant neighbors <= g[current]
      invariant forall x :: x in queue ==> x in next
      invariant forall x :: x in next ==> x in universe && Reachable(g, loser, x)
      invariant forall w :: w in g[current] && w !in neighbors ==> w in visited || w in next
      decreases |neighbors|
    {
      var neighbor :| neighbor in neighbors;
      neighbors := neighbors - {neighbor};
      if neighbor !in visited {
        assert neighbor in Losers(g);
        ReachableStep(g, loser, current, neighbor);
        next := next + [neighbor];
      }
    }
  }

  /** The graph after recording that `winner` beat `loser`. */
  function AddEdge(g: Graph, winner: string, loser: string): Graph {
    g[winner := (if winner in g then g[winner] else {}) + {loser}]
  }

  /** Recording a result adds exactly that one edge. */
  lemma AddEdgeEdges(g: Graph, winner: string, loser: string, a: string, b: string)
    ensures Edge(AddEdge(g, winner, loser), a, b) <==> Edge(g, a, b) || (a == winner && b == loser)
  {
  }

  /** Recording the same result twice is recording it once. */
  lemma AddEdgeIdempotent(g: Graph, winner: string, loser: string)
    ensures AddEdge(AddEdge(g, winner, loser), winner, loser) == AddEdge(g, winner, loser)
  {
    var once := AddEdge(g, winner, loser);
    assert once[winner] + {loser} == once[winner];
  }

  /** Three results a > b, b > c, c > a: only the third closes a cycle. */
  lemma ThreeCycle(a: string, b: string, c: string)
    requires a != b && b != c && a != c
    ensures var g0: Graph := map[];
            var g1 := AddEdge(g0, a, b);
            var g2 := AddEdge(g1, b, c);
            !Reachable(g0, b, a) && !Reachable(g1, c, b) && Reachable(g2, a, c)
  {
    var g0: Graph := map[];
    var g1 := AddEdge(g0, a, b);
    var g2 := AddEdge(g1, b, c);
    ClosedBlocks(g0, {b}, b, a);
    ClosedBlocks(g1, {c}, c, b);
    assert IsPath(g2, [a, b, c]);
  }
}
