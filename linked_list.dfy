/** The id-indexed doubly linked list used to persist a card order
    (lib/linkedList.ts): building it from an order and walking it back. */
module LinkedList {
  import opened Common

  /** One node: its id and the ids of its neighbours (null as None). */
  datatype ListNode = ListNode(id: string, prevId: Option<string>, nextId: Option<string>)

  /** The whole list: nodes by id, the two ends and the recorded length. */
  datatype ListState = ListState(nodes: map<string, ListNode>, headId: Option<string>,
                                 tailId: Option<string>, length: nat)

  /** JavaScript truthiness of a `string | null`: null and "" are falsy. */
  predicate Truthy(id: Option<string>) {
    id.Some? && id.value != ""
  }

  /** The node record after the forEach of createLinkedListFromOrder has
      processed `ids`: each id gets a fresh node whose prevId is the id before
      it, and that earlier node, when its id is truthy, is pointed at the new one. */
  function Link(ids: seq<string>): (nodes: map<string, ListNode>)
    ensures forall x :: x in nodes <==> x in ids
  {
    if ids == [] then map[]
    else
      var before := ids[..|ids| - 1];
      var id := ids[|ids| - 1];
      var prevId := if before == [] then None else Some(before[|before| - 1]);
      var m := Link(before)[id := ListNode(id, prevId, None)];
      assert ids == before + [id];
      if Truthy(prevId) then
        assert prevId.value in m;
        m[prevId.value := m[prevId.value].(nextId := Some(id))]
      else m
  }

  /** The state createLinkedListFromOrder returns for `ids`. */
  function FromOrder(ids: seq<string>): ListState {
    ListState(Link(ids),
              if ids == [] then None else Some(ids[0]),
              if ids == [] then None else Some(ids[|ids| - 1]),
              |ids|)
  }

  /** createLinkedListFromOrder: one pass over `ids`, mutating the node record
      and a running `prevId`. */
  method CreateLinkedListFromOrder(ids: seq<string>) returns (list: ListState)
    ensures list == FromOrder(ids)
    ensures list.length == |ids|
    ensures ids == [] ==> list.headId.None? && list.tailId.None?
    ensures ids != [] ==> list.headId == Some(ids[0]) && list.tailId == Some(ids[|ids| - 1])
  {
    var nodes: map<string, ListNode> := map[];
    var prevId: Option<string> := None;
    for i := 0 to |ids|
      invariant nodes == Link(ids[..i])
      invariant prevId == if i == 0 then None else Some(ids[i - 1])
    {
      var id := ids[i];
      LinkStep(ids, i);
      nodes := nodes[id := ListNode(id, prevId, None)];
      if Truthy(prevId) {
        nodes := nodes[prevId.value := nodes[prevId.value].(nextId := Some(id))];
      }
      prevId := Some(id);
    }
    assert ids[..|ids|] == ids;
    var headId := if ids == [] then None else Some(ids[0]);
    var tailId := if ids == [] then None else Some(ids[|ids| - 1]);
    list := ListState(nodes, headId, tailId, |ids|);
  }

  /** Processing `ids[i]` after the first `i` ids, as the loop body does. */
  lemma LinkStep(ids: seq<string>, i: nat)
    requires i < |ids|
    ensures var prevId := if i == 0 then None else Some(ids[i - 1]);
            var m := Link(ids[..i])[ids[i] := ListNode(ids[i], prevId, None)];
            Link(ids[..i + 1]) == if Truthy(prevId) then m[prevId.value := m[prevId.value].(nextId := Some(ids[i]))] else m
  {
    assert ids[..i + 1][..i] == ids[..i];
  }

  /** One more id `ids[|ids| - 1]`, distinct from the truthy id before it:
      the new node points back, the node before it now points forward, and
      every other node is as it was. */
  lemma LinkAppend(ids: seq<string>)
    requires |ids| >= 2 && ids[|ids| - 2] != "" && ids[|ids| - 2] != ids[|ids| - 1]
    ensures var before := ids[..|ids| - 1];
            var prev := ids[|ids| - 2];
            var last := ids[|ids| - 1];
            prev in Link(before) &&
            Link(ids)[last] == ListNode(last, Some(prev), None) &&
            Link(ids)[prev] == Link(before)[prev].(nextId := Some(last)) &&
            forall x :: x in Link(before) && x != prev && x != last ==> Link(ids)[x] == Link(before)[x]
  {
    var before := ids[..|ids| - 1];
    assert before[|before| - 1] == ids[|ids| - 2];
  }

  /** For distinct non-empty ids every node points at its neighbours in the
      order: node `ids[k]` has `ids[k - 1]` before it and `ids[k + 1]` after it,
      None at the two ends. */
  lemma {:induction false} LinkShape(ids: seq<string>)
    requires Distinct(ids) && forall k :: 0 <= k < |ids| ==> ids[k] != ""
    ensures forall k :: 0 <= k < |ids| ==> Link(ids)[ids[k]] == Neighbours(ids, k)
  {
    if |ids| == 1 {
      assert ids[..0] == [];
      assert Link(ids) == map[ids[0] := ListNode(ids[0], None, None)];
    } else if |ids| >= 2 {
      var before := ids[..|ids| - 1];
      LinkShape(before);
      LinkAppend(ids);
      forall k | 0 <= k < |ids|
        ensures Link(ids)[ids[k]] == Neighbours(ids, k)
      {
        LinkShapeAt(ids, k);
      }
    }
  }

  /** The node the order `ids` calls for at position `k`. */
  function Neighbours(ids: seq<string>, k: nat): ListNode
    requires k < |ids|
  {
    ListNode(ids[k],
             if k == 0 then None else Some(ids[k - 1]),
             if k == |ids| - 1 then None else Some(ids[k + 1]))
  }

  /** The inductive step of LinkShape at one position. */
  lemma LinkShapeAt(ids: seq<string>, k: nat)
    requires Distinct(ids) && forall k :: 0 <= k < |ids| ==> ids[k] != ""
    requires |ids| >= 2 && k < |ids|
    requires var before := ids[..|ids| - 1];
             forall j :: 0 <= j < |before| ==> Link(before)[before[j]] == Neighbours(before, j)
    ensures Link(ids)[ids[k]] == Neighbours(ids, k)
  {
    var before := ids[..|ids| - 1];
    var prev, last := ids[|ids| - 2], ids[|ids| - 1];
    LinkAppend(ids);
    if k + 1 < |before| {
      assert before[k] == ids[k] && before[k + 1] == ids[k + 1];
      if k > 0 { assert before[k - 1] == ids[k - 1]; }
      assert ids[k] != prev && ids[k] != last;
      assert Link(before)[before[k]] == Neighbours(before, k);
    } else if k + 1 == |before| {
      assert before[k] == ids[k] == prev;
      if k > 0 { assert before[k - 1] == ids[k - 1]; }
      assert Link(before)[before[k]] == Neighbours(before, k);
    }
  }

  /** A list of ids as linkedListToArray reads one off `l`: a walk from the
      head that ends where the loop does, at a missing node, a falsy next id,
      or a next id already read. */
  predicate IsTraversal(l: ListState, out: seq<string>) {
    Walk(l, out) &&
    (out == [] <==> !Truthy(l.headId)) &&
    (out != [] ==> Stops(l, out[|out| - 1], out))
  }

  /** `out` starts at the head, each id is the `nextId` of the one before it,
      and no id repeats or is empty. */
  predicate Walk(l: ListState, out: seq<string>) {
    (out != [] ==> l.headId == Some(out[0])) &&
    Distinct(out) &&
    (forall i :: 0 <= i < |out| ==> out[i] != "") &&
    (forall i :: 0 <= i < |out| - 1 ==> out[i] in l.nodes && l.nodes[out[i]].nextId == Some(out[i + 1]))
  }

  /** A walk extends by the next truthy id it has not read yet. */
  lemma WalkExtend(l: ListState, out: seq<string>, id: string)
    requires Walk(l, out) && id != "" && id !in out
    requires out == [] ==> l.headId == Some(id)
    requires out != [] ==> out[|out| - 1] in l.nodes && l.nodes[out[|out| - 1]].nextId == Some(id)
    ensures Walk(l, out + [id])
  {
    var o := out + [id];
    forall i | 0 <= i < |o| - 1
      ensures o[i] in l.nodes && l.nodes[o[i]].nextId == Some(o[i + 1])
    {
      if i < |out| - 1 {
        assert o[i] == out[i] && o[i + 1] == out[i + 1];
      }
    }
  }

  /** The walk cannot continue past `last`. */
  predicate Stops(l: ListState, last: string, read: seq<string>) {
    last !in l.nodes || !Truthy(l.nodes[last].nextId) || l.nodes[last].nextId.value in read
  }

  /** Every id the walk can reach: the head and the targets of next links. */
  function Reachable(l: ListState): set<string> {
    (if l.headId.Some? then {l.headId.value} else {}) +
    set k | k in l.nodes && l.nodes[k].nextId.Some? :: l.nodes[k].nextId.value
  }

  /** linkedListToArray: follows next links from the head, stopping at a
      falsy id or one already visited. It terminates on every list, cyclic
      links included, because each step visits a new id out of a finite set. */
  method LinkedListToArray(list: ListState) returns (result: seq<string>)
    ensures IsTraversal(list, result)
  {
    result := [];
    var visited: set<string> := {};
    var currentId := list.headId;
    ghost var universe := Reachable(list);
    while Truthy(currentId)
      invariant forall x :: x in visited <==> x in result
      invariant visited <= universe
      invariant currentId.Some? ==> currentId.value in universe
      invariant result == [] ==> currentId == list.headId
      invariant result != [] ==>
                  var last := result[|result| - 1];
                  (last in list.nodes && currentId == list.nodes[last].nextId) ||
                  (last !in list.nodes && currentId.None?)
      invariant Walk(list, result)
      decreases |universe - visited|
    {
      var id := currentId.value;
      if id in visited {
        break;
      }
      assert universe - (visited + {id}) < universe - visited;
      WalkExtend(list, result, id);
      visited := visited + {id};
      result := result + [id];
      currentId := if id in list.nodes then list.nodes[id].nextId else None;
    }
  }

  /** There is only one way to read a list: two traversals of the same state agree. */
  lemma TraversalUnique(l: ListState, a: seq<string>, b: seq<string>)
    requires IsTraversal(l, a) && IsTraversal(l, b)
    ensures a == b
  {
    if |a| <= |b| {
      TraversalPrefix(l, a, b);
    } else {
      TraversalPrefix(l, b, a);
    }
  }

  /** A traversal no longer than another is equal to it. */
  lemma TraversalPrefix(l: ListState, a: seq<string>, b: seq<string>)
    requires IsTraversal(l, a) && IsTraversal(l, b) && |a| <= |b|
    ensures a == b
  {
    if a != [] {
      var i := 0;
      while i < |a| - 1
        invariant 0 <= i < |a|
        invariant a[..i + 1] == b[..i + 1]
      {
        assert a[i] == a[..i + 1][i] == b[..i + 1][i] == b[i];
        assert a[i + 1] == b[i + 1];
        assert a[..i + 2] == a[..i + 1] + [a[i + 1]];
        assert b[..i + 2] == b[..i + 1] + [b[i + 1]];
        i := i + 1;
      }
      assert a == b[..|a|];
      TraversalNoLonger(l, a, b);
    }
  }

  /** Inside a traversal the walk never meets its stopping condition. */
  lemma TraversalGoesOn(l: ListState, b: seq<string>, k: nat)
    requires IsTraversal(l, b) && k + 1 < |b|
    ensures !Stops(l, b[k], b[..k + 1])
  {
    assert b[k + 1] != "";
    assert b[k + 1] !in b[..k + 1];
  }

  /** A traversal that is a prefix of another is all of it: the walk stops
      where the shorter one ends. */
  lemma TraversalNoLonger(l: ListState, a: seq<string>, b: seq<string>)
    requires IsTraversal(l, a) && IsTraversal(l, b)
    requires a != [] && |a| <= |b| && a == b[..|a|]
    ensures |a| == |b|
  {
    if |a| < |b| {
      TraversalGoesOn(l, b, |a| - 1);
      assert false;
    }
  }

  /** Reading back a list built from distinct non-empty ids gives those ids:
      the built list's own traversal is the order it came from. */
  lemma FromOrderTraversal(ids: seq<string>)
    requires Distinct(ids) && forall k :: 0 <= k < |ids| ==> ids[k] != ""
    ensures IsTraversal(FromOrder(ids), ids)
  {
    LinkShape(ids);
    var l := FromOrder(ids);
    assert l.nodes == Link(ids);
    forall i | 0 <= i < |ids| - 1
      ensures ids[i] in l.nodes && l.nodes[ids[i]].nextId == Some(ids[i + 1])
    {
      assert Link(ids)[ids[i]] == Neighbours(ids, i);
    }
    if ids != [] {
      var last := ids[|ids| - 1];
      assert Link(ids)[last] == Neighbours(ids, |ids| - 1);
      assert Stops(l, last, ids);
    }
  }

  /** The round trip of the two operations: build a list from an order,
      read it back, and the order comes out unchanged. */
  method RoundTrip(ids: seq<string>) returns (out: seq<string>)
    requires Distinct(ids) && forall k :: 0 <= k < |ids| ==> ids[k] != ""
    ensures out == ids
  {
    var list := CreateLinkedListFromOrder(ids);
    out := LinkedListToArray(list);
    FromOrderTraversal(ids);
    TraversalUnique(list, out, ids);
  }
}
