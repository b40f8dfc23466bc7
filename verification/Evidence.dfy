/** The evidence graph and its ordered snapshot (cortex/internal/evidence/graph.go). */
module Evidence {
  import opened Prelude
  import opened Ordering

  datatype Kind = Runtime | Metric | Trace | Kubernetes | Deployment | Decision

  datatype Node = Node(id: string, kind: Kind, observedAt: int, source: string, summary: string,
                       attributes: Option<map<string, string>>, confidence: real)

  datatype Edge = Edge(from: string, to: string, relation: string, weight: real)

  datatype Listing = Listing(nodes: seq<Node>, edges: seq<Edge>)

  /** The order of a snapshot: by time, then by id. */
  predicate NodeBefore(a: Node, b: Node) {
    if a.observedAt == b.observedAt then Below(a.id, b.id) else a.observedAt < b.observedAt
  }

  lemma NodeBeforeIsOrder()
    ensures StrictWeak(NodeBefore)
  {
    BelowIsTotalOrder();
  }

  datatype Op = Added(node: Node) | Linked(edge: Edge)

  function WithAttributes(n: Node): Node {
    n.(attributes := Some(if n.attributes.Some? then n.attributes.value else map[]))
  }

  function NodesAfter(h: seq<Op>): map<string, Node> {
    if h == [] then map[] else
      var before := NodesAfter(h[..|h| - 1]);
      match h[|h| - 1]
      case Added(n) => before[n.id := WithAttributes(n)]
      case Linked(_) => before
  }

  /** The edges accepted so far: both ends had been added by the time of the link. */
  function EdgesAfter(h: seq<Op>): seq<Edge> {
    if h == [] then [] else
      var before, nodes := EdgesAfter(h[..|h| - 1]), NodesAfter(h[..|h| - 1]);
      match h[|h| - 1]
      case Added(_) => before
      case Linked(e) => if e.from in nodes && e.to in nodes then before + [e] else before
  }

  /** A listing of a node map: every node once, strictly in order, and nothing else. */
  ghost predicate Canonical(listing: seq<Node>, nodes: map<string, Node>) {
    && Ascending(NodeBefore, listing)
    && forall n :: n in listing <==> n.id in nodes && nodes[n.id] == n
  }

  class Graph {
    var nodes: map<string, Node>
    var edges: seq<Edge>
    ghost var history: seq<Op>

    ghost predicate Valid()
      reads this
    {
      nodes == NodesAfter(history) && edges == EdgesAfter(history)
    }

    constructor ()
      ensures Valid() && history == []
    {
      nodes, edges, history := map[], [], [];
    }

    method Add(n: Node)
      requires Valid()
      modifies this
      ensures Valid() && history == old(history) + [Added(n)]
    {
      var node := n;
      if node.attributes.None? {
        node := node.(attributes := Some(map[]));
      }
      nodes := nodes[node.id := node];
      assert (history + [Added(n)])[..|history|] == history;
      history := history + [Added(n)];
    }

    method Link(e: Edge) returns (ok: bool)
      requires Valid()
      modifies this
      ensures Valid() && history == old(history) + [Linked(e)]
      ensures ok <==> e.from in nodes && e.to in nodes
      ensures nodes == old(nodes) && edges == old(edges) + (if ok then [e] else [])
    {
      assert (history + [Linked(e)])[..|history|] == history;
      history := history + [Linked(e)];
      if e.from !in nodes {
        return false;
      }
      if e.to !in nodes {
        return false;
      }
      edges := edges + [e];
      return true;
    }

    method Snapshot() returns (s: Listing)
      requires Valid()
      ensures Canonical(s.nodes, nodes)
      ensures s.edges == edges
      ensures forall e | e in s.edges ::
                (exists n :: n in s.nodes && n.id == e.from) && (exists n :: n in s.nodes && n.id == e.to)
    {
      KeyedById(history);
      var found := Values();
      NodeBeforeIsOrder();
      var sorted := Sort(NodeBefore, found);
      SortedListing(sorted, found);
      assert Canonical(sorted, nodes);
      forall e | e in edges
        ensures exists n :: n in sorted && n.id == e.from
        ensures exists n :: n in sorted && n.id == e.to
      {
        EdgesClosed(history, e);
        assert nodes[e.from] in sorted && nodes[e.to] in sorted;
      }
      return Listing(sorted, edges);
    }

    /** Ranges over the node map in an arbitrary order. */
    method Values() returns (found: seq<Node>)
      requires forall k | k in nodes :: nodes[k].id == k
      ensures forall n :: n in found <==> n.id in nodes && nodes[n.id] == n
      ensures forall i, j | 0 <= i < j < |found| :: found[i].id != found[j].id
    {
      var todo := nodes.Keys;
      found := [];
      while todo != {}
        invariant todo <= nodes.Keys
        invariant forall n :: n in found <==> n.id in nodes.Keys - todo && nodes[n.id] == n
        invariant forall i, j | 0 <= i < j < |found| :: found[i].id != found[j].id
        decreases |todo|
      {
        var k :| k in todo;
        assert forall i | 0 <= i < |found| :: found[i] in found;
        todo := todo - {k};
        found := found + [nodes[k]];
      }
    }
  }

  lemma SortedListing(sorted: seq<Node>, found: seq<Node>)
    requires Sorted(NodeBefore, sorted) && multiset(sorted) == multiset(found)
    requires forall i, j | 0 <= i < j < |found| :: found[i].id != found[j].id
    ensures Ascending(NodeBefore, sorted)
    ensures forall n :: n in sorted <==> n in found
  {
    forall n ensures n in sorted <==> n in found {
      assert n in sorted <==> n in multiset(sorted);
      assert n in found <==> n in multiset(found);
    }
    NoRepeats(found);
    BelowIsTotalOrder();
    forall i, j | 0 <= i < j < |sorted| ensures NodeBefore(sorted[i], sorted[j]) {
      assert sorted[i] in found && sorted[j] in found;
      if sorted[i].id == sorted[j].id {
        assert sorted[i] == sorted[j];
        Repeated(sorted, i, j);
      }
    }
  }

  lemma {:induction false} KeyedById(h: seq<Op>)
    ensures forall k | k in NodesAfter(h) :: NodesAfter(h)[k].id == k
  {
    if h != [] { KeyedById(h[..|h| - 1]); }
  }

  /** Every edge ever accepted joins two nodes that are still there. */
  lemma {:induction false} EdgesClosed(h: seq<Op>, e: Edge)
    requires e in EdgesAfter(h)
    ensures e.from in NodesAfter(h) && e.to in NodesAfter(h)
  {
    if h != [] && e in EdgesAfter(h[..|h| - 1]) { EdgesClosed(h[..|h| - 1], e); }
  }

  /** Map iteration order and sort ties leave no trace: a node map has one listing only. */
  lemma CanonicalUnique(a: seq<Node>, b: seq<Node>, nodes: map<string, Node>)
    requires Canonical(a, nodes) && Canonical(b, nodes)
    ensures a == b
  {
    NodeBeforeIsOrder();
    AscendingUnique(NodeBefore, a, b);
  }

  /** The last node added under an id. */
  function LastAdded(h: seq<Op>, id: string): Option<Node> {
    if h == [] then None
    else if h[|h| - 1].Added? && h[|h| - 1].node.id == id then Some(h[|h| - 1].node)
    else LastAdded(h[..|h| - 1], id)
  }

  lemma {:induction false} NodeIsLastAdded(h: seq<Op>, id: string)
    ensures id in NodesAfter(h) <==> LastAdded(h, id).Some?
    ensures id in NodesAfter(h) ==> NodesAfter(h)[id] == WithAttributes(LastAdded(h, id).value)
  {
    if h != [] { NodeIsLastAdded(h[..|h| - 1], id); }
  }

  /** Histories that agree on the last node added under each id have the same node listing. */
  lemma ListingFromLastAdds(a: seq<Op>, b: seq<Op>, la: seq<Node>, lb: seq<Node>)
    requires forall id: string :: LastAdded(a, id) == LastAdded(b, id)
    requires Canonical(la, NodesAfter(a)) && Canonical(lb, NodesAfter(b))
    ensures la == lb
  {
    forall id: string
      ensures id in NodesAfter(a) <==> id in NodesAfter(b)
      ensures id in NodesAfter(a) ==> NodesAfter(a)[id] == NodesAfter(b)[id]
    {
      NodeIsLastAdded(a, id);
      NodeIsLastAdded(b, id);
    }
    assert NodesAfter(a) == NodesAfter(b);
    CanonicalUnique(la, lb, NodesAfter(a));
  }

  /** Earlier observations come first; at one instant the lexicographically smaller id does. */
  lemma ListingOrder(listing: seq<Node>, nodes: map<string, Node>, i: nat, j: nat)
    requires Canonical(listing, nodes) && i < j < |listing|
    ensures listing[i].observedAt <= listing[j].observedAt
    ensures listing[i].observedAt == listing[j].observedAt ==>
              exists k: nat :: SplitsAt(listing[i].id, listing[j].id, k)
  {
    BelowIsLexicographic(listing[i].id, listing[j].id);
  }

  /** Field by field: a listed node is the last one added under its id, with no attributes read as none. */
  lemma ListedFields(h: seq<Op>, listing: seq<Node>, n: Node)
    requires Canonical(listing, NodesAfter(h)) && n in listing
    ensures LastAdded(h, n.id).Some?
    ensures
      var a := LastAdded(h, n.id).value;
      && n.id == a.id && n.kind == a.kind && n.observedAt == a.observedAt && n.source == a.source
      && n.summary == a.summary && n.confidence == a.confidence
      && n.attributes == (match a.attributes case Some(m) => Some(m) case None => Some(map[]))
  {
    NodeIsLastAdded(h, n.id);
    LastAddedHasId(h, n.id);
  }

  lemma {:induction false} LastAddedHasId(h: seq<Op>, id: string)
    ensures LastAdded(h, id).Some? <==> AddedWithin(h, id)
    ensures LastAdded(h, id).Some? ==> LastAdded(h, id).value.id == id
  {
    if h != [] {
      var front := h[..|h| - 1];
      LastAddedHasId(front, id);
      if AddedWithin(front, id) {
        var j :| 0 <= j < |front| && front[j].Added? && front[j].node.id == id;
        assert h[j].Added? && h[j].node.id == id;
      }
      if AddedWithin(h, id) && !(h[|h| - 1].Added? && h[|h| - 1].node.id == id) {
        var j :| 0 <= j < |h| && h[j].Added? && h[j].node.id == id;
        assert front[j].Added? && front[j].node.id == id;
      }
    }
  }

  /** A node of this id was added. */
  predicate AddedWithin(h: seq<Op>, id: string) {
    exists j :: 0 <= j < |h| && h[j].Added? && h[j].node.id == id
  }

  /** An edge is in the graph exactly when it was linked at a moment when both its ends had been added. */
  lemma {:induction false} EdgeMeans(h: seq<Op>, e: Edge)
    ensures e in EdgesAfter(h) <==>
            exists i :: 0 <= i < |h| && h[i] == Linked(e) && AddedWithin(h[..i], e.from) && AddedWithin(h[..i], e.to)
  {
    if h != [] {
      var front, last := h[..|h| - 1], |h| - 1;
      EdgeMeans(front, e);
      forall id: string ensures id in NodesAfter(front) <==> AddedWithin(front, id) {
        NodeIsLastAdded(front, id);
        LastAddedHasId(front, id);
      }
      forall i | 0 <= i < last ensures h[..i] == front[..i] && h[i] == front[i] {}
      assert h[..last] == front;
    }
  }
}
