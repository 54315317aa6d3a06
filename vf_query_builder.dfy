/**
 * The query graph used by the VF subgraph-matching algorithm: append-only
 * lists of nodes and edges, and a map from each node to the query atom it
 * stands for.
 */
module VFQuery {
  import opened Wrappers

  /** A query atom; atoms are compared by value, as `equals` does. */
  datatype QueryAtom = QueryAtom(id: int)

  /** The matcher a node carries (its matching logic is not part of this model). */
  datatype AtomMatcher = AtomMatcher(id: int)

  /** The matcher an edge carries. */
  datatype BondMatcher = BondMatcher(id: int)

  /** `List.get` outside the list throws. */
  datatype Error = IndexOutOfBounds(index: int)

  /** A node of the query graph, which records its neighbours and incident edges. */
  class NodeBuilder {
    const matcher: AtomMatcher
    var neighbors: seq<NodeBuilder>
    var edges: seq<EdgeBuilder>

    constructor (matcher: AtomMatcher)
      ensures this.matcher == matcher && neighbors == [] && edges == []
    {
      this.matcher := matcher;
      neighbors := [];
      edges := [];
    }
  }

  /** An edge between two nodes. */
  class EdgeBuilder {
    const source: NodeBuilder
    const target: NodeBuilder
    const matcher: BondMatcher

    constructor (source: NodeBuilder, target: NodeBuilder, matcher: BondMatcher)
      ensures this.source == source && this.target == target && this.matcher == matcher
    {
      this.source := source;
      this.target := target;
      this.matcher := matcher;
    }
  }

  /** Edge `e` has `n` as one of its two endpoints. */
  predicate Touches(e: EdgeBuilder, n: NodeBuilder)
  {
    e.source == n || e.target == n
  }

  /** The first edge of `edges` that touches `n`, if any. */
  function FirstTouching(edges: seq<EdgeBuilder>, n: NodeBuilder): Option<EdgeBuilder>
  {
    if edges == [] then None
    else if Touches(edges[0], n) then Some(edges[0])
    else FirstTouching(edges[1..], n)
  }

  /**
   * `FirstTouching` finds an edge exactly when some edge touches `n`, and
   * what it finds is the earliest such edge.
   */
  lemma {:induction false} FirstTouchingSpec(edges: seq<EdgeBuilder>, n: NodeBuilder)
    ensures FirstTouching(edges, n).None? <==> forall e :: e in edges ==> !Touches(e, n)
    ensures FirstTouching(edges, n).Some? ==>
      exists k :: 0 <= k < |edges| && edges[k] == FirstTouching(edges, n).value &&
        Touches(edges[k], n) && forall j :: 0 <= j < k ==> !Touches(edges[j], n)
  {
    if edges != [] && !Touches(edges[0], n) {
      FirstTouchingSpec(edges[1..], n);
      if FirstTouching(edges, n).Some? {
        var k :| 0 <= k < |edges[1..]| && edges[1..][k] == FirstTouching(edges, n).value &&
          Touches(edges[1..][k], n) && forall j :: 0 <= j < k ==> !Touches(edges[1..][j], n);
        assert edges[k + 1] == edges[1..][k];
        forall j | 0 <= j < k + 1 ensures !Touches(edges[j], n) {
          if j > 0 {
            assert edges[j] == edges[1..][j - 1];
          }
        }
      }
      assert edges == [edges[0]] + edges[1..];
    } else if edges != [] {
      assert edges[0] in edges;
    }
  }

  class VFQueryBuilder {
    var nodesList: seq<NodeBuilder>
    var edgesList: seq<EdgeBuilder>
    var nodeBondMap: map<NodeBuilder, QueryAtom>

    /** Every node is listed once and is exactly a key of the atom map. */
    ghost predicate Valid()
      reads this
    {
      (forall n :: n in nodeBondMap ==> n in nodesList) &&
      (forall i :: 0 <= i < |nodesList| ==> nodesList[i] in nodeBondMap) &&
      (forall i, j :: 0 <= i < j < |nodesList| ==> nodesList[i] != nodesList[j])
    }

    constructor ()
      ensures Valid()
      ensures nodesList == [] && edgesList == [] && nodeBondMap == map[]
    {
      nodesList := [];
      edgesList := [];
      nodeBondMap := map[];
    }

    /** `countNodes()`. */
    function CountNodes(): (n: nat)
      reads this
      ensures n == |nodesList|
    {
      |nodesList|
    }

    /** `countEdges()`. */
    function CountEdges(): (n: nat)
      reads this
      ensures n == |edgesList|
    {
      |edgesList|
    }

    /** `getNode(int)`: the node at that position, or the exception for a bad index. */
    function NodeAt(index: int): (r: Result<NodeBuilder, Error>)
      reads this
      ensures r.Ok? <==> 0 <= index < CountNodes()
      ensures r.Ok? ==> r.value == nodesList[index]
    {
      if 0 <= index < |nodesList| then Ok(nodesList[index]) else Err(IndexOutOfBounds(index))
    }

    /** `getEdge(int)`: the edge at that position, or the exception for a bad index. */
    function EdgeAt(index: int): (r: Result<EdgeBuilder, Error>)
      reads this
      ensures r.Ok? <==> 0 <= index < CountEdges()
      ensures r.Ok? ==> r.value == edgesList[index]
    {
      if 0 <= index < |edgesList| then Ok(edgesList[index]) else Err(IndexOutOfBounds(index))
    }

    /** `getAtom(node)`: the atom of a node of this graph, `null` for any other node. */
    function AtomOf(node: NodeBuilder): (r: Option<QueryAtom>)
      requires Valid()
      reads this
      ensures r.Some? <==> node in nodesList
      ensures r.Some? ==> r.value == nodeBondMap[node]
    {
      if node in nodeBondMap then Some(nodeBondMap[node]) else None
    }

    /**
     * `addNode`: appends one fresh node mapped to `atom`; the edges are
     * untouched.
     */
    method AddNode(matcher: AtomMatcher, atom: QueryAtom) returns (node: NodeBuilder)
      requires Valid()
      modifies this
      ensures Valid()
      ensures fresh(node) && node.matcher == matcher && node.neighbors == [] && node.edges == []
      ensures nodesList == old(nodesList) + [node]
      ensures nodeBondMap == old(nodeBondMap)[node := atom]
      ensures edgesList == old(edgesList)
      ensures CountNodes() == old(CountNodes()) + 1
      ensures NodeAt(CountNodes() - 1) == Ok(node) && AtomOf(node) == Some(atom)
    {
      node := new NodeBuilder(matcher);
      nodesList := nodesList + [node];
      nodeBondMap := nodeBondMap[node := atom];
    }

    /**
     * `connect`: a fresh edge from `source` to `target`, recorded in both
     * endpoints (twice in the same node for a loop) and appended to the
     * edge list. Nodes and the atom map are untouched.
     */
    method Connect(source: NodeBuilder, target: NodeBuilder, matcher: BondMatcher)
      returns (edge: EdgeBuilder)
      requires Valid()
      modifies this, source, target
      ensures Valid()
      ensures fresh(edge) && edge.source == source && edge.target == target && edge.matcher == matcher
      ensures edgesList == old(edgesList) + [edge]
      ensures nodesList == old(nodesList) && nodeBondMap == old(nodeBondMap)
      ensures CountEdges() == old(CountEdges()) + 1 && EdgeAt(CountEdges() - 1) == Ok(edge)
      ensures source != target ==>
        source.neighbors == old(source.neighbors) + [target] &&
        target.neighbors == old(target.neighbors) + [source] &&
        source.edges == old(source.edges) + [edge] &&
        target.edges == old(target.edges) + [edge]
      ensures source == target ==>
        source.neighbors == old(source.neighbors) + [source, source] &&
        source.edges == old(source.edges) + [edge, edge]
    {
      edge := new EdgeBuilder(source, target, matcher);
      source.neighbors := source.neighbors + [target];
      target.neighbors := target.neighbors + [source];
      source.edges := source.edges + [edge];
      target.edges := target.edges + [edge];
      edgesList := edgesList + [edge];
    }

    /**
     * `getNode(atom)`: some node mapped to `atom`, or `null` when none is.
     * The map is visited in an unspecified order, so which of several such
     * nodes comes back is not determined.
     */
    method NodeOf(atom: QueryAtom) returns (r: Option<NodeBuilder>)
      ensures r.Some? ==> r.value in nodeBondMap && nodeBondMap[r.value] == atom
      ensures r.None? ==> forall n :: n in nodeBondMap ==> nodeBondMap[n] != atom
    {
      var todo := nodeBondMap.Keys;
      while todo != {}
        invariant todo <= nodeBondMap.Keys
        invariant forall n :: n in nodeBondMap && n !in todo ==> nodeBondMap[n] != atom
        decreases |todo|
      {
        var n :| n in todo;
        if nodeBondMap[n] == atom {
          return Some(n);
        }
        todo := todo - {n};
      }
      return None;
    }

    /**
     * `getEdge(source, target)`: `null` for the same node twice, otherwise
     * the first edge recorded at `source` that has `target` as an endpoint.
     */
    method EdgeBetween(source: NodeBuilder, target: NodeBuilder) returns (r: Option<EdgeBuilder>)
      ensures r == if source == target then None else FirstTouching(source.edges, target)
      ensures r.Some? ==> r.value in source.edges && Touches(r.value, target)
      ensures source != target && (forall e :: e in source.edges ==> !Touches(e, target)) ==> r.None?
    {
      FirstTouchingSpec(source.edges, target);
      if source == target {
        return None;
      }
      var i := 0;
      while i < |source.edges|
        invariant 0 <= i <= |source.edges|
        invariant FirstTouching(source.edges[i..], target) == FirstTouching(source.edges, target)
      {
        assert source.edges[i..][1..] == source.edges[i + 1..];
        var edge := source.edges[i];
        if edge.source == target || edge.target == target {
          return Some(edge);
        }
        i := i + 1;
      }
      return None;
    }

    /**
     * Connecting two distinct nodes makes `getEdge` between them succeed
     * with an edge that ends at the target.
     */
    method ConnectThenLookUp(source: NodeBuilder, target: NodeBuilder, matcher: BondMatcher)
      returns (found: Option<EdgeBuilder>)
      requires Valid() && source != target
      modifies this, source, target
      ensures Valid()
      ensures found.Some? && Touches(found.value, target) && found.value in source.edges
    {
      var edge := Connect(source, target, matcher);
      assert edge in source.edges && Touches(edge, target);
      FirstTouchingSpec(source.edges, target);
      found := EdgeBetween(source, target);
    }
  }
}
