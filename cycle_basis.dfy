/**
 * The state of a simple cycle basis: the cycles found, the edges of the
 * graph in a fixed order, and the map from each edge to its column in the
 * cycle/edge incidence matrix. Cycles are rows of that matrix over GF(2).
 */
module CycleBasis {
  import opened Wrappers
  import opened GF2
  import CycleBasisAlgebra

  /** An edge of the graph; edges are told apart by their identifier. */
  datatype Edge = Edge(id: int, source: int, target: int)

  /** A simple cycle: the set of its edges and its weight, cut to an `int` as `weightVector` reads it. */
  datatype SimpleCycle = SimpleCycle(edges: set<Edge>, weight: int)

  /** Unboxing the missing value of a map lookup throws. */
  datatype Error = NullPointer

  /** `i` is the last position of `e` in `list`. */
  ghost predicate LastIndex(list: seq<Edge>, e: Edge, i: int)
  {
    0 <= i < |list| && list[i] == e && forall k :: i < k < |list| ==> list[k] != e
  }

  /** `m` maps every edge of `list`, and nothing else, to its last position there. */
  ghost predicate IndexesLast(m: map<Edge, int>, list: seq<Edge>)
  {
    (forall e :: e in m <==> e in list) && (forall e :: e in m ==> LastIndex(list, e, m[e]))
  }

  /** No edge occurs twice in `list`. */
  ghost predicate Distinct(list: seq<Edge>)
  {
    forall p, q :: 0 <= p < q < |list| ==> list[p] != list[q]
  }

  /**
   * `createEdgeIndexMap(edgeList)`: every position `i` in turn maps
   * `edgeList[i]` to `i`, so an edge listed twice keeps its last position.
   */
  method CreateEdgeIndexMap(edgeList: seq<Edge>) returns (m: map<Edge, int>)
    ensures IndexesLast(m, edgeList)
  {
    m := map[];
    for i := 0 to |edgeList|
      invariant forall e :: e in m <==> e in edgeList[..i]
      invariant forall e :: e in m ==> LastIndex(edgeList[..i], e, m[e])
    {
      m := m[edgeList[i] := i];
      assert edgeList[..i + 1] == edgeList[..i] + [edgeList[i]];
    }
    assert edgeList[..|edgeList|] == edgeList;
  }

  /** With no edge listed twice, the map sends the edge at position `i` back to `i`. */
  lemma DistinctIndex(m: map<Edge, int>, list: seq<Edge>)
    requires IndexesLast(m, list) && Distinct(list)
    ensures forall i :: 0 <= i < |list| ==> list[i] in m && m[list[i]] == i
  {
    forall i | 0 <= i < |list| ensures list[i] in m && m[list[i]] == i {
      assert list[i] in list;
      var k := m[list[i]];
      assert LastIndex(list, list[i], k);
      assert list[k] == list[i];
    }
  }

  /** Row of the incidence matrix for a cycle with edges `edges`: column `j` is set when edge `j` is one of them. */
  function Incidence(edges: set<Edge>, edgeList: seq<Edge>): (row: Vector)
    ensures |row| == |edgeList|
  {
    seq(|edgeList|, j requires 0 <= j < |edgeList| => edgeList[j] in edges)
  }

  /**
   * The Gaussian elimination of a newly inserted row `v` against the first
   * `k` rows of `rows`, in order: row `j` is added whenever entry `j` of the
   * row as it is at that moment is set.
   */
  function ReduceRow(v: Vector, rows: seq<Vector>, k: nat): (z: Vector)
    requires k <= |rows| && k <= |v|
    requires forall t :: 0 <= t < |rows| ==> |rows[t]| == |v|
    ensures |z| == |v|
  {
    if k == 0 then v
    else
      var w := ReduceRow(v, rows, k - 1);
      if w[k - 1] then Add(w, rows[k - 1]) else w
  }

  /**
   * Against rows in echelon form (row `j` has its first set entry in
   * column `j`), the elimination clears every column before `k`.
   */
  lemma {:induction false} ReduceRowClears(v: Vector, rows: seq<Vector>, k: nat)
    requires k <= |rows| && k <= |v|
    requires forall t :: 0 <= t < |rows| ==> |rows[t]| == |v|
    requires forall j :: 0 <= j < k ==> rows[j][j] && forall c :: 0 <= c < j ==> !rows[j][c]
    ensures forall c :: 0 <= c < k ==> !ReduceRow(v, rows, k)[c]
  {
    if k > 0 {
      ReduceRowClears(v, rows, k - 1);
    }
  }

  /** Which of the rows the elimination adds to `v`, as a selection vector. */
  ghost function Selection(v: Vector, rows: seq<Vector>, k: nat): (x: Vector)
    requires k <= |rows| && k <= |v|
    requires forall t :: 0 <= t < |rows| ==> |rows[t]| == |v|
    ensures |x| == |rows|
  {
    if k == 0 then Zeros(|rows|)
    else
      var x := Selection(v, rows, k - 1);
      if ReduceRow(v, rows, k - 1)[k - 1] then Add(x, Unit(|rows|, k - 1)) else x
  }

  /**
   * The reduced row is `v` plus a sum of earlier rows: the elimination
   * keeps the new cycle within the same coset of the space the earlier
   * cycles span.
   */
  lemma {:induction false} ReduceRowSelection(v: Vector, rows: seq<Vector>, k: nat)
    requires k <= |rows| && k <= |v|
    requires forall t :: 0 <= t < |rows| ==> |rows[t]| == |v|
    ensures ReduceRow(v, rows, k) == Add(v, Combine(Selection(v, rows, k), rows, |v|))
  {
    var w := |v|;
    if k == 0 {
      CombineZeros(|rows|, rows, w);
    } else {
      ReduceRowSelection(v, rows, k - 1);
      var x := Selection(v, rows, k - 1);
      if ReduceRow(v, rows, k - 1)[k - 1] {
        CombineAdd(x, Unit(|rows|, k - 1), rows, w);
        CombineUnit(|rows|, k - 1, rows, w);
      }
    }
  }

  /** Non-decreasing order. */
  ghost predicate Sorted(s: seq<int>)
  {
    forall p, q :: 0 <= p < q < |s| ==> s[p] <= s[q]
  }

  /** The weights of the cycles, in the order of the cycles. */
  function Weights(cycles: seq<SimpleCycle>): (ws: seq<int>)
    ensures |ws| == |cycles|
  {
    seq(|cycles|, i requires 0 <= i < |cycles| => cycles[i].weight)
  }

  /** `Arrays.sort(int[])`: the array ends sorted and holds the same values. */
  method Sort(a: array<int>)
    modifies a
    ensures Sorted(a[..]) && multiset(a[..]) == multiset(old(a[..]))
  {
    for i := 0 to a.Length
      invariant Sorted(a[..i]) && multiset(a[..]) == multiset(old(a[..]))
    {
      Insert(a, i);
    }
    assert a[..a.Length] == a[..];
  }

  /** One round of the sort: `a[i]` moves left past every larger value before it. */
  method Insert(a: array<int>, i: nat)
    requires i < a.Length && Sorted(a[..i])
    modifies a
    ensures Sorted(a[..i + 1]) && multiset(a[..]) == multiset(old(a[..]))
  {
    var j := i;
    while j > 0 && a[j - 1] > a[j]
      invariant 0 <= j <= i
      invariant forall p, q :: 0 <= p < q <= i && p != j && q != j ==> a[p] <= a[q]
      invariant forall q :: j < q <= i ==> a[j] < a[q]
      invariant multiset(a[..]) == multiset(old(a[..]))
    {
      a[j - 1], a[j] := a[j], a[j - 1];
      j := j - 1;
    }
  }

  /** The inner loop of the elimination: `source` is added into `target`, entry by entry. */
  method AddInto(target: array<bool>, source: array<bool>)
    requires target.Length == source.Length && target != source
    modifies target
    ensures target[..] == Add(old(target[..]), source[..])
  {
    for k := 0 to target.Length
      invariant forall t :: 0 <= t < k ==> target[t] == (old(target[t]) != source[t])
      invariant forall t :: k <= t < target.Length ==> target[t] == old(target[t])
    {
      target[k] := target[k] != source[k];
    }
  }

  /**
   * A cycle basis: the cycles, the edges in the order that numbers the
   * columns of the incidence matrix, and the map from edge to column.
   */
  class SimpleCycleBasis {
    var cycles: seq<SimpleCycle>
    const edgeList: seq<Edge>
    var isMinimized: bool
    var edgeIndexMap: map<Edge, int>

    /** The edge index map numbers the edges as listed. */
    ghost predicate Valid()
      reads this
    {
      IndexesLast(edgeIndexMap, edgeList)
    }

    /** `SimpleCycleBasis(cycles, edgeList, graph)`: the index map is built from the edge list. */
    constructor (cycles: seq<SimpleCycle>, edgeList: seq<Edge>)
      ensures this.cycles == cycles && this.edgeList == edgeList && !isMinimized
      ensures Valid()
    {
      this.cycles := cycles;
      this.edgeList := edgeList;
      isMinimized := false;
      new;
      edgeIndexMap := CreateEdgeIndexMap(edgeList);
    }

    /**
     * `getEdgeIndex(edge)`: the column of `edge`, its last position in the
     * edge list; an edge not listed has no entry, and unboxing the missing
     * entry throws.
     */
    function EdgeIndex(edge: Edge): (r: Result<int, Error>)
      requires Valid()
      reads this
      ensures r.Ok? <==> edge in edgeList
      ensures r.Ok? ==> LastIndex(edgeList, edge, r.value)
      ensures r.Err? ==> r.error == NullPointer
    {
      if edge in edgeIndexMap then Ok(edgeIndexMap[edge]) else Err(NullPointer)
    }

    /**
     * `getCycleEdgeIncidenceMatrix(cycleArray)`: one row per cycle, one
     * column per edge, and entry `[i][j]` set exactly when cycle `i`
     * contains edge `j`.
     */
    method IncidenceMatrix(cycleArray: seq<SimpleCycle>) returns (result: array<array<bool>>)
      ensures result.Length == |cycleArray|
      ensures forall i :: 0 <= i < |cycleArray| ==> result[i].Length == |edgeList|
      ensures forall i, j :: 0 <= i < |cycleArray| && 0 <= j < |edgeList| ==>
        (result[i][j] <==> edgeList[j] in cycleArray[i].edges)
      ensures forall i, k :: 0 <= i < k < |cycleArray| ==> result[i] != result[k]
      ensures fresh(result) && forall i :: 0 <= i < |cycleArray| ==> fresh(result[i])
    {
      var rows: seq<array<bool>> := [];
      ghost var owned: set<array<bool>> := {};
      for i := 0 to |cycleArray|
        invariant |rows| == i && fresh(owned)
        invariant forall p :: 0 <= p < i ==> rows[p] in owned && rows[p].Length == |edgeList|
        invariant forall p, j :: 0 <= p < i && 0 <= j < |edgeList| ==>
          (rows[p][j] <==> edgeList[j] in cycleArray[p].edges)
        invariant forall p, k :: 0 <= p < k < i ==> rows[p] != rows[k]
      {
        var row := new bool[|edgeList|];
        for j := 0 to |edgeList|
          modifies row
          invariant forall t :: 0 <= t < j ==> (row[t] <==> edgeList[t] in cycleArray[i].edges)
        {
          row[j] := edgeList[j] in cycleArray[i].edges;
        }
        rows := rows + [row];
        owned := owned + {row};
      }
      result := new array<bool>[|cycleArray|](p requires 0 <= p < |cycleArray| => rows[p]);
    }

    /** `getCycleEdgeIncidenceMatrix()`: the incidence matrix of the basis's own cycles. */
    method CyclesIncidenceMatrix() returns (result: array<array<bool>>)
      ensures result.Length == |cycles|
      ensures forall i :: 0 <= i < |cycles| ==> result[i].Length == |edgeList|
      ensures forall i, j :: 0 <= i < |cycles| && 0 <= j < |edgeList| ==>
        (result[i][j] <==> edgeList[j] in cycles[i].edges)
    {
      result := IncidenceMatrix(cycles);
    }

    /** `weightVector()`: the weights of the cycles, in ascending order. */
    method WeightVector() returns (result: array<int>)
      ensures Sorted(result[..]) && multiset(result[..]) == multiset(Weights(cycles))
    {
      result := new int[|cycles|];
      for i := 0 to |cycles|
        invariant result[..i] == Weights(cycles)[..i]
      {
        result[i] := cycles[i].weight;
      }
      assert result[..] == Weights(cycles);
      Sort(result);
    }

    /**
     * The last step of `minimize` for row `i`: the shortest cycle found
     * replaces cycle `i`, its incidence row is written into row `i` of `a`,
     * and that row is reduced against every earlier row. No other row and
     * no other cycle changes.
     */
    method InsertCycle(a: array<array<bool>>, i: nat, shortest: SimpleCycle)
      requires i < |cycles| && i < a.Length && i <= |edgeList|
      requires forall t :: 0 <= t < a.Length ==> a[t].Length == |edgeList|
      requires forall t :: 0 <= t < i ==> a[t] != a[i]
      modifies this, a[i]
      ensures cycles == old(cycles)[i := shortest]
      ensures edgeIndexMap == old(edgeIndexMap) && isMinimized == old(isMinimized)
      ensures a[i][..] == ReduceRow(Incidence(shortest.edges, edgeList), CycleBasisAlgebra.Block(a, i, |edgeList|), i)
    {
      var w := |edgeList|;
      cycles := cycles[i := shortest];
      var row := a[i];
      ghost var earlier := CycleBasisAlgebra.Block(a, i, w);
      ghost var v := Incidence(shortest.edges, edgeList);
      for j := 0 to w
        modifies row
        invariant forall t :: 0 <= t < j ==> row[t] == v[t]
      {
        row[j] := edgeList[j] in shortest.edges;
      }
      assert row[..] == v;
      for j := 0 to i
        modifies row
        invariant row[..] == ReduceRow(v, earlier, j)
      {
        if row[j] {
          assert a[j][..] == earlier[j];
          AddInto(row, a[j]);
        }
      }
    }
  }
}
