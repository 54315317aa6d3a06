/**
 * `StereoElementFactory`: perceives stereo elements (tetrahedral centres,
 * double-bond and cumulated configurations, biaryl atropisomers) from a
 * structure's wedge/hatch labels and coordinates.
 *
 * The 2D and 3D subclasses become one class whose `dims` field says which
 * one it is; the creators that differ carry the suffix `2D` or `3D` and
 * require the matching `dims`. The container is a sequence of atoms and a
 * sequence of bonds addressed by index, the adjacency list `graph` holds the
 * rows the 2D double-bond creator shuffles, and `edge` is the edge-to-bond map.
 * Floating-point geometry that needs square roots, arc tangents or a sort
 * comparator, and the helpers that find the terminal atoms of a cumulated
 * chain, are the `layout` oracle.
 */
module StereoElementFactories {
  import opened Wrappers
  import opened StereoBonds
  import opened StereoChains
  import opened StereoGeometry
  import opened StereoWedges
  import opened StereoRows
  import opened StereoCenters
  import opened StereoScans

  datatype Dims = TwoD | ThreeD

  /**
   * What the `createAll` driver asks a creator for: a tetrahedral centre, a
   * cumulated chain found from its Bicoordinate atom `v` and Tricoordinate
   * end `w`, an atropisomer about the axis `u`-`w`, or a double bond `u`-`w`.
   */
  datatype Request =
    | TetrahedralAt(focus: int)
    | ChainAt(v: int, w: int, dbs: seq<int>, action: ChainAction)
    | AtropisomerAt(u: int, w: int)
    | GeometricAt(u: int, w: int)

  /** `Projection`: which drawn projections are to be interpreted. */
  datatype Projection = Fischer | Haworth | Chair

  datatype Winding = Clockwise | AntiClockwise

  /** `OPPOSITE`/`TOGETHER` for (extended) cis/trans, `LEFT`/`RIGHT` for atropisomers. */
  datatype Config = Opposite | Together | Left | Right

  /** The stereo elements the factory creates; atoms and bonds by index. */
  datatype Element =
    | Tetrahedral(focus: int, neighbors: seq<int>, winding: Winding)
    | ExtendedTetrahedral(focus: int, neighbors: seq<int>, winding: Winding)
    | DoubleBondStereo(bond: int, carriers: seq<int>, config: Config)
    | ExtendedCisTrans(focusBond: int, carriers: seq<int>, config: Config)
    | Atropisomeric(bond: int, carriers: seq<int>, config: Config)

  /**
   * Answers the model takes from outside: the unit vector of a nonzero 2D
   * vector (a square root), the polar order of a centre's neighbours and the
   * class of its largest angle (arc tangents), the terminal atoms of the
   * cumulated chain through an atom (`ExtendedTetrahedral.findTerminalAtoms`),
   * whether those lie on a line through the centre (normalised 3D vectors),
   * and the first terminal atom of the chain through a bond
   * (`ExtendedCisTrans.findTerminalAtoms`).
   */
  datatype Layout = Layout(
    unit: Point -> Point,
    polarOrder: int -> seq<int>,
    sweep: int -> Sweep,
    terminals: int -> (int, int),
    colinear: int -> bool,
    firstEnd: int -> int)

  /**
   * The container and its adjacency list agree: every row entry is an atom,
   * the edge map gives each adjacent pair a bond, adjacency is symmetric, no
   * row lists a neighbour twice, and every bond joins two atoms.
   */
  ghost predicate GraphOk(n: int, bonds: seq<Bond>, graph: seq<seq<int>>, edge: map<(int, int), int>) {
    && |graph| == n
    && (forall i :: 0 <= i < |bonds| ==> 0 <= bonds[i].begin < n && 0 <= bonds[i].end < n)
    && (forall v, k :: 0 <= v < n && 0 <= k < |graph[v]| ==>
          && 0 <= graph[v][k] < n
          && (v, graph[v][k]) in edge
          && 0 <= edge[(v, graph[v][k])] < |bonds|)
    && (forall v, x :: 0 <= v < n ==> multiset(graph[v])[x] <= 1)
  }

  /** Rows that are permutations of the old rows keep the graph well formed. */
  lemma GraphOkPermuted(n: int, bonds: seq<Bond>, g: seq<seq<int>>, g': seq<seq<int>>, edge: map<(int, int), int>)
    requires GraphOk(n, bonds, g, edge) && |g'| == n
    requires forall v :: 0 <= v < n ==> multiset(g'[v]) == multiset(g[v])
    ensures GraphOk(n, bonds, g', edge)
  {
    forall v, k | 0 <= v < n && 0 <= k < |g'[v]|
      ensures 0 <= g'[v][k] < n && (v, g'[v][k]) in edge && 0 <= edge[(v, g'[v][k])] < |bonds|
    {
      var w := g'[v][k];
      assert w in multiset(g'[v]);
      assert w in g[v];
    }
  }

  /** The rows in which `v` was moved to the back stay permutations of the old rows. */
  lemma MovedRowPermutes(g: seq<seq<int>>, u: int, v: int)
    requires 0 <= u < |g|
    ensures forall x :: 0 <= x < |g| ==> multiset(g[u := MovedToBack(g[u], v)][x]) == multiset(g[x])
  {
    MovedToBackPermutes(g[u], v);
  }

  class StereoElementFactory {
    const dims: Dims
    const atoms: seq<Atom>
    /** The bonds; `createGeometric` re-orients a double bond in place. */
    var bonds: seq<Bond>
    /** The adjacency rows; the 2D `createGeometric` shuffles two of them. */
    var graph: seq<seq<int>>
    /** `EdgeToBondMap`: the bond between two adjacent atoms. */
    const edge: map<(int, int), int>
    const layout: Layout
    var projections: set<Projection>
    var strict: bool
    /** Whether created centres are verified as stereocentres first. */
    var check: bool

    ghost predicate Valid()
      reads this
    {
      && GraphOk(|atoms|, bonds, graph, edge)
      && (forall v :: 0 <= v < |atoms| ==> multiset(layout.polarOrder(v)) == multiset(graph[v]))
      && (forall v :: 0 <= v < |atoms| ==> 0 <= layout.terminals(v).0 < |atoms| && 0 <= layout.terminals(v).1 < |atoms|)
    }

    /** The bond between adjacent atoms `v` and `w`. */
    function BondTo(v: int, w: int): Bond
      reads this
      requires (v, w) in edge && 0 <= edge[(v, w)] < |bonds|
    {
      bonds[edge[(v, w)]]
    }

    /** The bonds at `v`, in row order. */
    function BondsAround(v: int): (r: seq<Bond>)
      reads this
      requires Valid() && 0 <= v < |atoms|
      ensures |r| == |graph[v]|
      ensures forall k :: 0 <= k < |graph[v]| ==> r[k] == BondTo(v, graph[v][k])
    {
      RowBonds(ViewOf(), v)
    }

    /** The container as the carrier scans read it. */
    function ViewOf(): (g: View)
      reads this
      requires Valid()
      ensures ViewOk(g) && g.atoms == atoms && g.graph == graph
      ensures g.bonds == bonds && g.edge == edge
    {
      View(atoms, bonds, graph, edge)
    }

    constructor(dims: Dims, atoms: seq<Atom>, bonds: seq<Bond>, graph: seq<seq<int>>,
                edge: map<(int, int), int>, layout: Layout)
      requires GraphOk(|atoms|, bonds, graph, edge)
      requires forall v :: 0 <= v < |atoms| ==> multiset(layout.polarOrder(v)) == multiset(graph[v])
      requires forall v :: 0 <= v < |atoms| ==> 0 <= layout.terminals(v).0 < |atoms| && 0 <= layout.terminals(v).1 < |atoms|
      ensures Valid()
      ensures this.dims == dims && this.atoms == atoms && this.bonds == bonds && this.graph == graph
      ensures this.edge == edge && this.layout == layout
      ensures projections == {} && !strict && !check
    {
      this.dims := dims;
      this.atoms := atoms;
      this.bonds := bonds;
      this.graph := graph;
      this.edge := edge;
      this.layout := layout;
      projections := {};
      strict := false;
      check := false;
    }

    /** `interpretProjections`: adds to the projections and turns on the stereocentre check. */
    method InterpretProjections(ps: set<Projection>)
      modifies this
      ensures projections == old(projections) + ps && check && strict == old(strict)
      ensures bonds == old(bonds) && graph == old(graph)
    {
      projections := projections + ps;
      check := true;
    }

    /** `checkSymmetry(boolean)`. */
    method CheckSymmetry(c: bool)
      modifies this
      ensures check == c
      ensures projections == old(projections) && strict == old(strict) && bonds == old(bonds) && graph == old(graph)
    {
      check := c;
    }

    /** `withStrictMode`: no inverted hatches, and centres are verified. */
    method WithStrictMode()
      modifies this
      ensures check && strict
      ensures projections == old(projections) && bonds == old(bonds) && graph == old(graph)
    {
      check := true;
      strict := true;
    }

    // ---- small-ring search ----

    /**
     * A path the ring search can report, judged against the marks on entry:
     * it starts at `path[0]`, steps along adjacency, passes only unmarked
     * atoms, never repeats an atom, ends on the atom marked 2, and does not
     * step straight back to `prev`.
     */
    ghost predicate RingPath(marks: seq<int>, path: seq<int>, prev: int)
      reads this
    {
      && |path| >= 1 && |marks| == |graph|
      && (forall k :: 0 <= k < |path| ==> 0 <= path[k] < |graph|)
      && marks[path[|path| - 1]] == 2
      && (forall k :: 0 <= k < |path| - 1 ==> marks[path[k]] == 0 && path[k + 1] in graph[path[k]])
      && (forall i, j :: 0 <= i < j < |path| ==> path[i] != path[j])
      && (|path| > 1 ==> path[1] != prev)
    }

    /**
     * The search from `from` (entered from `prev`, with `len` atoms allowed)
     * reaches the atom marked 2: `from` is that atom, or it is unmarked, a
     * step is left, and the search from some neighbour other than `prev`
     * succeeds with `from` on the current path.
     */
    ghost predicate Reaches(marks: seq<int>, from: int, prev: int, len: int)
      reads this
      decreases len
    {
      && len >= 1 && 0 <= from < |marks| == |graph|
      && (|| marks[from] == 2
          || (&& len > 1 && marks[from] == 0
              && exists j :: 0 <= j < |graph[from]| && graph[from][j] != prev
                   && Reaches(marks[from := 1], graph[from][j], from, len - 1)))
    }

    /** The search succeeds exactly when a path it can report, of at most `len` atoms, exists. */
    lemma {:induction false} ReachesPath(marks: seq<int>, from: int, prev: int, len: int)
      requires |marks| == |graph| && 0 <= from < |graph|
      ensures Reaches(marks, from, prev, len) <==> exists p :: RingPath(marks, p, prev) && p[0] == from && |p| <= len
      decreases len
    {
      if Reaches(marks, from, prev, len) {
        if marks[from] == 2 {
          assert RingPath(marks, [from], prev);
        } else {
          var j :| 0 <= j < |graph[from]| && graph[from][j] != prev
                   && Reaches(marks[from := 1], graph[from][j], from, len - 1);
          var nbr := graph[from][j];
          assert nbr in graph[from];
          ReachesPath(marks[from := 1], nbr, from, len - 1);
          var q :| RingPath(marks[from := 1], q, from) && q[0] == nbr && |q| <= len - 1;
          RingPathExtended(marks, from, prev, q);
          assert ([from] + q)[0] == from;
        }
      }
      if exists p :: RingPath(marks, p, prev) && p[0] == from && |p| <= len {
        var p :| RingPath(marks, p, prev) && p[0] == from && |p| <= len;
        if marks[from] != 2 {
          assert |p| > 1;
          RingPathShortened(marks, from, prev, p);
          var j :| 0 <= j < |graph[from]| && graph[from][j] == p[1];
          ReachesPath(marks[from := 1], p[1], from, len - 1);
          assert p[1..][0] == p[1];
          assert Reaches(marks[from := 1], graph[from][j], from, len - 1);
        }
      }
    }

    /**
     * `visitSmallRing`: depth-first search from `aidx` (entered from `prev`)
     * for the atom marked 2, at most `max - depth` steps away; atoms on the
     * current path are marked 1. On failure the marks are as they were. The
     * search is exhaustive: it succeeds exactly when such a path exists.
     */
    method VisitSmallRing(mark: array<int>, aidx: int, prev: int, depth: int, max: int)
      returns (found: bool, ghost path: seq<int>)
      requires Valid() && mark.Length == |graph| && 0 <= aidx < |graph| && depth <= max
      requires forall i :: 0 <= i < mark.Length ==> 0 <= mark[i] <= 2
      modifies mark
      decreases max - depth
      ensures forall i :: 0 <= i < mark.Length ==> 0 <= mark[i] <= 2
      ensures !found ==> mark[..] == old(mark[..])
      ensures old(mark[aidx]) == 2 ==> found
      ensures found ==> RingPath(old(mark[..]), path, prev) && path[0] == aidx && |path| <= max - depth + 1
      ensures found <==> Reaches(old(mark[..]), aidx, prev, max - depth + 1)
    {
      if mark[aidx] == 2 {
        return true, [aidx];
      }
      if depth == max || mark[aidx] == 1 {
        return false, [];
      }
      ghost var before := mark[..];
      mark[aidx] := 1;
      ghost var entry := mark[..];
      assert entry == before[aidx := 1];
      var nbrs := graph[aidx];
      var i := 0;
      while i < |nbrs|
        invariant 0 <= i <= |nbrs|
        invariant mark[..] == entry
        invariant forall j :: 0 <= j < i && nbrs[j] != prev ==> !Reaches(entry, nbrs[j], aidx, max - depth)
      {
        var nbr := nbrs[i];
        if nbr != prev {
          var f, p := VisitSmallRing(mark, nbr, aidx, depth + 1, max);
          if f {
            assert nbr == graph[aidx][i];
            RingPathExtended(before, aidx, prev, p);
            path := [aidx] + p;
            return true, path;
          }
        }
        i := i + 1;
      }
      mark[aidx] := 0;
      assert mark[..] == before;
      return false, [];
    }

    /**
     * A path found from a neighbour of `aidx`, judged against the marks with
     * `aidx` on the current path, extends to a path from `aidx` itself.
     */
    lemma RingPathExtended(before: seq<int>, aidx: int, prev: int, p: seq<int>)
      requires |before| == |graph| && 0 <= aidx < |graph| && before[aidx] == 0
      requires RingPath(before[aidx := 1], p, aidx) && p[0] in graph[aidx] && p[0] != prev
      ensures RingPath(before, [aidx] + p, prev)
    {
      var path := [aidx] + p;
      forall k | 0 <= k < |p| - 1
        ensures p[k] != aidx && before[p[k]] == 0
      {
      }
      assert p[|p| - 1] != aidx && before[p[|p| - 1]] == 2;
      forall k | 0 <= k < |path| - 1
        ensures before[path[k]] == 0 && path[k + 1] in graph[path[k]]
      {
        if k > 0 {
          assert path[k] == p[k - 1] && path[k + 1] == p[k];
        }
      }
      forall a, b | 0 <= a < b < |path|
        ensures path[a] != path[b]
      {
        if a > 0 {
          assert path[a] == p[a - 1] && path[b] == p[b - 1];
        } else {
          assert path[b] == p[b - 1];
        }
      }
    }

    /**
     * The converse: a path from an unmarked `aidx` continues through a
     * neighbour other than `prev`, and its tail is a path from that
     * neighbour with `aidx` on the current path.
     */
    lemma RingPathShortened(before: seq<int>, aidx: int, prev: int, p: seq<int>)
      requires |before| == |graph| && 0 <= aidx < |graph| && before[aidx] == 0
      requires RingPath(before, p, prev) && p[0] == aidx
      ensures |p| >= 2 && p[1] in graph[aidx] && p[1] != prev
      ensures RingPath(before[aidx := 1], p[1..], aidx)
    {
      var q := p[1..];
      var marks := before[aidx := 1];
      assert |p| >= 2;
      forall k | 0 <= k < |q|
        ensures q[k] == p[k + 1] && q[k] != aidx
      {
        assert p[0] != p[k + 1];
      }
      forall k | 0 <= k < |q| - 1
        ensures marks[q[k]] == 0 && q[k + 1] in graph[q[k]]
      {
        assert q[k] == p[k + 1] && q[k + 1] == p[k + 2];
      }
      assert marks[q[|q| - 1]] == 2;
      forall a, b | 0 <= a < b < |q|
        ensures q[a] != q[b]
      {
        assert q[a] == p[a + 1] && q[b] == p[b + 1];
      }
    }

    /** The marks `isInSmallRing` starts from: only `beg` is marked, with 2. */
    ghost function StartMarks(beg: int): (m: seq<int>)
      reads this
      ensures |m| == |atoms|
    {
      seq(|atoms|, i => if i == beg then 2 else 0)
    }

    /**
     * `ring` closes a ring with bond `b` of at most `max` atoms: a simple path
     * from the bond's end atom back to its begin atom, not along the bond itself.
     */
    ghost predicate ClosesRing(b: int, ring: seq<int>, max: int)
      reads this
      requires Valid() && 0 <= b < |bonds|
    {
      && RingPath(StartMarks(bonds[b].begin), ring, bonds[b].begin)
      && ring[0] == bonds[b].end
      && |ring| <= max
    }

    /**
     * Bond `b` is flagged as a ring bond and the search from its end atom
     * reaches its begin atom within `max` atoms (SmallRingClosed: it closes a
     * ring of at most `max` atoms).
     */
    ghost predicate BondInSmallRing(b: int, max: int)
      reads this
      requires Valid() && 0 <= b < |bonds|
    {
      bonds[b].inRing && Reaches(StartMarks(bonds[b].begin), bonds[b].end, bonds[b].begin, max)
    }

    /** Bond `b` is in a small ring exactly when it is flagged and some path closes such a ring with it. */
    lemma SmallRingClosed(b: int, max: int)
      requires Valid() && 0 <= b < |bonds|
      ensures BondInSmallRing(b, max) <==> bonds[b].inRing && exists ring :: ClosesRing(b, ring, max)
    {
      var marks := StartMarks(bonds[b].begin);
      ReachesPath(marks, bonds[b].end, bonds[b].begin, max);
      if exists ring :: ClosesRing(b, ring, max) {
        var ring :| ClosesRing(b, ring, max);
        assert RingPath(marks, ring, bonds[b].begin) && ring[0] == bonds[b].end && |ring| <= max;
      }
      if Reaches(marks, bonds[b].end, bonds[b].begin, max) {
        var ring :| RingPath(marks, ring, bonds[b].begin) && ring[0] == bonds[b].end && |ring| <= max;
        assert ClosesRing(b, ring, max);
      }
    }

    /** Atom `a` is flagged as a ring atom and some bond at it is in a ring of at most `max` atoms. */
    ghost predicate AtomInSmallRing(a: int, max: int)
      reads this
      requires Valid() && 0 <= a < |atoms|
    {
      atoms[a].inRing && exists x {:trigger BondInSmallRing(x, max)} :: 0 <= x < |bonds| && Touches(bonds[x], a) && BondInSmallRing(x, max)
    }

    /** `isInSmallRing(IBond, int)`: searches from the end atom for a way back to the begin atom. */
    method IsInSmallRingBond(b: int, max: int) returns (r: bool, ghost ring: seq<int>)
      requires Valid() && 0 <= b < |bonds| && max >= 1
      ensures r <==> BondInSmallRing(b, max)
      ensures r ==> ClosesRing(b, ring, max)
    {
      if !bonds[b].inRing {
        return false, [];
      }
      var beg := bonds[b].begin;
      var end := bonds[b].end;
      var mark := new int[|atoms|](i => 0);
      mark[beg] := 2;
      ghost var start := mark[..];
      assert start == StartMarks(beg) by {
        forall i | 0 <= i < |atoms|
          ensures start[i] == StartMarks(beg)[i]
        {
        }
      }
      r, ring := VisitSmallRing(mark, end, beg, 1, max);
      assert r == Reaches(start, end, beg, max);
      if r {
        assert RingPath(start, ring, beg) && ring[0] == end && |ring| <= max;
      }
    }

    /** `isInSmallRing(IAtom, int)`: some bond at the atom is in a small ring. */
    method IsInSmallRingAtom(a: int, max: int) returns (r: bool, ghost via: int, ghost ring: seq<int>)
      requires Valid() && 0 <= a < |atoms| && max >= 1
      ensures r <==> AtomInSmallRing(a, max)
      ensures r ==> 0 <= via < |bonds| && Touches(bonds[via], a) && ClosesRing(via, ring, max)
    {
      via, ring := -1, [];
      r := false;
      if !atoms[a].inRing {
        return;
      }
      var list := Incident(bonds, a);
      var i := 0;
      while i < |list|
        invariant 0 <= i <= |list|
        invariant forall j :: 0 <= j < i ==> !BondInSmallRing(list[j], max)
      {
        assert list[i] in list;
        r, ring := IsInSmallRingBond(list[i], max);
        if r {
          via := list[i];
          return;
        }
        i := i + 1;
      }
    }

    // ---- cumulated double bonds ----

    /** `getOtherDb`: the double bond at `a` other than `other`, if it is the only one. */
    method GetOtherDb(a: int, other: int) returns (r: Option<int>)
      ensures r == UniqueOtherDouble(bonds, a, other)
    {
      var list := Incident(bonds, a);
      var result: Option<int> := None;
      var i := 0;
      ghost var at := 0;
      while i < |list|
        invariant 0 <= i <= |list|
        invariant result.None? ==> forall k :: 0 <= k < i ==> !IsOtherDouble(bonds, a, other, list[k])
        invariant result.Some? ==> IsOtherDouble(bonds, a, other, result.value) && 0 <= at < i && list[at] == result.value
        invariant result.Some? ==> forall k :: 0 <= k < i && IsOtherDouble(bonds, a, other, list[k]) ==> list[k] == result.value
      {
        var b := list[i];
        assert b in list;
        if b != other && bonds[b].order == Double {
          if result.Some? {
            assert list[at] < list[i];
            assert IsOtherDouble(bonds, a, other, b);
            ghost var u := UniqueOtherDouble(bonds, a, other);
            assert u.None?;
            return None;
          }
          result := Some(b);
          at := i;
        }
        i := i + 1;
      }
      forall j | IsOtherDouble(bonds, a, other, j)
        ensures result.Some? && j == result.value
      {
        assert j in list;
      }
      return result;
    }

    /**
     * `getCumulatedDbs`, with the loop stopped once the pending bond was
     * already collected (the chain has closed into a ring), where the source
     * loops forever. `steps` counts the passes.
     */
    method GetCumulatedDbs(endBond: int) returns (r: Option<seq<int>>, ghost steps: nat)
      requires 0 <= endBond < |bonds|
      ensures r.Some? ==> |r.value| >= 2 && r.value[0] == endBond && IsCumulatedChain(bonds, r.value)
      ensures r.Some? ==> AfterSteps(bonds, StartWalk(bonds, endBond), steps) == Walk(r.value, None)
      ensures r.None? ==>
        var w := AfterSteps(bonds, StartWalk(bonds, endBond), steps);
        StartWalk(bonds, endBond).other.None? || (w.other.Some? && w.other.value in w.dbs)
      ensures r == CumulatedDbs(bonds, endBond)
    {
      steps := 0;
      var dbs := [endBond];
      var other := FirstOtherDb(endBond);
      if other.None? {
        return None, 0;
      }
      while other.Some?
        invariant CumulatedAt(endBond, steps, dbs, other)
        invariant ChainFrom(bonds, Walk(dbs, other)) == CumulatedDbs(bonds, endBond)
        decreases Uncollected(bonds, dbs)
      {
        var o := other.value;
        if o in dbs {
          return None, steps;
        }
        AfterStepsNext(bonds, StartWalk(bonds, endBond), steps);
        other := CumulatedStep(endBond, dbs, o, steps);
        dbs := dbs + [o];
        steps := steps + 1;
      }
      return Some(dbs), steps;
    }

    /** Before the loop: the other double bond at the end bond's begin atom, else at its end atom. */
    method FirstOtherDb(endBond: int) returns (other: Option<int>)
      requires 0 <= endBond < |bonds|
      ensures CumulatedAt(endBond, 0, [endBond], other)
      ensures other == StartWalk(bonds, endBond).other
    {
      other := GetOtherDb(bonds[endBond].begin, endBond);
      if other.None? {
        other := GetOtherDb(bonds[endBond].end, endBond);
      }
      assert StartWalk(bonds, endBond) == Walk([endBond], other);
    }

    /** The state of the loop of `getCumulatedDbs` after `steps` passes. */
    ghost predicate CumulatedAt(endBond: int, steps: nat, dbs: seq<int>, other: Option<int>)
      reads this
      requires 0 <= endBond < |bonds|
    {
      && AfterSteps(bonds, StartWalk(bonds, endBond), steps) == Walk(dbs, other)
      && |dbs| == steps + 1 && dbs[0] == endBond
      && IsCumulatedChain(bonds, dbs)
      && (other.Some? ==> 0 <= other.value < |bonds| && bonds[other.value].order == Double)
    }

    /** One pass of the loop: collect the pending bond `o` and ask for the next one past its far atom. */
    method CumulatedStep(endBond: int, dbs: seq<int>, o: int, ghost steps: nat) returns (other: Option<int>)
      requires 0 <= endBond < |bonds|
      requires CumulatedAt(endBond, steps, dbs, Some(o)) && o !in dbs
      ensures CumulatedAt(endBond, steps + 1, dbs + [o], other)
      ensures Uncollected(bonds, dbs + [o]) < Uncollected(bonds, dbs)
    {
      assert o in Uncollected(bonds, dbs) && o !in Uncollected(bonds, dbs + [o]);
      ghost var start := StartWalk(bonds, endBond);
      AfterStepsNext(bonds, start, steps);
      var a := GetShared(bonds[o], bonds[Last(dbs)]).value;
      ChainExtended(bonds, dbs, o);
      other := GetOtherDb(Other(bonds[o], a), o);
    }
  
    // ---- shared views of the container ----

    /** The four slots of a tetrahedral centre: its neighbours, with the centre itself filling a missing fourth. */
    function Slots(v: int): (r: seq<int>)
      reads this
      requires Valid() && 0 <= v < |atoms| && 3 <= |graph[v]| <= 4
      ensures |r| == 4 && r[..|graph[v]|] == graph[v]
      ensures |graph[v]| == 3 ==> r[3] == v
      ensures forall k :: 0 <= k < 4 ==> 0 <= r[k] < |atoms|
    {
      if |graph[v]| == 3 then graph[v] + [v] else graph[v]
    }

    /** `parity(IAtom[])` of the 3D factory: 0 when a point is missing, else the sign of the z-weighted volume. */
    function Parity3DOf(ns: seq<int>): (p: int)
      requires |ns| == 4 && forall k :: 0 <= k < 4 ==> 0 <= ns[k] < |atoms|
      ensures -1 <= p <= 1
      ensures (exists k :: 0 <= k < 4 && atoms[ns[k]].point3d.None?) ==> p == 0
    {
      if exists k :: 0 <= k < 4 && atoms[ns[k]].point3d.None? then 0
      else TetrahedralParity3D(seq(4, k requires 0 <= k < 4 => atoms[ns[k]].point3d.value))
    }

    /** Exchanging the first two neighbours reverses the 3D winding. */
    lemma Parity3DSwap(ns: seq<int>)
      requires |ns| == 4 && forall k :: 0 <= k < 4 ==> 0 <= ns[k] < |atoms|
      ensures Parity3DOf([ns[1], ns[0], ns[2], ns[3]]) == -Parity3DOf(ns)
    {
      var ms := [ns[1], ns[0], ns[2], ns[3]];
      if forall k :: 0 <= k < 4 ==> atoms[ns[k]].point3d.Some? {
        assert forall k :: 0 <= k < 4 ==> atoms[ms[k]].point3d.Some?;
        var p := seq(4, k requires 0 <= k < 4 => atoms[ns[k]].point3d.value);
        var q := seq(4, k requires 0 <= k < 4 => atoms[ms[k]].point3d.value);
        var pp := [XY(p[0]), XY(p[1]), XY(p[2]), XY(p[3])];
        var pw := [p[0].z, p[1].z, p[2].z, p[3].z];
        ParitySumSwap(pp, pw);
        assert [XY(q[0]), XY(q[1]), XY(q[2]), XY(q[3])] == [pp[1], pp[0], pp[2], pp[3]];
        assert [q[0].z, q[1].z, q[2].z, q[3].z] == [pw[1], pw[0], pw[2], pw[3]];
      } else {
        var k :| 0 <= k < 4 && atoms[ns[k]].point3d.None?;
        assert atoms[ms[if k == 0 then 1 else if k == 1 then 0 else k]].point3d.None?;
      }
    }

    /** The loop of `parity(IAtom[])`: collect the four points, giving up on a missing one. */
    method AtomParity3D(ns: seq<int>) returns (p: int)
      requires |ns| == 4 && forall k :: 0 <= k < 4 ==> 0 <= ns[k] < |atoms|
      ensures p == Parity3DOf(ns)
    {
      var coords: seq<Point3> := [];
      var i := 0;
      while i < 4
        invariant 0 <= i <= 4 && |coords| == i
        invariant forall k :: 0 <= k < i ==> atoms[ns[k]].point3d == Some(coords[k])
      {
        var pt := atoms[ns[i]].point3d;
        if pt.None? {
          return 0;
        }
        coords := coords + [pt.value];
        i := i + 1;
      }
      assert coords == seq(4, k requires 0 <= k < 4 => atoms[ns[k]].point3d.value);
      p := TetrahedralParity3D(coords);
    }

    /** Which entries of `t`'s row are joined to it by a single bond and are not `skip`. */
    function SingleFlags(t: int, skip: Option<int>): (f: seq<bool>)
      reads this
      requires Valid() && 0 <= t < |atoms|
      ensures |f| == |graph[t]|
      ensures forall k :: 0 <= k < |f| ==> f[k] == (BondTo(t, graph[t][k]).order == Single && Some(graph[t][k]) != skip)
    {
      SingleFlagsOf(ViewOf(), t, skip)
    }

    /** The neighbours of `t` joined by a single bond, other than `skip`, in row order. */
    function Singles(t: int, skip: Option<int>): (r: seq<int>)
      reads this
      requires Valid() && 0 <= t < |atoms|
      ensures forall k :: 0 <= k < |r| ==> 0 <= r[k] < |atoms|
    {
      var r := Kept(graph[t], SingleFlags(t, skip), |graph[t]|);
      KeptIn(graph[t], SingleFlags(t, skip), |graph[t]|);
      assert forall k :: 0 <= k < |r| ==> r[k] in graph[t];
      r
    }

    // ---- 3D creators ----

    /** `createTetrahedral(int, Stereocenters)` of the 3D factory. */
    method CreateTetrahedral3D(v: int, centers: Stereocenters) returns (r: Option<Element>)
      requires Valid() && dims == ThreeD && 0 <= v < |atoms|
      requires centers.Valid() && |centers.types| == |atoms|
      requires |graph[v]| <= 4
      ensures r.Some? <==> centers.IsStereocenter(v) && !HasUnspecifiedParity(atoms[v]) && |graph[v]| >= 3
      ensures r.Some? ==> r.value.Tetrahedral? && r.value.focus == v && r.value.neighbors == Slots(v)
      ensures r.Some? ==> (r.value.winding == AntiClockwise <==> Parity3DOf(Slots(v)) > 0)
    {
      if !centers.IsStereocenter(v) {
        return None;
      }
      if HasUnspecifiedParity(atoms[v]) {
        return None;
      }
      var neighbors := new int[4];
      neighbors[3] := v;
      var n := 0;
      var row := graph[v];
      while n < |row|
        invariant 0 <= n <= |row|
        invariant neighbors[..n] == row[..n]
        invariant n < 4 ==> neighbors[3] == v
      {
        neighbors[n] := row[n];
        n := n + 1;
      }
      if n < 3 || n > 4 {
        return None;
      }
      assert neighbors[..] == Slots(v);
      var parity := AtomParity3D(neighbors[..]);
      var winding := if parity > 0 then AntiClockwise else Clockwise;
      return Some(Tetrahedral(v, neighbors[..], winding));
    }

    /** The substituent of `u` that is not `v`: the first row entry, or the second when the first is `v`. */
    function Substituent(u: int, v: int): (x: int)
      reads this
      requires Valid() && 0 <= u < |atoms| && |graph[u]| >= 2
      ensures x in graph[u] && 0 <= x < |atoms|
    {
      if graph[u][0] == v then graph[u][1] else graph[u][0]
    }

    /** `bond.setAtoms(u, v)`: the double bond stored as running from `u` to `v`. */
    method Reorient(u: int, v: int)
      requires Valid() && 0 <= u < |atoms| && 0 <= v < |atoms| && (u, v) in edge && 0 <= edge[(u, v)] < |bonds|
      modifies this
      ensures Valid()
      ensures bonds == old(bonds)[edge[(u, v)] := old(bonds)[edge[(u, v)]].(begin := u, end := v)]
      ensures graph == old(graph) && check == old(check) && strict == old(strict) && projections == old(projections)
    {
      var b := edge[(u, v)];
      bonds := bonds[b := bonds[b].(begin := u, end := v)];
    }

    /** `createGeometric(int, int, Stereocenters)` of the 3D factory: `v` is the atom double bonded to `u`. */
    method CreateGeometric3D(u: int, v: int) returns (r: Option<Element>)
      requires Valid() && dims == ThreeD && 0 <= u < |atoms| && 0 <= v < |atoms| && v in graph[u]
      requires |graph[u]| >= 2 && |graph[v]| >= 2
      modifies this
      ensures Valid() && graph == old(graph) && check == old(check) && strict == old(strict)
      ensures r.Some? <==>
        && !HasUnspecifiedParity(atoms[u]) && !HasUnspecifiedParity(atoms[v])
        && atoms[u].point3d.Some? && atoms[v].point3d.Some?
        && atoms[Substituent(u, v)].point3d.Some? && atoms[Substituent(v, u)].point3d.Some?
      ensures r.Some? ==>
        var x := Substituent(u, v);
        var w := Substituent(v, u);
        var parity := BondParity3D(atoms[u].point3d.value, atoms[v].point3d.value, atoms[x].point3d.value, atoms[w].point3d.value);
        r.value == DoubleBondStereo(edge[(u, v)], [edge[(u, x)], edge[(v, w)]], if parity > 0 then Opposite else Together)
      ensures bonds == if r.Some? then old(bonds)[edge[(u, v)] := old(bonds)[edge[(u, v)]].(begin := u, end := v)] else old(bonds)
    {
      if HasUnspecifiedParity(atoms[u]) || HasUnspecifiedParity(atoms[v]) {
        return None;
      }
      var x := Substituent(u, v);
      var w := Substituent(v, u);
      var pu, pv, px, pw := atoms[u].point3d, atoms[v].point3d, atoms[x].point3d, atoms[w].point3d;
      if pu.None? || pv.None? || px.None? || pw.None? {
        return None;
      }
      var parity := BondParity3D(pu.value, pv.value, px.value, pw.value);
      var conformation := if parity > 0 then Opposite else Together;
      var carriers := [edge[(u, x)], edge[(v, w)]];
      Reorient(u, v);
      return Some(DoubleBondStereo(edge[(u, v)], carriers, conformation));
    }

    /**
     * The four slots of the 3D extended tetrahedral centre `v`, filled from
     * the single-bonded neighbours of its terminal atoms.
     */
    function ExtendedSlotsAt(v: int): (ns: seq<int>)
      reads this
      requires Valid() && 0 <= v < |atoms|
      requires 1 <= |Singles(layout.terminals(v).0, None)| <= 4 && 1 <= |Singles(layout.terminals(v).1, None)| <= 2
      ensures |ns| == 4 && forall k :: 0 <= k < 4 ==> 0 <= ns[k] < |atoms|
    {
      var (t0, t1) := layout.terminals(v);
      var s0, s1 := Singles(t0, None), Singles(t1, None);
      var ns := ExtendedSlots3D(s0, s1, t0, t1);
      assert forall k :: 0 <= k < 4 ==> 0 <= ns[k] < |atoms| by {
        forall k | 0 <= k < 4
          ensures 0 <= ns[k] < |atoms|
        {
          assert ns[k] in ns;
          if ns[k] in s0 {
            var j :| 0 <= j < |s0| && s0[j] == ns[k];
          } else if ns[k] in s1 {
            var j :| 0 <= j < |s1| && s1[j] == ns[k];
          }
        }
      }
      ns
    }

    /** `createExtendedTetrahedral(int, Stereocenters)` of the 3D factory. */
    method CreateExtendedTetrahedral3D(v: int) returns (r: Option<Element>)
      requires Valid() && dims == ThreeD && 0 <= v < |atoms|
      requires |Singles(layout.terminals(v).0, None)| <= 4 && |Singles(layout.terminals(v).1, None)| <= 2
      ensures r.Some? <==>
        && !HasUnspecifiedParity(atoms[v]) && |Incident(bonds, v)| == 2 && layout.colinear(v)
        && |Singles(layout.terminals(v).0, None)| >= 1 && |Singles(layout.terminals(v).1, None)| >= 1
      ensures r.Some? ==>
        var ns := ExtendedSlotsAt(v);
        r.value == ExtendedTetrahedral(v, ns, if Parity3DOf(ns) > 0 then AntiClockwise else Clockwise)
    {
      if HasUnspecifiedParity(atoms[v]) {
        return None;
      }
      if |Incident(bonds, v)| != 2 {
        return None;
      }
      var (t0, t1) := layout.terminals(v);
      if !layout.colinear(v) {
        return None;
      }
      var ok, neighbors := ExtendedNeighbors3D(graph[t0], SingleFlags(t0, None), graph[t1], SingleFlags(t1, None), t0, t1);
      if !ok {
        return None;
      }
      assert neighbors == ExtendedSlotsAt(v);
      var parity := AtomParity3D(neighbors);
      var winding := if parity > 0 then AntiClockwise else Clockwise;
      return Some(ExtendedTetrahedral(v, neighbors, winding));
    }

    /** Exchanging the first two neighbours with the last two (an even permutation) keeps the 3D winding. */
    lemma Parity3DPairSwap(ns: seq<int>)
      requires |ns| == 4 && forall k :: 0 <= k < 4 ==> 0 <= ns[k] < |atoms|
      ensures Parity3DOf([ns[2], ns[3], ns[0], ns[1]]) == Parity3DOf(ns)
    {
      var ms := [ns[2], ns[3], ns[0], ns[1]];
      if forall k :: 0 <= k < 4 ==> atoms[ns[k]].point3d.Some? {
        assert forall k :: 0 <= k < 4 ==> atoms[ms[k]].point3d.Some?;
        var p := seq(4, k requires 0 <= k < 4 => atoms[ns[k]].point3d.value);
        var q := seq(4, k requires 0 <= k < 4 => atoms[ms[k]].point3d.value);
        var pp := [XY(p[0]), XY(p[1]), XY(p[2]), XY(p[3])];
        var pw := [p[0].z, p[1].z, p[2].z, p[3].z];
        ParitySumPairSwap(pp, pw);
        assert [XY(q[0]), XY(q[1]), XY(q[2]), XY(q[3])] == [pp[2], pp[3], pp[0], pp[1]];
        assert [q[0].z, q[1].z, q[2].z, q[3].z] == [pw[2], pw[3], pw[0], pw[1]];
      } else {
        var k :| 0 <= k < 4 && atoms[ns[k]].point3d.None?;
        assert atoms[ms[(k + 2) % 4]].point3d.None?;
      }
    }

    // ---- atropisomers ----

    /** The carriers on `u`'s side of the axis to `v`: the two neighbours of `u` other than `v`. */
    lemma EndCarriers(u: int, v: int)
      requires Valid() && 0 <= u < |atoms| && v in graph[u]
      ensures |AxisCarriers(ViewOf(), u, v)| == |graph[u]| - 1
      ensures forall k :: 0 <= k < |AxisCarriers(ViewOf(), u, v)| ==> AxisCarriers(ViewOf(), u, v)[k] in graph[u]
    {
      var row := graph[u];
      KeptOthersLength(row, v, |row|);
      KeptIn(row, Others(row, v), |row|);
      assert row[..|row|] == row;
      assert multiset(row)[v] == 1;
    }

    /**
     * What `createAtropisomer` of the 3D factory answers for the axis `u`-`v`:
     * an element only for ortho substitution on both rings counted with and
     * without the explicit hydrogens, with two carriers per end, LEFT when
     * they wind anticlockwise.
     */
    function Atropisomer3D(u: int, v: int): (r: Option<Element>)
      reads this
      requires Valid() && 0 <= u < |atoms| && 0 <= v < |atoms| && v in graph[u] && u in graph[v]
      ensures r.Some? ==> AxisGate(ViewOf(), u, v) && (HeavySum(ViewOf(), u, v), HeavySum(ViewOf(), v, u)) in {(8, 9), (9, 8), (9, 9)}
      ensures r.Some? ==> r.value.Atropisomeric? && r.value.bond == edge[(u, v)] && |r.value.carriers| == 4
      ensures r.Some? ==> r.value.carriers == AxisCarrierPairs(ViewOf(), u, v)
      ensures r.Some? ==> (r.value.config == Left <==> Parity3DOf(r.value.carriers) > 0)
    {
      var g := ViewOf();
      if !AxisGate(g, u, v) || !HeavyGate(g, u, v) then None
      else
        OrthoGateCases(HeavySum(g, u, v), HeavySum(g, v, u));
        EndCarriers(u, v);
        EndCarriers(v, u);
        var cs := AxisCarrierPairs(g, u, v);
        Some(Atropisomeric(edge[(u, v)], cs, if Parity3DOf(cs) > 0 then Left else Right))
    }

    /** `createAtropisomer(int, int, Stereocenters)` of the 3D factory. */
    method CreateAtropisomer3D(u: int, v: int) returns (r: Option<Element>)
      requires Valid() && dims == ThreeD && 0 <= u < |atoms| && 0 <= v < |atoms| && v in graph[u] && u in graph[v]
      ensures r == Atropisomer3D(u, v)
    {
      var ok, carriers := AxisScan3D(ViewOf(), u, v);
      if !ok {
        return None;
      }
      EndCarriers(u, v);
      EndCarriers(v, u);
      var parity := AtomParity3D(carriers);
      var cfg := if parity > 0 then Left else Right;
      return Some(Atropisomeric(edge[(u, v)], carriers, cfg));
    }

    /**
     * The 3D atropisomer does not depend on which end of the axis is named
     * first: the same answer, with the carrier pairs exchanged.
     */
    lemma Atropisomer3DEndsSwapped(u: int, v: int)
      requires Valid() && 0 <= u < |atoms| && 0 <= v < |atoms| && v in graph[u] && u in graph[v]
      requires edge[(u, v)] == edge[(v, u)]
      ensures Atropisomer3D(v, u).Some? <==> Atropisomer3D(u, v).Some?
      ensures Atropisomer3D(u, v).Some? ==>
        var e := Atropisomer3D(u, v).value;
        var cs := e.carriers;
        Atropisomer3D(v, u) == Some(Atropisomeric(e.bond, [cs[2], cs[3], cs[0], cs[1]], e.config))
    {
      var g := ViewOf();
      assert AxisGate(g, v, u) <==> AxisGate(g, u, v);
      if AxisGate(g, u, v) {
        assert HeavyGate(g, v, u) <==> HeavyGate(g, u, v);
      }
      if Atropisomer3D(u, v).Some? {
        EndCarriers(u, v);
        EndCarriers(v, u);
        var a := AxisCarriers(g, u, v);
        var b := AxisCarriers(g, v, u);
        var cs := a + b;
        Parity3DPairSwap(cs);
        PairsSwapped(a, b);
        var cfg := if Parity3DOf(cs) > 0 then Left else Right;
        assert Atropisomer3D(u, v) == Some(Atropisomeric(edge[(u, v)], cs, cfg));
        assert Atropisomer3D(v, u) == Some(Atropisomeric(edge[(v, u)], b + a, cfg));
      }
    }

    /**
     * `createAtropisomer(int, int, Stereocenters)` of the 2D factory: the
     * checks and carriers of `AxisPasses2D`, then the parity of the carriers'
     * elevations about the centre of the axis, LEFT when positive. The ends
     * need points once every check has passed.
     */
    method CreateAtropisomer2D(u: int, v: int) returns (r: Option<Element>)
      requires Valid() && dims == TwoD && 0 <= u < |atoms| && 0 <= v < |atoms| && v in graph[u] && u in graph[v]
      requires AxisPasses2D(ViewOf(), u, v) ==> atoms[u].point2d.Some? && atoms[v].point2d.Some?
      ensures r.Some? <==> AxisPasses2D(ViewOf(), u, v)
      ensures r.Some? ==>
        var found := Atropisomer2DOf(ViewOf(), layout.unit, u, v).value;
        r.value == Atropisomeric(edge[(u, v)], found.0, if found.1 > 0 then Left else Right)
    {
      var found := Atropisomer2DScan(ViewOf(), layout.unit, u, v);
      if found.None? {
        return None;
      }
      var cfg := if found.value.1 > 0 then Left else Right;
      return Some(Atropisomeric(edge[(u, v)], found.value.0, cfg));
    }

    // ---- extended cis/trans ----

    /** The atom across the first bond at `a` other than `x`: where that end's carrier leads. */
    function FarAtom(a: int, x: int): (n: int)
      reads this
      requires Valid() && |Incident(bonds, a)| >= 2
      ensures 0 <= n < |atoms|
    {
      var c := FirstOtherBond(bonds, a, x);
      Other(bonds[c], a)
    }

    /** Both ends of the chain carry a bond besides the chain's own end bond. */
    predicate EndsCarried(dbs: seq<int>)
      reads this
      requires Valid() && IsCumulatedChain(bonds, dbs) && |dbs| >= 2
    {
      |Incident(bonds, BeginAtom(bonds, dbs))| >= 2 && |Incident(bonds, EndAtom(bonds, dbs))| >= 2
    }

    /**
     * The carriers of an extended cis/trans chain: the first other bond at
     * each end, the one at the end `findTerminalAtoms` names first coming first.
     */
    function ChainCarriers(dbs: seq<int>): (cs: seq<int>)
      reads this
      requires Valid() && IsCumulatedChain(bonds, dbs) && |dbs| >= 2 && EndsCarried(dbs)
      ensures |cs| == 2 && 0 <= cs[0] < |bonds| && 0 <= cs[1] < |bonds|
      ensures
        var beg, end := BeginAtom(bonds, dbs), EndAtom(bonds, dbs);
        var (b, e) := if layout.firstEnd(dbs[|dbs| / 2]) == beg then (0, 1) else (1, 0);
        && Touches(bonds[cs[b]], beg) && cs[b] != dbs[0] && Touches(bonds[cs[e]], end) && cs[e] != Last(dbs)
    {
      var beg, end := BeginAtom(bonds, dbs), EndAtom(bonds, dbs);
      var bc, ec := FirstOtherBond(bonds, beg, dbs[0]), FirstOtherBond(bonds, end, Last(dbs));
      if layout.firstEnd(dbs[|dbs| / 2]) == beg then [bc, ec] else [ec, bc]
    }

    /** Where the 3D creator reads coordinates, they are present. */
    ghost predicate ChainPoints3D(dbs: seq<int>)
      reads this
      requires Valid() && IsCumulatedChain(bonds, dbs) && |dbs| >= 2
    {
      var beg, end := BeginAtom(bonds, dbs), EndAtom(bonds, dbs);
      |dbs| % 2 == 1 && EndsCarried(dbs) ==>
        && atoms[beg].point3d.Some? && atoms[FarAtom(beg, dbs[0])].point3d.Some?
        && atoms[end].point3d.Some? && atoms[FarAtom(end, Last(dbs))].point3d.Some?
    }

    /**
     * `createExtendedCisTrans(List<IBond>, Stereocenters)` of the 3D factory:
     * an odd chain whose ends both carry another bond is OPPOSITE when the
     * two carrier directions point away from each other.
     */
    function ExtendedCisTrans3D(dbs: seq<int>): (r: Option<Element>)
      reads this
      requires Valid() && dims == ThreeD && IsCumulatedChain(bonds, dbs) && |dbs| >= 2
      requires ChainPoints3D(dbs)
      ensures r.Some? <==> |dbs| % 2 == 1 && EndsCarried(dbs)
      ensures r.Some? ==> r.value.ExtendedCisTrans? && r.value.focusBond == dbs[|dbs| / 2] && r.value.carriers == ChainCarriers(dbs)
      ensures r.Some? ==>
        var beg, end := BeginAtom(bonds, dbs), EndAtom(bonds, dbs);
        var bv := Sub3(atoms[beg].point3d.value, atoms[FarAtom(beg, dbs[0])].point3d.value);
        var ev := Sub3(atoms[end].point3d.value, atoms[FarAtom(end, Last(dbs))].point3d.value);
        (r.value.config == Opposite <==> Opposed3(bv, ev)) && (r.value.config == Opposite || r.value.config == Together)
    {
      if |dbs| % 2 == 0 then None
      else
        var beg, end := BeginAtom(bonds, dbs), EndAtom(bonds, dbs);
        if |Incident(bonds, beg)| < 2 || |Incident(bonds, end)| < 2 then None
        else
          var bv := Sub3(atoms[beg].point3d.value, atoms[FarAtom(beg, dbs[0])].point3d.value);
          var ev := Sub3(atoms[end].point3d.value, atoms[FarAtom(end, Last(dbs))].point3d.value);
          Some(ExtendedCisTrans(dbs[|dbs| / 2], ChainCarriers(dbs), if Dot3(bv, ev) < 0.0 then Opposite else Together))
    }

    /** What reading a chain from its other end exchanges and what it keeps. */
    ghost predicate ChainEndsReversedFacts(dbs: seq<int>)
      reads this
      requires Valid() && IsCumulatedChain(bonds, dbs) && |dbs| >= 2
    {
      var r := Reverse(dbs);
      && IsCumulatedChain(bonds, r) && |r| == |dbs| && (|dbs| % 2 == 1 ==> r[|r| / 2] == dbs[|dbs| / 2])
      && BeginAtom(bonds, r) == EndAtom(bonds, dbs) && EndAtom(bonds, r) == BeginAtom(bonds, dbs)
      && r[0] == Last(dbs) && Last(r) == dbs[0]
      && EndsCarried(r) == EndsCarried(dbs)
      && (|dbs| % 2 == 1 && EndsCarried(dbs) ==> ChainCarriers(r) == ChainCarriers(dbs))
    }

    /**
     * Read from its other end, a chain has its end atoms, their carriers and
     * the atoms across them exchanged, and the same middle bond.
     */
    lemma ChainEndsReversed(dbs: seq<int>)
      requires Valid() && IsCumulatedChain(bonds, dbs) && |dbs| >= 2 && bonds[dbs[0]].order == Double
      requires BeginAtom(bonds, dbs) != EndAtom(bonds, dbs)
      requires layout.firstEnd(dbs[|dbs| / 2]) in {BeginAtom(bonds, dbs), EndAtom(bonds, dbs)}
      ensures ChainEndsReversedFacts(dbs)
    {
      ChainReversed(bonds, dbs);
      var r := Reverse(dbs);
      assert r[0] == Last(dbs) && Last(r) == dbs[0];
      if |dbs| % 2 == 1 && EndsCarried(dbs) {
        assert ChainCarriers(r) == ChainCarriers(dbs);
      }
    }

    /**
     * The 3D extended cis/trans configuration does not depend on which end of
     * the chain it is read from, given that `findTerminalAtoms` names one of
     * the chain's two distinct end atoms first. The reversed chain's points
     * are present by `ChainPoints3DReversed`.
     */
    lemma ExtendedCisTrans3DReversed(dbs: seq<int>)
      requires Valid() && dims == ThreeD && IsCumulatedChain(bonds, dbs) && |dbs| >= 2 && bonds[dbs[0]].order == Double
      requires ChainPoints3D(dbs)
      requires BeginAtom(bonds, dbs) != EndAtom(bonds, dbs)
      requires layout.firstEnd(dbs[|dbs| / 2]) in {BeginAtom(bonds, dbs), EndAtom(bonds, dbs)}
      requires IsCumulatedChain(bonds, Reverse(dbs)) && ChainPoints3D(Reverse(dbs))
      ensures ExtendedCisTrans3D(Reverse(dbs)) == ExtendedCisTrans3D(dbs)
    {
      ChainEndsReversed(dbs);
      Dot3Symmetric();
    }

    /** The 3D creator finds the points it reads from either end. */
    lemma ChainPoints3DReversed(dbs: seq<int>)
      requires Valid() && IsCumulatedChain(bonds, dbs) && |dbs| >= 2 && bonds[dbs[0]].order == Double
      requires ChainPoints3D(dbs)
      requires BeginAtom(bonds, dbs) != EndAtom(bonds, dbs)
      requires layout.firstEnd(dbs[|dbs| / 2]) in {BeginAtom(bonds, dbs), EndAtom(bonds, dbs)}
      ensures IsCumulatedChain(bonds, Reverse(dbs)) && ChainPoints3D(Reverse(dbs))
    {
      ChainEndsReversed(dbs);
    }

    /** Where the 2D creator reads coordinates, they are present. */
    ghost predicate ChainPoints2D(dbs: seq<int>, centers: Stereocenters)
      reads this, centers
      requires Valid() && IsCumulatedChain(bonds, dbs) && |dbs| >= 2
      requires centers.Valid() && |centers.types| == |atoms|
    {
      var beg, end := BeginAtom(bonds, dbs), EndAtom(bonds, dbs);
      |dbs| % 2 == 1 && !(centers.checked && (!centers.IsStereocenter(beg) || !centers.IsStereocenter(end))) && EndsCarried(dbs) ==>
        && atoms[beg].point2d.Some? && atoms[FarAtom(beg, dbs[0])].point2d.Some?
        && atoms[end].point2d.Some? && atoms[FarAtom(end, Last(dbs))].point2d.Some?
    }

    /**
     * `createExtendedCisTrans(List<IBond>, Stereocenters)` of the 2D factory:
     * as in 3D, except that once symmetry has been checked both end atoms
     * must be stereocentres.
     */
    function ExtendedCisTrans2D(dbs: seq<int>, centers: Stereocenters): (r: Option<Element>)
      reads this, centers
      requires Valid() && dims == TwoD && IsCumulatedChain(bonds, dbs) && |dbs| >= 2
      requires centers.Valid() && |centers.types| == |atoms|
      requires ChainPoints2D(dbs, centers)
      ensures r.Some? <==>
        var beg, end := BeginAtom(bonds, dbs), EndAtom(bonds, dbs);
        && |dbs| % 2 == 1 && EndsCarried(dbs)
        && (centers.checked ==> centers.IsStereocenter(beg) && centers.IsStereocenter(end))
      ensures r.Some? ==> r.value.ExtendedCisTrans? && r.value.focusBond == dbs[|dbs| / 2] && r.value.carriers == ChainCarriers(dbs)
      ensures r.Some? ==>
        var beg, end := BeginAtom(bonds, dbs), EndAtom(bonds, dbs);
        var bv := Minus(atoms[FarAtom(beg, dbs[0])].point2d.value, atoms[beg].point2d.value);
        var ev := Minus(atoms[FarAtom(end, Last(dbs))].point2d.value, atoms[end].point2d.value);
        (r.value.config == Opposite <==> Opposed(bv, ev)) && (r.value.config == Opposite || r.value.config == Together)
    {
      if |dbs| % 2 == 0 then None
      else
        var beg, end := BeginAtom(bonds, dbs), EndAtom(bonds, dbs);
        if centers.checked && (!centers.IsStereocenter(beg) || !centers.IsStereocenter(end)) then None
        else if |Incident(bonds, beg)| < 2 || |Incident(bonds, end)| < 2 then None
        else
          var bv := Minus(atoms[FarAtom(beg, dbs[0])].point2d.value, atoms[beg].point2d.value);
          var ev := Minus(atoms[FarAtom(end, Last(dbs))].point2d.value, atoms[end].point2d.value);
          Some(ExtendedCisTrans(dbs[|dbs| / 2], ChainCarriers(dbs), if Opposed(bv, ev) then Opposite else Together))
    }

    /**
     * The 2D configuration, too, is the same read from either end. The
     * reversed chain's points are present by `ChainPoints2DReversed`.
     */
    lemma ExtendedCisTrans2DReversed(dbs: seq<int>, centers: Stereocenters)
      requires Valid() && dims == TwoD && IsCumulatedChain(bonds, dbs) && |dbs| >= 2 && bonds[dbs[0]].order == Double
      requires centers.Valid() && |centers.types| == |atoms|
      requires ChainPoints2D(dbs, centers)
      requires BeginAtom(bonds, dbs) != EndAtom(bonds, dbs)
      requires layout.firstEnd(dbs[|dbs| / 2]) in {BeginAtom(bonds, dbs), EndAtom(bonds, dbs)}
      requires IsCumulatedChain(bonds, Reverse(dbs)) && ChainPoints2D(Reverse(dbs), centers)
      ensures ExtendedCisTrans2D(Reverse(dbs), centers) == ExtendedCisTrans2D(dbs, centers)
    {
      ChainEndsReversed(dbs);
      ExtendedCisTrans2DReversedFound(dbs, centers);
      if ExtendedCisTrans2D(dbs, centers).Some? {
        ExtendedCisTrans2DReversedConfig(dbs, centers);
      }
    }

    /** Found from either end, the two readings agree on the configuration. */
    lemma ExtendedCisTrans2DReversedConfig(dbs: seq<int>, centers: Stereocenters)
      requires Valid() && dims == TwoD && IsCumulatedChain(bonds, dbs) && |dbs| >= 2 && bonds[dbs[0]].order == Double
      requires centers.Valid() && |centers.types| == |atoms|
      requires ChainPoints2D(dbs, centers)
      requires BeginAtom(bonds, dbs) != EndAtom(bonds, dbs)
      requires layout.firstEnd(dbs[|dbs| / 2]) in {BeginAtom(bonds, dbs), EndAtom(bonds, dbs)}
      requires IsCumulatedChain(bonds, Reverse(dbs)) && ChainPoints2D(Reverse(dbs), centers)
      requires ExtendedCisTrans2D(dbs, centers).Some? && ExtendedCisTrans2D(Reverse(dbs), centers).Some?
      ensures ExtendedCisTrans2D(Reverse(dbs), centers).value.config == ExtendedCisTrans2D(dbs, centers).value.config
    {
      ChainEndsReversed(dbs);
      OpposedSymmetric();
    }

    /** Whether an element is found does not depend on the end the chain is read from. */
    lemma ExtendedCisTrans2DReversedFound(dbs: seq<int>, centers: Stereocenters)
      requires Valid() && dims == TwoD && IsCumulatedChain(bonds, dbs) && |dbs| >= 2 && bonds[dbs[0]].order == Double
      requires centers.Valid() && |centers.types| == |atoms|
      requires ChainPoints2D(dbs, centers)
      requires BeginAtom(bonds, dbs) != EndAtom(bonds, dbs)
      requires layout.firstEnd(dbs[|dbs| / 2]) in {BeginAtom(bonds, dbs), EndAtom(bonds, dbs)}
      requires IsCumulatedChain(bonds, Reverse(dbs)) && ChainPoints2D(Reverse(dbs), centers)
      ensures ExtendedCisTrans2D(Reverse(dbs), centers).Some? == ExtendedCisTrans2D(dbs, centers).Some?
    {
      ChainEndsReversed(dbs);
    }

    /** The 2D creator finds the points it reads from either end. */
    lemma ChainPoints2DReversed(dbs: seq<int>, centers: Stereocenters)
      requires Valid() && IsCumulatedChain(bonds, dbs) && |dbs| >= 2 && bonds[dbs[0]].order == Double
      requires centers.Valid() && |centers.types| == |atoms|
      requires ChainPoints2D(dbs, centers)
      requires BeginAtom(bonds, dbs) != EndAtom(bonds, dbs)
      requires layout.firstEnd(dbs[|dbs| / 2]) in {BeginAtom(bonds, dbs), EndAtom(bonds, dbs)}
      ensures IsCumulatedChain(bonds, Reverse(dbs)) && ChainPoints2D(Reverse(dbs), centers)
    {
      ChainEndsReversed(dbs);
    }

    // ---- 2D tetrahedral centres ----

    /** The bonds of `v` in the polar order of its neighbours around it. */
    function PolarBonds(v: int): (r: seq<Bond>)
      reads this
      requires Valid() && 0 <= v < |atoms|
      ensures |r| == |graph[v]|
    {
      var order := layout.polarOrder(v);
      assert |order| == |multiset(order)| == |multiset(graph[v])| == |graph[v]|;
      assert forall k :: 0 <= k < |order| ==> order[k] in multiset(graph[v]);
      seq(|order|, k requires 0 <= k < |order| && (v, order[k]) in edge && 0 <= edge[(v, order[k])] < |bonds| reads this =>
        BondTo(v, order[k]))
    }

    /** The 2D points of the four slots of `v`. */
    function SlotPoints(v: int): (ps: seq<Option<Point>>)
      reads this
      requires Valid() && 0 <= v < |atoms| && 3 <= |graph[v]| <= 4
      ensures |ps| == 4 && forall k :: 0 <= k < 4 ==> ps[k] == atoms[Slots(v)[k]].point2d
    {
      var ns := Slots(v);
      [atoms[ns[0]].point2d, atoms[ns[1]].point2d, atoms[ns[2]].point2d, atoms[ns[3]].point2d]
    }

    /** The elevations of a centre's slots: a missing fourth neighbour lies in the plane. */
    function Padded(es: seq<int>): (r: seq<int>)
      requires 3 <= |es| <= 4
      ensures |r| == 4 && r[..|es|] == es
      ensures |es| == 3 ==> r[3] == 0
    {
      if |es| == 3 then es + [0] else es
    }

    /**
     * The elevations the 2D tetrahedral creator reaches its parity with, or
     * `None` where it gives up first: an unspecified focus, a centre that
     * fails the requested check, or any of the reasons of `CentreElevations`.
     */
    ghost function Tetrahedral2DElevations(v: int, centers: Stereocenters): (r: Option<seq<int>>)
      reads this, centers
      requires Valid() && 0 <= v < |atoms| && centers.Valid() && |centers.types| == |atoms|
      ensures r.Some? ==> 3 <= |graph[v]| && |r.value| == |graph[v]|
    {
      if HasUnspecifiedParity(atoms[v]) then None
      else if check && !centers.IsStereocenter(v) then None
      else CentreElevations(v, graph[v], BondsAround(v), PolarBonds(v), layout.sweep(v), strict, centers)
    }

    /** `createTetrahedral(int, Stereocenters)` of the 2D factory. */
    method CreateTetrahedral2D(v: int, centers: Stereocenters) returns (r: Option<Element>)
      requires Valid() && dims == TwoD && 0 <= v < |atoms| && |graph[v]| <= 4
      requires centers.Valid() && |centers.types| == |atoms|
      requires |graph[v]| >= 1 && atoms[graph[v][0]].point2d.Some? ==> atoms[v].point2d.Some?
      modifies centers
      ensures centers.Valid() && (old(centers.checked) ==> centers.checked)
      ensures (forall k :: 0 <= k < |graph[v]| ==> !(IsHatch(BondTo(v, graph[v][k])) && centers.possible[graph[v][k]])) ==>
        centers.checked == old(centers.checked)
      ensures
        var es := old(Tetrahedral2DElevations(v, centers));
        r.Some? <==> es.Some? && Parity2DOf(layout.unit, atoms[v].point2d, SlotPoints(v), Padded(es.value)) != 0
      ensures r.Some? ==>
        var es := old(Tetrahedral2DElevations(v, centers));
        && r.value.Tetrahedral? && r.value.focus == v && r.value.neighbors == Slots(v)
        && (r.value.winding == AntiClockwise <==> Parity2DOf(layout.unit, atoms[v].point2d, SlotPoints(v), Padded(es.value)) > 0)
    {
      if HasUnspecifiedParity(atoms[v]) {
        return None;
      }
      if check && !centers.IsStereocenter(v) {
        return None;
      }
      var es := CentreScan(v, graph[v], BondsAround(v), PolarBonds(v), layout.sweep(v), strict, centers);
      if es.None? {
        return None;
      }
      var parity := TetrahedralParity2D(layout.unit, atoms[v].point2d, SlotPoints(v), Padded(es.value));
      if parity == 0 {
        return None;
      }
      var winding := if parity > 0 then AntiClockwise else Clockwise;
      return Some(Tetrahedral(v, Slots(v), winding));
    }

    // ---- 2D double bonds ----

    /** Row `u` with `v` moved to the back: the same neighbours, `v` last and nowhere else. */
    function MovedRow(u: int, v: int): (r: seq<int>)
      reads this
      requires Valid() && 0 <= u < |atoms| && v in graph[u]
      ensures |r| == |graph[u]| && r[|r| - 1] == v
      ensures forall k :: 0 <= k < |r| ==> r[k] in graph[u]
      ensures forall k :: 0 <= k < |r| - 1 ==> r[k] != v
    {
      assert multiset(graph[u])[v] <= 1;
      MovedToBackOnce(graph[u], v);
      MovedToBack(graph[u], v)
    }

    /**
     * The 2D double bond `u`=`v` once its rows `us` and `vs` have the partner
     * at the back: wavy substituent bonds and a crossed double bond give
     * nothing, as does a side whose parity cannot be told; OPPOSITE when the
     * two sides' parities agree.
     */
    function Conformation2D(u: int, v: int, us: seq<int>, vs: seq<int>): (r: Option<Element>)
      reads this
      requires Valid() && 0 <= u < |atoms| && 0 <= v < |atoms| && v in graph[u] && u in graph[v]
      requires 2 <= |us| <= 3 && 2 <= |vs| <= 3
      requires forall k :: 0 <= k < |us| ==> us[k] in graph[u]
      requires forall k :: 0 <= k < |vs| ==> vs[k] in graph[v]
      ensures r.Some? ==> r.value.DoubleBondStereo? && r.value.bond == edge[(u, v)] && !IsUnspecified(BondTo(u, v))
      ensures r.Some? ==> r.value.carriers == [edge[(u, us[0])], edge[(v, vs[0])]]
      ensures r.Some? ==> !IsUnspecified(BondTo(u, us[0])) && !IsUnspecified(BondTo(v, vs[0]))
      ensures r.Some? ==>
        var p := SideParity(atoms[us[0]].point2d, atoms[if |us| > 2 then us[1] else u].point2d, atoms[v].point2d)
               * SideParity(atoms[vs[0]].point2d, atoms[if |vs| > 2 then vs[1] else v].point2d, atoms[u].point2d);
        p != 0 && (r.value.config == Opposite <==> p > 0) && (r.value.config == Opposite || r.value.config == Together)
    {
      if IsUnspecified(BondTo(u, us[0])) || IsUnspecified(BondTo(u, us[1]))
         || IsUnspecified(BondTo(v, vs[0])) || IsUnspecified(BondTo(v, vs[1])) then None
      else
        var parity := SideParity(atoms[us[0]].point2d, atoms[if |us| > 2 then us[1] else u].point2d, atoms[v].point2d)
                    * SideParity(atoms[vs[0]].point2d, atoms[if |vs| > 2 then vs[1] else v].point2d, atoms[u].point2d);
        if parity == 0 || IsUnspecified(BondTo(u, v)) then None
        else Some(DoubleBondStereo(edge[(u, v)], [edge[(u, us[0])], edge[(v, vs[0])]], if parity > 0 then Opposite else Together))
    }

    /**
     * What `createGeometric(int, int, Stereocenters)` of the 2D factory answers
     * for the double bond `u`=`v`: each end needs two or three neighbours, and
     * each end's parity is taken on its row with the partner moved to the back,
     * the substituent first.
     */
    function Geometric2D(u: int, v: int): (r: Option<Element>)
      reads this
      requires Valid() && 0 <= u < |atoms| && 0 <= v < |atoms| && v in graph[u] && u in graph[v]
      ensures r.Some? ==>
        && !HasUnspecifiedParity(atoms[u]) && !HasUnspecifiedParity(atoms[v])
        && 2 <= |graph[u]| <= 3 && 2 <= |graph[v]| <= 3 && !IsUnspecified(BondTo(u, v))
      ensures r.Some? ==> r.value.DoubleBondStereo? && r.value.bond == edge[(u, v)] && |r.value.carriers| == 2
      ensures r.Some? ==>
        var x, w := Substituent(u, v), Substituent(v, u);
        && x != v && w != u && r.value.carriers == [edge[(u, x)], edge[(v, w)]]
        && !IsUnspecified(BondTo(u, x)) && !IsUnspecified(BondTo(v, w))
    {
      if HasUnspecifiedParity(atoms[u]) || HasUnspecifiedParity(atoms[v]) then None
      else if |graph[u]| < 2 || |graph[u]| > 3 || |graph[v]| < 2 || |graph[v]| > 3 then None
      else Conformation2D(u, v, MovedRow(u, v), MovedRow(v, u))
    }

    /** Read from its other end the double bond has the same conformation, with the carriers exchanged. */
    lemma Geometric2DEndsSwapped(u: int, v: int)
      requires Valid() && 0 <= u < |atoms| && 0 <= v < |atoms| && v in graph[u] && u in graph[v]
      requires edge[(u, v)] == edge[(v, u)]
      ensures Geometric2D(v, u).Some? <==> Geometric2D(u, v).Some?
      ensures Geometric2D(u, v).Some? ==>
        var e := Geometric2D(u, v).value;
        Geometric2D(v, u) == Some(DoubleBondStereo(e.bond, [e.carriers[1], e.carriers[0]], e.config))
    {
    }

    /** `moveToBack(graph[u], v)`: the row is shuffled in place. */
    method MoveRowToBack(u: int, v: int)
      requires Valid() && 0 <= u < |atoms|
      modifies this
      ensures Valid() && graph == old(graph)[u := MovedToBack(old(graph)[u], v)]
      ensures bonds == old(bonds) && check == old(check) && strict == old(strict) && projections == old(projections)
    {
      var row := graph[u];
      var a := new int[|row|](k requires 0 <= k < |row| => row[k]);
      assert a[..] == row;
      MoveToBack(a, v);
      MovedRowPermutes(graph, u, v);
      GraphOkPermuted(|atoms|, bonds, graph, graph[u := a[..]], edge);
      graph := graph[u := a[..]];
    }

    /** `createGeometric(int, int, Stereocenters)` of the 2D factory: `v` is the atom double bonded to `u`. */
    method CreateGeometric2D(u: int, v: int) returns (r: Option<Element>)
      requires Valid() && dims == TwoD && 0 <= u < |atoms| && 0 <= v < |atoms| && u != v && v in graph[u] && u in graph[v]
      modifies this
      ensures Valid() && check == old(check) && strict == old(strict) && projections == old(projections)
      ensures r == old(Geometric2D(u, v))
      ensures graph == if !HasUnspecifiedParity(atoms[u]) && !HasUnspecifiedParity(atoms[v])
                          && 2 <= |old(graph)[u]| <= 3 && 2 <= |old(graph)[v]| <= 3
                       then old(graph)[u := MovedToBack(old(graph)[u], v)][v := MovedToBack(old(graph)[v], u)]
                       else old(graph)
      ensures bonds == if r.Some? then old(bonds)[edge[(u, v)] := old(bonds)[edge[(u, v)]].(begin := u, end := v)] else old(bonds)
    {
      if HasUnspecifiedParity(atoms[u]) || HasUnspecifiedParity(atoms[v]) {
        return None;
      }
      if |graph[u]| < 2 || |graph[u]| > 3 || |graph[v]| < 2 || |graph[v]| > 3 {
        return None;
      }
      ghost var us0, vs0 := MovedRow(u, v), MovedRow(v, u);
      MoveRowToBack(u, v);
      MoveRowToBack(v, u);
      assert graph[u] == us0 && graph[v] == vs0;
      r := Conformation2D(u, v, graph[u], graph[v]);
      if r.Some? {
        Reorient(u, v);
      }
    }

    // ---- 2D extended tetrahedral centres ----

    /**
     * `createExtendedTetrahedral(int, Stereocenters)` of the 2D factory for
     * the centre `v` of a cumulated chain with terminal atoms `t0` and `t1`:
     * the focus must have specified parity, and once symmetry has been
     * checked both terminals must be stereocentres; the slots and their
     * parity are then those of `ExtendedParity2D`, and a parity of 0 gives
     * CLOCKWISE.
     */
    method CreateExtendedTetrahedral2D(v: int, centers: Stereocenters) returns (r: Option<Element>)
      requires Valid() && dims == TwoD && 0 <= v < |atoms| && centers.Valid() && |centers.types| == |atoms|
      requires ExtendedFocusReady(ViewOf(), v, layout.terminals(v).0)
      ensures var t0, t1 := layout.terminals(v).0, layout.terminals(v).1;
        r.Some? <==>
          && !HasUnspecifiedParity(atoms[v])
          && (centers.checked ==> centers.IsStereocenter(t0) && centers.IsStereocenter(t1))
          && ExtendedParity2D(ViewOf(), layout.unit, v, t0, t1).Some?
      ensures r.Some? ==>
        var found := ExtendedParity2D(ViewOf(), layout.unit, v, layout.terminals(v).0, layout.terminals(v).1).value;
        r.value == ExtendedTetrahedral(v, found.0, if found.1 > 0 then AntiClockwise else Clockwise)
    {
      if HasUnspecifiedParity(atoms[v]) {
        return None;
      }
      var t0, t1 := layout.terminals(v).0, layout.terminals(v).1;
      if centers.checked && (!centers.IsStereocenter(t0) || !centers.IsStereocenter(t1)) {
        return None;
      }
      var found := ExtendedTetrahedralScan2D(ViewOf(), layout.unit, v, t0, t1);
      if found.None? {
        return None;
      }
      var winding := if found.value.1 > 0 then AntiClockwise else Clockwise;
      return Some(ExtendedTetrahedral(v, found.value.0, winding));
    }

    // ---- the createAll driver ----

    /**
     * A request of the first pass is one the driver may make: a tetrahedral
     * centre on a Tetracoordinate atom; a chain of cumulated double bonds
     * starting with the bond from a Bicoordinate atom to a Tricoordinate
     * one, handled from its lower-numbered end; an axis between two
     * Tricoordinate atoms, numbered upwards, over a bond that passes the
     * axis tests.
     */
    ghost predicate FirstPassOk(r: Request, types: seq<CenterType>)
      reads this
      requires Valid() && |types| == |atoms|
    {
      match r
      case TetrahedralAt(v) => 0 <= v < |atoms| && types[v] == Tetracoordinate
      case ChainAt(v, w, dbs, action) =>
        && 0 <= v < |atoms| && w in graph[v]
        && types[v] == Bicoordinate && types[w] == Tricoordinate
        && |dbs| >= 2 && dbs[0] == edge[(v, w)] && IsCumulatedChain(bonds, dbs)
        && action == Dispatch(bonds, dbs) && !action.SkipChain?
      case AtropisomerAt(u, w) =>
        && 0 <= u < |atoms| && w in graph[u] && w > u
        && types[u] == Tricoordinate && types[w] == Tricoordinate
        && AxisBondPasses(edge[(u, w)])
      case GeometricAt(_, _) => false
    }

    /**
     * A request of the second pass: a double bond, numbered upwards, between
     * two Tricoordinate atoms that are stereocentres once symmetry is
     * checked, and in no ring of up to seven atoms.
     */
    ghost predicate SecondPassOk(r: Request, centers: Stereocenters)
      reads this, centers
      requires Valid() && centers.Valid() && |centers.types| == |atoms|
    {
      && r.GeometricAt? && 0 <= r.u < |atoms| && r.w in graph[r.u] && r.w > r.u
      && centers.types[r.u] == Tricoordinate && centers.types[r.w] == Tricoordinate
      && centers.verified[r.u] && centers.verified[r.w]
      && BondTo(r.u, r.w).order == Double
      && !BondInSmallRing(edge[(r.u, r.w)], 7)
    }

    /**
     * The `k`-th neighbour of `v` ends a chain the Bicoordinate case uses: it
     * is Tricoordinate, a chain of cumulated double bonds starts at their
     * bond, and the chain is taken from the end whose bond has the smaller
     * index.
     */
    ghost predicate ChainUsable(v: int, k: int, types: seq<CenterType>)
      reads this
      requires Valid() && |types| == |atoms| && 0 <= v < |atoms| && 0 <= k < |graph[v]|
    {
      var c := CumulatedDbs(bonds, edge[(v, graph[v][k])]);
      types[graph[v][k]] == Tricoordinate && c.Some? && c.value[0] <= Last(c.value)
    }

    /** For each neighbour of `v`, in row order, whether it ends a usable chain. */
    ghost function UsableChains(v: int, types: seq<CenterType>): (f: seq<bool>)
      reads this
      requires Valid() && |types| == |atoms| && 0 <= v < |atoms|
      ensures |f| == |graph[v]| && forall k :: 0 <= k < |graph[v]| ==> f[k] == ChainUsable(v, k, types)
    {
      seq(|graph[v]|, k requires Valid() && 0 <= k < |graph[v]| reads this => ChainUsable(v, k, types))
    }

    /**
     * The Bicoordinate case: the chain of the first neighbour that ends a
     * usable chain is requested, and nothing when no neighbour does.
     */
    method ChainRequest(v: int, types: seq<CenterType>) returns (r: Option<Request>)
      requires Valid() && |types| == |atoms| && 0 <= v < |atoms| && types[v] == Bicoordinate
      ensures r.Some? ==> FirstPassOk(r.value, types) && r.value.ChainAt? && r.value.v == v
      ensures r.Some? ==> var k := FirstSet(UsableChains(v, types), 0);
        && k.Some? && r.value.w == graph[v][k.value] && Some(r.value.dbs) == CumulatedDbs(bonds, edge[(v, r.value.w)])
        && UsableChains(v, types)[k.value] && forall j :: 0 <= j < k.value ==> !UsableChains(v, types)[j]
      ensures r.None? <==> FirstSet(UsableChains(v, types), 0).None?
      ensures r.None? ==> forall j :: 0 <= j < |graph[v]| ==> !UsableChains(v, types)[j]
    {
      var nbrs := graph[v];
      ghost var usable := UsableChains(v, types);
      FirstSetIsFirst(usable, 0);
      var i := 0;
      while i < |nbrs|
        invariant 0 <= i <= |nbrs|
        invariant FirstSet(usable, 0) == FirstSet(usable, i)
      {
        var chain := ChainTest(v, i, types);
        assert usable[i] == chain.Some?;
        if chain.Some? {
          var w := nbrs[i];
          var action := Dispatch(bonds, chain.value);
          return Some(ChainAt(v, w, chain.value, action));
        }
        i := i + 1;
      }
      return None;
    }

    /** The tests on the `k`-th neighbour of `v`: the usable chain it ends, if any. */
    method ChainTest(v: int, k: int, types: seq<CenterType>) returns (chain: Option<seq<int>>)
      requires Valid() && |types| == |atoms| && 0 <= v < |atoms| && 0 <= k < |graph[v]|
      ensures chain.Some? <==> ChainUsable(v, k, types)
      ensures chain.Some? ==> chain == CumulatedDbs(bonds, edge[(v, graph[v][k])])
      ensures chain.Some? ==> |chain.value| >= 2 && chain.value[0] == edge[(v, graph[v][k])]
      ensures chain.Some? ==> IsCumulatedChain(bonds, chain.value) && chain.value[0] <= Last(chain.value)
    {
      var w := graph[v][k];
      if types[w] != Tricoordinate {
        return None;
      }
      var dbs, _ := GetCumulatedDbs(edge[(v, w)]);
      if dbs.None? || dbs.value[0] > Last(dbs.value) {
        return None;
      }
      return dbs;
    }

    /**
     * The axis tests on a bond: a single bond in no ring of up to six atoms
     * whose two atoms each lie on such a ring.
     */
    ghost predicate AxisBondPasses(b: int)
      reads this
      requires Valid() && 0 <= b < |bonds|
    {
      && bonds[b].order == Single
      && !BondInSmallRing(b, 6)
      && AtomInSmallRing(bonds[b].begin, 6)
      && AtomInSmallRing(bonds[b].end, 6)
    }

    /** The tests on the bond `b` from `v` to a higher-numbered Tricoordinate neighbour. */
    method AxisBondOk(b: int) returns (ok: bool)
      requires Valid() && 0 <= b < |bonds|
      ensures ok <==> AxisBondPasses(b)
    {
      if bonds[b].order != Single {
        return false;
      }
      var inRing, _ := IsInSmallRingBond(b, 6);
      if inRing {
        return false;
      }
      var begInRing, _, _ := IsInSmallRingAtom(bonds[b].begin, 6);
      if !begInRing {
        return false;
      }
      var endInRing, _, _ := IsInSmallRingAtom(bonds[b].end, 6);
      return endInRing;
    }

    /**
     * The `k`-th neighbour of `v` is numbered above it, is Tricoordinate,
     * and the bond to it passes the axis tests.
     */
    ghost predicate AxisNeighbour(v: int, k: int, types: seq<CenterType>)
      reads this
      requires Valid() && |types| == |atoms| && 0 <= v < |atoms| && 0 <= k < |graph[v]|
    {
      && graph[v][k] > v && types[graph[v][k]] == Tricoordinate
      && AxisBondPasses(edge[(v, graph[v][k])])
    }

    /** An axis to a neighbour that passes is a request the first pass may make. */
    lemma AxisNeighbourRequest(v: int, k: int, types: seq<CenterType>)
      requires Valid() && |types| == |atoms| && 0 <= v < |atoms| && 0 <= k < |graph[v]|
      requires types[v] == Tricoordinate && AxisNeighbour(v, k, types)
      ensures FirstPassOk(AtropisomerAt(v, graph[v][k]), types)
    {
      assert graph[v][k] in graph[v];
    }

    /** The condition of the Tricoordinate case on the `k`-th neighbour of `v`. */
    method AxisTest(v: int, k: int, types: seq<CenterType>) returns (ok: bool)
      requires Valid() && |types| == |atoms| && 0 <= v < |atoms| && 0 <= k < |graph[v]|
      ensures ok <==> AxisNeighbour(v, k, types)
    {
      var w := graph[v][k];
      if w > v && types[w] == Tricoordinate {
        ok := AxisBondOk(edge[(v, w)]);
      } else {
        ok := false;
      }
    }

    /** The Tricoordinate case of the first pass: the first neighbour that passes the axis tests. */
    method AxisRequest(v: int, types: seq<CenterType>) returns (r: Option<Request>)
      requires Valid() && |types| == |atoms| && 0 <= v < |atoms| && types[v] == Tricoordinate
      ensures r.Some? ==> FirstPassOk(r.value, types) && r.value.AtropisomerAt? && r.value.u == v
      ensures r.None? ==> forall k :: 0 <= k < |graph[v]| ==> !AxisNeighbour(v, k, types)
    {
      var i := 0;
      while i < |graph[v]|
        invariant 0 <= i <= |graph[v]|
        invariant forall j :: 0 <= j < i ==> !AxisNeighbour(v, j, types)
      {
        var ok := AxisTest(v, i, types);
        if ok {
          AxisNeighbourRequest(v, i, types);
          return Some(AtropisomerAt(v, graph[v][i]));
        }
        i := i + 1;
      }
      r := None;
    }

    /** The first neighbour in `row` joined to `v` by a double bond and numbered above `v`. */
    ghost function FirstDoubleAbove(v: int, row: seq<int>): (w: Option<int>)
      reads this
      requires Valid() && 0 <= v < |atoms| && forall k :: 0 <= k < |row| ==> row[k] in graph[v]
      ensures w.Some? ==> w.value in row && w.value > v && BondTo(v, w.value).order == Double
      ensures w.None? ==> forall x :: x in row && x > v ==> BondTo(v, x).order != Double
    {
      if row == [] then None
      else
        assert row[0] in graph[v];
        var k :| 0 <= k < |graph[v]| && graph[v][k] == row[0];
        if row[0] > v && BondTo(v, row[0]).order == Double then Some(row[0])
        else FirstDoubleAbove(v, row[1..])
    }

    /**
     * The second pass for one verified Tricoordinate atom: only its first
     * double bond to a higher-numbered atom is considered, and it is
     * requested exactly when it passes the second-pass tests.
     */
    method DoubleBondRequest(v: int, centers: Stereocenters) returns (r: Option<Request>)
      requires Valid() && centers.Valid() && |centers.types| == |atoms| && 0 <= v < |atoms|
      requires centers.checked && centers.types[v] == Tricoordinate && centers.verified[v]
      ensures r.Some? ==> SecondPassOk(r.value, centers) && r.value.u == v
      ensures r.Some? ==> FirstDoubleAbove(v, graph[v]) == Some(r.value.w)
      ensures r.None? && FirstDoubleAbove(v, graph[v]).Some? ==>
        !SecondPassOk(GeometricAt(v, FirstDoubleAbove(v, graph[v]).value), centers)
    {
      var nbrs := graph[v];
      var i := 0;
      while i < |nbrs|
        invariant 0 <= i <= |nbrs|
        invariant FirstDoubleAbove(v, nbrs) == FirstDoubleAbove(v, nbrs[i..])
      {
        assert nbrs[i..] == [nbrs[i]] + nbrs[i + 1..];
        var w := nbrs[i];
        assert w in graph[v];
        var b := edge[(v, w)];
        if w > v && bonds[b].order == Double {
          if centers.types[w] == Tricoordinate && centers.IsStereocenter(w) {
            var inRing, _ := IsInSmallRingBond(b, 7);
            if !inRing {
              return Some(GeometricAt(v, w));
            }
          }
          return None;
        }
        i := i + 1;
      }
      return None;
    }

    /**
     * The two passes of `createAll` as the requests they make of the
     * creators, in order: the first pass after the optional symmetry check,
     * the second once symmetry has been checked. Every Tetracoordinate atom
     * is asked for a tetrahedral centre.
     */
    method PlanAll(centers: Stereocenters) returns (first: seq<Request>, second: seq<Request>)
      requires Valid() && centers.Valid() && |centers.types| == |atoms|
      modifies centers
      ensures centers.checked
      ensures forall k :: 0 <= k < |first| ==> FirstPassOk(first[k], centers.types)
      ensures forall v :: 0 <= v < |atoms| && centers.types[v] == Tetracoordinate ==> TetrahedralAt(v) in first
      ensures forall k :: 0 <= k < |second| ==> SecondPassOk(second[k], centers)
    {
      if check {
        centers.CheckSymmetry();
      }
      first := [];
      var v := 0;
      while v < |atoms|
        invariant 0 <= v <= |atoms| && centers.Valid()
        invariant forall k :: 0 <= k < |first| ==> FirstPassOk(first[k], centers.types)
        invariant forall x :: 0 <= x < v && centers.types[x] == Tetracoordinate ==> TetrahedralAt(x) in first
      {
        var req: Option<Request> := None;
        match centers.types[v] {
          case Bicoordinate =>
            req := ChainRequest(v, centers.types);
          case Tetracoordinate =>
            req := Some(TetrahedralAt(v));
          case Tricoordinate =>
            req := AxisRequest(v, centers.types);
          case NoCenter =>
        }
        if req.Some? {
          first := first + [req.value];
        }
        v := v + 1;
      }
      centers.CheckSymmetry();
      second := [];
      v := 0;
      while v < |atoms|
        invariant 0 <= v <= |atoms| && centers.Valid() && centers.checked
        invariant forall k :: 0 <= k < |second| ==> SecondPassOk(second[k], centers)
      {
        if centers.types[v] == Tricoordinate && centers.IsStereocenter(v) {
          var req := DoubleBondRequest(v, centers);
          if req.Some? {
            second := second + [req.value];
          }
        }
        v := v + 1;
      }
    }
  }
}
