/**
 * The loops the stereo creators run over adjacency rows, stated over plain
 * values: the entries kept by a flag, the carriers of an atropisomer with
 * the explicit hydrogens around them and the wedge found beyond them, the
 * single-bonded neighbours of a cumulated chain's terminal atoms, the
 * elevations around a tetrahedral centre with the inverted-hatch fallback,
 * and the 2D tetrahedral parity.
 */
module StereoScans {
  import opened Wrappers
  import opened StereoBonds
  import opened StereoGeometry
  import opened StereoCenters
  import opened StereoWedges

  /** How many of the first `m` flags are set. */
  function Flagged(keep: seq<bool>, m: int): (n: nat)
    requires 0 <= m <= |keep|
    ensures n <= m
  {
    if m == 0 then 0 else Flagged(keep, m - 1) + if keep[m - 1] then 1 else 0
  }

  /** The position of the first set flag from position `i` on, if any. */
  function FirstSet(flags: seq<bool>, i: int): (k: Option<int>)
    requires 0 <= i <= |flags|
    ensures k.Some? ==> i <= k.value < |flags|
    decreases |flags| - i
  {
    if i == |flags| then None
    else if flags[i] then Some(i)
    else FirstSet(flags, i + 1)
  }

  /** The position found is set and none before it is; `None` when none from `i` on is. */
  lemma {:induction false} FirstSetIsFirst(flags: seq<bool>, i: int)
    requires 0 <= i <= |flags|
    ensures var k := FirstSet(flags, i);
      && (k.Some? ==> flags[k.value] && forall j :: i <= j < k.value ==> !flags[j])
      && (k.None? ==> forall j :: i <= j < |flags| ==> !flags[j])
    decreases |flags| - i
  {
    if i < |flags| && !flags[i] {
      FirstSetIsFirst(flags, i + 1);
    }
  }

  /** The entries of `row[..m]` whose flag is set, in order. */
  function Kept(row: seq<int>, keep: seq<bool>, m: int): (r: seq<int>)
    requires 0 <= m <= |row| == |keep|
    ensures |r| == Flagged(keep, m)
  {
    if m == 0 then []
    else
      var r := Kept(row, keep, m - 1);
      if keep[m - 1] then r + [row[m - 1]] else r
  }

  /** A shorter scan yields a prefix of a longer one. */
  lemma {:induction false} KeptPrefix(row: seq<int>, keep: seq<bool>, i: int, j: int)
    requires 0 <= i <= j <= |row| == |keep|
    ensures |Kept(row, keep, i)| <= |Kept(row, keep, j)|
    ensures Kept(row, keep, j)[..|Kept(row, keep, i)|] == Kept(row, keep, i)
    decreases j - i
  {
    if i < j {
      KeptPrefix(row, keep, i, j - 1);
    }
  }

  /** The loop that writes the kept entries of `row` into the slots of `slots` from `from` on. */
  method FillKept(row: seq<int>, keep: seq<bool>, slots: array<int>, from: int) returns (n: int)
    requires |row| == |keep| && 0 <= from && from + |Kept(row, keep, |row|)| <= slots.Length
    modifies slots
    ensures n == from + |Kept(row, keep, |row|)|
    ensures forall k :: from <= k < n ==> slots[k] == Kept(row, keep, |row|)[k - from]
    ensures forall k :: 0 <= k < slots.Length && !(from <= k < n) ==> slots[k] == old(slots[k])
  {
    ghost var s := Kept(row, keep, |row|);
    n := from;
    var i := 0;
    while i < |row|
      invariant 0 <= i <= |row|
      invariant from <= n <= from + |s| && Kept(row, keep, i) == s[..n - from]
      invariant forall k :: from <= k < n ==> slots[k] == s[k - from]
      invariant forall k :: 0 <= k < slots.Length && !(from <= k < n) ==> slots[k] == old(slots[k])
    {
      KeptPrefix(row, keep, i + 1, |row|);
      if keep[i] {
        assert s[..n + 1 - from] == s[..n - from] + [row[i]];
        slots[n] := row[i];
        n := n + 1;
      }
      i := i + 1;
    }
  }

  /**
   * The four slots of a 3D extended tetrahedral centre as the two loops
   * leave them: the single-bonded neighbours `s0` of terminal `t0` from slot
   * 0, those of `t1` (`s1`) from slot 2, the terminals in slots 1 and 3
   * unless overwritten.
   */
  function ExtendedSlots3D(s0: seq<int>, s1: seq<int>, t0: int, t1: int): (r: seq<int>)
    requires 1 <= |s0| <= 4 && 1 <= |s1| <= 2
    ensures |r| == 4
    ensures forall x :: x in r ==> x in s0 || x in s1 || x == t0 || x == t1
    ensures r[0] == s0[0] && r[2] == s1[0]
  {
    [s0[0], if |s0| >= 2 then s0[1] else t0, s1[0],
     if |s1| >= 2 then s1[1] else if |s0| >= 4 then s0[3] else t1]
  }

  /**
   * The two loops of the 3D extended tetrahedral creator: the entries of
   * `row0` flagged in `keep0` fill the slots from 0, those of `row1` from 2;
   * either side finding none gives no element.
   */
  method ExtendedNeighbors3D(row0: seq<int>, keep0: seq<bool>, row1: seq<int>, keep1: seq<bool>, t0: int, t1: int)
    returns (ok: bool, ns: seq<int>)
    requires |row0| == |keep0| && |row1| == |keep1|
    requires |Kept(row0, keep0, |row0|)| <= 4 && |Kept(row1, keep1, |row1|)| <= 2
    ensures ok <==> |Kept(row0, keep0, |row0|)| >= 1 && |Kept(row1, keep1, |row1|)| >= 1
    ensures ok ==> ns == ExtendedSlots3D(Kept(row0, keep0, |row0|), Kept(row1, keep1, |row1|), t0, t1)
  {
    var neighbors := new int[4];
    neighbors[1] := t0;
    neighbors[3] := t1;
    var n := FillKept(row0, keep0, neighbors, 0);
    if n == 0 {
      return false, [];
    }
    n := FillKept(row1, keep1, neighbors, 2);
    if n == 2 {
      return false, [];
    }
    return true, neighbors[..];
  }

  /** Every kept entry is an entry of the row. */
  lemma {:induction false} KeptIn(row: seq<int>, keep: seq<bool>, m: int)
    requires 0 <= m <= |row| == |keep|
    ensures forall k :: 0 <= k < |Kept(row, keep, m)| ==> Kept(row, keep, m)[k] in row
    decreases m
  {
    if m > 0 {
      KeptIn(row, keep, m - 1);
    }
  }

  /** Every kept entry lies in the range the row lies in. */
  lemma {:induction false} KeptWithin(row: seq<int>, keep: seq<bool>, m: int, n: int)
    requires 0 <= m <= |row| == |keep|
    requires forall k :: 0 <= k < |row| ==> 0 <= row[k] < n
    ensures forall k :: 0 <= k < |Kept(row, keep, m)| ==> 0 <= Kept(row, keep, m)[k] < n
    decreases m
  {
    if m > 0 {
      KeptWithin(row, keep, m - 1, n);
    }
  }

  /** The flags that keep every entry of `row` other than `x`. */
  function Others(row: seq<int>, x: int): (f: seq<bool>)
    ensures |f| == |row| && forall k :: 0 <= k < |row| ==> f[k] == (row[k] != x)
  {
    seq(|row|, k requires 0 <= k < |row| => row[k] != x)
  }

  /** Dropping `x` shortens the row by the number of times `x` occurs in it. */
  lemma {:induction false} KeptOthersLength(row: seq<int>, x: int, m: int)
    requires 0 <= m <= |row|
    ensures |Kept(row, Others(row, x), m)| == m - multiset(row[..m])[x]
    decreases m
  {
    if m > 0 {
      KeptOthersLength(row, x, m - 1);
      assert row[..m] == row[..m - 1] + [row[m - 1]];
    }
  }

  /** What is kept is never `x`. */
  lemma {:induction false} KeptOthersExclude(row: seq<int>, x: int, m: int)
    requires 0 <= m <= |row|
    ensures forall k :: 0 <= k < |Kept(row, Others(row, x), m)| ==> Kept(row, Others(row, x), m)[k] != x
    decreases m
  {
    if m > 0 {
      KeptOthersExclude(row, x, m - 1);
    }
  }

  // ---- the container as the scans read it ----

  /** The atoms, the bonds, the adjacency rows and the bond index of each adjacent pair. */
  datatype View = View(atoms: seq<Atom>, bonds: seq<Bond>, graph: seq<seq<int>>, edge: map<(int, int), int>)

  ghost predicate ViewOk(g: View) {
    && |g.graph| == |g.atoms|
    && (forall x, k :: 0 <= x < |g.graph| && 0 <= k < |g.graph[x]| ==>
          && 0 <= g.graph[x][k] < |g.atoms|
          && (x, g.graph[x][k]) in g.edge
          && 0 <= g.edge[(x, g.graph[x][k])] < |g.bonds|)
  }

  /** The bond from `x` to its `k`-th neighbour. */
  function Around(g: View, x: int, k: int): Bond
    requires ViewOk(g) && 0 <= x < |g.graph| && 0 <= k < |g.graph[x]|
  {
    g.bonds[g.edge[(x, g.graph[x][k])]]
  }

  /** The bonds along row `x`, in row order. */
  function RowBonds(g: View, x: int): (r: seq<Bond>)
    requires ViewOk(g) && 0 <= x < |g.graph|
    ensures |r| == |g.graph[x]| && forall k :: 0 <= k < |r| ==> r[k] == Around(g, x, k)
  {
    seq(|g.graph[x]|, k requires 0 <= k < |g.graph[x]| && (x, g.graph[x][k]) in g.edge && 0 <= g.edge[(x, g.graph[x][k])] < |g.bonds| =>
      g.bonds[g.edge[(x, g.graph[x][k])]])
  }

  /** Which entries of row `t` are joined to `t` by a single bond and are not `skip`. */
  function SingleFlagsOf(g: View, t: int, skip: Option<int>): (f: seq<bool>)
    requires ViewOk(g) && 0 <= t < |g.graph|
    ensures |f| == |g.graph[t]|
    ensures forall k :: 0 <= k < |f| ==> f[k] == (Around(g, t, k).order == Single && Some(g.graph[t][k]) != skip)
  {
    seq(|g.graph[t]|, k requires 0 <= k < |g.graph[t]| && (t, g.graph[t][k]) in g.edge && 0 <= g.edge[(t, g.graph[t][k])] < |g.bonds| =>
      g.bonds[g.edge[(t, g.graph[t][k])]].order == Single && Some(g.graph[t][k]) != skip)
  }

  /** The explicit hydrogens among the atoms of `row`. */
  function Hydrogens(atoms: seq<Atom>, row: seq<int>): (h: nat)
    requires forall k :: 0 <= k < |row| ==> 0 <= row[k] < |atoms|
    ensures h <= |row|
  {
    if row == [] then 0
    else Hydrogens(atoms, row[..|row| - 1]) + if IsHydrogen(atoms[row[|row| - 1]]) then 1 else 0
  }

  /** The explicit hydrogens next to the atoms `cs`, counted once per carrier. */
  function HydrogensOf(g: View, cs: seq<int>): (h: nat)
    requires ViewOk(g) && forall k :: 0 <= k < |cs| ==> 0 <= cs[k] < |g.graph|
  {
    if cs == [] then 0
    else HydrogensOf(g, cs[..|cs| - 1]) + Hydrogens(g.atoms, g.graph[cs[|cs| - 1]])
  }

  /**
   * The elevation of carrier `w` after its first `m` neighbours are scanned,
   * starting from `e`: hydrogens are passed over, and while it is still 0 a
   * wedged bond at `w` gives it that bond's elevation seen from `w`.
   */
  function ElevAfter(g: View, w: int, e: int, m: int): (r: int)
    requires ViewOk(g) && 0 <= w < |g.graph| && 0 <= m <= |g.graph[w]|
    requires -1 <= e <= 1
    ensures -1 <= r <= 1
    ensures e != 0 ==> r == e
  {
    if m == 0 then e
    else
      var p := ElevAfter(g, w, e, m - 1);
      if IsHydrogen(g.atoms[g.graph[w][m - 1]]) then p
      else if p == 0 && IsWedged(Around(g, w, m - 1)) then ElevationOf(w, Around(g, w, m - 1))
      else p
  }

  /**
   * The elevation the `k`-th neighbour of `u` carries as an atropisomer
   * carrier: that of the bond from `u`, else the first wedge found beyond.
   */
  function CarrierElevation(g: View, u: int, k: int): (e: int)
    requires ViewOk(g) && 0 <= u < |g.graph| && 0 <= k < |g.graph[u]|
    ensures -1 <= e <= 1
  {
    var w := g.graph[u][k];
    ElevAfter(g, w, ElevationOf(u, Around(g, u, k)), |g.graph[w]|)
  }

  /** The elevation each neighbour of `u` would carry as an atropisomer carrier. */
  function CarrierElevations(g: View, u: int): (es: seq<int>)
    requires ViewOk(g) && 0 <= u < |g.graph|
    ensures |es| == |g.graph[u]|
    ensures forall k :: 0 <= k < |es| ==> es[k] == CarrierElevation(g, u, k)
  {
    seq(|g.graph[u]|, k requires 0 <= k < |g.graph[u]| => CarrierElevation(g, u, k))
  }

  /** The loop over the row of `w` that takes one off `sum` per hydrogen. */
  method CountHydrogens(g: View, w: int, sum: int) returns (sum': int)
    requires ViewOk(g) && 0 <= w < |g.graph|
    ensures sum' == sum - Hydrogens(g.atoms, g.graph[w])
  {
    var nbrs := g.graph[w];
    sum' := sum;
    var j := 0;
    while j < |nbrs|
      invariant 0 <= j <= |nbrs|
      invariant sum' == sum - Hydrogens(g.atoms, nbrs[..j])
    {
      if IsHydrogen(g.atoms[nbrs[j]]) {
        sum' := sum' - 1;
      }
      assert nbrs[..j + 1][..j] == nbrs[..j];
      j := j + 1;
    }
    assert nbrs[..j] == nbrs;
  }

  /** One carrier of a 3D atropisomer end: `w` is appended, and its hydrogens come off the sum. */
  method Carrier(g: View, cs: seq<int>, w: int, sum: int) returns (cs': seq<int>, sum': int)
    requires ViewOk(g) && 0 <= w < |g.graph| && forall k :: 0 <= k < |cs| ==> 0 <= cs[k] < |g.graph|
    ensures cs' == cs + [w]
    ensures forall k :: 0 <= k < |cs'| ==> 0 <= cs'[k] < |g.graph|
    ensures sum' == sum - Hydrogens(g.atoms, g.graph[w])
    ensures HydrogensOf(g, cs') == HydrogensOf(g, cs) + Hydrogens(g.atoms, g.graph[w])
  {
    sum' := CountHydrogens(g, w, sum);
    cs' := cs + [w];
    assert cs'[..|cs|] == cs;
  }

  /**
   * One end of a 3D atropisomer: the neighbours of `u` other than `skip`,
   * in row order, with `sum` reduced by the hydrogens next to each.
   */
  method Side3D(g: View, u: int, skip: int, sum: int) returns (cs: seq<int>, sum': int)
    requires ViewOk(g) && 0 <= u < |g.graph|
    ensures cs == Kept(g.graph[u], Others(g.graph[u], skip), |g.graph[u]|)
    ensures forall k :: 0 <= k < |cs| ==> 0 <= cs[k] < |g.graph|
    ensures sum' == sum - HydrogensOf(g, cs)
  {
    var row := g.graph[u];
    ghost var keep := Others(row, skip);
    cs := [];
    sum' := sum;
    var i := 0;
    while i < |row|
      invariant 0 <= i <= |row|
      invariant cs == Kept(row, keep, i)
      invariant forall k :: 0 <= k < |cs| ==> 0 <= cs[k] < |g.graph|
      invariant sum' == sum - HydrogensOf(g, cs)
    {
      var w := row[i];
      if w != skip {
        cs, sum' := Carrier(g, cs, w, sum');
      }
      i := i + 1;
    }
  }

  // ---- atropisomer axes ----

  /** The degrees of the three neighbours of `u`, added up. */
  function DegreeSum(g: View, u: int): int
    requires ViewOk(g) && 0 <= u < |g.graph| && |g.graph[u]| == 3
  {
    |g.graph[g.graph[u][0]]| + |g.graph[g.graph[u][1]]| + |g.graph[g.graph[u][2]]|
  }

  /** The carriers on `u`'s side of the axis to `v`: the neighbours of `u` other than `v`, in row order. */
  function AxisCarriers(g: View, u: int, v: int): (cs: seq<int>)
    requires ViewOk(g) && 0 <= u < |g.graph|
    ensures forall k :: 0 <= k < |cs| ==> 0 <= cs[k] < |g.graph| && cs[k] != v
  {
    var row := g.graph[u];
    KeptWithin(row, Others(row, v), |row|, |g.graph|);
    KeptOthersExclude(row, v, |row|);
    Kept(row, Others(row, v), |row|)
  }

  /** The carriers of both ends of the axis `u`-`v`, `u`'s first. */
  function AxisCarrierPairs(g: View, u: int, v: int): (cs: seq<int>)
    requires ViewOk(g) && 0 <= u < |g.graph| && 0 <= v < |g.graph|
    ensures |cs| == |AxisCarriers(g, u, v)| + |AxisCarriers(g, v, u)|
    ensures forall k :: 0 <= k < |cs| ==> 0 <= cs[k] < |g.graph|
  {
    AxisCarriers(g, u, v) + AxisCarriers(g, v, u)
  }

  /** The degree sum at `u` less the explicit hydrogens next to its carriers. */
  function HeavySum(g: View, u: int, v: int): int
    requires ViewOk(g) && 0 <= u < |g.graph| && |g.graph[u]| == 3
  {
    DegreeSum(g, u) - HydrogensOf(g, AxisCarriers(g, u, v))
  }

  /** The checks on the axis `u`-`v` made before the carriers are collected. */
  predicate AxisGate(g: View, u: int, v: int)
    requires ViewOk(g) && 0 <= u < |g.graph| && 0 <= v < |g.graph|
  {
    && !HasUnspecifiedParity(g.atoms[u]) && !HasUnspecifiedParity(g.atoms[v])
    && |g.graph[u]| == 3 && |g.graph[v]| == 3
    && OrthoGate(DegreeSum(g, u), DegreeSum(g, v))
  }

  /** The gate again, once the explicit hydrogens are taken off. */
  predicate HeavyGate(g: View, u: int, v: int)
    requires ViewOk(g) && 0 <= u < |g.graph| && 0 <= v < |g.graph| && |g.graph[u]| == 3 && |g.graph[v]| == 3
  {
    OrthoGate(HeavySum(g, u, v), HeavySum(g, v, u))
  }

  /**
   * The integer part of the 3D atropisomer creator: the gate, the carriers
   * of both ends (from slot 0 and from slot 2), and the gate again.
   */
  method AxisScan3D(g: View, u: int, v: int) returns (ok: bool, carriers: seq<int>)
    requires ViewOk(g) && 0 <= u < |g.graph| && 0 <= v < |g.graph|
    ensures ok <==> AxisGate(g, u, v) && HeavyGate(g, u, v)
    ensures ok ==> carriers == AxisCarriers(g, u, v) + AxisCarriers(g, v, u)
  {
    if HasUnspecifiedParity(g.atoms[u]) || HasUnspecifiedParity(g.atoms[v]) {
      return false, [];
    }
    if |g.graph[u]| != 3 || |g.graph[v]| != 3 {
      return false, [];
    }
    var sum1 := |g.graph[g.graph[u][0]]| + |g.graph[g.graph[u][1]]| + |g.graph[g.graph[u][2]]|;
    var sum2 := |g.graph[g.graph[v][0]]| + |g.graph[g.graph[v][1]]| + |g.graph[g.graph[v][2]]|;
    if sum1 > 9 || sum1 < 8 || sum2 > 9 || sum2 < 8 || sum1 + sum2 < 17 {
      return false, [];
    }
    var c1, c2;
    c1, sum1 := Side3D(g, u, v, sum1);
    c2, sum2 := Side3D(g, v, u, sum2);
    if sum1 > 9 || sum1 < 8 || sum2 > 9 || sum2 < 8 || sum1 + sum2 < 17 {
      return false, [];
    }
    return true, c1 + c2;
  }

  /** The loop over the row of carrier `w`: hydrogens off `sum`, and the first usable wedge. */
  method ScanCarrier(g: View, w: int, e: int, sum: int) returns (e': int, sum': int)
    requires ViewOk(g) && 0 <= w < |g.graph| && -1 <= e <= 1
    ensures e' == ElevAfter(g, w, e, |g.graph[w]|)
    ensures sum' == sum - Hydrogens(g.atoms, g.graph[w])
  {
    var nbrs := g.graph[w];
    e', sum' := e, sum;
    var j := 0;
    while j < |nbrs|
      invariant 0 <= j <= |nbrs|
      invariant e' == ElevAfter(g, w, e, j)
      invariant sum' == sum - Hydrogens(g.atoms, nbrs[..j])
    {
      if IsHydrogen(g.atoms[nbrs[j]]) {
        sum' := sum' - 1;
      } else if e' == 0 && IsWedged(Around(g, w, j)) {
        e' := ElevationOf(w, Around(g, w, j));
      }
      assert nbrs[..j + 1][..j] == nbrs[..j];
      j := j + 1;
    }
    assert nbrs[..j] == nbrs;
  }

  /** No bond from `u` to one of its first `m` neighbours other than `skip` is wavy. */
  predicate NoWavyCarrier(g: View, u: int, skip: int, m: int)
    requires ViewOk(g) && 0 <= u < |g.graph| && 0 <= m <= |g.graph[u]|
  {
    forall k :: 0 <= k < m && g.graph[u][k] != skip ==> !IsUnspecified(Around(g, u, k))
  }

  /** The scan of the `i`-th neighbour of `u` as a carrier: its elevation and the hydrogens next to it. */
  method TakeCarrier(g: View, u: int, i: int, sum: int) returns (e: int, sum': int)
    requires ViewOk(g) && 0 <= u < |g.graph| && 0 <= i < |g.graph[u]|
    ensures e == CarrierElevations(g, u)[i]
    ensures sum' == sum - Hydrogens(g.atoms, g.graph[g.graph[u][i]])
  {
    e, sum' := ScanCarrier(g, g.graph[u][i], ElevationOf(u, Around(g, u, i)), sum);
  }

  lemma Extended(cs: seq<int>, w: int)
    ensures (cs + [w])[..|cs|] == cs
  {
  }

  /**
   * The state of the carrier loop of `Side2D` before the `i`-th neighbour of
   * `u`: no wavy bond to a carrier so far, the carriers and their elevations
   * so far, and `sum0` less the hydrogens next to them.
   */
  ghost predicate Side2DAt(g: View, u: int, skip: int, i: int, cs: seq<int>, es: seq<int>, sum: int, sum0: int)
    requires ViewOk(g) && 0 <= u < |g.graph| && 0 <= i <= |g.graph[u]|
  {
    var row := g.graph[u];
    && NoWavyCarrier(g, u, skip, i)
    && cs == Kept(row, Others(row, skip), i)
    && es == Kept(CarrierElevations(g, u), Others(row, skip), i)
    && (forall k :: 0 <= k < |cs| ==> 0 <= cs[k] < |g.graph|)
    && sum == sum0 - HydrogensOf(g, cs)
  }

  /** One pass of the carrier loop of `Side2D`: a wavy bond to a carrier gives up. */
  method Side2DStep(g: View, u: int, skip: int, i: int, cs: seq<int>, es: seq<int>, sum: int, ghost sum0: int)
    returns (ok: bool, cs': seq<int>, es': seq<int>, sum': int)
    requires ViewOk(g) && 0 <= u < |g.graph| && 0 <= i < |g.graph[u]|
    requires Side2DAt(g, u, skip, i, cs, es, sum, sum0)
    ensures ok <==> !(g.graph[u][i] != skip && IsUnspecified(Around(g, u, i)))
    ensures ok ==> Side2DAt(g, u, skip, i + 1, cs', es', sum', sum0)
  {
    var w := g.graph[u][i];
    if w == skip {
      return true, cs, es, sum;
    }
    if IsUnspecified(Around(g, u, i)) {
      return false, cs, es, sum;
    }
    var e;
    e, sum' := TakeCarrier(g, u, i, sum);
    Extended(cs, w);
    return true, cs + [w], es + [e], sum';
  }

  /**
   * One end of a 2D atropisomer: as `Side3D`, but a wavy bond to a carrier
   * gives up, and each carrier gets its elevation.
   */
  method Side2D(g: View, u: int, skip: int, sum: int) returns (ok: bool, cs: seq<int>, es: seq<int>, sum': int)
    requires ViewOk(g) && 0 <= u < |g.graph|
    ensures ok <==> NoWavyCarrier(g, u, skip, |g.graph[u]|)
    ensures ok ==> Side2DAt(g, u, skip, |g.graph[u]|, cs, es, sum', sum)
  {
    cs, es := [], [];
    sum' := sum;
    var i := 0;
    while i < |g.graph[u]|
      invariant 0 <= i <= |g.graph[u]|
      invariant Side2DAt(g, u, skip, i, cs, es, sum', sum)
    {
      var step;
      step, cs, es, sum' := Side2DStep(g, u, skip, i, cs, es, sum', sum);
      if !step {
        return false, [], [], sum';
      }
      i := i + 1;
    }
    return true, cs, es, sum';
  }

  // ---- 2D atropisomers ----

  /** The elevations of the carriers on `u`'s side of the axis to `v`, in row order. */
  function AxisElevations(g: View, u: int, v: int): (es: seq<int>)
    requires ViewOk(g) && 0 <= u < |g.graph|
    ensures |es| == |AxisCarriers(g, u, v)|
    ensures forall k :: 0 <= k < |es| ==> -1 <= es[k] <= 1
  {
    var row := g.graph[u];
    var all := CarrierElevations(g, u);
    KeptWithinValues(all, Others(row, v), |row|);
    Kept(all, Others(row, v), |row|)
  }

  /** Kept entries of values in [-1, 1] stay in [-1, 1]. */
  lemma {:induction false} KeptWithinValues(vals: seq<int>, keep: seq<bool>, m: int)
    requires 0 <= m <= |vals| == |keep|
    requires forall k :: 0 <= k < |vals| ==> -1 <= vals[k] <= 1
    ensures forall k :: 0 <= k < |Kept(vals, keep, m)| ==> -1 <= Kept(vals, keep, m)[k] <= 1
    decreases m
  {
    if m > 0 {
      KeptWithinValues(vals, keep, m - 1);
    }
  }

  /** With three neighbours, `v` among them once, each side of the axis has two carriers. */
  lemma AxisSidePair(g: View, u: int, v: int)
    requires ViewOk(g) && 0 <= u < |g.graph| && |g.graph[u]| == 3 && multiset(g.graph[u])[v] == 1
    ensures |AxisCarriers(g, u, v)| == 2 && |AxisElevations(g, u, v)| == 2
  {
    KeptOthersLength(g.graph[u], v, 3);
    assert g.graph[u][..3] == g.graph[u];
  }

  /**
   * Every check of the 2D atropisomer creator passes: the gate on the
   * degree sums, no wavy bond to a carrier, the gate again once explicit
   * hydrogens are taken off, and a wedge on exactly one end of the axis.
   */
  predicate AxisPasses2D(g: View, u: int, v: int)
    requires ViewOk(g) && 0 <= u < |g.graph| && 0 <= v < |g.graph|
    requires multiset(g.graph[u])[v] == 1 && multiset(g.graph[v])[u] == 1
  {
    && AxisGate(g, u, v)
    && NoWavyCarrier(g, u, v, |g.graph[u]|) && NoWavyCarrier(g, v, u, |g.graph[v]|)
    && HeavyGate(g, u, v)
    && (AxisSidePair(g, u, v); AxisSidePair(g, v, u);
        OneSideElevated(AxisElevations(g, u, v) + AxisElevations(g, v, u)))
  }

  /**
   * The 2D atropisomer about the axis `u`-`v`: its four carriers (two from
   * each end) and the parity of their elevations seen from the centre of
   * the axis, or `None` when a check fails.
   */
  function Atropisomer2DOf(g: View, unit: Point -> Point, u: int, v: int): (r: Option<(seq<int>, int)>)
    requires ViewOk(g) && 0 <= u < |g.graph| && 0 <= v < |g.graph|
    requires multiset(g.graph[u])[v] == 1 && multiset(g.graph[v])[u] == 1
    requires AxisPasses2D(g, u, v) ==> g.atoms[u].point2d.Some? && g.atoms[v].point2d.Some?
    ensures r.Some? <==> AxisPasses2D(g, u, v)
    ensures r.Some? ==> |r.value.0| == 4 && r.value.0 == AxisCarriers(g, u, v) + AxisCarriers(g, v, u)
    ensures r.Some? ==> -1 <= r.value.1 <= 1
  {
    if !AxisPasses2D(g, u, v) then None
    else
      AxisSidePair(g, u, v);
      AxisSidePair(g, v, u);
      var cs := AxisCarriers(g, u, v) + AxisCarriers(g, v, u);
      var centre := Midpoint(g.atoms[u].point2d.value, g.atoms[v].point2d.value);
      Some((cs, Parity2DOf(unit, Some(centre), Points2D(g, cs), AxisElevations(g, u, v) + AxisElevations(g, v, u))))
  }

  /**
   * The checks and loops of the 2D atropisomer creator: the gate, the
   * carriers of both ends with their elevations, the count of carriers, the
   * gate again and the one-side rule.
   */
  method AxisScan2D(g: View, u: int, v: int) returns (ok: bool, carriers: seq<int>, elevations: seq<int>)
    requires ViewOk(g) && 0 <= u < |g.graph| && 0 <= v < |g.graph|
    requires multiset(g.graph[u])[v] == 1 && multiset(g.graph[v])[u] == 1
    ensures ok <==> AxisPasses2D(g, u, v)
    ensures ok ==> carriers == AxisCarriers(g, u, v) + AxisCarriers(g, v, u)
    ensures ok ==> elevations == AxisElevations(g, u, v) + AxisElevations(g, v, u)
  {
    if HasUnspecifiedParity(g.atoms[u]) || HasUnspecifiedParity(g.atoms[v]) {
      return false, [], [];
    }
    if |g.graph[u]| != 3 || |g.graph[v]| != 3 {
      return false, [], [];
    }
    var sum1 := |g.graph[g.graph[u][0]]| + |g.graph[g.graph[u][1]]| + |g.graph[g.graph[u][2]]|;
    var sum2 := |g.graph[g.graph[v][0]]| + |g.graph[g.graph[v][1]]| + |g.graph[g.graph[v][2]]|;
    if sum1 > 9 || sum1 < 8 || sum2 > 9 || sum2 < 8 || sum1 + sum2 < 17 {
      return false, [], [];
    }
    var ok1, c1, e1;
    ok1, c1, e1, sum1 := Side2D(g, u, v, sum1);
    if !ok1 {
      return false, [], [];
    }
    var ok2, c2, e2;
    ok2, c2, e2, sum2 := Side2D(g, v, u, sum2);
    if !ok2 {
      return false, [], [];
    }
    assert AxisGate(g, u, v);
    Side2DDone(g, u, v, c1, e1, sum1, DegreeSum(g, u));
    Side2DDone(g, v, u, c2, e2, sum2, DegreeSum(g, v));
    AxisSidePair(g, u, v);
    AxisSidePair(g, v, u);
    if 2 + |c2| != 4 {
      return false, [], [];
    }
    if sum1 > 9 || sum1 < 8 || sum2 > 9 || sum2 < 8 || sum1 + sum2 < 17 {
      return false, [], [];
    }
    assert HeavyGate(g, u, v);
    var es := e1 + e2;
    if es[0] != 0 || es[1] != 0 {
      if es[2] != 0 || es[3] != 0 {
        return false, [], [];
      }
    } else if es[2] == 0 && es[3] == 0 {
      return false, [], [];
    }
    return true, c1 + c2, es;
  }

  /** A side scanned to the end has collected the axis carriers of that end, their elevations and their hydrogens. */
  lemma Side2DDone(g: View, u: int, v: int, cs: seq<int>, es: seq<int>, sum: int, sum0: int)
    requires ViewOk(g) && 0 <= u < |g.graph| && |g.graph[u]| == 3
    requires Side2DAt(g, u, v, |g.graph[u]|, cs, es, sum, sum0)
    ensures cs == AxisCarriers(g, u, v) && es == AxisElevations(g, u, v)
    ensures sum0 == DegreeSum(g, u) ==> sum == HeavySum(g, u, v)
  {
  }

  /** The checks, then the parity about the centre of the axis. */
  method Atropisomer2DScan(g: View, unit: Point -> Point, u: int, v: int) returns (r: Option<(seq<int>, int)>)
    requires ViewOk(g) && 0 <= u < |g.graph| && 0 <= v < |g.graph|
    requires multiset(g.graph[u])[v] == 1 && multiset(g.graph[v])[u] == 1
    requires AxisPasses2D(g, u, v) ==> g.atoms[u].point2d.Some? && g.atoms[v].point2d.Some?
    ensures r == Atropisomer2DOf(g, unit, u, v)
  {
    var ok, cs, es := AxisScan2D(g, u, v);
    if !ok {
      return None;
    }
    AxisSidePair(g, u, v);
    AxisSidePair(g, v, u);
    var centre := Midpoint(g.atoms[u].point2d.value, g.atoms[v].point2d.value);
    var parity := TetrahedralParity2D(unit, Some(centre), Points2D(g, cs), es);
    return Some((cs, parity));
  }

  /** The checks do not depend on which end of the axis is named first. */
  lemma AxisPasses2DSymmetric(g: View, u: int, v: int)
    requires ViewOk(g) && 0 <= u < |g.graph| && 0 <= v < |g.graph|
    requires multiset(g.graph[u])[v] == 1 && multiset(g.graph[v])[u] == 1
    ensures AxisPasses2D(g, v, u) <==> AxisPasses2D(g, u, v)
  {
    assert AxisGate(g, v, u) <==> AxisGate(g, u, v);
    if AxisGate(g, u, v) {
      assert HeavyGate(g, v, u) <==> HeavyGate(g, u, v);
      AxisSidePair(g, u, v);
      AxisSidePair(g, v, u);
      var ea, eb := AxisElevations(g, u, v), AxisElevations(g, v, u);
      assert OneSideElevated(eb + ea) <==> OneSideElevated(ea + eb);
    }
  }

  /**
   * Naming the ends of the axis the other way round gives the same answer,
   * with the carrier pairs exchanged: the corrected centre of the axis does
   * not depend on the order of its ends.
   */
  lemma Atropisomer2DEndsSwapped(g: View, unit: Point -> Point, u: int, v: int)
    requires ViewOk(g) && 0 <= u < |g.graph| && 0 <= v < |g.graph|
    requires multiset(g.graph[u])[v] == 1 && multiset(g.graph[v])[u] == 1
    requires g.atoms[u].point2d.Some? && g.atoms[v].point2d.Some?
    ensures Atropisomer2DOf(g, unit, v, u).Some? <==> Atropisomer2DOf(g, unit, u, v).Some?
    ensures Atropisomer2DOf(g, unit, u, v).Some? ==>
      var cs := Atropisomer2DOf(g, unit, u, v).value.0;
      Atropisomer2DOf(g, unit, v, u) == Some(([cs[2], cs[3], cs[0], cs[1]], Atropisomer2DOf(g, unit, u, v).value.1))
  {
    AxisPasses2DSymmetric(g, u, v);
    if AxisPasses2D(g, u, v) {
      AxisSidePair(g, u, v);
      AxisSidePair(g, v, u);
      var a, b := AxisCarriers(g, u, v), AxisCarriers(g, v, u);
      var ea, eb := AxisElevations(g, u, v), AxisElevations(g, v, u);
      var p, q := g.atoms[u].point2d.value, g.atoms[v].point2d.value;
      MidpointCentred(p, q);
      var pts := Points2D(g, a + b);
      Parity2DPairSwap(unit, Some(Midpoint(p, q)), pts, ea + eb);
      PairsSwapped(a, b);
      PairsSwapped(ea, eb);
      Points2DSwapped(g, a, b);
    }
  }

  /** Two pairs put the other way round. */
  lemma PairsSwapped(a: seq<int>, b: seq<int>)
    requires |a| == 2 && |b| == 2
    ensures b + a == [(a + b)[2], (a + b)[3], (a + b)[0], (a + b)[1]]
  {
  }

  lemma Points2DSwapped(g: View, a: seq<int>, b: seq<int>)
    requires ViewOk(g) && |a| == 2 && |b| == 2
    requires forall k :: 0 <= k < 4 ==> 0 <= (a + b)[k] < |g.atoms|
    ensures forall k :: 0 <= k < 4 ==> 0 <= (b + a)[k] < |g.atoms|
    ensures var pts := Points2D(g, a + b); Points2D(g, b + a) == [pts[2], pts[3], pts[0], pts[1]]
  {
    assert (b + a)[0] == (a + b)[2] && (b + a)[1] == (a + b)[3];
    assert (b + a)[2] == (a + b)[0] && (b + a)[3] == (a + b)[1];
  }

  // ---- 2D extended tetrahedral ----

  /**
   * The loop over a terminal atom `t` of a 2D extended tetrahedral centre:
   * the flagged entries fill at most `cap` slots with their elevations; a
   * wavy flagged bond, or one flagged entry too many, gives up.
   */
  method ExtendedSide2D(t: int, row: seq<int>, rowBonds: seq<Bond>, keep: seq<bool>, cap: int)
    returns (ok: bool, ns: seq<int>, es: seq<int>)
    requires |row| == |rowBonds| == |keep| && cap >= 0
    ensures ok <==> |Kept(row, keep, |row|)| <= cap && forall k :: 0 <= k < |row| && keep[k] ==> !IsUnspecified(rowBonds[k])
    ensures ok ==> ns == Kept(row, keep, |row|) && es == Kept(Elevations(t, rowBonds), keep, |row|)
  {
    ghost var all := Elevations(t, rowBonds);
    ns, es := [], [];
    var i := 0;
    while i < |row|
      invariant 0 <= i <= |row|
      invariant forall k :: 0 <= k < i && keep[k] ==> !IsUnspecified(rowBonds[k])
      invariant ns == Kept(row, keep, i) && es == Kept(all, keep, i) && |ns| <= cap
    {
      if keep[i] {
        if IsUnspecified(rowBonds[i]) {
          return false, [], [];
        }
        if |ns| == cap {
          KeptPrefix(row, keep, i + 1, |row|);
          return false, [], [];
        }
        ns := ns + [row[i]];
        es := es + [ElevationOf(t, rowBonds[i])];
      }
      i := i + 1;
    }
    return true, ns, es;
  }

  /**
   * The slots of a 2D extended tetrahedral centre: the single-bonded
   * neighbours of terminal `t0` from slot 0 and of `t1` from slot 2, each
   * terminal standing in for its side's missing second neighbour.
   */
  function ExtendedSlots2D(s0: seq<int>, s1: seq<int>, t0: int, t1: int): (r: seq<int>)
    requires 1 <= |s0| <= 2 && 1 <= |s1| <= 2
    ensures |r| == 4 && r[0] == s0[0] && r[2] == s1[0]
    ensures r[1] == (if |s0| == 2 then s0[1] else t0) && r[3] == (if |s1| == 2 then s1[1] else t1)
  {
    [s0[0], if |s0| == 2 then s0[1] else t0, s1[0], if |s1| == 2 then s1[1] else t1]
  }

  /** The elevations of those slots: a terminal standing in lies in the plane. */
  function ExtendedElevations2D(e0: seq<int>, e1: seq<int>): (r: seq<int>)
    requires 1 <= |e0| <= 2 && 1 <= |e1| <= 2
    ensures |r| == 4 && r[0] == e0[0] && r[2] == e1[0]
    ensures r[1] == (if |e0| == 2 then e0[1] else 0) && r[3] == (if |e1| == 2 then e1[1] else 0)
  {
    [e0[0], if |e0| == 2 then e0[1] else 0, e1[0], if |e1| == 2 then e1[1] else 0]
  }

  /** One side of a 2D extended tetrahedral centre is usable: one or two flagged neighbours, none of them wavy. */
  predicate ExtendedSideOk(row: seq<int>, rowBonds: seq<Bond>, keep: seq<bool>)
    requires |row| == |rowBonds| == |keep|
  {
    && 1 <= |Kept(row, keep, |row|)| <= 2
    && forall k :: 0 <= k < |row| && keep[k] ==> !IsUnspecified(rowBonds[k])
  }

  /**
   * The slots and their elevations the 2D extended tetrahedral creator takes
   * its parity on, or `None` when a side is unusable or the wedges are not on
   * exactly one side.
   */
  function ExtendedSides2D(t0: int, row0: seq<int>, bonds0: seq<Bond>, keep0: seq<bool>,
                                 t1: int, row1: seq<int>, bonds1: seq<Bond>, keep1: seq<bool>): (r: Option<(seq<int>, seq<int>)>)
    requires |row0| == |bonds0| == |keep0| && |row1| == |bonds1| == |keep1|
    ensures r.Some? ==> |r.value.0| == 4 && |r.value.1| == 4 && OneSideElevated(r.value.1)
    ensures r.Some? ==> forall k :: 0 <= k < 4 ==> r.value.0[k] in row0 || r.value.0[k] in row1 || r.value.0[k] == t0 || r.value.0[k] == t1
    ensures r.Some? <==> ExtendedSideOk(row0, bonds0, keep0) && ExtendedSideOk(row1, bonds1, keep1) && OneSideElevated(
      ExtendedElevations2D(Kept(Elevations(t0, bonds0), keep0, |row0|), Kept(Elevations(t1, bonds1), keep1, |row1|)))
    ensures r.Some? ==> r.value.0 == ExtendedSlots2D(Kept(row0, keep0, |row0|), Kept(row1, keep1, |row1|), t0, t1)
  {
    if !ExtendedSideOk(row0, bonds0, keep0) || !ExtendedSideOk(row1, bonds1, keep1) then None
    else
      var s0, s1 := Kept(row0, keep0, |row0|), Kept(row1, keep1, |row1|);
      KeptIn(row0, keep0, |row0|);
      KeptIn(row1, keep1, |row1|);
      var es := ExtendedElevations2D(Kept(Elevations(t0, bonds0), keep0, |row0|), Kept(Elevations(t1, bonds1), keep1, |row1|));
      if OneSideElevated(es) then Some((ExtendedSlots2D(s0, s1, t0, t1), es)) else None
  }

  /** The two loops of the 2D extended tetrahedral creator and its one-side check. */
  method ExtendedScan2D(t0: int, row0: seq<int>, bonds0: seq<Bond>, keep0: seq<bool>,
                        t1: int, row1: seq<int>, bonds1: seq<Bond>, keep1: seq<bool>) returns (r: Option<(seq<int>, seq<int>)>)
    requires |row0| == |bonds0| == |keep0| && |row1| == |bonds1| == |keep1|
    ensures r == ExtendedSides2D(t0, row0, bonds0, keep0, t1, row1, bonds1, keep1)
  {
    var ok0, s0, e0 := ExtendedSide2D(t0, row0, bonds0, keep0, 2);
    if !ok0 || |s0| == 0 {
      return None;
    }
    var ok1, s1, e1 := ExtendedSide2D(t1, row1, bonds1, keep1, 2);
    if !ok1 || |s1| == 0 {
      return None;
    }
    var es := ExtendedElevations2D(e0, e1);
    if es[0] != 0 || es[1] != 0 {
      if es[2] != 0 || es[3] != 0 {
        return None;
      }
    } else if es[2] == 0 && es[3] == 0 {
      return None;
    }
    return Some((ExtendedSlots2D(s0, s1, t0, t1), es));
  }

  /** The 2D points of four atoms. */
  function Points2D(g: View, ns: seq<int>): (ps: seq<Option<Point>>)
    requires ViewOk(g) && |ns| == 4 && forall k :: 0 <= k < 4 ==> 0 <= ns[k] < |g.atoms|
    ensures |ps| == 4 && forall k :: 0 <= k < 4 ==> ps[k] == g.atoms[ns[k]].point2d
  {
    [g.atoms[ns[0]].point2d, g.atoms[ns[1]].point2d, g.atoms[ns[2]].point2d, g.atoms[ns[3]].point2d]
  }

  /** The single-bonded neighbours of `t` other than `skip`, in row order. */
  function SinglesOf(g: View, t: int, skip: Option<int>): (r: seq<int>)
    requires ViewOk(g) && 0 <= t < |g.graph|
    ensures forall k :: 0 <= k < |r| ==> 0 <= r[k] < |g.atoms|
  {
    var row := g.graph[t];
    KeptWithin(row, SingleFlagsOf(g, t, skip), |row|, |g.atoms|);
    Kept(row, SingleFlagsOf(g, t, skip), |row|)
  }

  /** The focus `v` has a point whenever the parity reads one for the first single-bonded neighbour of `t0`. */
  predicate ExtendedFocusReady(g: View, v: int, t0: int)
    requires ViewOk(g) && 0 <= v < |g.graph| && 0 <= t0 < |g.graph|
  {
    var s0 := SinglesOf(g, t0, Some(v));
    |s0| >= 1 && g.atoms[s0[0]].point2d.Some? ==> g.atoms[v].point2d.Some?
  }

  /**
   * The slots of the 2D extended tetrahedral centre `v` with terminals `t0`
   * and `t1`, and the parity over them, or `None` when the sides do not
   * allow one.
   */
  function ExtendedParity2D(g: View, unit: Point -> Point, v: int, t0: int, t1: int): (r: Option<(seq<int>, int)>)
    requires ViewOk(g) && 0 <= v < |g.graph| && 0 <= t0 < |g.graph| && 0 <= t1 < |g.graph|
    requires ExtendedFocusReady(g, v, t0)
    ensures r.Some? ==> |r.value.0| == 4 && -1 <= r.value.1 <= 1
    ensures r.Some? ==> ExtendedSideOk(g.graph[t0], RowBonds(g, t0), SingleFlagsOf(g, t0, Some(v)))
    ensures r.Some? ==> ExtendedSideOk(g.graph[t1], RowBonds(g, t1), SingleFlagsOf(g, t1, None))
    ensures r.Some? ==> r.value.0[0] == SinglesOf(g, t0, Some(v))[0] && r.value.0[2] == SinglesOf(g, t1, None)[0]
  {
    var sides := ExtendedSides2D(t0, g.graph[t0], RowBonds(g, t0), SingleFlagsOf(g, t0, Some(v)),
                                 t1, g.graph[t1], RowBonds(g, t1), SingleFlagsOf(g, t1, None));
    if sides.None? then None
    else
      var ns, es := sides.value.0, sides.value.1;
      assert forall k :: 0 <= k < 4 ==> 0 <= ns[k] < |g.atoms|;
      Some((ns, Parity2DOf(unit, g.atoms[v].point2d, Points2D(g, ns), es)))
  }

  /** The loops of the 2D extended tetrahedral creator, then its parity. */
  method ExtendedTetrahedralScan2D(g: View, unit: Point -> Point, v: int, t0: int, t1: int) returns (r: Option<(seq<int>, int)>)
    requires ViewOk(g) && 0 <= v < |g.graph| && 0 <= t0 < |g.graph| && 0 <= t1 < |g.graph|
    requires ExtendedFocusReady(g, v, t0)
    ensures r == ExtendedParity2D(g, unit, v, t0, t1)
  {
    var sides := ExtendedScan2D(t0, g.graph[t0], RowBonds(g, t0), SingleFlagsOf(g, t0, Some(v)),
                                t1, g.graph[t1], RowBonds(g, t1), SingleFlagsOf(g, t1, None));
    if sides.None? {
      return None;
    }
    var ns, es := sides.value.0, sides.value.1;
    assert forall k :: 0 <= k < 4 ==> 0 <= ns[k] < |g.atoms|;
    var parity := TetrahedralParity2D(unit, g.atoms[v].point2d, Points2D(g, ns), es);
    return Some((ns, parity));
  }

  // ---- 2D tetrahedral ----

  /** The first loop of the 2D tetrahedral creator: a wavy bond gives up; otherwise the elevations, and whether any is nonzero. */
  method CollectAround(focus: int, rowBonds: seq<Bond>) returns (ok: bool, es: seq<int>, nonplanar: bool)
    ensures ok <==> forall k :: 0 <= k < |rowBonds| ==> !IsUnspecified(rowBonds[k])
    ensures ok ==> es == Elevations(focus, rowBonds)
    ensures ok ==> (nonplanar <==> exists k :: 0 <= k < |es| && es[k] != 0)
  {
    es := [];
    nonplanar := false;
    var n := 0;
    while n < |rowBonds|
      invariant 0 <= n <= |rowBonds| && |es| == n
      invariant forall k :: 0 <= k < n ==> !IsUnspecified(rowBonds[k]) && es[k] == ElevationOf(focus, rowBonds[k])
      invariant nonplanar <==> exists k :: 0 <= k < n && es[k] != 0
    {
      if IsUnspecified(rowBonds[n]) {
        return false, [], false;
      }
      var e := ElevationOf(focus, rowBonds[n]);
      es := es + [e];
      if e != 0 {
        nonplanar := true;
      }
      n := n + 1;
    }
    ok := true;
  }

  predicate IsHatch(b: Bond) {
    b.stereo == Down || b.stereo == DownInverted
  }

  predicate IsBoldWedge(b: Bond) {
    b.stereo == Up || b.stereo == UpInverted
  }

  /**
   * When a centre without a usable wedge may read its hatches as pointing
   * away from it: no bold wedge at all, and no hatch leads to a verified
   * stereocentre among the possible ones.
   */
  ghost predicate FallbackOk(row: seq<int>, rowBonds: seq<Bond>, centers: Stereocenters)
    reads centers
    requires |row| == |rowBonds| && centers.Valid()
    requires forall k :: 0 <= k < |row| ==> 0 <= row[k] < |centers.types|
  {
    forall k :: 0 <= k < |row| ==>
      !IsBoldWedge(rowBonds[k]) && (IsHatch(rowBonds[k]) && centers.possible[row[k]] ==> !centers.verified[row[k]])
  }

  /** The fallback elevations: every hatch below the plane, the rest in it. */
  function HatchesBelow(rowBonds: seq<Bond>): (es: seq<int>)
    ensures |es| == |rowBonds|
    ensures forall k :: 0 <= k < |es| ==> es[k] == if IsHatch(rowBonds[k]) then -1 else 0
  {
    seq(|rowBonds|, k requires 0 <= k < |rowBonds| => if IsHatch(rowBonds[k]) then -1 else 0)
  }

  /**
   * The inverted-hatch loop: hatches are read from their wide end, checking
   * symmetry on the stereocentres first when a hatch leads to a possible one.
   */
  method InvertedHatches(row: seq<int>, rowBonds: seq<Bond>, centers: Stereocenters) returns (ok: bool, es: seq<int>, found: bool)
    requires |row| == |rowBonds| && centers.Valid()
    requires forall k :: 0 <= k < |row| ==> 0 <= row[k] < |centers.types|
    modifies centers
    ensures centers.Valid() && (old(centers.checked) ==> centers.checked)
    ensures ok <==> FallbackOk(row, rowBonds, centers)
    ensures ok ==> es == HatchesBelow(rowBonds)
    ensures ok ==> (found <==> exists k :: 0 <= k < |rowBonds| && IsHatch(rowBonds[k]))
    ensures (forall k :: 0 <= k < |row| ==> !(IsHatch(rowBonds[k]) && centers.possible[row[k]])) ==>
      centers.checked == old(centers.checked)
  {
    ghost var all := HatchesBelow(rowBonds);
    es := [];
    found := false;
    var i := 0;
    while i < |row|
      invariant 0 <= i <= |row| && es == all[..i]
      invariant found <==> exists k :: 0 <= k < i && IsHatch(rowBonds[k])
      invariant centers.Valid() && (old(centers.checked) ==> centers.checked)
      invariant forall k :: 0 <= k < i ==> !IsBoldWedge(rowBonds[k]) && (IsHatch(rowBonds[k]) && centers.possible[row[k]] ==> !centers.verified[row[k]])
      invariant (forall k :: 0 <= k < |row| ==> !(IsHatch(rowBonds[k]) && centers.possible[row[k]])) ==>
        centers.checked == old(centers.checked)
    {
      var w := row[i];
      var bond := rowBonds[i];
      if IsHatch(bond) {
        if centers.possible[w] {
          centers.CheckSymmetry();
          if centers.IsStereocenter(w) {
            return false, [], false;
          }
        }
        found := true;
      } else if IsBoldWedge(bond) {
        return false, [], false;
      }
      es := es + [if IsHatch(bond) then -1 else 0];
      i := i + 1;
    }
    assert all[..i] == all;
    return true, es, found;
  }

  /**
   * Where the 2D tetrahedral creator stands once it knows the focus may be a
   * centre: `None` for a wavy bond, fewer than three neighbours or a wedge
   * pattern strict mode rejects; otherwise the elevations when some
   * neighbour is wedged, and when none is (outside strict mode) the hatches
   * read from their wide end, if they can be and there are any.
   */
  ghost function CentreElevations(focus: int, row: seq<int>, around: seq<Bond>, polar: seq<Bond>, sweep: Sweep,
                                  strict: bool, centers: Stereocenters): (r: Option<seq<int>>)
    reads centers
    requires |row| == |around| == |polar| && centers.Valid()
    requires forall k :: 0 <= k < |row| ==> 0 <= row[k] < |centers.types|
    ensures r.Some? ==> 3 <= |row| && |r.value| == |row|
    ensures r.Some? ==> exists k :: 0 <= k < |row| && r.value[k] != 0
  {
    var es := Elevations(focus, around);
    if exists k :: 0 <= k < |around| && IsUnspecified(around[k]) then None
    else if |row| < 3 then None
    else if strict && !WedgePatternOk(|row|, Elevations(focus, polar), sweep) then None
    else if exists k :: 0 <= k < |es| && es[k] != 0 then Some(es)
    else if strict || !FallbackOk(row, around, centers) then None
    else if exists k :: 0 <= k < |around| && IsHatch(around[k]) then
      var hs := HatchesBelow(around);
      assert exists k :: 0 <= k < |hs| && hs[k] != 0;
      Some(hs)
    else None
  }

  /**
   * The scans of the 2D tetrahedral creator between its first checks and
   * its parity: the elevations, the strict wedge check, and the
   * inverted-hatch fallback.
   */
  method CentreScan(focus: int, row: seq<int>, around: seq<Bond>, polar: seq<Bond>, sweep: Sweep,
                    strict: bool, centers: Stereocenters) returns (r: Option<seq<int>>)
    requires |row| == |around| == |polar| && centers.Valid()
    requires forall k :: 0 <= k < |row| ==> 0 <= row[k] < |centers.types|
    modifies centers
    ensures r == old(CentreElevations(focus, row, around, polar, sweep, strict, centers))
    ensures centers.Valid() && (old(centers.checked) ==> centers.checked)
    ensures (forall k :: 0 <= k < |row| ==> !(IsHatch(around[k]) && centers.possible[row[k]])) ==>
      centers.checked == old(centers.checked)
  {
    ghost var spec := CentreElevations(focus, row, around, polar, sweep, strict, centers);
    var ok, es, nonplanar := CollectAround(focus, around);
    if !ok {
      return None;
    }
    if |row| < 3 {
      return None;
    }
    if strict {
      var fine := VerifyWedgePattern(focus, |row|, polar, sweep);
      if !fine {
        return None;
      }
    }
    if !nonplanar && !strict {
      var found;
      ok, es, found := InvertedHatches(row, around, centers);
      if !ok {
        return None;
      }
      nonplanar := found;
    }
    if !nonplanar {
      return None;
    }
    return Some(es);
  }

  // ---- 2D parity ----

  /** `toUnitVector(Point2d, Point2d)`: the zero vector between equal points, else the normalised difference. */
  function UnitVector(unit: Point -> Point, from: Point, to: Point): Point {
    if from == to then Point(0.0, 0.0) else unit(Minus(to, from))
  }

  function Reals(e: seq<int>): (r: seq<real>)
    ensures |r| == |e| && forall k :: 0 <= k < |e| ==> r[k] == e[k] as real
  {
    seq(|e|, k requires 0 <= k < |e| => e[k] as real)
  }

  /**
   * `parity(IAtom focus, IAtom[], int[])` of the 2D factory: 0 when a
   * neighbour has no point, else the sign of the elevation-weighted volume
   * over the unit vectors from the focus. The focus must have a point once
   * the first neighbour does.
   */
  function Parity2DOf(unit: Point -> Point, f: Option<Point>, pts: seq<Option<Point>>, e: seq<int>): (p: int)
    requires |pts| == 4 && |e| == 4 && (pts[0].Some? ==> f.Some?)
    ensures -1 <= p <= 1
    ensures (exists k :: 0 <= k < 4 && pts[k].None?) ==> p == 0
  {
    if exists k :: 0 <= k < 4 && pts[k].None? then 0
    else
      var units := seq(4, k requires 0 <= k < 4 && f.Some? && pts[k].Some? => UnitVector(unit, f.value, pts[k].value));
      Signum(ParitySum(units, Reals(e)))
  }

  /** The loop of the 2D parity: unit vectors one neighbour at a time, giving up on a missing point. */
  method TetrahedralParity2D(unit: Point -> Point, f: Option<Point>, pts: seq<Option<Point>>, e: seq<int>) returns (p: int)
    requires |pts| == 4 && |e| == 4 && (pts[0].Some? ==> f.Some?)
    ensures p == Parity2DOf(unit, f, pts, e)
  {
    var coords: seq<Point> := [];
    var i := 0;
    while i < 4
      invariant 0 <= i <= 4 && |coords| == i
      invariant forall k :: 0 <= k < i ==> pts[k].Some? && f.Some? && coords[k] == UnitVector(unit, f.value, pts[k].value)
    {
      if pts[i].None? {
        return 0;
      }
      coords := coords + [UnitVector(unit, f.value, pts[i].value)];
      i := i + 1;
    }
    p := Signum(ParitySum(coords, Reals(e)));
  }

  function NegatedInts(e: seq<int>): (r: seq<int>)
    ensures |r| == |e| && forall k :: 0 <= k < |e| ==> r[k] == -e[k]
  {
    seq(|e|, k requires 0 <= k < |e| => -e[k])
  }

  /** The mirror image (every wedge turned into a hatch and back) has the opposite parity. */
  lemma Parity2DMirror(unit: Point -> Point, f: Option<Point>, pts: seq<Option<Point>>, e: seq<int>)
    requires |pts| == 4 && |e| == 4 && (pts[0].Some? ==> f.Some?)
    ensures Parity2DOf(unit, f, pts, NegatedInts(e)) == -Parity2DOf(unit, f, pts, e)
  {
    if forall k :: 0 <= k < 4 ==> pts[k].Some? {
      var units := seq(4, k requires 0 <= k < 4 && f.Some? && pts[k].Some? => UnitVector(unit, f.value, pts[k].value));
      assert Reals(NegatedInts(e)) == Negated(Reals(e));
      ParitySumNegated(units, Reals(e));
    }
  }

  /** Exchanging two neighbours, with their elevations, reverses the parity. */
  lemma Parity2DSwap(unit: Point -> Point, f: Option<Point>, pts: seq<Option<Point>>, e: seq<int>)
    requires |pts| == 4 && |e| == 4 && f.Some?
    ensures Parity2DOf(unit, f, [pts[1], pts[0], pts[2], pts[3]], [e[1], e[0], e[2], e[3]]) == -Parity2DOf(unit, f, pts, e)
  {
    var qts := [pts[1], pts[0], pts[2], pts[3]];
    if forall k :: 0 <= k < 4 ==> pts[k].Some? {
      assert forall k :: 0 <= k < 4 ==> qts[k].Some?;
      var units := seq(4, k requires 0 <= k < 4 && f.Some? && pts[k].Some? => UnitVector(unit, f.value, pts[k].value));
      var swapped := seq(4, k requires 0 <= k < 4 && f.Some? && qts[k].Some? => UnitVector(unit, f.value, qts[k].value));
      assert swapped == [units[1], units[0], units[2], units[3]];
      assert Reals([e[1], e[0], e[2], e[3]]) == [Reals(e)[1], Reals(e)[0], Reals(e)[2], Reals(e)[3]];
      ParitySumSwap(units, Reals(e));
    } else {
      var k :| 0 <= k < 4 && pts[k].None?;
      assert qts[if k == 0 then 1 else if k == 1 then 0 else k].None?;
    }
  }

  /** Exchanging the first pair of neighbours with the second pair, with their elevations, keeps the parity. */
  lemma Parity2DPairSwap(unit: Point -> Point, f: Option<Point>, pts: seq<Option<Point>>, e: seq<int>)
    requires |pts| == 4 && |e| == 4 && f.Some?
    ensures Parity2DOf(unit, f, [pts[2], pts[3], pts[0], pts[1]], [e[2], e[3], e[0], e[1]]) == Parity2DOf(unit, f, pts, e)
  {
    var qts := [pts[2], pts[3], pts[0], pts[1]];
    if forall k :: 0 <= k < 4 ==> pts[k].Some? {
      assert forall k :: 0 <= k < 4 ==> qts[k].Some?;
      var units := seq(4, k requires 0 <= k < 4 && f.Some? && pts[k].Some? => UnitVector(unit, f.value, pts[k].value));
      var swapped := seq(4, k requires 0 <= k < 4 && f.Some? && qts[k].Some? => UnitVector(unit, f.value, qts[k].value));
      assert swapped == [units[2], units[3], units[0], units[1]];
      assert Reals([e[2], e[3], e[0], e[1]]) == [Reals(e)[2], Reals(e)[3], Reals(e)[0], Reals(e)[1]];
      ParitySumPairSwap(units, Reals(e));
    } else {
      var k :| 0 <= k < 4 && pts[k].None?;
      assert qts[(k + 2) % 4].None?;
    }
  }

  /** Neighbours all at one elevation (in particular all in the plane) give parity 0. */
  lemma Parity2DFlat(unit: Point -> Point, f: Option<Point>, pts: seq<Option<Point>>, c: int)
    requires |pts| == 4 && (pts[0].Some? ==> f.Some?)
    ensures Parity2DOf(unit, f, pts, [c, c, c, c]) == 0
  {
    if forall k :: 0 <= k < 4 ==> pts[k].Some? {
      var units := seq(4, k requires 0 <= k < 4 && f.Some? && pts[k].Some? => UnitVector(unit, f.value, pts[k].value));
      assert Reals([c, c, c, c]) == [c as real, c as real, c as real, c as real];
      ParitySumUniform(units, c as real);
    }
  }
}
