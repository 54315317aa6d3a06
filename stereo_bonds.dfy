/**
 * Atoms and bonds as the stereo-element factory sees them, and the pure
 * per-bond questions it asks: the elevation a wedge or hatch gives a
 * neighbour, whether a bond label means "unspecified", which atom two bonds
 * share, and which bonds touch an atom.
 *
 * Atoms and bonds are identified by their index in the container; Java's
 * identity tests (`bond.getBegin().equals(focus)`, `bond.equals(other)`)
 * become index comparisons.
 */
module StereoBonds {
  import opened Wrappers

  /** Bond orders (`IBond.Order`). */
  datatype Order = Single | Double | Triple | Quadruple | Quintuple | Sextuple | Unset

  /** Bond display labels (`IBond.Stereo`): wedges, hatches, wavy and crossed bonds. */
  datatype BondStereo =
    | NoStereo
    | Up | UpInverted | Down | DownInverted
    | UpOrDown | UpOrDownInverted
    | EOrZ | E | Z | EZByCoordinates

  /** A 2D coordinate. Doubles are modelled as exact reals. */
  datatype Point = Point(x: real, y: real)

  /** A 3D coordinate. */
  datatype Point3 = Point3(x: real, y: real, z: real)

  /** The parts of an atom the factory reads; a missing point is Java's `null`. */
  datatype Atom = Atom(
    atomicNumber: Option<int>,
    stereoParity: Option<int>,
    inRing: bool,
    point2d: Option<Point>,
    point3d: Option<Point3>)

  /** A bond between the atoms at indices `begin` and `end`. */
  datatype Bond = Bond(begin: int, end: int, order: Order, stereo: BondStereo, inRing: bool)

  predicate Touches(b: Bond, a: int) {
    b.begin == a || b.end == a
  }

  /**
   * The elevation of the neighbour reached from `focus` through `bond`: a
   * wedge or hatch only counts at its narrow end, which is the begin atom for
   * UP/DOWN and the end atom for the inverted labels.
   */
  function ElevationOf(focus: int, bond: Bond): (e: int)
    ensures -1 <= e <= 1
    ensures e == 1 <==> (bond.stereo == Up && bond.begin == focus) || (bond.stereo == UpInverted && bond.end == focus)
    ensures e == -1 <==> (bond.stereo == Down && bond.begin == focus) || (bond.stereo == DownInverted && bond.end == focus)
  {
    match bond.stereo
    case Up => if bond.begin == focus then 1 else 0
    case UpInverted => if bond.end == focus then 1 else 0
    case Down => if bond.begin == focus then -1 else 0
    case DownInverted => if bond.end == focus then -1 else 0
    case _ => 0
  }

  /** The same drawn bond stored the other way round: ends swapped, inverted labels toggled. */
  function Reversed(bond: Bond): Bond {
    var s := match bond.stereo
      case Up => UpInverted
      case UpInverted => Up
      case Down => DownInverted
      case DownInverted => Down
      case other => other;
    bond.(begin := bond.end, end := bond.begin, stereo := s)
  }

  /** Storing a bond reversed with its label toggled draws the same wedge. */
  lemma ElevationReversed(focus: int, bond: Bond)
    ensures ElevationOf(focus, Reversed(bond)) == ElevationOf(focus, bond)
  {
  }

  /** Wavy (UP_OR_DOWN) and crossed (E_OR_Z) bonds: the configuration is declared unknown. */
  function IsUnspecified(bond: Bond): (r: bool)
    ensures r <==> bond.stereo in {UpOrDown, UpOrDownInverted, EOrZ}
    ensures r ==> forall focus :: ElevationOf(focus, bond) == 0
  {
    match bond.stereo
    case UpOrDown => true
    case UpOrDownInverted => true
    case EOrZ => true
    case _ => false
  }

  /** Wedged or hatched bonds of either direction. */
  function IsWedged(bond: Bond): (r: bool)
    ensures r ==> !IsUnspecified(bond)
    ensures !r ==> forall focus :: ElevationOf(focus, bond) == 0
    ensures r ==> ElevationOf(bond.begin, bond) != 0 || ElevationOf(bond.end, bond) != 0
  {
    bond.stereo in {Up, Down, UpInverted, DownInverted}
  }

  /** Two elevations are compatible when they do not point opposite ways. */
  function IsOkay(a: int, b: int): (r: bool)
    requires -1 <= a <= 1 && -1 <= b <= 1
    ensures r <==> a * b >= 0
  {
    a == 0 || b == 0 || a == b
  }

  /** Stereo parity 3 on an atom marks it as explicitly unspecified. */
  predicate HasUnspecifiedParity(atom: Atom) {
    atom.stereoParity == Some(3)
  }

  predicate IsHydrogen(atom: Atom) {
    atom.atomicNumber == Some(1)
  }

  /**
   * The atom two bonds have in common, preferring `a`'s begin atom; `None`
   * when they are disjoint.
   */
  function GetShared(a: Bond, b: Bond): (r: Option<int>)
    ensures r.Some? ==> Touches(a, r.value) && Touches(b, r.value)
    ensures r.None? <==> !Touches(b, a.begin) && !Touches(b, a.end)
    ensures Touches(b, a.begin) ==> r == Some(a.begin)
  {
    if Touches(b, a.begin) then Some(a.begin)
    else if Touches(b, a.end) then Some(a.end)
    else None
  }

  /** Whether two bonds share an atom does not depend on the order they are asked in. */
  lemma SharedSymmetric(a: Bond, b: Bond)
    ensures GetShared(a, b).Some? <==> GetShared(b, a).Some?
  {
  }

  /** The atom at the far end of `b` from `a`. */
  function Other(b: Bond, a: int): (r: int)
    requires Touches(b, a)
    ensures Touches(b, r)
    ensures b.begin != b.end ==> r != a
  {
    if b.begin == a then b.end else b.begin
  }

  /** Indices of the bonds among `bs[..n]` touching atom `a`, in container order. */
  function IncidentUpTo(bs: seq<Bond>, a: int, n: nat): (r: seq<int>)
    requires n <= |bs|
    ensures forall i :: i in r <==> 0 <= i < n && Touches(bs[i], a)
    ensures forall k :: 0 <= k < |r| ==> 0 <= r[k] < n
    ensures forall k, l :: 0 <= k < l < |r| ==> r[k] < r[l]
  {
    if n == 0 then []
    else
      var r := IncidentUpTo(bs, a, n - 1);
      if Touches(bs[n - 1], a) then r + [n - 1] else r
  }

  /** `getConnectedBondsList(a)`: the bonds at `a`, in container order. */
  function Incident(bs: seq<Bond>, a: int): seq<int> {
    IncidentUpTo(bs, a, |bs|)
  }

  /** Bond `i` is a double bond at `a` other than `other`. */
  predicate IsOtherDouble(bs: seq<Bond>, a: int, other: int, i: int) {
    0 <= i < |bs| && Touches(bs[i], a) && i != other && bs[i].order == Double
  }

  function OtherDoublesUpTo(bs: seq<Bond>, a: int, other: int, n: nat): (r: seq<int>)
    requires n <= |bs|
    ensures forall i :: i in r <==> i < n && IsOtherDouble(bs, a, other, i)
    ensures forall k :: 0 <= k < |r| ==> 0 <= r[k] < n
    ensures forall k, l :: 0 <= k < l < |r| ==> r[k] < r[l]
  {
    if n == 0 then []
    else
      var r := OtherDoublesUpTo(bs, a, other, n - 1);
      if IsOtherDouble(bs, a, other, n - 1) then r + [n - 1] else r
  }

  /**
   * What `getOtherDb(a, other)` answers: the double bond at `a` other than
   * `other` when there is exactly one, `None` when there is none or several.
   */
  function UniqueOtherDouble(bs: seq<Bond>, a: int, other: int): (r: Option<int>)
    ensures r.Some? ==> IsOtherDouble(bs, a, other, r.value)
    ensures r.Some? ==> forall i :: IsOtherDouble(bs, a, other, i) ==> i == r.value
    ensures r.None? ==> (forall i :: !IsOtherDouble(bs, a, other, i)) ||
                        exists i, j :: i != j && IsOtherDouble(bs, a, other, i) && IsOtherDouble(bs, a, other, j)
  {
    var ds := OtherDoublesUpTo(bs, a, other, |bs|);
    if |ds| == 1 then Some(ds[0])
    else
      assert |ds| >= 2 ==> ds[0] != ds[1] && IsOtherDouble(bs, a, other, ds[0]) && IsOtherDouble(bs, a, other, ds[1]);
      None
  }

  /** `List.remove(Object)`: the list without the first occurrence of `x`. */
  function Without(s: seq<int>, x: int): (r: seq<int>)
    ensures x in s ==> |r| == |s| - 1
    ensures x !in s ==> r == s
    ensures s != [] && s[0] == x ==> r == s[1..]
    ensures s != [] && s[0] != x ==> r[0] == s[0]
  {
    if s == [] then []
    else if s[0] == x then s[1..]
    else [s[0]] + Without(s[1..], x)
  }

  /**
   * `getConnectedBondsList(a)` with `x` removed, then its first entry: the
   * lowest-numbered bond at `a` other than `x`.
   */
  function FirstOtherBond(bs: seq<Bond>, a: int, x: int): (r: int)
    requires |Incident(bs, a)| >= 2
    ensures 0 <= r < |bs| && Touches(bs[r], a) && r != x
    ensures forall i :: 0 <= i < r && Touches(bs[i], a) ==> i == x
  {
    var list := Incident(bs, a);
    assert list[0] in list && list[1] in list;
    var r := Without(list, x)[0];
    assert forall k :: 0 < k < |list| ==> list[0] < list[k];
    assert forall k :: 1 < k < |list| ==> list[1] < list[k];
    assert forall i :: 0 <= i < r && Touches(bs[i], a) ==> i == x by {
      forall i | 0 <= i < r && Touches(bs[i], a)
        ensures i == x
      {
        assert i in list;
      }
    }
    r
  }
}
