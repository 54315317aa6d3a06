/**
 * Wedge-pattern rules of the 2D factory: the check that a drawing around a
 * tetrahedral centre is not self-contradictory (after the "Definition of 2D
 * drawing correctness" of the InChI technical manual), the one-side rule
 * shared by extended tetrahedral centres and atropisomers, and the integer
 * ortho-substitution gate for atropisomers.
 */
module StereoWedges {
  import opened StereoBonds

  /** Which consecutive pair of the three polar-sorted bonds is found co-linear first. */
  datatype ColinearPair = FirstSecond | SecondThird | ThirdFirst | NoPair

  /**
   * Where the largest angle between consecutive neighbours of a three-neighbour
   * centre lies, compared with 180 degrees within 0.01 radians.
   */
  datatype Sweep = Above180 | Below180 | Near180(colinear: ColinearPair)

  /** The elevations of the neighbours reached through `bonds` from `focus`. */
  function Elevations(focus: int, bonds: seq<Bond>): (e: seq<int>)
    ensures |e| == |bonds|
    ensures forall k :: 0 <= k < |bonds| ==> e[k] == ElevationOf(focus, bonds[k])
  {
    seq(|bonds|, k requires 0 <= k < |bonds| => ElevationOf(focus, bonds[k]))
  }

  /** (-1) to the power `d`. */
  function Flip(d: int): int {
    if d % 2 == 0 then 1 else -1
  }

  lemma FlipAdd(a: int, b: int)
    ensures Flip(a) * Flip(b) == Flip(a + b)
  {
  }

  /** Among the first `m` positions, any two wedged neighbours alternate with their distance. */
  ghost predicate AlternatesBelow(e: seq<int>, m: int)
    requires m <= |e|
  {
    forall i, j :: 0 <= i < j < m && e[i] != 0 && e[j] != 0 ==> e[j] == e[i] * Flip(j - i)
  }

  /** Among the first `m` positions, no two adjacent wedged neighbours point the same way. */
  ghost predicate AdjacentDifferBelow(e: seq<int>, m: int)
    requires m <= |e|
  {
    forall k :: 1 <= k < m && e[k - 1] != 0 && e[k] != 0 ==> e[k] != e[k - 1]
  }

  /** Among the first `m` positions, no two adjacent wedged neighbours point opposite ways. */
  ghost predicate AdjacentAgreeBelow(e: seq<int>, m: int)
    requires m <= |e|
  {
    forall k :: 1 <= k < m && e[k - 1] != 0 && e[k] != 0 ==> e[k] == e[k - 1]
  }

  /** With two co-linear neighbours, a single wedge on the third is ambiguous. */
  ghost predicate NotAmbiguous(e: seq<int>, pair: ColinearPair)
    requires |e| == 3
  {
    match pair
    case FirstSecond => !(e[0] == 0 && e[1] == 0 && e[2] != 0)
    case SecondThird => !(e[0] != 0 && e[1] == 0 && e[2] == 0)
    case ThirdFirst => !(e[0] == 0 && e[1] != 0 && e[2] == 0)
    case NoPair => true
  }

  /**
   * When a drawing passes the wedge check: with three neighbours, wedges must
   * be mixed around a reflex angle and alike otherwise; with four, any two
   * wedged neighbours must alternate in polar order.
   */
  ghost predicate WedgePatternOk(n: int, e: seq<int>, sweep: Sweep)
    requires n == 3 ==> |e| == 3
  {
    if n == 3 then
      match sweep
      case Above180 => AdjacentDifferBelow(e, 3)
      case Below180 => AdjacentAgreeBelow(e, 3)
      case Near180(pair) => NotAmbiguous(e, pair)
    else AlternatesBelow(e, |e|)
  }

  /**
   * `verifyWedgePattern`: `sorted` is the centre's bond list after the polar
   * sort and `sweep` the classification of its largest angle, both floating
   * point and given here.
   */
  method VerifyWedgePattern(focus: int, n: int, sorted: seq<Bond>, sweep: Sweep) returns (ok: bool)
    requires n == |sorted|
    ensures ok == WedgePatternOk(n, Elevations(focus, sorted), sweep)
  {
    if n == 3 {
      match sweep
      case Above180 =>
        ok := WedgesMixed(focus, sorted);
      case Below180 =>
        ok := WedgesAlike(focus, sorted);
      case Near180(pair) =>
        var e0 := ElevationOf(focus, sorted[0]);
        var e1 := ElevationOf(focus, sorted[1]);
        var e2 := ElevationOf(focus, sorted[2]);
        ok := true;
        if pair == FirstSecond {
          if e0 == 0 && e1 == 0 && e2 != 0 {
            ok := false;
          }
        } else if pair == SecondThird {
          if e0 != 0 && e1 == 0 && e2 == 0 {
            ok := false;
          }
        } else if pair == ThirdFirst {
          if e0 == 0 && e1 != 0 && e2 == 0 {
            ok := false;
          }
        }
    } else {
      ok := WedgesAlternate(focus, sorted);
    }
  }

  /** The reflex-angle loop: `ref` is the negated previous elevation. */
  method WedgesMixed(focus: int, sorted: seq<Bond>) returns (ok: bool)
    ensures ok == AdjacentDifferBelow(Elevations(focus, sorted), |sorted|)
  {
    ghost var e := Elevations(focus, sorted);
    var ref := 0;
    var k := 0;
    while k < |sorted|
      invariant 0 <= k <= |sorted|
      invariant k == 0 ==> ref == 0
      invariant k > 0 ==> ref == -e[k - 1]
      invariant AdjacentDifferBelow(e, k)
    {
      var curr := ElevationOf(focus, sorted[k]);
      if !IsOkay(ref, curr) {
        assert e[k - 1] != 0 && e[k] != 0 && e[k] == e[k - 1];
        return false;
      }
      ref := curr;
      ref := -ref;
      k := k + 1;
    }
    return true;
  }

  /** The non-reflex loop: `ref` is the previous elevation. */
  method WedgesAlike(focus: int, sorted: seq<Bond>) returns (ok: bool)
    ensures ok == AdjacentAgreeBelow(Elevations(focus, sorted), |sorted|)
  {
    ghost var e := Elevations(focus, sorted);
    var ref := 0;
    var k := 0;
    while k < |sorted|
      invariant 0 <= k <= |sorted|
      invariant k == 0 ==> ref == 0
      invariant k > 0 ==> ref == e[k - 1]
      invariant AdjacentAgreeBelow(e, k)
    {
      var curr := ElevationOf(focus, sorted[k]);
      if !IsOkay(ref, curr) {
        assert e[k - 1] != 0 && e[k] != 0 && e[k] != e[k - 1];
        return false;
      }
      ref := curr;
      k := k + 1;
    }
    return true;
  }

  /**
   * The four-neighbour loop: `ref` carries the last wedged elevation, negated
   * once per position passed since.
   */
  method WedgesAlternate(focus: int, sorted: seq<Bond>) returns (ok: bool)
    ensures ok == AlternatesBelow(Elevations(focus, sorted), |sorted|)
  {
    ghost var e := Elevations(focus, sorted);
    var ref := 0;
    var k := 0;
    ghost var last := -1;
    while k < |sorted|
      invariant 0 <= k <= |sorted|
      invariant -1 <= last < k
      invariant last == -1 ==> ref == 0 && forall i :: 0 <= i < k ==> e[i] == 0
      invariant last >= 0 ==> e[last] != 0 && ref == e[last] * Flip(k - last)
      invariant last >= 0 ==> forall i :: last < i < k ==> e[i] == 0
      invariant AlternatesBelow(e, k)
    {
      var curr := ElevationOf(focus, sorted[k]);
      if curr != 0 {
        if ref != 0 && ref != curr {
          assert e[k] != e[last] * Flip(k - last);
          return false;
        }
        AlternatesExtended(e, last, k);
        ref := curr;
        last := k;
      }
      FlipAdd(k - last, 1);
      ref := -ref;
      k := k + 1;
    }
    return true;
  }

  /** A wedge at `k` that alternates with the last wedge before it alternates with all of them. */
  lemma AlternatesExtended(e: seq<int>, last: int, k: int)
    requires 0 <= k < |e| && -1 <= last < k && e[k] != 0 && AlternatesBelow(e, k)
    requires last == -1 ==> forall i :: 0 <= i < k ==> e[i] == 0
    requires last >= 0 ==> e[last] != 0 && e[k] == e[last] * Flip(k - last)
    requires last >= 0 ==> forall i :: last < i < k ==> e[i] == 0
    ensures AlternatesBelow(e, k + 1)
  {
    forall i | 0 <= i < k && e[i] != 0
      ensures e[k] == e[i] * Flip(k - i)
    {
      if i < last {
        FlipAdd(last - i, k - last);
      }
    }
  }

  /**
   * The one-side rule: exactly one end of the axis carries a wedged carrier
   * (positions 0-1 are one end, 2-3 the other).
   */
  predicate OneSideElevated(e: seq<int>)
    requires |e| == 4
  {
    (e[0] != 0 || e[1] != 0) != (e[2] != 0 || e[3] != 0)
  }

  /**
   * The ortho-substitution gate on the degree sums of the three neighbours at
   * each end of a biaryl axis: both in [8, 9] and together at least 17.
   */
  predicate OrthoGate(sum1: int, sum2: int) {
    8 <= sum1 <= 9 && 8 <= sum2 <= 9 && sum1 + sum2 >= 17
  }

  /** The gate admits exactly three or four ortho substituents: sums 8/9, 9/8 or 9/9. */
  lemma OrthoGateCases(sum1: int, sum2: int)
    ensures OrthoGate(sum1, sum2) <==> (sum1, sum2) in {(8, 9), (9, 8), (9, 9)}
  {
  }
}
