/**
 * Chains of cumulated double bonds (allenes, cumulenes) as the factory walks
 * them: the state of the walk, the walk exactly as the loop is written, and
 * the decision the driver takes once a chain is known.
 */
module StereoChains {
  import opened Wrappers
  import opened StereoBonds

  function Last(s: seq<int>): int
    requires |s| > 0
  {
    s[|s| - 1]
  }

  /** The state of the cumulated-bond loop: the bonds collected so far and the pending one (`other`). */
  datatype Walk = Walk(dbs: seq<int>, other: Option<int>)

  /** The walk is well formed: indices are bonds, and the pending bond shares an atom with the last one collected. */
  ghost predicate Linked(bs: seq<Bond>, w: Walk) {
    && |w.dbs| >= 1
    && (forall k :: 0 <= k < |w.dbs| ==> 0 <= w.dbs[k] < |bs|)
    && (w.other.Some? ==> 0 <= w.other.value < |bs| && GetShared(bs[w.other.value], bs[Last(w.dbs)]).Some?)
  }

  /** Before the loop: the end bond, and the unique further double bond at its begin atom, else at its end atom. */
  function StartWalk(bs: seq<Bond>, endBond: int): (w: Walk)
    requires 0 <= endBond < |bs|
    ensures Linked(bs, w) && w.dbs == [endBond]
  {
    var atBegin := UniqueOtherDouble(bs, bs[endBond].begin, endBond);
    if atBegin.Some? then Walk([endBond], atBegin)
    else Walk([endBond], UniqueOtherDouble(bs, bs[endBond].end, endBond))
  }

  /** One pass of the loop body: collect the pending bond and look past its far atom. */
  function StepWalk(bs: seq<Bond>, w: Walk): (w': Walk)
    requires Linked(bs, w) && w.other.Some?
    ensures Linked(bs, w') && w'.dbs == w.dbs + [w.other.value]
  {
    var o := w.other.value;
    var shared := GetShared(bs[o], bs[Last(w.dbs)]).value;
    var next := UniqueOtherDouble(bs, Other(bs[o], shared), o);
    var w' := Walk(w.dbs + [o], next);
    assert next.Some? ==> GetShared(bs[next.value], bs[o]).Some?;
    w'
  }

  /**
   * The loop as written, run for at most `n` passes: it continues while a
   * pending bond exists and has no other bound.
   */
  function AfterSteps(bs: seq<Bond>, w: Walk, n: nat): (w': Walk)
    requires Linked(bs, w)
    ensures Linked(bs, w')
    decreases n
  {
    if n == 0 || w.other.None? then w else AfterSteps(bs, StepWalk(bs, w), n - 1)
  }

  /** One more pass is one more step taken at the end. */
  lemma {:induction false} AfterStepsNext(bs: seq<Bond>, w: Walk, n: nat)
    requires Linked(bs, w) && AfterSteps(bs, w, n).other.Some?
    ensures AfterSteps(bs, w, n + 1) == StepWalk(bs, AfterSteps(bs, w, n))
    decreases n
  {
    var w' := StepWalk(bs, w);
    if n == 0 {
      assert AfterSteps(bs, w, 1) == AfterSteps(bs, w', 0);
    } else {
      assert AfterSteps(bs, w, n) == AfterSteps(bs, w', n - 1);
      AfterStepsNext(bs, w', n - 1);
      assert AfterSteps(bs, w, n + 1) == AfterSteps(bs, w', n);
    }
  }

  /** The bonds not yet collected: collecting a new one shrinks it, so the walk stops. */
  ghost function Uncollected(bs: seq<Bond>, dbs: seq<int>): set<int> {
    set i | 0 <= i < |bs| && i !in dbs
  }

  /**
   * What `getCumulatedDbs` returns once it has reached the walk `w`: the
   * bonds collected when no double bond is pending, or `None` once the
   * pending bond is one already collected (the loop as written would then go
   * round for ever).
   */
  function ChainFrom(bs: seq<Bond>, w: Walk): (r: Option<seq<int>>)
    requires Linked(bs, w)
    ensures r.Some? ==> |r.value| >= |w.dbs| && (w.other.Some? ==> |r.value| > |w.dbs|)
    decreases Uncollected(bs, w.dbs)
  {
    if w.other.None? then Some(w.dbs)
    else if w.other.value in w.dbs then None
    else
      var w' := StepWalk(bs, w);
      assert w.other.value in Uncollected(bs, w.dbs) - Uncollected(bs, w'.dbs);
      ChainFrom(bs, w')
  }

  /** A chain ChainFrom returns extends the bonds collected so far. */
  lemma {:induction false} ChainFromExtends(bs: seq<Bond>, w: Walk)
    requires Linked(bs, w) && ChainFrom(bs, w).Some?
    ensures forall k :: 0 <= k < |w.dbs| ==> ChainFrom(bs, w).value[k] == w.dbs[k]
    decreases Uncollected(bs, w.dbs)
  {
    if w.other.Some? {
      var w' := StepWalk(bs, w);
      assert w.other.value in Uncollected(bs, w.dbs) - Uncollected(bs, w'.dbs);
      ChainFromExtends(bs, w');
    }
  }

  /** The loop as written stops on the chain ChainFrom returns. */
  lemma {:induction false} ChainFromStops(bs: seq<Bond>, w: Walk)
    requires Linked(bs, w) && ChainFrom(bs, w).Some?
    ensures var c := ChainFrom(bs, w).value; AfterSteps(bs, w, |c| - |w.dbs|) == Walk(c, None)
    decreases Uncollected(bs, w.dbs)
  {
    if w.other.Some? {
      var w' := StepWalk(bs, w);
      assert w.other.value in Uncollected(bs, w.dbs) - Uncollected(bs, w'.dbs);
      ChainFromStops(bs, w');
    }
  }

  /**
   * `getCumulatedDbs(endBond)`: `None` when no further double bond is found
   * at either atom of the end bond, otherwise the chain the walk collects.
   */
  function CumulatedDbs(bs: seq<Bond>, endBond: int): (r: Option<seq<int>>)
    requires 0 <= endBond < |bs|
    ensures r.Some? ==> |r.value| >= 2
  {
    var start := StartWalk(bs, endBond);
    if start.other.None? then None else ChainFrom(bs, start)
  }

  /** A chain `getCumulatedDbs` returns starts with the end bond, and the loop as written stops on it. */
  lemma CumulatedDbsStops(bs: seq<Bond>, endBond: int)
    requires 0 <= endBond < |bs| && CumulatedDbs(bs, endBond).Some?
    ensures var c := CumulatedDbs(bs, endBond).value;
      c[0] == endBond && AfterSteps(bs, StartWalk(bs, endBond), |c| - 1) == Walk(c, None)
  {
    var c := CumulatedDbs(bs, endBond).value;
    ChainFromExtends(bs, StartWalk(bs, endBond));
    ChainFromStops(bs, StartWalk(bs, endBond));
  }

  /**
   * A chain of cumulated double bonds: distinct bonds, every bond after the
   * first is double, and consecutive bonds share an atom.
   */
  ghost predicate IsCumulatedChain(bs: seq<Bond>, dbs: seq<int>) {
    && |dbs| >= 1
    && (forall k :: 0 <= k < |dbs| ==> 0 <= dbs[k] < |bs|)
    && (forall k, l :: 0 <= k < l < |dbs| ==> dbs[k] != dbs[l])
    && (forall k :: 1 <= k < |dbs| ==> bs[dbs[k]].order == Double && GetShared(bs[dbs[k]], bs[dbs[k - 1]]).Some?)
  }

  /** A new double bond sharing an atom with the last one extends the chain. */
  lemma ChainExtended(bs: seq<Bond>, dbs: seq<int>, o: int)
    requires IsCumulatedChain(bs, dbs) && 0 <= o < |bs| && o !in dbs
    requires bs[o].order == Double && GetShared(bs[o], bs[Last(dbs)]).Some?
    ensures IsCumulatedChain(bs, dbs + [o])
  {
    var d := dbs + [o];
    forall k, l | 0 <= k < l < |d|
      ensures d[k] != d[l]
    {
      if l == |dbs| {
        assert d[k] == dbs[k];
      }
    }
  }

  /** `begAtom`: the atom of the chain's first bond that it does not share with the second. */
  function BeginAtom(bs: seq<Bond>, dbs: seq<int>): (a: int)
    requires IsCumulatedChain(bs, dbs) && |dbs| >= 2
    ensures Touches(bs[dbs[0]], a)
  {
    SharedSymmetric(bs[dbs[1]], bs[dbs[0]]);
    Other(bs[dbs[0]], GetShared(bs[dbs[0]], bs[dbs[1]]).value)
  }

  /** `endAtom`: the atom of the chain's last bond that it does not share with the one before. */
  function EndAtom(bs: seq<Bond>, dbs: seq<int>): (a: int)
    requires IsCumulatedChain(bs, dbs) && |dbs| >= 2
    ensures Touches(bs[Last(dbs)], a)
  {
    Other(bs[Last(dbs)], GetShared(bs[Last(dbs)], bs[dbs[|dbs| - 2]]).value)
  }

  function Reverse(s: seq<int>): (r: seq<int>)
    ensures |r| == |s| && forall k :: 0 <= k < |s| ==> r[k] == s[|s| - 1 - k]
  {
    seq(|s|, k requires 0 <= k < |s| => s[|s| - 1 - k])
  }

  /**
   * A chain of double bonds read from its other end is again a chain, with
   * its begin and end atoms exchanged and, for an odd length, the same middle bond.
   */
  lemma ChainReversed(bs: seq<Bond>, dbs: seq<int>)
    requires IsCumulatedChain(bs, dbs) && |dbs| >= 2 && bs[dbs[0]].order == Double
    ensures IsCumulatedChain(bs, Reverse(dbs))
    ensures BeginAtom(bs, Reverse(dbs)) == EndAtom(bs, dbs) && EndAtom(bs, Reverse(dbs)) == BeginAtom(bs, dbs)
    ensures |dbs| % 2 == 1 ==> Reverse(dbs)[|dbs| / 2] == dbs[|dbs| / 2]
  {
    var r := Reverse(dbs);
    forall k | 1 <= k < |r|
      ensures bs[r[k]].order == Double && GetShared(bs[r[k]], bs[r[k - 1]]).Some?
    {
      var j := |dbs| - k;
      assert r[k] == dbs[j - 1] && r[k - 1] == dbs[j];
      SharedSymmetric(bs[dbs[j]], bs[dbs[j - 1]]);
    }
    forall k, l | 0 <= k < l < |r|
      ensures r[k] != r[l]
    {
      assert r[k] == dbs[|dbs| - 1 - k] && r[l] == dbs[|dbs| - 1 - l];
    }
    assert r[|r| - 1] == dbs[0] && r[|r| - 2] == dbs[1];
  }

  /** Three atoms in a ring closed by three double bonds: every atom carries exactly two double bonds. */
  function CumulatedRing(): seq<Bond> {
    [Bond(0, 1, Double, NoStereo, true), Bond(1, 2, Double, NoStereo, true), Bond(2, 0, Double, NoStereo, true)]
  }

  /** Around the ring the walk only ever moves on to the next bond. */
  lemma RingStep(w: Walk)
    requires Linked(CumulatedRing(), w) && w.other.Some?
    requires (Last(w.dbs), w.other.value) in {(0, 2), (2, 1), (1, 0)}
    ensures var w' := StepWalk(CumulatedRing(), w);
      w'.other.Some? && (Last(w'.dbs), w'.other.value) in {(0, 2), (2, 1), (1, 0)}
  {
    var bs := CumulatedRing();
    var w' := StepWalk(bs, w);
    assert Last(w'.dbs) == w.other.value;
    if w.other.value == 2 {
      assert Last(w.dbs) == 0;
      assert IsOtherDouble(bs, 2, 2, 1);
      assert w'.other == Some(1);
    } else if w.other.value == 1 {
      assert Last(w.dbs) == 2;
      assert IsOtherDouble(bs, 1, 1, 0);
      assert w'.other == Some(0);
    } else {
      assert Last(w.dbs) == 1;
      assert IsOtherDouble(bs, 0, 0, 2);
      assert w'.other == Some(2);
    }
  }

  lemma {:induction false} RingWalk(w: Walk, n: nat)
    requires Linked(CumulatedRing(), w) && w.other.Some?
    requires (Last(w.dbs), w.other.value) in {(0, 2), (2, 1), (1, 0)}
    ensures var w' := AfterSteps(CumulatedRing(), w, n); w'.other.Some? && |w'.dbs| == |w.dbs| + n
    decreases n
  {
    if n > 0 {
      RingStep(w);
      RingWalk(StepWalk(CumulatedRing(), w), n - 1);
    }
  }

  /**
   * Started on a bond of the ring, the loop as written still has a pending
   * bond after any number of passes, its list growing by one each time: it
   * never returns.
   */
  lemma CumulatedRingNeverEnds(n: nat)
    ensures var w := AfterSteps(CumulatedRing(), StartWalk(CumulatedRing(), 0), n);
      w.other.Some? && |w.dbs| == n + 1
  {
    var bs := CumulatedRing();
    assert IsOtherDouble(bs, 0, 0, 2);
    assert StartWalk(bs, 0) == Walk([0], Some(2));
    RingWalk(StartWalk(bs, 0), n);
  }

  /** What the driver does with a chain found from one of its ends. */
  datatype ChainAction = SkipChain | ExtendedTetrahedralAt(focus: int) | ExtendedCisTransOf(dbs: seq<int>)

  /**
   * The driver's dispatch on a chain: each chain is handled once, from the end
   * whose bond has the smaller index; an even number of bonds makes the atom
   * in the middle an extended tetrahedral centre, an odd number makes the
   * middle bond an extended cis/trans bond.
   */
  function Dispatch(bs: seq<Bond>, dbs: seq<int>): (r: ChainAction)
    requires IsCumulatedChain(bs, dbs) && |dbs| >= 2
    ensures r.SkipChain? <==> dbs[0] > Last(dbs)
    ensures r.ExtendedTetrahedralAt? <==> dbs[0] <= Last(dbs) && |dbs| % 2 == 0
    ensures r.ExtendedTetrahedralAt? ==>
      Touches(bs[dbs[|dbs| / 2]], r.focus) && Touches(bs[dbs[|dbs| / 2 - 1]], r.focus)
    ensures r.ExtendedCisTransOf? ==> r.dbs == dbs
  {
    if dbs[0] > Last(dbs) then SkipChain
    else if |dbs| % 2 == 0 then
      var m := |dbs| / 2;
      ExtendedTetrahedralAt(GetShared(bs[dbs[m]], bs[dbs[m - 1]]).value)
    else ExtendedCisTransOf(dbs)
  }
}
