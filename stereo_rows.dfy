/**
 * `moveToBack`: the in-place shuffle the 2D double-bond creator applies to an
 * adjacency row so that the double-bonded partner comes last.
 */
module StereoRows {

  /** The row with its first `v` taken out and put at the back; unchanged when `v` is absent. */
  function MovedToBack(s: seq<int>, v: int): seq<int> {
    if s == [] then []
    else if s[0] == v then s[1..] + [v]
    else [s[0]] + MovedToBack(s[1..], v)
  }

  /** Nothing is gained or lost: the result is a permutation of the row. */
  lemma {:induction false} MovedToBackPermutes(s: seq<int>, v: int)
    ensures multiset(MovedToBack(s, v)) == multiset(s)
    decreases |s|
  {
    if s != [] {
      assert s == [s[0]] + s[1..];
      if s[0] != v {
        MovedToBackPermutes(s[1..], v);
      }
    }
  }

  /** When `v` is first found at `k`, the others keep their order and `v` ends up last. */
  lemma {:induction false} MovedToBackAt(s: seq<int>, v: int, k: int)
    requires 0 <= k < |s| && s[k] == v && v !in s[..k]
    ensures MovedToBack(s, v) == s[..k] + s[k + 1..] + [v]
    decreases k
  {
    if k > 0 {
      assert s[0] in s[..k];
      assert s[1..][..k - 1] == s[1..k];
      MovedToBackAt(s[1..], v, k - 1);
      assert s[1..][k..] == s[k + 1..];
      assert s[..k] == [s[0]] + s[1..k];
    }
  }

  /** Without `v` the row is left as it is. */
  lemma {:induction false} MovedToBackAbsent(s: seq<int>, v: int)
    requires v !in s
    ensures MovedToBack(s, v) == s
    decreases |s|
  {
    if s != [] {
      assert s[0] in s;
      assert forall x :: x in s[1..] ==> x in s;
      MovedToBackAbsent(s[1..], v);
    }
  }

  /** The position of the first `v` in `s`. */
  function FirstIndex(s: seq<int>, v: int): (k: int)
    requires v in s
    ensures 0 <= k < |s| && s[k] == v && v !in s[..k]
  {
    if s[0] == v then 0
    else
      var k := FirstIndex(s[1..], v) + 1;
      assert s[..k] == [s[0]] + s[1..][..k - 1];
      k
  }

  /** With `v` present it ends at the last index. */
  lemma MovedToBackLast(s: seq<int>, v: int)
    requires v in s
    ensures |MovedToBack(s, v)| == |s| && MovedToBack(s, v)[|s| - 1] == v
  {
    MovedToBackAt(s, v, FirstIndex(s, v));
  }

  /**
   * In a row listing `v` once, moving it to the back leaves it last and
   * nowhere else, keeps the other entries, and brings the first entry other
   * than `v` to the front.
   */
  lemma MovedToBackOnce(s: seq<int>, v: int)
    requires v in s && multiset(s)[v] <= 1
    ensures var r := MovedToBack(s, v);
      && |r| == |s| && r[|r| - 1] == v
      && (forall k :: 0 <= k < |r| ==> r[k] in s)
      && (forall k :: 0 <= k < |r| - 1 ==> r[k] != v)
      && (|s| >= 2 ==> r[0] == if s[0] == v then s[1] else s[0])
  {
    var i := FirstIndex(s, v);
    MovedToBackAt(s, v, i);
    var r := MovedToBack(s, v);
    forall k | 0 <= k < |r| - 1
      ensures r[k] == (if k < i then s[k] else s[k + 1]) && r[k] != v
    {
      if k < i {
        assert r[k] == s[..i][k];
      } else {
        assert r[k] == s[i + 1..][k - i];
        if s[k + 1] == v {
          CountedTwice(s, i, k + 1);
        }
      }
    }
  }

  /** A value found at two positions is counted at least twice. */
  lemma CountedTwice(s: seq<int>, a: int, b: int)
    requires 0 <= a < b < |s| && s[a] == s[b]
    ensures multiset(s)[s[a]] >= 2
  {
    assert s == s[..b] + s[b..];
    assert s[a] == s[..b][a] && s[b] == s[b..][0];
  }

  /** `System.arraycopy(vs, i + 1, vs, i, vs.length - (i + 1))`: shift the tail after `i` down by one. */
  method ShiftDown(vs: array<int>, i: int)
    requires 0 <= i < vs.Length
    modifies vs
    ensures forall t :: 0 <= t < i ==> vs[t] == old(vs[t])
    ensures forall t :: i <= t < vs.Length - 1 ==> vs[t] == old(vs[t + 1])
    ensures vs[vs.Length - 1] == old(vs[vs.Length - 1])
  {
    var j := i;
    while j < vs.Length - 1
      invariant i <= j <= vs.Length - 1
      invariant forall t :: 0 <= t < i ==> vs[t] == old(vs[t])
      invariant forall t :: i <= t < j ==> vs[t] == old(vs[t + 1])
      invariant forall t :: j <= t < vs.Length ==> vs[t] == old(vs[t])
    {
      vs[j] := vs[j + 1];
      j := j + 1;
    }
  }

  /** `moveToBack(vs, v)`: finds the first `v` and moves it to the back, in place. */
  method MoveToBack(vs: array<int>, v: int)
    modifies vs
    ensures vs[..] == MovedToBack(old(vs[..]), v)
  {
    var i := 0;
    while i < vs.Length
      invariant 0 <= i <= vs.Length
      invariant v !in vs[..i]
      invariant vs[..] == old(vs[..])
    {
      if vs[i] == v {
        ghost var s := vs[..];
        ShiftDown(vs, i);
        vs[vs.Length - 1] := v;
        assert vs[..] == s[..i] + s[i + 1..] + [v];
        MovedToBackAt(s, v, i);
        return;
      }
      assert vs[..i + 1] == vs[..i] + [vs[i]];
      i := i + 1;
    }
    assert vs[..] == vs[..i];
    MovedToBackAbsent(vs[..], v);
  }
}
