/**
 * Vectors over GF(2), the two-element field, as sequences of booleans:
 * addition is exclusive or, multiplication is conjunction.
 */
module GF2 {

  type Vector = seq<bool>

  /** Component-wise sum (exclusive or) of two vectors of the same length. */
  function Add(x: Vector, y: Vector): (z: Vector)
    requires |x| == |y|
    ensures |z| == |x|
    ensures forall l :: 0 <= l < |x| ==> z[l] == (x[l] != y[l])
  {
    seq(|x|, l requires 0 <= l < |x| => x[l] != y[l])
  }

  /** The zero vector of width `w`. */
  function Zeros(w: nat): (z: Vector)
    ensures |z| == w && forall l :: 0 <= l < w ==> !z[l]
  {
    seq(w, l => false)
  }

  /** The `k`-th unit vector of width `n`. */
  function Unit(n: nat, k: int): (z: Vector)
    ensures |z| == n && forall l :: 0 <= l < n ==> z[l] == (l == k)
  {
    seq(n, l => l == k)
  }

  /** Scalar product over GF(2): the parity of the positions where both are set. */
  function Dot(x: Vector, y: Vector): bool
    requires |x| == |y|
  {
    if x == [] then false else (x[0] && y[0]) != Dot(x[1..], y[1..])
  }

  /** The scalar product distributes over concatenation. */
  lemma {:induction false} DotAppend(x1: Vector, x2: Vector, y1: Vector, y2: Vector)
    requires |x1| == |y1| && |x2| == |y2|
    ensures Dot(x1 + x2, y1 + y2) == (Dot(x1, y1) != Dot(x2, y2))
    decreases |x1|
  {
    if x1 != [] {
      assert (x1 + x2)[1..] == x1[1..] + x2;
      assert (y1 + y2)[1..] == y1[1..] + y2;
      DotAppend(x1[1..], x2, y1[1..], y2);
    } else {
      assert x1 + x2 == x2 && y1 + y2 == y2;
    }
  }

  /** A product with the zero vector vanishes. */
  lemma {:induction false} DotZeros(x: Vector, y: Vector)
    requires |x| == |y|
    requires forall l :: 0 <= l < |y| ==> !y[l]
    ensures !Dot(x, y)
    decreases |x|
  {
    if x != [] {
      DotZeros(x[1..], y[1..]);
    }
  }

  /** The row vector `x` times the matrix `rows`: the sum of the rows that `x` selects. */
  function Combine(x: Vector, rows: seq<Vector>, w: nat): (z: Vector)
    requires |x| == |rows|
    requires forall t :: 0 <= t < |rows| ==> |rows[t]| == w
    ensures |z| == w
  {
    if x == [] then Zeros(w)
    else Add(if x[0] then rows[0] else Zeros(w), Combine(x[1..], rows[1..], w))
  }

  /** The product is linear in the row vector: it maps sums to sums. */
  lemma {:induction false} CombineAdd(x: Vector, y: Vector, rows: seq<Vector>, w: nat)
    requires |x| == |y| == |rows|
    requires forall t :: 0 <= t < |rows| ==> |rows[t]| == w
    ensures Combine(Add(x, y), rows, w) == Add(Combine(x, rows, w), Combine(y, rows, w))
    decreases |x|
  {
    if x != [] {
      assert Add(x, y)[1..] == Add(x[1..], y[1..]);
      CombineAdd(x[1..], y[1..], rows[1..], w);
    }
  }

  /** Selecting the `k`-th row alone gives that row. */
  lemma {:induction false} CombineUnit(n: nat, k: nat, rows: seq<Vector>, w: nat)
    requires k < n == |rows|
    requires forall t :: 0 <= t < |rows| ==> |rows[t]| == w
    ensures Combine(Unit(n, k), rows, w) == rows[k]
    decreases n
  {
    if k == 0 {
      CombineZeros(n - 1, rows[1..], w);
      assert Unit(n, k)[1..] == Zeros(n - 1);
    } else {
      assert Unit(n, k)[1..] == Unit(n - 1, k - 1);
      CombineUnit(n - 1, k - 1, rows[1..], w);
    }
  }

  /** Selecting nothing gives the zero vector. */
  lemma {:induction false} CombineZeros(n: nat, rows: seq<Vector>, w: nat)
    requires n == |rows|
    requires forall t :: 0 <= t < |rows| ==> |rows[t]| == w
    ensures Combine(Zeros(n), rows, w) == Zeros(w)
    decreases n
  {
    if n > 0 {
      assert Zeros(n)[1..] == Zeros(n - 1);
      CombineZeros(n - 1, rows[1..], w);
    }
  }

  /** The scalar product with a sum: it is additive in its first factor. */
  lemma {:induction false} DotAdd(y: Vector, z: Vector, x: Vector)
    requires |y| == |z| == |x|
    ensures Dot(Add(y, z), x) == (Dot(y, x) != Dot(z, x))
    decreases |x|
  {
    if y != [] {
      assert Add(y, z)[1..] == Add(y[1..], z[1..]);
      DotAdd(y[1..], z[1..], x[1..]);
    }
  }

  /** The scalar product is symmetric. */
  lemma {:induction false} DotComm(x: Vector, y: Vector)
    requires |x| == |y|
    ensures Dot(x, y) == Dot(y, x)
    decreases |x|
  {
    if x != [] {
      DotComm(x[1..], y[1..]);
    }
  }

  /** A product with at most one position `q` where both factors are set is that position's entry. */
  lemma {:induction false} DotSingle(u: Vector, v: Vector, q: int)
    requires |u| == |v|
    requires forall l :: 0 <= l < |u| && l != q ==> !(u[l] && v[l])
    ensures Dot(u, v) == (0 <= q < |u| && u[q] && v[q])
    decreases |u|
  {
    if u != [] {
      DotSingle(u[1..], v[1..], q - 1);
    }
  }

  /** The matrix `rows` times the column vector `x`. */
  function MatVec(rows: seq<Vector>, x: Vector): (y: Vector)
    requires forall t :: 0 <= t < |rows| ==> |rows[t]| == |x|
    ensures |y| == |rows| && forall t :: 0 <= t < |rows| ==> y[t] == Dot(rows[t], x)
  {
    seq(|rows|, t requires 0 <= t < |rows| => Dot(rows[t], x))
  }

  /** Associativity: (s times rows) times x is s times (rows times x). */
  lemma {:induction false} DotCombine(s: Vector, rows: seq<Vector>, x: Vector)
    requires |s| == |rows|
    requires forall t :: 0 <= t < |rows| ==> |rows[t]| == |x|
    ensures Dot(Combine(s, rows, |x|), x) == Dot(s, MatVec(rows, x))
    decreases |s|
  {
    if s == [] {
      DotSingle(Zeros(|x|), x, -1);
    } else {
      var head := if s[0] then rows[0] else Zeros(|x|);
      DotAdd(head, Combine(s[1..], rows[1..], |x|), x);
      DotCombine(s[1..], rows[1..], x);
      assert MatVec(rows, x)[1..] == MatVec(rows[1..], x);
      if !s[0] {
        DotSingle(Zeros(|x|), x, -1);
      }
    }
  }

  /** Toggling the selection of row `j` adds row `j` to the product. */
  lemma {:induction false} CombineFlip(s: Vector, rows: seq<Vector>, w: nat, j: nat)
    requires |s| == |rows| && j < |s|
    requires forall t :: 0 <= t < |rows| ==> |rows[t]| == w
    ensures Combine(s[j := !s[j]], rows, w) == Add(Combine(s, rows, w), rows[j])
    decreases |s|
  {
    if j == 0 {
      assert s[j := !s[j]][1..] == s[1..];
    } else {
      assert s[j := !s[j]][1..] == s[1..][j - 1 := !s[j]];
      CombineFlip(s[1..], rows[1..], w, j - 1);
    }
  }

  /** Adding `v` to row `k` adds `v` to the product exactly when row `k` is selected. */
  lemma {:induction false} CombineRowAdd(s: Vector, rows: seq<Vector>, w: nat, k: nat, v: Vector)
    requires |s| == |rows| && k < |s| && |v| == w
    requires forall t :: 0 <= t < |rows| ==> |rows[t]| == w
    ensures Combine(s, rows[k := Add(rows[k], v)], w) == Add(Combine(s, rows, w), if s[k] then v else Zeros(w))
    decreases |s|
  {
    if k == 0 {
      assert rows[k := Add(rows[k], v)][1..] == rows[1..];
    } else {
      assert rows[k := Add(rows[k], v)][1..] == rows[1..][k - 1 := Add(rows[k], v)];
      CombineRowAdd(s[1..], rows[1..], w, k - 1, v);
    }
  }

  /**
   * A row operation and the matching column operation cancel: adding row
   * `j` to row `k` while adding selection `k` to selection `j` keeps the
   * product.
   */
  lemma CombineShear(s: Vector, rows: seq<Vector>, w: nat, j: nat, k: nat)
    requires |s| == |rows| && j < |s| && k < |s| && j != k
    requires forall t :: 0 <= t < |rows| ==> |rows[t]| == w
    ensures Combine(s[j := s[j] != s[k]], rows[k := Add(rows[k], rows[j])], w) == Combine(s, rows, w)
  {
    var s' := s[j := s[j] != s[k]];
    var c := Combine(s, rows, w);
    CombineRowAdd(s', rows, w, k, rows[j]);
    if s[k] {
      assert s' == s[j := !s[j]];
      CombineFlip(s, rows, w, j);
      assert Add(Add(c, rows[j]), rows[j]) == c;
    } else {
      assert s' == s;
      assert Add(c, Zeros(w)) == c;
    }
  }

  /** Exchanging two rows and the two matching selections keeps the product (three shears). */
  lemma CombineSwap(s: Vector, rows: seq<Vector>, w: nat, i: nat, j: nat)
    requires |s| == |rows| && i < |s| && j < |s|
    requires forall t :: 0 <= t < |rows| ==> |rows[t]| == w
    ensures Combine(s[i := s[j]][j := s[i]], rows[i := rows[j]][j := rows[i]], w) == Combine(s, rows, w)
  {
    if i != j {
      var s1, r1 := s[j := s[j] != s[i]], rows[i := Add(rows[i], rows[j])];
      CombineShear(s, rows, w, j, i);
      var s2, r2 := s1[i := s1[i] != s1[j]], r1[j := Add(r1[j], r1[i])];
      CombineShear(s1, r1, w, i, j);
      CombineShear(s2, r2, w, j, i);
      XorSwap(s, i, j);
      AddSwap(rows, w, i, j);
    } else {
      SelfUpdate(rows, i);
      SelfUpdate(s, i);
    }
  }

  /** Three exclusive-or assignments exchange two entries. */
  lemma XorSwap(s: Vector, i: nat, j: nat)
    requires i < |s| && j < |s| && i != j
    ensures var s1 := s[j := s[j] != s[i]];
            var s2 := s1[i := s1[i] != s1[j]];
            s2[j := s2[j] != s2[i]] == s[i := s[j]][j := s[i]]
  {
  }

  /** Three row additions exchange two rows. */
  lemma AddSwap(rows: seq<Vector>, w: nat, i: nat, j: nat)
    requires i < |rows| && j < |rows| && i != j
    requires forall t :: 0 <= t < |rows| ==> |rows[t]| == w
    ensures var r1 := rows[i := Add(rows[i], rows[j])];
            var r2 := r1[j := Add(r1[j], r1[i])];
            r2[i := Add(r2[i], r2[j])] == rows[i := rows[j]][j := rows[i]]
  {
    var x, y := rows[i], rows[j];
    assert Add(y, Add(x, y)) == x;
    assert Add(Add(x, y), x) == y;
  }

  /** Writing an element back to its own position twice changes nothing. */
  lemma SelfUpdate<T>(q: seq<T>, i: nat)
    requires i < |q|
    ensures q[i := q[i]][i := q[i]] == q
  {
  }
}
