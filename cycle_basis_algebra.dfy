/**
 * The static linear algebra of the simple cycle basis, on boolean matrices
 * held as arrays of row arrays: inversion by Gauss-Jordan elimination over
 * GF(2), and kernel vectors by back-substitution.
 */
module CycleBasisAlgebra {
  import opened GF2

  // ---------------------------------------------------------------------
  // Kernel vector

  /**
   * `constructKernelVector(size, a, i)`: `u[i]` is set, every later entry is
   * clear, and each earlier entry `u[j]` is solved so that the part of row
   * `j` from column `j + 1` to column `i` has product `u[j]` with `u`. When
   * the diagonal entry `a[j][j]` is set, row `j` is therefore orthogonal to
   * `u` from the diagonal on.
   */
  method ConstructKernelVector(size: nat, a: array<array<bool>>, i: nat) returns (u: array<bool>)
    requires i < size && i <= a.Length
    requires forall j :: 0 <= j < i ==> a[j].Length > i
    ensures u.Length == size
    ensures u[i] && forall j :: i < j < size ==> !u[j]
    ensures forall j :: 0 <= j < i ==> u[j] == Dot(a[j][j + 1..i + 1], u[j + 1..i + 1])
    ensures forall j :: 0 <= j < i && a[j].Length >= size && a[j][j] ==>
      !Dot(a[j][j..size], u[j..size])
  {
    u := new bool[size](l => false);
    u[i] := true;
    BackSubstitute(u, a, i);
    forall j | 0 <= j < i && a[j].Length >= size && a[j][j]
      ensures !Dot(a[j][j..size], u[j..size])
    {
      KernelRow(a[j][..], u[..], j, i, size);
    }
  }

  /** The loop of `constructKernelVector`: entries `i - 1` down to `0` are solved in turn. */
  method BackSubstitute(u: array<bool>, a: array<array<bool>>, i: nat)
    requires i < u.Length && i <= a.Length
    requires forall j :: 0 <= j < i ==> a[j].Length > i && a[j] != u
    requires u[i] && forall j :: i < j < u.Length ==> !u[j]
    modifies u
    ensures u[i] && forall j :: i < j < u.Length ==> !u[j]
    ensures forall j :: 0 <= j < i ==> u[j] == Dot(a[j][j + 1..i + 1], u[j + 1..i + 1])
  {
    var j := i - 1;
    while j >= 0
      invariant -1 <= j < i
      invariant u[i] && forall l :: i < l < u.Length ==> !u[l]
      invariant forall l :: j < l < i ==> u[l] == Dot(a[l][l + 1..i + 1], u[l + 1..i + 1])
    {
      ghost var before := u[..];
      SolveEntry(u, a[j], j, i);
      assert u[j + 1..] == before[j + 1..];
      forall l | j < l < i
        ensures u[l] == Dot(a[l][l + 1..i + 1], u[l + 1..i + 1])
      {
        assert u[l + 1..i + 1] == before[l + 1..i + 1];
      }
      j := j - 1;
    }
  }

  /**
   * One step of the back-substitution: `u[j]` is cleared and then toggled
   * for every `k` from `i` down to `j + 1` where both `row[k]` and `u[k]`
   * are set.
   */
  method SolveEntry(u: array<bool>, row: array<bool>, j: nat, i: nat)
    requires j < i < u.Length && i < row.Length && row != u
    modifies u
    ensures u[j] == Dot(row[j + 1..i + 1], u[j + 1..i + 1])
    ensures forall l :: 0 <= l < u.Length && l != j ==> u[l] == old(u[l])
  {
    u[j] := false;
    var k := i;
    while k > j
      invariant j <= k <= i
      invariant forall l :: 0 <= l < u.Length && l != j ==> u[l] == old(u[l])
      invariant u[j] == Dot(row[k + 1..i + 1], u[k + 1..i + 1])
    {
      ghost var xs, ys := row[k..i + 1], u[k..i + 1];
      assert xs[0] == row[k] && ys[0] == u[k];
      assert xs[1..] == row[k + 1..i + 1] && ys[1..] == u[k + 1..i + 1];
      u[j] := u[j] != (row[k] && u[k]);
      assert u[k..i + 1] == ys;
      assert u[j] == Dot(xs, ys);
      k := k - 1;
    }
  }

  /** Row `j` times the kernel vector, from the diagonal on, when the diagonal is set. */
  lemma KernelRow(row: Vector, u: Vector, j: nat, i: nat, size: nat)
    requires j < i < size == |u| <= |row|
    requires row[j]
    requires forall l :: i < l < size ==> !u[l]
    requires u[j] == Dot(row[j + 1..i + 1], u[j + 1..i + 1])
    ensures !Dot(row[j..size], u[j..size])
  {
    assert row[j..size][1..] == row[j + 1..i + 1] + row[i + 1..size];
    assert u[j..size][1..] == u[j + 1..i + 1] + u[i + 1..size];
    DotAppend(row[j + 1..i + 1], row[i + 1..size], u[j + 1..i + 1], u[i + 1..size]);
    DotZeros(row[i + 1..size], u[i + 1..size]);
  }

  // ---------------------------------------------------------------------
  // Inverse over GF(2)

  /** The first `k` rows of `m`, each cut to its first `w` entries, as vectors. */
  ghost function Block(m: array<array<bool>>, k: nat, w: nat): (rows: seq<Vector>)
    requires m.Length >= k && forall t :: 0 <= t < k ==> m[t].Length >= w
    reads m, set t | 0 <= t < k :: m[t]
    ensures |rows| == k && forall t :: 0 <= t < k ==> rows[t] == m[t][..w]
  {
    if k == 0 then [] else Block(m, k - 1, w) + [m[k - 1][..w]]
  }

  /** The row arrays `rows` hold the vectors `v`. */
  ghost predicate Mirror(rows: seq<array<bool>>, v: seq<Vector>)
    reads rows
  {
    |rows| == |v| &&
    (forall p :: 0 <= p < |rows| ==> rows[p].Length == |v[p]|) &&
    (forall p, l :: 0 <= p < |rows| && 0 <= l < |v[p]| ==> rows[p][l] == v[p][l])
  }

  /**
   * The working matrices of the inversion, held as the sequences of their
   * row arrays: `n` rows of width `w` each, and no row array shared.
   */
  ghost predicate Layout(a: seq<array<bool>>, r: seq<array<bool>>, n: nat, w: nat)
  {
    |a| == n && |r| == n &&
    (forall p :: 0 <= p < n ==> a[p].Length == w && r[p].Length == w) &&
    (forall p, q :: 0 <= p < n && 0 <= q < n ==> a[p] != r[q]) &&
    (forall p, q :: 0 <= p < q < n ==> a[p] != a[q] && r[p] != r[q])
  }

  /** Every row array of `a` and of `r` is one of `owned`. */
  ghost predicate Owned(a: seq<array<bool>>, r: seq<array<bool>>, owned: set<array<bool>>)
  {
    (forall p :: 0 <= p < |a| ==> a[p] in owned) && (forall p :: 0 <= p < |r| ==> r[p] in owned)
  }

  /** Row by row, `r` times `mat` is `a`: the invariant of the inversion. */
  ghost predicate Tracks(a: seq<Vector>, r: seq<Vector>, mat: seq<Vector>, n: nat)
    requires |mat| == n && forall t :: 0 <= t < n ==> |mat[t]| == n
  {
    |a| == n && |r| == n &&
    forall p :: 0 <= p < n ==> |r[p]| == n && Combine(r[p], mat, n) == a[p]
  }

  /** Every column in `pivots` of `a` is the unit vector of that index. */
  ghost predicate UnitColumns(a: seq<Vector>, n: nat, pivots: set<nat>)
  {
    forall c, p :: c in pivots && 0 <= p < |a| ==> c < n && c < |a[p]| && a[p][c] == (p == c)
  }

  /** Row by row, `back` times `a` gives `mat`. */
  ghost predicate Recovers(back: seq<Vector>, a: seq<Vector>, mat: seq<Vector>, n: nat)
    requires |a| == n && forall t :: 0 <= t < n ==> |a[t]| == n
  {
    |back| == n && |mat| == n &&
    forall p :: 0 <= p < n ==> |back[p]| == n && Combine(back[p], a, n) == mat[p]
  }

  /**
   * Some combination of the rows of `a` gives each row of `mat`: no row
   * operation of the elimination loses information about `mat`.
   */
  ghost predicate Recoverable(a: seq<Vector>, mat: seq<Vector>, n: nat)
  {
    |a| == n && (forall t :: 0 <= t < n ==> |a[t]| == n) &&
    exists back :: Recovers(back, a, mat, n)
  }

  /** Every column before `i` that holds no pivot is clear from its own row down. */
  ghost predicate ZeroBelow(a: seq<Vector>, n: nat, pivots: set<nat>, i: nat)
    requires |a| == n && forall t :: 0 <= t < n ==> |a[t]| == n
  {
    forall c, p :: 0 <= c < i && c < n && c !in pivots && c <= p < n ==> !a[p][c]
  }

  /** `mat` sends some nonzero vector to zero: it has no inverse. */
  ghost predicate Singular(mat: seq<Vector>, n: nat)
    requires |mat| == n && forall t :: 0 <= t < n ==> |mat[t]| == n
  {
    exists x: Vector :: |x| == n && (exists l :: 0 <= l < n && x[l]) &&
      forall p :: 0 <= p < n ==> !Dot(mat[p], x)
  }

  /** The inner loop of the elimination: `ak += aj` and `rk += rj`, entry by entry. */
  method AddRows(ak: array<bool>, aj: array<bool>, rk: array<bool>, rj: array<bool>, n: nat)
    requires ak.Length == aj.Length == rk.Length == rj.Length == n
    requires ak != aj && ak != rk && ak != rj && rk != aj && rk != rj
    modifies ak, rk
    ensures forall t :: 0 <= t < n ==> ak[t] == (old(ak[t]) != aj[t]) && rk[t] == (old(rk[t]) != rj[t])
  {
    for l := 0 to n
      invariant forall t :: 0 <= t < l ==> ak[t] == (old(ak[t]) != aj[t]) && rk[t] == (old(rk[t]) != rj[t])
      invariant forall t :: l <= t < n ==> ak[t] == old(ak[t]) && rk[t] == old(rk[t])
    {
      ak[l] := ak[l] != aj[l];
      rk[l] := rk[l] != rj[l];
    }
  }

  /** One row operation of the elimination: row `k` gets row `j` added, in `a` and in `r`. */
  method EliminateRow(a: seq<array<bool>>, r: seq<array<bool>>, n: nat, j: nat, k: nat,
                      ghost A: seq<Vector>, ghost R: seq<Vector>)
    requires Layout(a, r, n, n) && Mirror(a, A) && Mirror(r, R)
    requires j < n && k < n && k != j
    modifies a[k], r[k]
    ensures Mirror(a, A[k := Add(A[k], A[j])]) && Mirror(r, R[k := Add(R[k], R[j])])
  {
    AddRows(a[k], a[j], r[k], r[j], n);
  }

  /**
   * Adding row `j` to row `k` in both matrices keeps `r` times `mat` equal
   * to `a`, keeps the unit columns (the pivot row is clear in them), and
   * clears the entry of row `k` in column `i`.
   */
  lemma TracksStep(A: seq<Vector>, R: seq<Vector>, mat: seq<Vector>, n: nat, i: nat, j: nat, k: nat,
                   pivots: set<nat>)
    requires |mat| == n && forall t :: 0 <= t < n ==> |mat[t]| == n
    requires Tracks(A, R, mat, n) && UnitColumns(A, n, pivots)
    requires forall p :: 0 <= p < n ==> |A[p]| == n
    requires Recoverable(A, mat, n) && ZeroBelow(A, n, pivots, i)
    requires i <= j < n && k < n && k != j && A[j][i] && A[k][i] && forall c :: c in pivots ==> c < i
    ensures Tracks(A[k := Add(A[k], A[j])], R[k := Add(R[k], R[j])], mat, n)
    ensures UnitColumns(A[k := Add(A[k], A[j])], n, pivots)
    ensures Recoverable(A[k := Add(A[k], A[j])], mat, n) && ZeroBelow(A[k := Add(A[k], A[j])], n, pivots, i)
    ensures !A[k := Add(A[k], A[j])][k][i]
  {
    CombineAdd(R[k], R[j], mat, n);
    RecoverShear(A, mat, n, j, k);
  }

  /** Swapping two rows in both matrices keeps the tracking invariant; column `i` becomes a unit column. */
  lemma SwapStep(A: seq<Vector>, R: seq<Vector>, mat: seq<Vector>, n: nat, i: nat, j: nat,
                 pivots: set<nat>)
    requires |mat| == n && forall t :: 0 <= t < n ==> |mat[t]| == n
    requires Tracks(A, R, mat, n) && UnitColumns(A, n, pivots)
    requires forall p :: 0 <= p < n ==> |A[p]| == n
    requires Recoverable(A, mat, n) && ZeroBelow(A, n, pivots, i)
    requires i <= j < n && forall c :: c in pivots ==> c < i
    requires forall p :: 0 <= p < n ==> A[p][i] == (p == j)
    ensures Tracks(A[i := A[j]][j := A[i]], R[i := R[j]][j := R[i]], mat, n)
    ensures UnitColumns(A[i := A[j]][j := A[i]], n, pivots + {i})
    ensures Recoverable(A[i := A[j]][j := A[i]], mat, n)
    ensures ZeroBelow(A[i := A[j]][j := A[i]], n, pivots + {i}, i + 1)
  {
    RecoverSwap(A, mat, n, i, j);
  }

  /** Adding row `j` of `a` to row `k` keeps `mat` recoverable: add selection `k` to selection `j`. */
  lemma RecoverShear(A: seq<Vector>, mat: seq<Vector>, n: nat, j: nat, k: nat)
    requires Recoverable(A, mat, n) && j < n && k < n && j != k
    ensures Recoverable(A[k := Add(A[k], A[j])], mat, n)
  {
    var back :| Recovers(back, A, mat, n);
    var back' := seq(n, p requires 0 <= p < n => back[p][j := back[p][j] != back[p][k]]);
    forall p | 0 <= p < n
      ensures |back'[p]| == n && Combine(back'[p], A[k := Add(A[k], A[j])], n) == mat[p]
    {
      CombineShear(back[p], A, n, j, k);
    }
    assert Recovers(back', A[k := Add(A[k], A[j])], mat, n);
  }

  /** Exchanging rows `i` and `j` of `a` keeps `mat` recoverable: exchange the two selections. */
  lemma RecoverSwap(A: seq<Vector>, mat: seq<Vector>, n: nat, i: nat, j: nat)
    requires Recoverable(A, mat, n) && i < n && j < n
    ensures Recoverable(A[i := A[j]][j := A[i]], mat, n)
  {
    var back :| Recovers(back, A, mat, n);
    var A' := A[i := A[j]][j := A[i]];
    assert forall t :: 0 <= t < n ==> |A'[t]| == n;
    var back' := seq(n, p requires 0 <= p < n => back[p][i := back[p][j]][j := back[p][i]]);
    forall p | 0 <= p < n
      ensures |back'[p]| == n && Combine(back'[p], A', n) == mat[p]
    {
      CombineSwap(back[p], A, n, i, j);
    }
    assert Recovers(back', A', mat, n);
  }

  /**
   * The elimination in column `i` with pivot row `j`: every other row with a
   * set entry in column `i` gets row `j` added, in `a` and `r` alike, so
   * that column `i` of `a` becomes the `j`-th unit column.
   */
  method ClearColumn(a: seq<array<bool>>, r: seq<array<bool>>, n: nat, i: nat, j: nat,
                     ghost mat: seq<Vector>, ghost pivots: set<nat>, ghost A: seq<Vector>, ghost R: seq<Vector>)
    returns (ghost A': seq<Vector>, ghost R': seq<Vector>)
    requires Layout(a, r, n, n) && Mirror(a, A) && Mirror(r, R)
    requires |mat| == n && forall t :: 0 <= t < n ==> |mat[t]| == n
    requires Tracks(A, R, mat, n) && UnitColumns(A, n, pivots)
    requires Recoverable(A, mat, n) && ZeroBelow(A, n, pivots, i)
    requires i <= j < n && A[j][i] && forall c :: c in pivots ==> c < i
    modifies a, r
    ensures Mirror(a, A') && Mirror(r, R')
    ensures Tracks(A', R', mat, n) && UnitColumns(A', n, pivots)
    ensures Recoverable(A', mat, n) && ZeroBelow(A', n, pivots, i)
    ensures forall p :: 0 <= p < n ==> A'[p][i] == (p == j)
  {
    A', R' := A, R;
    var k := 0;
    while k < n
      invariant 0 <= k <= n
      invariant Mirror(a, A') && Mirror(r, R')
      invariant Tracks(A', R', mat, n) && UnitColumns(A', n, pivots)
      invariant Recoverable(A', mat, n) && ZeroBelow(A', n, pivots, i)
      invariant A'[j] == A[j]
      invariant forall p :: 0 <= p < k && p != j ==> !A'[p][i]
    {
      A', R' := ClearStep(a, r, n, i, j, k, mat, pivots, A', R');
      k := k + 1;
    }
  }

  /** One round of the loop over rows `k` in `ClearColumn`. */
  method ClearStep(a: seq<array<bool>>, r: seq<array<bool>>, n: nat, i: nat, j: nat, k: nat,
                   ghost mat: seq<Vector>, ghost pivots: set<nat>, ghost A: seq<Vector>, ghost R: seq<Vector>)
    returns (ghost A': seq<Vector>, ghost R': seq<Vector>)
    requires Layout(a, r, n, n) && Mirror(a, A) && Mirror(r, R)
    requires |mat| == n && forall t :: 0 <= t < n ==> |mat[t]| == n
    requires Tracks(A, R, mat, n) && UnitColumns(A, n, pivots)
    requires Recoverable(A, mat, n) && ZeroBelow(A, n, pivots, i)
    requires i <= j < n && k < n && A[j][i] && forall c :: c in pivots ==> c < i
    modifies a, r
    ensures Mirror(a, A') && Mirror(r, R')
    ensures Tracks(A', R', mat, n) && UnitColumns(A', n, pivots)
    ensures Recoverable(A', mat, n) && ZeroBelow(A', n, pivots, i)
    ensures |A'| == n && A'[j] == A[j] && (k != j ==> !A'[k][i])
    ensures forall p :: 0 <= p < n && p != k ==> A'[p] == A[p]
  {
    if k != j && a[k][i] {
      EliminateRow(a, r, n, j, k, A, R);
      TracksStep(A, R, mat, n, i, j, k, pivots);
      A', R' := A[k := Add(A[k], A[j])], R[k := Add(R[k], R[j])];
    } else {
      A', R' := A, R;
    }
  }

  /** Exchanging two row references exchanges the two rows held. */
  lemma SwapMirror(a: seq<array<bool>>, A: seq<Vector>, i: nat, j: nat)
    requires Mirror(a, A) && i < |a| && j < |a|
    ensures Mirror(a[i := a[j]][j := a[i]], A[i := A[j]][j := A[i]])
  {
  }

  /**
   * The body of the inversion for column `i` once row `j` is found to have
   * a set entry there: the column is cleared, then rows `i` and `j` are
   * swapped by reference, so that column `i` becomes the `i`-th unit column.
   */
  method PivotOn(a: seq<array<bool>>, r: seq<array<bool>>, n: nat, i: nat, j: nat,
                 ghost mat: seq<Vector>, ghost pivots: set<nat>, ghost A: seq<Vector>, ghost R: seq<Vector>)
    returns (a': seq<array<bool>>, r': seq<array<bool>>, ghost A': seq<Vector>, ghost R': seq<Vector>)
    requires Layout(a, r, n, n) && Mirror(a, A) && Mirror(r, R)
    requires |mat| == n && forall t :: 0 <= t < n ==> |mat[t]| == n
    requires Tracks(A, R, mat, n) && UnitColumns(A, n, pivots)
    requires Recoverable(A, mat, n) && ZeroBelow(A, n, pivots, i)
    requires i <= j < n && A[j][i] && forall c :: c in pivots ==> c < i
    modifies a, r
    ensures a' == a[i := a[j]][j := a[i]] && r' == r[i := r[j]][j := r[i]]
    ensures Mirror(a', A') && Mirror(r', R')
    ensures Tracks(A', R', mat, n) && UnitColumns(A', n, pivots + {i})
    ensures Recoverable(A', mat, n) && ZeroBelow(A', n, pivots + {i}, i + 1)
  {
    A', R' := ClearColumn(a, r, n, i, j, mat, pivots, A, R);
    SwapStep(A', R', mat, n, i, j, pivots);
    SwapMirror(a, A', i, j);
    SwapMirror(r, R', i, j);
    a' := a[i := a[j]][j := a[i]];
    r' := r[i := r[j]][j := r[i]];
    A', R' := A'[i := A'[j]][j := A'[i]], R'[i := R'[j]][j := R'[i]];
  }

  /**
   * `inverseBinaryMatrix(m, n)`: Gauss-Jordan elimination over GF(2) on a
   * copy `a` of `m`, repeating every row operation on `r`, which starts as
   * the identity. Throughout, `r` times `m` equals `a`; each column where a
   * pivot was found ends as a unit column of `a`, and a column without one
   * is clear from its diagonal down. Every column gets a pivot exactly when
   * `m` is not singular, and then `r` is the inverse of `m`. `m` itself is
   * only read.
   */
  method InverseBinaryMatrix(m: array<array<bool>>, n: nat)
    returns (r: array<array<bool>>, ghost reduced: seq<Vector>, ghost pivots: set<nat>)
    requires m.Length >= n && forall t :: 0 <= t < n ==> m[t].Length >= n
    ensures r.Length == n && forall p :: 0 <= p < n ==> r[p].Length == n
    ensures |reduced| == n && forall p :: 0 <= p < n ==> |reduced[p]| == n
    ensures forall p :: 0 <= p < n ==> Combine(r[p][..], Block(m, n, n), n) == reduced[p]
    ensures UnitColumns(reduced, n, pivots)
    ensures forall c, p :: 0 <= c < n && c !in pivots && c <= p < n ==> !reduced[p][c]
    ensures (forall c :: 0 <= c < n ==> c in pivots) <==> !Singular(Block(m, n, n), n)
    ensures !Singular(Block(m, n, n), n) ==>
      forall p :: 0 <= p < n ==> Combine(r[p][..], Block(m, n, n), n) == Unit(n, p)
  {
    var rs;
    ghost var mat, R;
    rs, mat, reduced, pivots, R := Eliminate(m, n);
    r := Assemble(rs, n, mat, reduced, pivots, R);
    assert Block(m, n, n) == mat;
  }

  /**
   * The working part of the inversion: copy `m` and an identity matrix into
   * fresh rows, then reduce them column by column. The rows of `r` times
   * `mat`, the block of `m` being inverted, give the reduced matrix.
   */
  method Eliminate(m: array<array<bool>>, n: nat)
    returns (rs: seq<array<bool>>, ghost mat: seq<Vector>, ghost reduced: seq<Vector>,
             ghost pivots: set<nat>, ghost R: seq<Vector>)
    requires m.Length >= n && forall t :: 0 <= t < n ==> m[t].Length >= n
    ensures mat == Block(m, n, n)
    ensures |rs| == n && Mirror(rs, R)
    ensures Tracks(reduced, R, mat, n) && UnitColumns(reduced, n, pivots)
    ensures forall p :: 0 <= p < n ==> |reduced[p]| == n
    ensures Recoverable(reduced, mat, n) && ZeroBelow(reduced, n, pivots, n)
  {
    var a;
    ghost var owned;
    a, rs, owned := CopyWithIdentity(m, n);
    mat := Block(m, n, n);
    IdentityTracks(mat, n);
    a, rs, pivots, reduced, R := Reduce(a, rs, n, mat, owned, mat, seq(n, p => Unit(n, p)));
  }

  /**
   * The outer loop of the inversion: column by column, `ProcessColumn`
   * either finds a pivot or leaves the matrices alone.
   */
  method Reduce(a: seq<array<bool>>, r: seq<array<bool>>, n: nat, ghost mat: seq<Vector>,
                ghost owned: set<array<bool>>, ghost A: seq<Vector>, ghost R: seq<Vector>)
    returns (a': seq<array<bool>>, r': seq<array<bool>>, ghost pivots: set<nat>,
             ghost A': seq<Vector>, ghost R': seq<Vector>)
    requires Layout(a, r, n, n) && Owned(a, r, owned) && Mirror(a, A) && Mirror(r, R)
    requires |mat| == n && forall t :: 0 <= t < n ==> |mat[t]| == n
    requires Tracks(A, R, mat, n) && A == mat
    modifies owned
    ensures Layout(a', r', n, n) && Mirror(r', R')
    ensures Tracks(A', R', mat, n) && UnitColumns(A', n, pivots)
    ensures forall p :: 0 <= p < n ==> |A'[p]| == n
    ensures Recoverable(A', mat, n) && ZeroBelow(A', n, pivots, n)
  {
    IdentityRecovers(mat, n);
    a', r', A', R', pivots := a, r, A, R, {};
    var i: nat := 0;
    while i < n
      invariant 0 <= i <= n
      invariant Layout(a', r', n, n) && Owned(a', r', owned)
      invariant Mirror(a', A') && Mirror(r', R')
      invariant Tracks(A', R', mat, n) && UnitColumns(A', n, pivots)
      invariant Recoverable(A', mat, n) && ZeroBelow(A', n, pivots, i)
      invariant forall c :: c in pivots ==> c < i
    {
      a', r', pivots, A', R' := ProcessColumn(a', r', n, i, mat, pivots, A', R', owned);
      i := i + 1;
    }
    assert Mirror(a', A');
  }

  /**
   * The returned matrix: an array holding the row arrays of `r`, which
   * times `mat` gives the reduced matrix, and the inverse of `mat` when
   * every column had a pivot.
   */
  method Assemble(rows: seq<array<bool>>, n: nat, ghost mat: seq<Vector>, ghost reduced: seq<Vector>,
                  ghost pivots: set<nat>, ghost R: seq<Vector>)
    returns (r: array<array<bool>>)
    requires |rows| == n && Mirror(rows, R)
    requires |mat| == n && forall t :: 0 <= t < n ==> |mat[t]| == n
    requires Tracks(reduced, R, mat, n) && UnitColumns(reduced, n, pivots)
    requires forall p :: 0 <= p < n ==> |reduced[p]| == n
    requires Recoverable(reduced, mat, n) && ZeroBelow(reduced, n, pivots, n)
    ensures r.Length == n && forall p :: 0 <= p < n ==> r[p].Length == n
    ensures forall p :: 0 <= p < n ==> Combine(r[p][..], mat, n) == reduced[p]
    ensures UnitColumns(reduced, n, pivots)
    ensures (forall c :: 0 <= c < n ==> c in pivots) <==> !Singular(mat, n)
    ensures !Singular(mat, n) ==> forall p :: 0 <= p < n ==> Combine(r[p][..], mat, n) == Unit(n, p)
  {
    FullRank(reduced, R, mat, n, pivots);
    RankTest(reduced, R, mat, n, pivots);
    r := new array<bool>[n](p requires 0 <= p < n => rows[p]);
    forall p | 0 <= p < n ensures r[p][..] == R[p] {
      assert r[p] == rows[p];
    }
  }


  /**
   * One round of the outer loop of the inversion: the first row `j` from
   * `i` on with a set entry in column `i` becomes the pivot; when there is
   * none (`j == n`), nothing changes.
   */
  method ProcessColumn(a: seq<array<bool>>, r: seq<array<bool>>, n: nat, i: nat,
                       ghost mat: seq<Vector>, ghost pivots: set<nat>, ghost A: seq<Vector>, ghost R: seq<Vector>,
                       ghost owned: set<array<bool>>)
    returns (a': seq<array<bool>>, r': seq<array<bool>>, ghost pivots': set<nat>,
             ghost A': seq<Vector>, ghost R': seq<Vector>)
    requires Layout(a, r, n, n) && Owned(a, r, owned) && Mirror(a, A) && Mirror(r, R)
    requires |mat| == n && forall t :: 0 <= t < n ==> |mat[t]| == n
    requires Tracks(A, R, mat, n) && UnitColumns(A, n, pivots)
    requires Recoverable(A, mat, n) && ZeroBelow(A, n, pivots, i)
    requires i < n && forall c :: c in pivots ==> c < i
    modifies a, r
    ensures Layout(a', r', n, n) && Owned(a', r', owned) && Mirror(a', A') && Mirror(r', R')
    ensures Tracks(A', R', mat, n) && UnitColumns(A', n, pivots')
    ensures Recoverable(A', mat, n) && ZeroBelow(A', n, pivots', i + 1)
    ensures forall c :: c in pivots' ==> c <= i
  {
    var j := i;
    while j < n && !a[j][i]
      invariant i <= j <= n
      invariant forall t :: i <= t < j ==> !A[t][i]
    {
      j := j + 1;
    }
    if j < n {
      assert A[j][i];
      SwapLayout(a, r, n, i, j, owned);
      a', r', A', R' := PivotOn(a, r, n, i, j, mat, pivots, A, R);
      pivots' := pivots + {i};
    } else {
      a', r', A', R', pivots' := a, r, A, R, pivots;
    }
  }

  /**
   * The rank test the inversion performs: every column gets a pivot exactly
   * when `mat` is not singular. With a column `c` left without one, the
   * reduced matrix has a nonzero kernel vector, and so has `mat`.
   */
  lemma RankTest(A: seq<Vector>, R: seq<Vector>, mat: seq<Vector>, n: nat, pivots: set<nat>)
    requires |mat| == n && forall t :: 0 <= t < n ==> |mat[t]| == n
    requires Tracks(A, R, mat, n) && UnitColumns(A, n, pivots)
    requires Recoverable(A, mat, n) && ZeroBelow(A, n, pivots, n)
    ensures (forall c :: 0 <= c < n ==> c in pivots) <==> !Singular(mat, n)
  {
    FullRank(A, R, mat, n, pivots);
    if forall c :: 0 <= c < n ==> c in pivots {
      LeftInverseNotSingular(R, mat, n);
    } else {
      var gap :| 0 <= gap < n && gap !in pivots;
      var c0 := 0;
      while c0 in pivots
        invariant c0 <= gap && forall l :: 0 <= l < c0 ==> l in pivots
        decreases gap - c0
      {
        c0 := c0 + 1;
      }
      var x := ReducedKernel(A, n, pivots, c0);
      var back :| Recovers(back, A, mat, n);
      forall p | 0 <= p < n ensures !Dot(mat[p], x) {
        DotCombine(back[p], A, x);
        DotZeros(back[p], MatVec(A, x));
      }
      assert x[c0];
    }
  }

  /**
   * A matrix in the reduced form of the elimination, whose first column
   * `c0` without a pivot comes after pivots only, sends the vector with
   * `x[c0]` set and `x[l] == a[l][c0]` above it to zero.
   */
  lemma ReducedKernel(A: seq<Vector>, n: nat, pivots: set<nat>, c0: nat) returns (x: Vector)
    requires |A| == n && forall t :: 0 <= t < n ==> |A[t]| == n
    requires UnitColumns(A, n, pivots) && ZeroBelow(A, n, pivots, n)
    requires c0 < n && c0 !in pivots && forall l :: 0 <= l < c0 ==> l in pivots
    ensures |x| == n && x[c0]
    ensures forall p :: 0 <= p < n ==> !Dot(A[p], x)
  {
    var above := seq(n, l requires 0 <= l < n => l < c0 && A[l][c0]);
    x := Add(Unit(n, c0), above);
    forall p | 0 <= p < n ensures !Dot(A[p], x) {
      forall l | 0 <= l < n && l != p ensures !(above[l] && A[p][l]) {
        if l < c0 {
          assert l in pivots;
        }
      }
      if p < c0 {
        assert p in pivots && A[p][p];
      }
      DotComm(A[p], x);
      DotAdd(Unit(n, c0), above, A[p]);
      DotSingle(Unit(n, c0), A[p], c0);
      DotSingle(above, A[p], p);
    }
  }

  /** A matrix with a left inverse sends no nonzero vector to zero. */
  lemma LeftInverseNotSingular(S: seq<Vector>, mat: seq<Vector>, n: nat)
    requires |mat| == n && forall t :: 0 <= t < n ==> |mat[t]| == n
    requires |S| == n && forall p :: 0 <= p < n ==> |S[p]| == n && Combine(S[p], mat, n) == Unit(n, p)
    ensures !Singular(mat, n)
  {
    if Singular(mat, n) {
      var x :| |x| == n && (exists l :: 0 <= l < n && x[l]) && forall p :: 0 <= p < n ==> !Dot(mat[p], x);
      var l :| 0 <= l < n && x[l];
      DotCombine(S[l], mat, x);
      DotZeros(S[l], MatVec(mat, x));
      DotSingle(Unit(n, l), x, l);
      assert false;
    }
  }

  /** When every column holds a pivot, `a` is the identity, so `r` times `mat` is too. */
  lemma FullRank(A: seq<Vector>, R: seq<Vector>, mat: seq<Vector>, n: nat, pivots: set<nat>)
    requires |mat| == n && forall t :: 0 <= t < n ==> |mat[t]| == n
    requires Tracks(A, R, mat, n) && UnitColumns(A, n, pivots)
    ensures (forall c :: 0 <= c < n ==> c in pivots) ==>
      forall p :: 0 <= p < n ==> A[p] == Unit(n, p) && Combine(R[p], mat, n) == Unit(n, p)
  {
    if forall c :: 0 <= c < n ==> c in pivots {
      forall p | 0 <= p < n ensures A[p] == Unit(n, p) {
        assert |A[p]| == n;
        forall c | 0 <= c < n ensures A[p][c] == Unit(n, p)[c] {
          assert c in pivots;
        }
      }
    }
  }

  /** Exchanging two rows in both matrices keeps the layout. */
  lemma SwapLayout(a: seq<array<bool>>, r: seq<array<bool>>, n: nat, i: nat, j: nat, owned: set<array<bool>>)
    requires Layout(a, r, n, n) && Owned(a, r, owned) && i < n && j < n
    ensures Layout(a[i := a[j]][j := a[i]], r[i := r[j]][j := r[i]], n, n)
    ensures Owned(a[i := a[j]][j := a[i]], r[i := r[j]][j := r[i]], owned)
  {
    var a', r' := a[i := a[j]][j := a[i]], r[i := r[j]][j := r[i]];
    forall p | 0 <= p < n
      ensures a'[p] == a[Swapped(p, i, j)] && r'[p] == r[Swapped(p, i, j)]
    {
    }
    forall p, q | 0 <= p < q < n
      ensures a'[p] != a'[q] && r'[p] != r'[q]
    {
      var p', q' := Swapped(p, i, j), Swapped(q, i, j);
      if p' < q' {
        assert a[p'] != a[q'] && r[p'] != r[q'];
      } else {
        assert a[q'] != a[p'] && r[q'] != r[p'];
      }
    }
  }

  /** Where position `p` is found after exchanging positions `i` and `j`. */
  function Swapped(p: int, i: int, j: int): (q: int)
    ensures q == p || q == i || q == j
    ensures (p == i ==> q == j) && (p == j ==> q == i) && (p != i && p != j ==> q == p)
  {
    if p == i then j else if p == j then i else p
  }

  /** The identity times `mat` is `mat`. */
  lemma IdentityTracks(mat: seq<Vector>, n: nat)
    requires |mat| == n && forall t :: 0 <= t < n ==> |mat[t]| == n
    ensures Tracks(mat, seq(n, p => Unit(n, p)), mat, n)
  {
    forall p | 0 <= p < n ensures Combine(Unit(n, p), mat, n) == mat[p] {
      CombineUnit(n, p, mat, n);
    }
  }

  /** Before any row operation, `mat` is recovered from itself by the identity. */
  lemma IdentityRecovers(mat: seq<Vector>, n: nat)
    requires |mat| == n && forall t :: 0 <= t < n ==> |mat[t]| == n
    ensures Recoverable(mat, mat, n)
  {
    IdentityTracks(mat, n);
    assert Recovers(seq(n, p => Unit(n, p)), mat, mat, n);
  }

  /** The start of the inversion: `a` a fresh copy of `m`, `r` a fresh identity. */
  method CopyWithIdentity(m: array<array<bool>>, n: nat)
    returns (a: seq<array<bool>>, r: seq<array<bool>>, ghost owned: set<array<bool>>)
    requires m.Length >= n && forall t :: 0 <= t < n ==> m[t].Length >= n
    ensures Layout(a, r, n, n) && Owned(a, r, owned) && fresh(owned)
    ensures Mirror(a, Block(m, n, n)) && Mirror(r, seq(n, p => Unit(n, p)))
  {
    a, r, owned := [], [], {};
    for i := 0 to n
      invariant Layout(a, r, i, n) && Owned(a, r, owned) && fresh(owned)
      invariant forall p :: 0 <= p < i ==> a[p][..] == m[p][..n] && r[p][..] == Unit(n, p)
    {
      var row := new bool[n];
      for j := 0 to n
        modifies row
        invariant forall t :: 0 <= t < j ==> row[t] == m[i][t]
      {
        row[j] := m[i][j];
      }
      assert row[..] == m[i][..n];
      var unit := new bool[n](l => l == i);
      a := a + [row];
      r := r + [unit];
      owned := owned + {row, unit};
    }
  }
}
