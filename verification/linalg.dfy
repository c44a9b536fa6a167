/** Dense real vectors and matrices (row-major `seq<seq<real>>`), exact arithmetic. */
module LinAlg {

  type Vector = seq<real>
  type Matrix = seq<seq<real>>

  /** `m` is a `rows x cols` array. */
  predicate IsMatrix(m: Matrix, rows: nat, cols: nat) {
    |m| == rows && forall i :: 0 <= i < rows ==> |m[i]| == cols
  }

  function Zeros(n: nat): (z: Vector)
    ensures |z| == n
    ensures forall i :: 0 <= i < n ==> z[i] == 0.0
  {
    seq(n, _ => 0.0)
  }

  /** Entry-wise `c * v`. */
  function Scale(c: real, v: Vector): (r: Vector)
    ensures |r| == |v|
    ensures forall i :: 0 <= i < |v| ==> r[i] == c * v[i]
  {
    seq(|v|, i requires 0 <= i < |v| => c * v[i])
  }

  /** The integers `lo, lo+1, ..., hi-1` (Python `range(lo, hi)`). */
  function Range(lo: nat, hi: nat): (r: seq<nat>)
    requires lo <= hi
    ensures |r| == hi - lo
    ensures forall k :: 0 <= k < |r| ==> r[k] == lo + k
  {
    seq(hi - lo, k requires 0 <= k < hi - lo => lo + k)
  }

  /** Adds `n` to every index (column indices of the beta block in a block-diagonal matrix). */
  function Shift(s: seq<nat>, n: nat): (r: seq<nat>)
    ensures |r| == |s|
    ensures forall k :: 0 <= k < |s| ==> r[k] == s[k] + n
  {
    seq(|s|, k requires 0 <= k < |s| => s[k] + n)
  }

  function Dot(u: Vector, w: Vector): real
    requires |u| == |w|
    decreases |u|
  {
    if |u| == 0 then 0.0 else Dot(u[..|u| - 1], w[..|w| - 1]) + u[|u| - 1] * w[|w| - 1]
  }

  function Column(m: Matrix, rows: nat, cols: nat, c: nat): (col: Vector)
    requires IsMatrix(m, rows, cols) && c < cols
    ensures |col| == rows
    ensures forall k :: 0 <= k < rows ==> col[k] == m[k][c]
  {
    seq(rows, k requires 0 <= k < rows => m[k][c])
  }

  /** The product of a `p x q` and a `q x s` matrix. */
  function MatMul(a: Matrix, b: Matrix, p: nat, q: nat, s: nat): (r: Matrix)
    requires IsMatrix(a, p, q) && IsMatrix(b, q, s)
    ensures IsMatrix(r, p, s)
    ensures forall i, j :: 0 <= i < p && 0 <= j < s ==> r[i][j] == Dot(a[i], Column(b, q, s, j))
  {
    seq(p, i requires 0 <= i < p => seq(s, j requires 0 <= j < s => Dot(a[i], Column(b, q, s, j))))
  }

  function ZeroMatrix(n: nat): (z: Matrix)
    ensures IsMatrix(z, n, n)
    ensures forall i, j :: 0 <= i < n && 0 <= j < n ==> z[i][j] == 0.0
  {
    seq(n, _ => Zeros(n))
  }

  function Identity(n: nat): (id: Matrix)
    ensures IsMatrix(id, n, n)
    ensures forall i, j :: 0 <= i < n && 0 <= j < n ==> id[i][j] == (if i == j then 1.0 else 0.0)
  {
    seq(n, i requires 0 <= i < n => seq(n, j requires 0 <= j < n => if i == j then 1.0 else 0.0))
  }

  /** scipy.linalg.block_diag(a, b) for a `p x q` block `a` and an `r x s` block `b`. */
  function BlockDiag(a: Matrix, b: Matrix, p: nat, q: nat, r: nat, s: nat): (m: Matrix)
    requires IsMatrix(a, p, q) && IsMatrix(b, r, s)
    ensures IsMatrix(m, p + r, q + s)
    ensures forall i, j :: 0 <= i < p && 0 <= j < q ==> m[i][j] == a[i][j]
    ensures forall i, j :: 0 <= i < r && 0 <= j < s ==> m[p + i][q + j] == b[i][j]
    ensures forall i, j :: 0 <= i < p && q <= j < q + s ==> m[i][j] == 0.0
    ensures forall i, j :: p <= i < p + r && 0 <= j < q ==> m[i][j] == 0.0
  {
    seq(p + r, i requires 0 <= i < p + r =>
      seq(q + s, j requires 0 <= j < q + s =>
        if i < p && j < q then a[i][j]
        else if p <= i && q <= j then b[i - p][j - q]
        else 0.0))
  }

  /** numpy `m[:, order]`: column `k` of the result is column `order[k]` of `m`. */
  function SelectColumns(m: Matrix, rows: nat, cols: nat, order: seq<nat>): (r: Matrix)
    requires IsMatrix(m, rows, cols)
    requires forall k :: 0 <= k < |order| ==> order[k] < cols
    ensures IsMatrix(r, rows, |order|)
    ensures forall i, k :: 0 <= i < rows && 0 <= k < |order| ==> r[i][k] == m[i][order[k]]
  {
    seq(rows, i requires 0 <= i < rows => seq(|order|, k requires 0 <= k < |order| => m[i][order[k]]))
  }

  /** `s` lists every index below `n` exactly once. */
  predicate IsPermutation(s: seq<nat>, n: nat) {
    && |s| == n
    && (forall k :: 0 <= k < |s| ==> s[k] < n)
    && (forall c :: 0 <= c < n ==> c in s)
    && (forall i, j :: 0 <= i < j < |s| ==> s[i] != s[j])
  }

  /** The dot product with the `c`-th unit vector picks out entry `c`. */
  lemma {:induction false} DotUnit(u: Vector, e: Vector, c: nat)
    requires |u| == |e| && c < |u|
    requires forall k :: 0 <= k < |e| ==> e[k] == (if k == c then 1.0 else 0.0)
    ensures Dot(u, e) == u[c]
    decreases |u|
  {
    var n := |u| - 1;
    if c == n {
      DotZero(u[..n], e[..n]);
    } else {
      DotUnit(u[..n], e[..n], c);
    }
  }

  lemma {:induction false} DotZero(u: Vector, e: Vector)
    requires |u| == |e|
    requires forall k :: 0 <= k < |e| ==> e[k] == 0.0
    ensures Dot(u, e) == 0.0
    decreases |u|
  {
    if |u| > 0 {
      DotZero(u[..|u| - 1], e[..|e| - 1]);
    }
  }

  /** Right-multiplying by the identity leaves a matrix unchanged. */
  lemma MatMulIdentity(a: Matrix, p: nat, q: nat)
    requires IsMatrix(a, p, q)
    ensures MatMul(a, Identity(q), p, q, q) == a
  {
    var r := MatMul(a, Identity(q), p, q, q);
    forall i | 0 <= i < p
      ensures r[i] == a[i]
    {
      forall j | 0 <= j < q
        ensures r[i][j] == a[i][j]
      {
        DotUnit(a[i], Column(Identity(q), q, q, j), j);
      }
    }
  }
}
