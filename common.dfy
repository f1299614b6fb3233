/** Shared vocabulary of both solvers: optional values and results, dense
    real matrices stored row by row, and the aufbau occupation vector. */
module Common {

  datatype Option<T> = None | Some(value: T)

  datatype Result<T, E> = Ok(value: T) | Err(error: E)

  /** A dense real matrix, one sequence per row. */
  type Matrix = seq<seq<real>>

  /** `m` has `rows` rows of `cols` entries each (numpy's `m.shape == (rows, cols)`). */
  predicate IsShape(m: Matrix, rows: nat, cols: nat)
  {
    |m| == rows && forall i :: 0 <= i < rows ==> |m[i]| == cols
  }

  /** `m` is square. */
  predicate Square(m: Matrix)
  {
    IsShape(m, |m|, |m|)
  }

  function Abs(x: real): (r: real)
    ensures r >= 0.0
    ensures r == x || r == -x
  {
    if x < 0.0 then -x else x
  }

  function Min(a: nat, b: nat): (r: nat)
    ensures r <= a && r <= b
    ensures r == a || r == b
  {
    if a <= b then a else b
  }

  /** Column `k` of `m` (numpy's `m[:, k]`), row by row. */
  function Column(m: Matrix, k: nat): (col: seq<real>)
    requires forall i :: 0 <= i < |m| ==> k < |m[i]|
    ensures |col| == |m|
  {
    if m == [] then [] else Column(m[..|m| - 1], k) + [m[|m| - 1][k]]
  }

  /** Entry `i` of column `k` is `m[i][k]`. */
  lemma {:induction false} ColumnEntries(m: Matrix, k: nat)
    requires forall i :: 0 <= i < |m| ==> k < |m[i]|
    ensures forall i :: 0 <= i < |m| ==> Column(m, k)[i] == m[i][k]
  {
    if m != [] {
      var init := m[..|m| - 1];
      ColumnEntries(init, k);
      assert forall i :: 0 <= i < |init| ==> init[i] == m[i];
    }
  }

  /** The aufbau occupation vector of length `n` with `nocc` electrons:
      `occ = zeros(n); occ[:nocc] = 1` (numpy clamps the slice at `n`). */
  function Aufbau(n: nat, nocc: nat): (occ: seq<real>)
    ensures |occ| == n
  {
    seq(n, c => if c < nocc then 1.0 else 0.0)
  }

  function Sum(v: seq<real>): real
  {
    if v == [] then 0.0 else Sum(v[..|v| - 1]) + v[|v| - 1]
  }

  /** The aufbau vector is 1 below the electron count and 0 from it on, and its
      entries add up to the number of electrons that fit in `n` orbitals. */
  lemma {:induction false} AufbauTotal(n: nat, nocc: nat)
    ensures forall c :: 0 <= c < n ==> (Aufbau(n, nocc)[c] == 1.0 <==> c < nocc)
    ensures forall c :: 0 <= c < n ==> (Aufbau(n, nocc)[c] == 0.0 <==> c >= nocc)
    ensures Sum(Aufbau(n, nocc)) == Min(n, nocc) as real
  {
    if n > 0 {
      AufbauTotal(n - 1, nocc);
      assert Aufbau(n, nocc)[..n - 1] == Aufbau(n - 1, nocc);
    }
  }
}
