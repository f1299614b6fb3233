/** Structural edits of a Fock matrix in the molecular-orbital basis, applied
    in place by the excited-state solver before it transforms back to the
    atomic-orbital basis: freezing one orbital and level-shifting virtuals. */
module FockEdits {
  import opened Common

  /** The entries of a two-dimensional array, row by row. */
  ghost function Elements(m: array2<real>): (r: Matrix)
    reads m
    ensures IsShape(r, m.Length0, m.Length1)
  {
    seq(m.Length0, i requires 0 <= i < m.Length0 reads m =>
      seq(m.Length1, j requires 0 <= j < m.Length1 reads m => m[i, j]))
  }

  /** `m` with the off-diagonal part of row `idx` and of column `idx` set to zero. */
  function Frozen(m: Matrix, idx: nat): (r: Matrix)
    requires Square(m) && idx < |m|
    ensures Square(r) && |r| == |m|
  {
    seq(|m|, i requires 0 <= i < |m| =>
      seq(|m|, j requires 0 <= j < |m| =>
        if i != j && (i == idx || j == idx) then 0.0 else m[i][j]))
  }

  /** `m` with `vshift` added to the diagonal entry of every orbital `c` whose
      occupation is exactly 0 and which lies at or above the aufbau count. */
  function Shifted(m: Matrix, occ: seq<real>, nocc: nat, vshift: real): (r: Matrix)
    requires Square(m) && |occ| == |m|
    ensures Square(r) && |r| == |m|
  {
    seq(|m|, i requires 0 <= i < |m| =>
      seq(|m|, j requires 0 <= j < |m| =>
        if i == j && occ[i] == 0.0 && i >= nocc then m[i][j] + vshift else m[i][j]))
  }

  /** Freezing zeroes exactly the off-diagonal entries of row and column
      `idx`: the orbital energy `m[idx][idx]` and every entry outside that row
      and column keep their values. */
  lemma FrozenDecouples(m: Matrix, idx: nat)
    requires Square(m) && idx < |m|
    ensures forall j :: 0 <= j < |m| && j != idx ==>
      Frozen(m, idx)[idx][j] == 0.0 && Frozen(m, idx)[j][idx] == 0.0
    ensures Frozen(m, idx)[idx][idx] == m[idx][idx]
    ensures forall i, j :: 0 <= i < |m| && 0 <= j < |m| && i != idx && j != idx ==>
      Frozen(m, idx)[i][j] == m[i][j]
  {
  }

  /** Freezing the same orbital twice is freezing it once. */
  lemma FrozenIdempotent(m: Matrix, idx: nat)
    requires Square(m) && idx < |m|
    ensures Frozen(Frozen(m, idx), idx) == Frozen(m, idx)
  {
    var once := Frozen(m, idx);
    var twice := Frozen(once, idx);
    forall i | 0 <= i < |m|
      ensures twice[i] == once[i]
    {
    }
  }

  /** Freezing two orbitals gives the same matrix in either order. */
  lemma FrozenCommute(m: Matrix, a: nat, b: nat)
    requires Square(m) && a < |m| && b < |m|
    ensures Frozen(Frozen(m, a), b) == Frozen(Frozen(m, b), a)
  {
    var ab := Frozen(Frozen(m, a), b);
    var ba := Frozen(Frozen(m, b), a);
    forall i | 0 <= i < |m|
      ensures ab[i] == ba[i]
    {
    }
  }

  /** The level shift moves each selected diagonal entry by exactly `vshift`
      and changes nothing else. */
  lemma ShiftedOnlySelectedDiagonal(m: Matrix, occ: seq<real>, nocc: nat, vshift: real)
    requires Square(m) && |occ| == |m|
    ensures forall c :: 0 <= c < |m| ==>
      Shifted(m, occ, nocc, vshift)[c][c] ==
        (if occ[c] == 0.0 && c >= nocc then m[c][c] + vshift else m[c][c])
    ensures forall i, j :: 0 <= i < |m| && 0 <= j < |m| && i != j ==>
      Shifted(m, occ, nocc, vshift)[i][j] == m[i][j]
  {
  }

  /** A zero shift (the value after convergence switched it off) leaves the
      matrix as it was. */
  lemma ShiftedByZero(m: Matrix, occ: seq<real>, nocc: nat)
    requires Square(m) && |occ| == |m|
    ensures Shifted(m, occ, nocc, 0.0) == m
  {
    var r := Shifted(m, occ, nocc, 0.0);
    forall i | 0 <= i < |m|
      ensures r[i] == m[i]
    {
    }
  }

  /** Freezing touches only off-diagonal entries and the shift only diagonal
      ones, so the order in which the solver applies them does not matter. */
  lemma FreezeShiftCommute(m: Matrix, idx: nat, occ: seq<real>, nocc: nat, vshift: real)
    requires Square(m) && idx < |m| && |occ| == |m|
    ensures Shifted(Frozen(m, idx), occ, nocc, vshift) == Frozen(Shifted(m, occ, nocc, vshift), idx)
  {
    var fs := Shifted(Frozen(m, idx), occ, nocc, vshift);
    var sf := Frozen(Shifted(m, occ, nocc, vshift), idx);
    forall i | 0 <= i < |m|
      ensures fs[i] == sf[i]
    {
    }
  }

  /** Freezes orbital `idx` of the square array `m` in place, with the four
      slice assignments the source uses (left and right of the diagonal in
      row `idx`, above and below it in column `idx`). */
  method Freeze(m: array2<real>, idx: nat)
    requires m.Length0 == m.Length1 && idx < m.Length0
    modifies m
    ensures Elements(m) == Frozen(old(Elements(m)), idx)
  {
    ghost var before := Elements(m);
    var n := m.Length0;
    forall j | 0 <= j < idx {
      m[idx, j] := 0.0;
    }
    forall j | idx + 1 <= j < n {
      m[idx, j] := 0.0;
    }
    forall i | 0 <= i < idx {
      m[i, idx] := 0.0;
    }
    forall i | idx + 1 <= i < n {
      m[i, idx] := 0.0;
    }
    ghost var after := Elements(m);
    ghost var want := Frozen(before, idx);
    forall i | 0 <= i < n
      ensures after[i] == want[i]
    {
    }
  }

  /** Adds `vshift` in place to the diagonal entry of every orbital `c` with
      `occ[c] == 0` and `c >= nocc`. */
  method LevelShift(m: array2<real>, occ: seq<real>, nocc: nat, vshift: real)
    requires m.Length0 == m.Length1 && |occ| == m.Length0
    modifies m
    ensures Elements(m) == Shifted(old(Elements(m)), occ, nocc, vshift)
  {
    ghost var before := Elements(m);
    var n := m.Length0;
    forall c | 0 <= c < n && occ[c] == 0.0 && c >= nocc {
      m[c, c] := m[c, c] + vshift;
    }
    ghost var after := Elements(m);
    ghost var want := Shifted(before, occ, nocc, vshift);
    forall i | 0 <= i < n
      ensures after[i] == want[i]
    {
    }
  }
}
