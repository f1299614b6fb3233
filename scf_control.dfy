/** The control vocabulary shared by the ground- and excited-state SCF loops:
    the DAMP/DIIS mixing mode, the choice of Fock matrix for an iteration,
    damping, the energy-change residual and the outcome of a run. Each
    iteration's total energy, freshly built Fock matrix and DIIS extrapolation
    are inputs (the energy evaluation, the integral engine and the DIIS solver
    are not part of this model); `energies[j]` is the energy of iteration
    `j + 1`. */
module ScfControl {
  import opened Common

  datatype Mode = Damp | Diis

  /** Which Fock matrix an iteration goes on with: the one just built, the
      DIIS extrapolation, or the damped combination with the previous one. */
  datatype MixKind = Unmixed | Extrapolated | Damped

  /** How a run ends: convergence at an iteration with that iteration's energy,
      the fatal "Maximum number of SCF cycles exceeded", or (for `maxiter == 0`)
      a loop that never ran, after which the solver fails on a name the loop
      should have bound. */
  datatype Outcome = Converged(iterations: nat, energy: real) | MaxIterExceeded | NoIterations

  /** The fixed energy convergence threshold `E_conv = 1.0E-8`. */
  const EConv: real := 0.00000001

  /** The mode after an iteration: DIIS iff the energy changed by less than `diisEps`. */
  function NextMode(e: real, eold: real, diisEps: real): Mode
  {
    if Abs(e - eold) < diisEps then Diis else Damp
  }

  /** The mixing applied at iteration `iter` (1-based) in mode `mode`: nothing
      on the first iteration, then DIIS or damping according to the mode. */
  function MixFor(iter: nat, mode: Mode): (k: MixKind)
    ensures k == Unmixed <==> iter <= 1
    ensures k == Extrapolated <==> iter > 1 && mode == Diis
  {
    if iter <= 1 then Unmixed
    else match mode
      case Diis => Extrapolated
      case Damp => Damped
  }

  predicate SameShape(a: Matrix, b: Matrix)
  {
    |a| == |b| && forall i :: 0 <= i < |a| ==> |a[i]| == |b[i]|
  }

  /** Damping: `(1 - gamma) * f + gamma * fOld`, entry by entry. */
  function Damping(f: Matrix, fOld: Matrix, gamma: real): (r: Matrix)
    requires SameShape(f, fOld)
    ensures SameShape(r, f)
  {
    seq(|f|, i requires 0 <= i < |f| =>
      seq(|f[i]|, j requires 0 <= j < |f[i]| => (1.0 - gamma) * f[i][j] + gamma * fOld[i][j]))
  }

  /** For `0 <= gamma <= 1` damping is a convex combination: every entry lies
      between the new and the previous entry, and `gamma == 0` keeps the new
      matrix. */
  lemma DampIsConvex(f: Matrix, fOld: Matrix, gamma: real)
    requires SameShape(f, fOld) && 0.0 <= gamma <= 1.0
    ensures forall i, j :: 0 <= i < |f| && 0 <= j < |f[i]| ==>
      (f[i][j] <= fOld[i][j] ==> f[i][j] <= Damping(f, fOld, gamma)[i][j] <= fOld[i][j]) &&
      (fOld[i][j] <= f[i][j] ==> fOld[i][j] <= Damping(f, fOld, gamma)[i][j] <= f[i][j])
    ensures gamma == 0.0 ==> Damping(f, fOld, gamma) == f
  {
    var r := Damping(f, fOld, gamma);
    forall i, j | 0 <= i < |f| && 0 <= j < |f[i]|
      ensures f[i][j] <= fOld[i][j] ==> f[i][j] <= r[i][j] <= fOld[i][j]
      ensures fOld[i][j] <= f[i][j] ==> fOld[i][j] <= r[i][j] <= f[i][j]
    {
      var a, b := f[i][j], fOld[i][j];
      assert r[i][j] == a + gamma * (b - a);
      if a <= b {
        ScaledBetween(gamma, b - a);
      } else {
        ScaledBetween(gamma, a - b);
        assert gamma * (b - a) == -(gamma * (a - b));
      }
    }
    if gamma == 0.0 {
      forall i | 0 <= i < |f|
        ensures r[i] == f[i]
      {
      }
    }
  }

  /** A fraction `gamma` of a non-negative `d` lies between 0 and `d`. */
  lemma ScaledBetween(gamma: real, d: real)
    requires 0.0 <= gamma <= 1.0 && d >= 0.0
    ensures 0.0 <= gamma * d <= d
  {
  }

  /** The Fock matrix an iteration goes on with, given the freshly built one,
      its DIIS extrapolation and the previous iteration's (mixed) Fock matrix. */
  function Mixed(kind: MixKind, built: Matrix, extrap: Matrix, prev: Matrix, gamma: real): (r: Matrix)
    requires kind == Damped ==> SameShape(built, prev)
    ensures SameShape(built, extrap) ==> SameShape(r, built)
  {
    match kind
    case Unmixed => built
    case Extrapolated => extrap
    case Damped => Damping(built, prev, gamma)
  }

  /** `Eold` as the loops see it at the start of 0-based iteration `j`: 0.0
      before the first, afterwards the previous iteration's energy (it is
      reassigned on every iteration that does not stop the loop). */
  function EoldBefore(energies: seq<real>, j: nat): real
    requires j <= |energies|
  {
    if j == 0 then 0.0 else energies[j - 1]
  }

  /** The residual `|SCF_E - Eold|` tested at the end of 0-based iteration `j`. */
  function Delta(energies: seq<real>, j: nat): (d: real)
    requires j < |energies|
    ensures d >= 0.0
  {
    Abs(energies[j] - EoldBefore(energies, j))
  }

  /** The mixing mode in force during 0-based iteration `j`. */
  function ModeBefore(energies: seq<real>, diisEps: real, j: nat): Mode
    requires j <= |energies|
  {
    if j == 0 then Damp else NextMode(energies[j - 1], EoldBefore(energies, j - 1), diisEps)
  }

  /** Per-iteration Fock inputs (built and extrapolated), all `n` by `n`. */
  predicate FockInputs(builds: seq<Matrix>, extraps: seq<Matrix>, n: nat)
  {
    |builds| == |extraps| &&
    forall k :: 0 <= k < |builds| ==> IsShape(builds[k], n, n) && IsShape(extraps[k], n, n)
  }

  /** Every iteration from `iter` on mixes according to the mode the previous
      residual selected (`mixes[p]` belongs to iteration `iter + p`). */
  ghost predicate MixesFollowModes(mixes: seq<MixKind>, energies: seq<real>, diisEps: real, iter: nat)
    requires 1 <= iter && iter - 1 + |mixes| <= |energies|
  {
    forall p :: 0 <= p < |mixes| ==>
      mixes[p] == MixFor(iter + p, ModeBefore(energies, diisEps, iter - 1 + p))
  }

  /** An iteration that mixes by the previous residual's mode, followed by
      iterations that do. */
  lemma MixesCons(mix: MixKind, rest: seq<MixKind>, energies: seq<real>, diisEps: real, iter: nat)
    requires 1 <= iter && iter + |rest| <= |energies|
    requires mix == MixFor(iter, ModeBefore(energies, diisEps, iter - 1))
    requires MixesFollowModes(rest, energies, diisEps, iter + 1)
    ensures MixesFollowModes([mix] + rest, energies, diisEps, iter)
  {
    var all := [mix] + rest;
    forall p | 1 <= p < |all|
      ensures all[p] == MixFor(iter + p, ModeBefore(energies, diisEps, iter - 1 + p))
    {
      assert all[p] == rest[p - 1];
    }
  }

  /** `focks` are the Fock matrices a run goes on with, given the mixing of
      each of its iterations: the first iteration goes on with the matrix it
      built; a later one mixes its freshly built matrix with the one the
      previous iteration went on with. All of them are `n` by `n`. */
  ghost predicate FocksFollow(focks: seq<Matrix>, mixes: seq<MixKind>, builds: seq<Matrix>, extraps: seq<Matrix>,
                              n: nat, gamma: real)
    requires FockInputs(builds, extraps, n) && |mixes| <= |builds|
  {
    && |focks| == |mixes|
    && (forall p :: 0 <= p < |focks| ==> IsShape(focks[p], n, n))
    && (|focks| > 0 ==> focks[0] == builds[0])
    && forall p :: 1 <= p < |focks| ==>
         focks[p] == Mixed(mixes[p], builds[p], extraps[p], focks[p - 1], gamma)
  }

  /** The DIIS/mixing step of one iteration, after iterations that went on
      with `focks`: it goes on with the matrix it built on the first
      iteration, and otherwise mixes that matrix (or takes its extrapolation)
      against `prev`, the matrix the previous iteration went on with. */
  method MixStep(mixes: seq<MixKind>, mix: MixKind, focks: seq<Matrix>, prev: Matrix,
                 builds: seq<Matrix>, extraps: seq<Matrix>, n: nat, gamma: real) returns (f: Matrix)
    requires FockInputs(builds, extraps, n) && |mixes| < |builds|
    requires mixes == [] <==> mix == Unmixed
    requires FocksFollow(focks, mixes, builds, extraps, n, gamma)
    requires mixes != [] ==> prev == focks[|mixes| - 1]
    ensures FocksFollow(focks + [f], mixes + [mix], builds, extraps, n, gamma)
  {
    var k := |mixes|;
    if k > 0 {
      assert IsShape(builds[k], n, n) && IsShape(prev, n, n);
    }
    f := Mixed(mix, builds[k], extraps[k], prev, gamma);
    var focks' := focks + [f];
    assert forall p :: 0 <= p < k ==> focks'[p] == focks[p];
  }
}
