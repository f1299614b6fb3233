/** The unconstrained unrestricted Kohn-Sham ground-state solver
    (`DFTGroundState`): the choice between restart orbitals and the
    core-Hamiltonian guess, the occupied block and its density, the SCF loop's
    mixing and stopping control, and the final aufbau occupations. */
module GroundState {
  import opened Common
  import opened ScfControl

  /** The coefficient matrices found in the `<prefix>_gsorbs.npz` archive. */
  datatype Archive = Archive(ca: Matrix, cb: Matrix)

  /** Starting coefficients of both spins and whether they came from the archive. */
  datatype Start = Start(ca: Matrix, cb: Matrix, restarted: bool)

  /** The starting orbitals. Without an archive the code stands in an empty
      0-by-0 `Ca`; the archive's (or that stand-in's) `Ca` is used, together
      with its `Cb`, only when its shape is `(nbf, nbf)`; otherwise both spins
      start from diagonalising the core Hamiltonian, whose result is the
      parameter `coreGuess` (the diagonaliser is not part of this model and
      returns the same matrix for the same input). */
  function InitialOrbitals(archive: Option<Archive>, nbf: nat, coreGuess: Matrix): (s: Start)
    ensures s.restarted <==>
      (if archive.Some? then IsShape(archive.value.ca, nbf, nbf) else nbf == 0)
    ensures s.restarted && archive.Some? ==> s.ca == archive.value.ca && s.cb == archive.value.cb
    ensures s.restarted && archive.None? ==> s.ca == [] && s.cb == []
    ensures !s.restarted ==> s.ca == coreGuess && s.cb == coreGuess
  {
    var ca := if archive.Some? then archive.value.ca else [];
    var cb := if archive.Some? then archive.value.cb else [];
    if IsShape(ca, nbf, nbf) then Start(ca, cb, true) else Start(coreGuess, coreGuess, false)
  }

  /** The occupied block `C[:, :nocc]`. */
  function Occupied(c: Matrix, nocc: nat): (occ: Matrix)
    requires forall i :: 0 <= i < |c| ==> nocc <= |c[i]|
    ensures IsShape(occ, |c|, nocc)
    ensures forall i, k :: 0 <= i < |c| && 0 <= k < nocc ==> occ[i][k] == c[i][k]
  {
    seq(|c|, i requires 0 <= i < |c| => c[i][..nocc])
  }

  function Dot(u: seq<real>, v: seq<real>): real
    requires |u| == |v|
  {
    if u == [] then 0.0 else Dot(u[..|u| - 1], v[..|v| - 1]) + u[|u| - 1] * v[|v| - 1]
  }

  lemma {:induction false} DotCommutes(u: seq<real>, v: seq<real>)
    requires |u| == |v|
    ensures Dot(u, v) == Dot(v, u)
  {
    if u != [] {
      DotCommutes(u[..|u| - 1], v[..|v| - 1]);
    }
  }

  /** The density `D = Cocc @ Cocc.T`. */
  function Density(cocc: Matrix, k: nat): (d: Matrix)
    requires IsShape(cocc, |cocc|, k)
    ensures IsShape(d, |cocc|, |cocc|)
  {
    seq(|cocc|, i requires 0 <= i < |cocc| =>
      seq(|cocc|, j requires 0 <= j < |cocc| => Dot(cocc[i], cocc[j])))
  }

  /** The density built from the occupied block is symmetric. */
  lemma DensitySymmetric(c: Matrix, nocc: nat)
    requires forall i :: 0 <= i < |c| ==> nocc <= |c[i]|
    ensures forall i, j :: 0 <= i < |c| && 0 <= j < |c| ==>
      Density(Occupied(c, nocc), nocc)[i][j] == Density(Occupied(c, nocc), nocc)[j][i]
  {
    var occ := Occupied(c, nocc);
    forall i, j | 0 <= i < |c| && 0 <= j < |c|
      ensures Density(occ, nocc)[i][j] == Density(occ, nocc)[j][i]
    {
      DotCommutes(occ[i], occ[j]);
    }
  }

  /** The density depends on the first `nocc` columns only: orbitals that agree
      there give the same density, whatever their virtual columns hold. */
  lemma DensityIgnoresVirtuals(c: Matrix, c': Matrix, nocc: nat)
    requires |c| == |c'|
    requires forall i :: 0 <= i < |c| ==> nocc <= |c[i]| && nocc <= |c'[i]|
    requires forall i, k :: 0 <= i < |c| && 0 <= k < nocc ==> c[i][k] == c'[i][k]
    ensures Density(Occupied(c, nocc), nocc) == Density(Occupied(c', nocc), nocc)
  {
    assert Occupied(c, nocc) == Occupied(c', nocc) by {
      forall i | 0 <= i < |c|
        ensures Occupied(c, nocc)[i] == Occupied(c', nocc)[i]
      {
      }
    }
  }

  /** The final occupation vectors written with the orbitals: aufbau in both
      spins, which puts exactly `min(nbf, nalpha)` alpha and `min(nbf, nbeta)`
      beta electrons in the lowest orbitals. */
  function FinalOccupations(nbf: nat, nalpha: nat, nbeta: nat): (occ: (seq<real>, seq<real>))
    ensures |occ.0| == nbf && |occ.1| == nbf
    ensures forall c :: 0 <= c < nbf ==>
      occ.0[c] == (if c < nalpha then 1.0 else 0.0) && occ.1[c] == (if c < nbeta then 1.0 else 0.0)
    ensures Sum(occ.0) == Min(nbf, nalpha) as real && Sum(occ.1) == Min(nbf, nbeta) as real
  {
    AufbauTotal(nbf, nalpha);
    AufbauTotal(nbf, nbeta);
    (Aufbau(nbf, nalpha), Aufbau(nbf, nbeta))
  }

  /** What a run did: the mixing applied at each iteration it executed, and
      how it ended. The Fock matrices it went on with follow from the mixings
      (`FocksFollow`). */
  datatype Trace = Trace(mixes: seq<MixKind>, outcome: Outcome)

  /** The number of iterations a run with this outcome executes. */
  function Iterations(o: Outcome, maxiter: nat): nat
  {
    match o
    case Converged(k, _) => k
    case MaxIterExceeded => maxiter
    case NoIterations => 0
  }

  /** The SCF loop from iteration `iter` on, in the state (`mode`, `eold`) in
      which the loop reaches it. An iteration mixes according to the mode,
      then sets the mode from `|E - Eold|`, then stops if `|E - Eold| <
      E_conv`; otherwise `Eold` becomes `E` and reaching `maxiter` is fatal. */
  function RunFrom(energies: seq<real>, diisEps: real, maxiter: nat, iter: nat, mode: Mode, eold: real): (t: Trace)
    requires 1 <= iter && |energies| >= maxiter
    ensures t.outcome.Converged? ==> iter <= t.outcome.iterations <= maxiter
    ensures t.outcome.MaxIterExceeded? ==> iter <= maxiter
    ensures t.outcome.NoIterations? ==> iter > maxiter && t.mixes == []
    ensures !t.outcome.NoIterations? ==> |t.mixes| == Iterations(t.outcome, maxiter) + 1 - iter
    ensures |t.mixes| > 0 ==> t.mixes[0] == MixFor(iter, mode)
    decreases maxiter + 1 - iter
  {
    if iter > maxiter then Trace([], NoIterations)
    else
      var e := energies[iter - 1];
      var rest :=
        if Abs(e - eold) < EConv then Trace([], Converged(iter, e))
        else if iter == maxiter then Trace([], MaxIterExceeded)
        else RunFrom(energies, diisEps, maxiter, iter + 1, NextMode(e, eold, diisEps), e);
      Trace([MixFor(iter, mode)] + rest.mixes, rest.outcome)
  }

  /** The whole run: it starts in DAMP mode with `Eold = 0.0`. */
  function Run(energies: seq<real>, diisEps: real, maxiter: nat): (t: Trace)
    requires |energies| >= maxiter
    ensures |t.mixes| == Iterations(t.outcome, maxiter) <= maxiter
    ensures |t.mixes| > 0 ==> t.mixes[0] == Unmixed
  {
    RunFrom(energies, diisEps, maxiter, 1, Damp, 0.0)
  }

  /** The trace `t` of the rest of a run after the iterations already recorded. */
  function Prepend(mixes: seq<MixKind>, t: Trace): Trace
  {
    Trace(mixes + t.mixes, t.outcome)
  }

  /** One iteration of the loop after the iterations already recorded: it
      records its mixing, then stops, fails at `maxiter` or goes on in the
      next state. */
  lemma RunFromStep(energies: seq<real>, diisEps: real, maxiter: nat, iter: nat, mode: Mode, eold: real,
                    mixes: seq<MixKind>)
    requires 1 <= iter <= maxiter && |energies| >= maxiter
    ensures var e := energies[iter - 1];
      var now := Prepend(mixes, RunFrom(energies, diisEps, maxiter, iter, mode, eold));
      var done := mixes + [MixFor(iter, mode)];
      && (Abs(e - eold) < EConv ==> now == Trace(done, Converged(iter, e)))
      && (Abs(e - eold) >= EConv && iter == maxiter ==> now == Trace(done, MaxIterExceeded))
      && (Abs(e - eold) >= EConv && iter < maxiter ==>
            now == Prepend(done, RunFrom(energies, diisEps, maxiter, iter + 1, NextMode(e, eold, diisEps), e)))
  {
    var e := energies[iter - 1];
    if Abs(e - eold) >= EConv && iter < maxiter {
      var tail := RunFrom(energies, diisEps, maxiter, iter + 1, NextMode(e, eold, diisEps), e);
      assert mixes + ([MixFor(iter, mode)] + tail.mixes) == (mixes + [MixFor(iter, mode)]) + tail.mixes;
    }
  }

  /** The SCF loop, carrying `MIXMODE`, `Eold` and `FaOld` from iteration to
      iteration as the solver does; `focks` are the Fock matrices (one spin
      channel) the iterations went on with. */
  method Scf(energies: seq<real>, builds: seq<Matrix>, extraps: seq<Matrix>, n: nat,
             gamma: real, diisEps: real, maxiter: nat) returns (t: Trace, focks: seq<Matrix>)
    requires |energies| >= maxiter && FockInputs(builds, extraps, n) && |builds| >= maxiter
    ensures t == Run(energies, diisEps, maxiter)
    ensures FocksFollow(focks, t.mixes, builds, extraps, n, gamma)
  {
    var mode := Damp;
    var eold := 0.0;
    var fa: Matrix := [];
    var faOld: Matrix := [];
    var mixes: seq<MixKind> := [];
    focks := [];
    var iter := 1;
    assert Prepend([], Run(energies, diisEps, maxiter)) == Run(energies, diisEps, maxiter);
    while iter <= maxiter
      invariant 1 <= iter <= maxiter + 1 && |mixes| == iter - 1
      invariant Run(energies, diisEps, maxiter) == Prepend(mixes, RunFrom(energies, diisEps, maxiter, iter, mode, eold))
      invariant FocksFollow(focks, mixes, builds, extraps, n, gamma)
      invariant iter > 1 ==> fa == focks[iter - 2]
    {
      RunFromStep(energies, diisEps, maxiter, iter, mode, eold, mixes);
      if iter > 1 {
        faOld := fa;
      }
      var mix := MixFor(iter, mode);
      fa := MixStep(mixes, mix, focks, faOld, builds, extraps, n, gamma);
      var e := energies[iter - 1];
      mixes, focks := mixes + [mix], focks + [fa];
      if Abs(e - eold) < EConv {
        return Trace(mixes, Converged(iter, e)), focks;
      }
      if iter == maxiter {
        return Trace(mixes, MaxIterExceeded), focks;
      }
      mode, eold := NextMode(e, eold, diisEps), e;
      iter := iter + 1;
    }
    t := Trace(mixes, NoIterations);
  }

  /** From `iter` on, in the state the loop reaches it in, the run stops at
      the first iteration whose residual is below `E_conv` and reports that
      iteration's energy, and otherwise fails at `maxiter`. */
  lemma {:induction false} RunFromStops(energies: seq<real>, diisEps: real, maxiter: nat, iter: nat, mode: Mode, eold: real)
    requires 1 <= iter <= maxiter + 1 && |energies| >= maxiter
    requires eold == EoldBefore(energies, iter - 1)
    ensures var o := RunFrom(energies, diisEps, maxiter, iter, mode, eold).outcome;
      && (o.Converged? ==>
            && Delta(energies, o.iterations - 1) < EConv
            && o.energy == energies[o.iterations - 1]
            && forall j :: iter - 1 <= j < o.iterations - 1 ==> Delta(energies, j) >= EConv)
      && (o.MaxIterExceeded? ==> forall j :: iter - 1 <= j < maxiter ==> Delta(energies, j) >= EConv)
    decreases maxiter + 1 - iter
  {
    if iter <= maxiter {
      var e := energies[iter - 1];
      assert Delta(energies, iter - 1) == Abs(e - eold);
      if Abs(e - eold) >= EConv && iter < maxiter {
        RunFromStops(energies, diisEps, maxiter, iter + 1, NextMode(e, eold, diisEps), e);
      }
    }
  }

  /** From `iter` on, in the state the loop reaches it in, every iteration
      mixes according to the mode the previous residual selected. */
  lemma {:induction false} RunFromMixes(energies: seq<real>, diisEps: real, maxiter: nat, iter: nat, mode: Mode, eold: real)
    requires 1 <= iter <= maxiter + 1 && |energies| >= maxiter
    requires eold == EoldBefore(energies, iter - 1)
    requires iter > 1 ==> mode == ModeBefore(energies, diisEps, iter - 1)
    ensures MixesFollowModes(RunFrom(energies, diisEps, maxiter, iter, mode, eold).mixes, energies, diisEps, iter)
    decreases maxiter + 1 - iter
  {
    if iter <= maxiter {
      var e := energies[iter - 1];
      var mix := MixFor(iter, mode);
      assert mix == MixFor(iter, ModeBefore(energies, diisEps, iter - 1));
      if Abs(e - eold) >= EConv && iter < maxiter {
        var next := NextMode(e, eold, diisEps);
        assert next == ModeBefore(energies, diisEps, iter);
        RunFromMixes(energies, diisEps, maxiter, iter + 1, next, e);
        MixesCons(mix, RunFrom(energies, diisEps, maxiter, iter + 1, next, e).mixes, energies, diisEps, iter);
      }
    }
  }

  /** What the ground-state loop promises: iteration 1 does not mix; every
      later iteration extrapolates by DIIS when the previous iteration changed
      the energy by less than `diisEps` and damps otherwise; the run converges
      exactly when some iteration up to `maxiter` changes the energy by less
      than `E_conv`, and then at the first such iteration with its energy;
      otherwise it fails at `maxiter` (or, for `maxiter == 0`, never runs). */
  lemma RunSpec(energies: seq<real>, diisEps: real, maxiter: nat)
    requires |energies| >= maxiter
    ensures var t := Run(energies, diisEps, maxiter);
      && (maxiter >= 1 ==> t.mixes[0] == Unmixed)
      && (forall j :: 1 <= j < |t.mixes| ==>
            t.mixes[j] == (if Delta(energies, j - 1) < diisEps then Extrapolated else Damped))
      && (t.outcome.Converged? <==> exists j :: 0 <= j < maxiter && Delta(energies, j) < EConv)
      && (t.outcome.Converged? ==>
            && Delta(energies, t.outcome.iterations - 1) < EConv
            && t.outcome.energy == energies[t.outcome.iterations - 1]
            && forall j :: 0 <= j < t.outcome.iterations - 1 ==> Delta(energies, j) >= EConv)
      && (t.outcome.NoIterations? <==> maxiter == 0)
  {
    var t := Run(energies, diisEps, maxiter);
    RunFromStops(energies, diisEps, maxiter, 1, Damp, 0.0);
    RunFromMixes(energies, diisEps, maxiter, 1, Damp, 0.0);
    forall j | 1 <= j < |t.mixes|
      ensures t.mixes[j] == (if Delta(energies, j - 1) < diisEps then Extrapolated else Damped)
    {
      assert t.mixes[j] == MixFor(1 + j, ModeBefore(energies, diisEps, j));
    }
    if t.outcome.Converged? {
      var k := t.outcome.iterations;
      assert 0 <= k - 1 < maxiter && Delta(energies, k - 1) < EConv;
    }
  }
}
