/** The SCF loop control of the excited-state solver: the same DAMP/DIIS
    mixing as the ground state, plus the level shift `vshift`, which the first
    converged iteration switches off for good instead of stopping the run. */
module ExcitedControl {
  import opened Common
  import opened ScfControl
  import GroundState

  /** What a run did: the mixing and the level shift in force of every
      iteration it executed, and how it ended. The Fock matrices it went on
      with follow from the mixings (`FocksFollow`). */
  datatype ExTrace = ExTrace(mixes: seq<MixKind>, shifts: seq<real>, outcome: Outcome)

  /** The loop from iteration `iter` on, in the state (`mode`, `eold`,
      `vshift`) in which the loop reaches it. A residual below `E_conv` stops
      the run only if the shift is already off; otherwise it switches the
      shift off and the loop goes on. */
  function ExRunFrom(energies: seq<real>, diisEps: real, maxiter: nat,
                     iter: nat, mode: Mode, eold: real, vshift: real): (t: ExTrace)
    requires 1 <= iter && |energies| >= maxiter
    ensures t.outcome.Converged? ==> iter <= t.outcome.iterations <= maxiter
    ensures t.outcome.MaxIterExceeded? ==> iter <= maxiter
    ensures t.outcome.NoIterations? ==> iter > maxiter && t.mixes == [] && t.shifts == []
    ensures !t.outcome.NoIterations? ==>
      |t.mixes| == |t.shifts| == GroundState.Iterations(t.outcome, maxiter) + 1 - iter
    ensures |t.mixes| > 0 ==> t.mixes[0] == MixFor(iter, mode)
    decreases maxiter + 1 - iter
  {
    if iter > maxiter then ExTrace([], [], NoIterations)
    else
      var e := energies[iter - 1];
      var small := Abs(e - eold) < EConv;
      var rest :=
        if small && vshift == 0.0 then ExTrace([], [], Converged(iter, e))
        else if iter == maxiter then ExTrace([], [], MaxIterExceeded)
        else ExRunFrom(energies, diisEps, maxiter, iter + 1, NextMode(e, eold, diisEps), e,
                       if small then 0.0 else vshift);
      ExTrace([MixFor(iter, mode)] + rest.mixes, [vshift] + rest.shifts, rest.outcome)
  }

  /** The whole run: DAMP mode, `Eold = 0.0` and the configured shift `vshift`. */
  function ExRun(energies: seq<real>, diisEps: real, maxiter: nat, vshift: real): (t: ExTrace)
    requires |energies| >= maxiter
    ensures |t.mixes| == |t.shifts| == GroundState.Iterations(t.outcome, maxiter) <= maxiter
    ensures |t.mixes| > 0 ==> t.mixes[0] == Unmixed
  {
    ExRunFrom(energies, diisEps, maxiter, 1, Damp, 0.0, vshift)
  }

  /** The trace `t` of the rest of a run after the iterations already recorded. */
  function ExPrepend(mixes: seq<MixKind>, shifts: seq<real>, t: ExTrace): ExTrace
  {
    ExTrace(mixes + t.mixes, shifts + t.shifts, t.outcome)
  }

  /** One iteration of the loop after the iterations already recorded: it
      records its mixing and shift, then stops, fails at `maxiter` or goes on
      in the next state. */
  lemma ExRunFromStep(energies: seq<real>, diisEps: real, maxiter: nat,
                      iter: nat, mode: Mode, eold: real, vshift: real,
                      mixes: seq<MixKind>, shifts: seq<real>)
    requires 1 <= iter <= maxiter && |energies| >= maxiter
    ensures var e := energies[iter - 1];
      var small := Abs(e - eold) < EConv;
      var now := ExPrepend(mixes, shifts, ExRunFrom(energies, diisEps, maxiter, iter, mode, eold, vshift));
      var mixes' := mixes + [MixFor(iter, mode)];
      var shifts' := shifts + [vshift];
      && (small && vshift == 0.0 ==> now == ExTrace(mixes', shifts', Converged(iter, e)))
      && (!(small && vshift == 0.0) && iter == maxiter ==> now == ExTrace(mixes', shifts', MaxIterExceeded))
      && (!(small && vshift == 0.0) && iter < maxiter ==>
            now == ExPrepend(mixes', shifts', ExRunFrom(energies, diisEps, maxiter, iter + 1,
                                                        NextMode(e, eold, diisEps), e, if small then 0.0 else vshift)))
  {
    var e := energies[iter - 1];
    var small := Abs(e - eold) < EConv;
    if !(small && vshift == 0.0) && iter < maxiter {
      var tail := ExRunFrom(energies, diisEps, maxiter, iter + 1, NextMode(e, eold, diisEps), e,
                            if small then 0.0 else vshift);
      assert mixes + ([MixFor(iter, mode)] + tail.mixes) == (mixes + [MixFor(iter, mode)]) + tail.mixes;
      assert shifts + ([vshift] + tail.shifts) == (shifts + [vshift]) + tail.shifts;
    }
  }

  /** An iteration that neither stops the run nor reaches `maxiter` is
      followed by the rest of the run, in the state it leaves behind. */
  lemma ExRunFromGoesOn(energies: seq<real>, diisEps: real, maxiter: nat,
                        iter: nat, mode: Mode, eold: real, vshift: real, next: real)
    requires 1 <= iter < maxiter && |energies| >= maxiter
    requires var small := Abs(energies[iter - 1] - eold) < EConv;
      !(small && vshift == 0.0) && next == if small then 0.0 else vshift
    ensures var e := energies[iter - 1];
      var t := ExRunFrom(energies, diisEps, maxiter, iter, mode, eold, vshift);
      var rest := ExRunFrom(energies, diisEps, maxiter, iter + 1, NextMode(e, eold, diisEps), e, next);
      t.mixes == [MixFor(iter, mode)] + rest.mixes && t.shifts == [vshift] + rest.shifts && t.outcome == rest.outcome
  {
  }

  /** `ExRunFromStep` in the terms of the loop: when the whole run is the
      iterations recorded so far followed by the run from `iter`, the next
      iteration either ends it or leaves the whole run as the iterations
      recorded then followed by the run from `iter + 1`. */
  lemma ExScfStep(energies: seq<real>, diisEps: real, maxiter: nat, vshift0: real,
                  iter: nat, mode: Mode, eold: real, vshift: real, mixes: seq<MixKind>, shifts: seq<real>)
    requires 1 <= iter <= maxiter && |energies| >= maxiter
    requires ExRun(energies, diisEps, maxiter, vshift0) ==
      ExPrepend(mixes, shifts, ExRunFrom(energies, diisEps, maxiter, iter, mode, eold, vshift))
    ensures var e := energies[iter - 1];
      var small := Abs(e - eold) < EConv;
      var run := ExRun(energies, diisEps, maxiter, vshift0);
      var mixes', shifts' := mixes + [MixFor(iter, mode)], shifts + [vshift];
      && (small && vshift == 0.0 ==> run == ExTrace(mixes', shifts', Converged(iter, e)))
      && (!(small && vshift == 0.0) && iter == maxiter ==> run == ExTrace(mixes', shifts', MaxIterExceeded))
      && (!(small && vshift == 0.0) && iter < maxiter ==>
            run == ExPrepend(mixes', shifts', ExRunFrom(energies, diisEps, maxiter, iter + 1,
                                                        NextMode(e, eold, diisEps), e, if small then 0.0 else vshift)))
  {
    ExRunFromStep(energies, diisEps, maxiter, iter, mode, eold, vshift, mixes, shifts);
  }

  /** The excited-state SCF loop, carrying `MIXMODE`, `Eold`, `FaOld` and
      `vshift` from iteration to iteration; `focks` are the Fock matrices (one
      spin channel) the iterations went on with. */
  method ExScf(energies: seq<real>, builds: seq<Matrix>, extraps: seq<Matrix>, n: nat,
               gamma: real, diisEps: real, maxiter: nat, vshift0: real) returns (t: ExTrace, focks: seq<Matrix>)
    requires |energies| >= maxiter && FockInputs(builds, extraps, n) && |builds| >= maxiter
    ensures t == ExRun(energies, diisEps, maxiter, vshift0)
    ensures FocksFollow(focks, t.mixes, builds, extraps, n, gamma)
  {
    var mode := Damp;
    var eold := 0.0;
    var vshift := vshift0;
    var fa: Matrix := [];
    var faOld: Matrix := [];
    var mixes: seq<MixKind> := [];
    var shifts: seq<real> := [];
    focks := [];
    var iter := 1;
    assert ExPrepend([], [], ExRun(energies, diisEps, maxiter, vshift0)) == ExRun(energies, diisEps, maxiter, vshift0);
    while iter <= maxiter
      invariant 1 <= iter <= maxiter + 1 && |mixes| == iter - 1
      invariant ExRun(energies, diisEps, maxiter, vshift0) ==
        ExPrepend(mixes, shifts, ExRunFrom(energies, diisEps, maxiter, iter, mode, eold, vshift))
      invariant FocksFollow(focks, mixes, builds, extraps, n, gamma)
      invariant iter > 1 ==> fa == focks[iter - 2]
    {
      ExScfStep(energies, diisEps, maxiter, vshift0, iter, mode, eold, vshift, mixes, shifts);
      if iter > 1 {
        faOld := fa;
      }
      var mix := MixFor(iter, mode);
      fa := MixStep(mixes, mix, focks, faOld, builds, extraps, n, gamma);
      var e := energies[iter - 1];
      mixes, shifts, focks := mixes + [mix], shifts + [vshift], focks + [fa];
      if Abs(e - eold) < EConv {
        if vshift != 0.0 {
          vshift := 0.0;
        } else {
          return ExTrace(mixes, shifts, Converged(iter, e)), focks;
        }
      }
      if iter == maxiter {
        return ExTrace(mixes, shifts, MaxIterExceeded), focks;
      }
      mode, eold := NextMode(e, eold, diisEps), e;
      iter := iter + 1;
    }
    t := ExTrace(mixes, shifts, NoIterations);
  }

  /** The shift in force during 0-based iteration `j`: the configured
      `vshift0` until an iteration has a residual below `E_conv`, 0 after it. */
  function ShiftBefore(energies: seq<real>, vshift0: real, j: nat): (shift: real)
    requires j <= |energies|
    ensures shift == 0.0 || shift == vshift0
  {
    if j == 0 then vshift0
    else if Delta(energies, j - 1) < EConv then 0.0
    else ShiftBefore(energies, vshift0, j - 1)
  }

  /** The shift is off exactly when it was configured off or some earlier
      iteration had a residual below `E_conv`. */
  lemma {:induction false} ShiftBeforeMeans(energies: seq<real>, vshift0: real, j: nat)
    requires j <= |energies|
    ensures ShiftBefore(energies, vshift0, j) ==
      if exists i :: 0 <= i < j && Delta(energies, i) < EConv then 0.0 else vshift0
  {
    if j > 0 {
      ShiftBeforeMeans(energies, vshift0, j - 1);
      if Delta(energies, j - 1) < EConv {
        assert 0 <= j - 1 < j;
      } else {
        assert (exists i :: 0 <= i < j && Delta(energies, i) < EConv) <==>
               (exists i :: 0 <= i < j - 1 && Delta(energies, i) < EConv);
      }
    }
  }

  /** 0-based iteration `j` ends the run: its residual is below `E_conv`
      while no shift is in force. */
  predicate Stops(energies: seq<real>, vshift0: real, j: nat)
    requires j < |energies|
  {
    Delta(energies, j) < EConv && ShiftBefore(energies, vshift0, j) == 0.0
  }

  /** Every iteration from 0-based `j0` on runs with the shift in force at
      that point (`shifts[p]` belongs to iteration `j0 + p`). */
  ghost predicate ShiftsFollow(shifts: seq<real>, energies: seq<real>, vshift0: real, j0: nat)
    requires j0 + |shifts| <= |energies|
  {
    forall p :: 0 <= p < |shifts| ==> shifts[p] == ShiftBefore(energies, vshift0, j0 + p)
  }

  /** An iteration that runs with the shift in force, followed by iterations
      that do. */
  lemma ShiftsCons(shift: real, rest: seq<real>, energies: seq<real>, vshift0: real, j0: nat)
    requires j0 + 1 + |rest| <= |energies|
    requires shift == ShiftBefore(energies, vshift0, j0)
    requires ShiftsFollow(rest, energies, vshift0, j0 + 1)
    ensures ShiftsFollow([shift] + rest, energies, vshift0, j0)
  {
    var all := [shift] + rest;
    forall p | 1 <= p < |all|
      ensures all[p] == ShiftBefore(energies, vshift0, j0 + p)
    {
      assert all[p] == rest[p - 1];
    }
  }

  /** From `iter` on, in the state the loop reaches it in, each iteration
      runs with the shift in force at that point. */
  lemma {:induction false} ExRunFromShifts(energies: seq<real>, diisEps: real, maxiter: nat,
                                           iter: nat, mode: Mode, eold: real, vshift: real, vshift0: real)
    requires 1 <= iter <= maxiter + 1 && |energies| >= maxiter
    requires eold == EoldBefore(energies, iter - 1) && vshift == ShiftBefore(energies, vshift0, iter - 1)
    ensures ShiftsFollow(ExRunFrom(energies, diisEps, maxiter, iter, mode, eold, vshift).shifts, energies, vshift0, iter - 1)
    decreases maxiter + 1 - iter
  {
    if iter <= maxiter {
      var e := energies[iter - 1];
      var small := Abs(e - eold) < EConv;
      if !(small && vshift == 0.0) && iter < maxiter {
        var next := if small then 0.0 else vshift;
        assert Delta(energies, iter - 1) == Abs(e - eold);
        ExRunFromShifts(energies, diisEps, maxiter, iter + 1, NextMode(e, eold, diisEps), e, next, vshift0);
        ExRunFromGoesOn(energies, diisEps, maxiter, iter, mode, eold, vshift, next);
        var rest := ExRunFrom(energies, diisEps, maxiter, iter + 1, NextMode(e, eold, diisEps), e, next);
        ShiftsCons(vshift, rest.shifts, energies, vshift0, iter - 1);
      }
    }
  }

  /** A converged outcome `o` stops at an iteration that `Stops`, with that
      iteration's energy, and no iteration from 0-based `j0` on stopped
      before it. */
  ghost predicate FirstStop(o: Outcome, energies: seq<real>, vshift0: real, j0: nat)
  {
    o.Converged? ==>
      && 1 <= o.iterations <= |energies|
      && Stops(energies, vshift0, o.iterations - 1)
      && o.energy == energies[o.iterations - 1]
      && forall j :: j0 <= j < o.iterations - 1 ==> !Stops(energies, vshift0, j)
  }

  /** An iteration that does not stop the run can be put in front of the
      iterations searched for the first stop. */
  lemma FirstStopCons(o: Outcome, energies: seq<real>, vshift0: real, j0: nat)
    requires j0 < |energies| && !Stops(energies, vshift0, j0)
    requires FirstStop(o, energies, vshift0, j0 + 1)
    ensures FirstStop(o, energies, vshift0, j0)
  {
  }

  /** From `iter` on, in the state the loop reaches it in, a run that
      converges does so at the first iteration that `Stops`, with that
      iteration's energy. */
  lemma {:induction false} ExRunFromConverges(energies: seq<real>, diisEps: real, maxiter: nat,
                                              iter: nat, mode: Mode, eold: real, vshift: real, vshift0: real)
    requires 1 <= iter <= maxiter + 1 && |energies| >= maxiter
    requires eold == EoldBefore(energies, iter - 1) && vshift == ShiftBefore(energies, vshift0, iter - 1)
    ensures FirstStop(ExRunFrom(energies, diisEps, maxiter, iter, mode, eold, vshift).outcome, energies, vshift0, iter - 1)
    decreases maxiter + 1 - iter
  {
    if iter <= maxiter {
      var e := energies[iter - 1];
      var small := Abs(e - eold) < EConv;
      assert Delta(energies, iter - 1) == Abs(e - eold);
      if !(small && vshift == 0.0) && iter < maxiter {
        var next := if small then 0.0 else vshift;
        var rest := ExRunFrom(energies, diisEps, maxiter, iter + 1, NextMode(e, eold, diisEps), e, next);
        ExRunFromConverges(energies, diisEps, maxiter, iter + 1, NextMode(e, eold, diisEps), e, next, vshift0);
        ExRunFromGoesOn(energies, diisEps, maxiter, iter, mode, eold, vshift, next);
        FirstStopCons(rest.outcome, energies, vshift0, iter - 1);
      }
    }
  }

  /** From `iter` on, in the state the loop reaches it in, a run that fails
      at `maxiter` had no iteration that `Stops`. */
  lemma {:induction false} ExRunFromExhausts(energies: seq<real>, diisEps: real, maxiter: nat,
                                             iter: nat, mode: Mode, eold: real, vshift: real, vshift0: real)
    requires 1 <= iter <= maxiter + 1 && |energies| >= maxiter
    requires eold == EoldBefore(energies, iter - 1) && vshift == ShiftBefore(energies, vshift0, iter - 1)
    ensures ExRunFrom(energies, diisEps, maxiter, iter, mode, eold, vshift).outcome.MaxIterExceeded? ==>
      forall j :: iter - 1 <= j < maxiter ==> !Stops(energies, vshift0, j)
    decreases maxiter + 1 - iter
  {
    if iter <= maxiter {
      var e := energies[iter - 1];
      var small := Abs(e - eold) < EConv;
      assert Delta(energies, iter - 1) == Abs(e - eold);
      if !(small && vshift == 0.0) && iter < maxiter {
        var next := if small then 0.0 else vshift;
        ExRunFromExhausts(energies, diisEps, maxiter, iter + 1, NextMode(e, eold, diisEps), e, next, vshift0);
        ExRunFromGoesOn(energies, diisEps, maxiter, iter, mode, eold, vshift, next);
      }
    }
  }

  /** From `iter` on, every iteration mixes according to the previous
      residual, whatever the shift. */
  lemma {:induction false} ExRunFromMixes(energies: seq<real>, diisEps: real, maxiter: nat,
                                          iter: nat, mode: Mode, eold: real, vshift: real)
    requires 1 <= iter <= maxiter + 1 && |energies| >= maxiter
    requires eold == EoldBefore(energies, iter - 1)
    requires iter > 1 ==> mode == ModeBefore(energies, diisEps, iter - 1)
    ensures MixesFollowModes(ExRunFrom(energies, diisEps, maxiter, iter, mode, eold, vshift).mixes, energies, diisEps, iter)
    decreases maxiter + 1 - iter
  {
    if iter <= maxiter {
      var mix := MixFor(iter, mode);
      var e := energies[iter - 1];
      var small := Abs(e - eold) < EConv;
      assert mix == MixFor(iter, ModeBefore(energies, diisEps, iter - 1));
      if !(small && vshift == 0.0) && iter < maxiter {
        var next := NextMode(e, eold, diisEps);
        var shift := if small then 0.0 else vshift;
        assert next == ModeBefore(energies, diisEps, iter);
        ExRunFromMixes(energies, diisEps, maxiter, iter + 1, next, e, shift);
        ExRunFromGoesOn(energies, diisEps, maxiter, iter, mode, eold, vshift, shift);
        MixesCons(mix, ExRunFrom(energies, diisEps, maxiter, iter + 1, next, e, shift).mixes, energies, diisEps, iter);
      }
    }
  }

  /** What the excited-state loop promises: the mixing is that of the ground
      state; iteration `j` runs with the configured shift until some earlier
      iteration had a residual below `E_conv` and with no shift from then on;
      the run converges exactly when some iteration up to `maxiter` has a
      residual below `E_conv` while the shift is off, at the first such
      iteration and with its energy; otherwise it fails. */
  lemma ExRunSpec(energies: seq<real>, diisEps: real, maxiter: nat, vshift0: real)
    requires |energies| >= maxiter
    ensures var t := ExRun(energies, diisEps, maxiter, vshift0);
      && (maxiter >= 1 ==> t.mixes[0] == Unmixed && t.shifts[0] == vshift0)
      && (forall j :: 1 <= j < |t.mixes| ==>
            t.mixes[j] == (if Delta(energies, j - 1) < diisEps then Extrapolated else Damped))
      && (forall j :: 0 <= j < |t.shifts| ==>
            t.shifts[j] == (if exists i :: 0 <= i < j && Delta(energies, i) < EConv then 0.0 else vshift0))
      && (t.outcome.Converged? <==> exists j :: 0 <= j < maxiter && Stops(energies, vshift0, j))
      && (t.outcome.Converged? ==>
            && Stops(energies, vshift0, t.outcome.iterations - 1)
            && t.outcome.energy == energies[t.outcome.iterations - 1]
            && forall j :: 0 <= j < t.outcome.iterations - 1 ==> !Stops(energies, vshift0, j))
      && (t.outcome.NoIterations? <==> maxiter == 0)
  {
    var t := ExRun(energies, diisEps, maxiter, vshift0);
    assert ShiftBefore(energies, vshift0, 0) == vshift0;
    ExRunFromShifts(energies, diisEps, maxiter, 1, Damp, 0.0, vshift0, vshift0);
    ExRunFromConverges(energies, diisEps, maxiter, 1, Damp, 0.0, vshift0, vshift0);
    ExRunFromExhausts(energies, diisEps, maxiter, 1, Damp, 0.0, vshift0, vshift0);
    ExRunFromMixes(energies, diisEps, maxiter, 1, Damp, 0.0, vshift0);
    forall j | 1 <= j < |t.mixes|
      ensures t.mixes[j] == (if Delta(energies, j - 1) < diisEps then Extrapolated else Damped)
    {
      assert t.mixes[j] == MixFor(1 + j, ModeBefore(energies, diisEps, j));
    }
    forall j | 0 <= j < |t.shifts|
      ensures t.shifts[j] == (if exists i :: 0 <= i < j && Delta(energies, i) < EConv then 0.0 else vshift0)
    {
      ShiftBeforeMeans(energies, vshift0, j);
    }
    if t.outcome.Converged? {
      var k := t.outcome.iterations;
      assert 0 <= k - 1 < maxiter && Stops(energies, vshift0, k - 1);
    }
  }

  /** A shift once switched off stays off: the shifts of a run are the
      configured value for a prefix of iterations and 0 afterwards. */
  lemma ShiftsSwitchOffOnce(energies: seq<real>, diisEps: real, maxiter: nat, vshift0: real)
    requires |energies| >= maxiter
    ensures var t := ExRun(energies, diisEps, maxiter, vshift0);
      forall i, j :: 0 <= i <= j < |t.shifts| ==>
        (t.shifts[j] == vshift0 || t.shifts[j] == 0.0) && (t.shifts[i] == 0.0 ==> t.shifts[j] == 0.0)
  {
    var t := ExRun(energies, diisEps, maxiter, vshift0);
    ExRunSpec(energies, diisEps, maxiter, vshift0);
    forall i, j | 0 <= i <= j < |t.shifts| && t.shifts[i] == 0.0 && vshift0 != 0.0
      ensures t.shifts[j] == 0.0
    {
      var w :| 0 <= w < i && Delta(energies, w) < EConv;
      assert 0 <= w < j;
    }
  }

  /** With no shift configured the excited-state loop is the ground-state loop. */
  lemma {:induction false} NoShiftIsGroundState(energies: seq<real>, diisEps: real, maxiter: nat,
                                                iter: nat, mode: Mode, eold: real)
    requires 1 <= iter && |energies| >= maxiter
    ensures var ex := ExRunFrom(energies, diisEps, maxiter, iter, mode, eold, 0.0);
      var gs := GroundState.RunFrom(energies, diisEps, maxiter, iter, mode, eold);
      ex.mixes == gs.mixes && ex.outcome == gs.outcome &&
      forall p :: 0 <= p < |ex.shifts| ==> ex.shifts[p] == 0.0
    decreases maxiter + 1 - iter
  {
    if iter <= maxiter {
      var e := energies[iter - 1];
      if Abs(e - eold) >= EConv && iter < maxiter {
        NoShiftIsGroundState(energies, diisEps, maxiter, iter + 1, NextMode(e, eold, diisEps), e);
        ExRunFromGoesOn(energies, diisEps, maxiter, iter, mode, eold, 0.0, 0.0);
        var ex := ExRunFrom(energies, diisEps, maxiter, iter, mode, eold, 0.0);
        var rest := ExRunFrom(energies, diisEps, maxiter, iter + 1, NextMode(e, eold, diisEps), e, 0.0);
        forall p | 1 <= p < |ex.shifts|
          ensures ex.shifts[p] == 0.0
        {
          assert ex.shifts[p] == rest.shifts[p - 1];
        }
      }
    }
  }
}
