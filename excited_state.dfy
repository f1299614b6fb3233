/** The per-iteration bookkeeping of the excited-state solver
    (`DFTExcitedState`): the constraint records and the two occupation vectors
    it updates in place, and the edits it makes to the molecular-orbital Fock
    matrices of both spins. */
module ExcitedState {
  import opened Common
  import opened Constraints
  import opened FockEdits

  /** Both spins' Fock matrices after the freeze loop, and the value that
      loop left in its orbital-index variable. */
  datatype FreezeState = FreezeState(fa: Matrix, fb: Matrix, idx: Option<nat>)

  /** The freeze loop as written, from constraint `k` on. A frozen beta
      constraint sets the index variable to its orbital and freezes that
      orbital of the beta matrix. A frozen alpha constraint never sets it:
      it freezes, in the alpha matrix, whatever orbital the variable last
      held (possibly from an earlier iteration), and the run fails (`None`)
      if the variable was never set. */
  function FreezeFrom(cs: seq<Constraint>, k: nat, fa: Matrix, fb: Matrix, idx: Option<nat>, n: nat): (r: Option<FreezeState>)
    requires k <= |cs| && IsShape(fa, n, n) && IsShape(fb, n, n) && InRange(cs, n)
    requires idx.Some? ==> idx.value < n
    ensures r.Some? ==> IsShape(r.value.fa, n, n) && IsShape(r.value.fb, n, n)
    ensures r.Some? && r.value.idx.Some? ==> r.value.idx.value < n
    decreases |cs| - k
  {
    if k == |cs| then Some(FreezeState(fa, fb, idx))
    else
      var c := cs[k];
      if !c.frz then FreezeFrom(cs, k + 1, fa, fb, idx, n)
      else if c.spin == Beta then FreezeFrom(cs, k + 1, fa, Frozen(fb, c.orb), Some(c.orb), n)
      else if idx.None? then None
      else FreezeFrom(cs, k + 1, Frozen(fa, idx.value), fb, idx, n)
  }

  /** Each frozen constraint of spin `s` from position `k` on freezes its own
      orbital of `m`: the behaviour the freeze loop evidently intends. */
  function FrozenFrom(cs: seq<Constraint>, k: nat, s: Spin, m: Matrix, n: nat): (r: Matrix)
    requires k <= |cs| && IsShape(m, n, n) && InRange(cs, n)
    ensures IsShape(r, n, n)
    decreases |cs| - k
  {
    if k == |cs| then m
    else
      var c := cs[k];
      FrozenFrom(cs, k + 1, s, if c.frz && c.spin == s then Frozen(m, c.orb) else m, n)
  }

  /** Orbital `o` is frozen in spin `s` by some constraint from position `k` on. */
  ghost predicate FrozenOrbital(cs: seq<Constraint>, k: nat, s: Spin, o: nat)
  {
    exists q :: k <= q < |cs| && cs[q].frz && cs[q].spin == s && cs[q].orb == o
  }

  /** The intended freeze decouples exactly the frozen orbitals: an entry off
      the diagonal becomes 0 when its row or its column is a frozen orbital of
      that spin, and every other entry keeps its value. */
  lemma {:induction false} FrozenFromEntries(cs: seq<Constraint>, k: nat, s: Spin, m: Matrix, n: nat)
    requires k <= |cs| && IsShape(m, n, n) && InRange(cs, n)
    ensures forall i, j {:trigger FrozenFrom(cs, k, s, m, n)[i][j]} :: 0 <= i < n && 0 <= j < n ==>
      FrozenFrom(cs, k, s, m, n)[i][j] ==
        (if i != j && (FrozenOrbital(cs, k, s, i) || FrozenOrbital(cs, k, s, j)) then 0.0 else m[i][j])
    decreases |cs| - k
  {
    if k < |cs| {
      var c := cs[k];
      var m' := if c.frz && c.spin == s then Frozen(m, c.orb) else m;
      FrozenFromEntries(cs, k + 1, s, m', n);
      assert FrozenFrom(cs, k, s, m, n) == FrozenFrom(cs, k + 1, s, m', n);
      forall i, j | 0 <= i < n && 0 <= j < n
        ensures FrozenFrom(cs, k, s, m, n)[i][j] ==
          (if i != j && (FrozenOrbital(cs, k, s, i) || FrozenOrbital(cs, k, s, j)) then 0.0 else m[i][j])
      {
        FrozenOrbitalStep(cs, k, s, i);
        FrozenOrbitalStep(cs, k, s, j);
        assert m'[i][j] == (if c.frz && c.spin == s && i != j && (i == c.orb || j == c.orb) then 0.0 else m[i][j]);
      }
    } else {
      forall o ensures !FrozenOrbital(cs, k, s, o) {
      }
    }
  }

  /** Orbital `o` is frozen from position `k` on exactly when constraint `k`
      freezes it or a later one does. */
  lemma FrozenOrbitalStep(cs: seq<Constraint>, k: nat, s: Spin, o: nat)
    requires k < |cs|
    ensures FrozenOrbital(cs, k, s, o) <==>
      (cs[k].frz && cs[k].spin == s && cs[k].orb == o) || FrozenOrbital(cs, k + 1, s, o)
  {
    if FrozenOrbital(cs, k, s, o) && !(cs[k].frz && cs[k].spin == s && cs[k].orb == o) {
      var q :| k <= q < |cs| && cs[q].frz && cs[q].spin == s && cs[q].orb == o;
      assert k + 1 <= q;
    }
    if cs[k].frz && cs[k].spin == s && cs[k].orb == o {
      assert k <= k < |cs|;
    }
  }

  /** The beta half of the loop as written is the intended one: when the loop
      completes, the beta matrix is frozen exactly at the frozen beta orbitals. */
  lemma {:induction false} FreezeFromBeta(cs: seq<Constraint>, k: nat, fa: Matrix, fb: Matrix, idx: Option<nat>, n: nat)
    requires k <= |cs| && IsShape(fa, n, n) && IsShape(fb, n, n) && InRange(cs, n)
    requires idx.Some? ==> idx.value < n
    ensures var r := FreezeFrom(cs, k, fa, fb, idx, n);
      r.Some? ==> r.value.fb == FrozenFrom(cs, k, Beta, fb, n)
    decreases |cs| - k
  {
    if k < |cs| {
      var c := cs[k];
      if !c.frz {
        FreezeFromBeta(cs, k + 1, fa, fb, idx, n);
      } else if c.spin == Beta {
        FreezeFromBeta(cs, k + 1, fa, Frozen(fb, c.orb), Some(c.orb), n);
      } else if idx.Some? {
        FreezeFromBeta(cs, k + 1, Frozen(fa, idx.value), fb, idx, n);
      }
    }
  }

  /** The index variable once the loop has passed record `c`: a frozen beta
      record sets it to its orbital, any other record leaves it as it was. */
  function IndexAfter(c: Constraint, idx: Option<nat>): Option<nat>
  {
    if c.frz && c.spin == Beta then Some(c.orb) else idx
  }

  /** The index variable when the loop reaches record `q`, having entered
      record `k` holding `idx`. */
  function IndexAt(cs: seq<Constraint>, k: nat, q: nat, idx: Option<nat>): Option<nat>
    requires k <= q <= |cs|
    decreases q - k
  {
    if k == q then idx else IndexAt(cs, k + 1, q, IndexAfter(cs[k], idx))
  }

  /** No record in positions `k .. q - 1` is a frozen beta record. */
  ghost predicate NoBetaFreeze(cs: seq<Constraint>, k: nat, q: nat)
    requires k <= q <= |cs|
  {
    forall p :: k <= p < q ==> !(cs[p].frz && cs[p].spin == Beta)
  }

  /** Record `p` is the last frozen beta record in positions `k .. q - 1`. */
  ghost predicate LastBetaFreeze(cs: seq<Constraint>, k: nat, q: nat, p: nat)
    requires q <= |cs|
  {
    k <= p < q && cs[p].frz && cs[p].spin == Beta && NoBetaFreeze(cs, p + 1, q)
  }

  /** Some frozen alpha record from position `k` on comes before every frozen
      beta record from `k` on. */
  ghost predicate AlphaBeforeBeta(cs: seq<Constraint>, k: nat)
    requires k <= |cs|
  {
    exists q :: k <= q < |cs| && cs[q].frz && cs[q].spin == Alpha && NoBetaFreeze(cs, k, q)
  }

  /** The index in force at record `q` is the orbital of the last frozen beta
      record between `k` and `q`, or the entry value when there is none. */
  lemma {:induction false} IndexAtMeans(cs: seq<Constraint>, k: nat, q: nat, idx: Option<nat>)
    requires k <= q <= |cs|
    ensures NoBetaFreeze(cs, k, q) ==> IndexAt(cs, k, q, idx) == idx
    ensures forall p: nat :: LastBetaFreeze(cs, k, q, p) ==> IndexAt(cs, k, q, idx) == Some(cs[p].orb)
    decreases q - k
  {
    if k < q {
      var idx' := IndexAfter(cs[k], idx);
      IndexAtMeans(cs, k + 1, q, idx');
      forall p: nat | LastBetaFreeze(cs, k, q, p)
        ensures IndexAt(cs, k, q, idx) == Some(cs[p].orb)
      {
        if p != k {
          assert LastBetaFreeze(cs, k + 1, q, p);
        }
      }
    }
  }

  /** A frozen alpha record is met before any frozen beta record exactly when
      record `k` is one, or record `k` is not a frozen beta record and a later
      frozen alpha record is met first. */
  lemma AlphaBeforeBetaStep(cs: seq<Constraint>, k: nat)
    requires k < |cs|
    ensures AlphaBeforeBeta(cs, k) <==>
      (cs[k].frz && cs[k].spin == Alpha) ||
      (!(cs[k].frz && cs[k].spin == Beta) && AlphaBeforeBeta(cs, k + 1))
  {
    if AlphaBeforeBeta(cs, k) && !(cs[k].frz && cs[k].spin == Alpha) {
      var q :| k <= q < |cs| && cs[q].frz && cs[q].spin == Alpha && NoBetaFreeze(cs, k, q);
      assert k + 1 <= q && NoBetaFreeze(cs, k + 1, q);
    }
    if cs[k].frz && cs[k].spin == Alpha {
      assert NoBetaFreeze(cs, k, k);
    } else if !(cs[k].frz && cs[k].spin == Beta) && AlphaBeforeBeta(cs, k + 1) {
      var q :| k + 1 <= q < |cs| && cs[q].frz && cs[q].spin == Alpha && NoBetaFreeze(cs, k + 1, q);
      assert NoBetaFreeze(cs, k, q);
    }
  }

  /** The loop as written fails exactly when it enters with no index and
      meets a frozen alpha record before any frozen beta record. */
  lemma {:induction false} FreezeFromFails(cs: seq<Constraint>, k: nat, fa: Matrix, fb: Matrix, idx: Option<nat>, n: nat)
    requires k <= |cs| && IsShape(fa, n, n) && IsShape(fb, n, n) && InRange(cs, n)
    requires idx.Some? ==> idx.value < n
    ensures FreezeFrom(cs, k, fa, fb, idx, n).None? <==> idx.None? && AlphaBeforeBeta(cs, k)
    decreases |cs| - k
  {
    if k < |cs| {
      var c := cs[k];
      AlphaBeforeBetaStep(cs, k);
      if !c.frz {
        FreezeFromFails(cs, k + 1, fa, fb, idx, n);
      } else if c.spin == Beta {
        FreezeFromFails(cs, k + 1, fa, Frozen(fb, c.orb), Some(c.orb), n);
      } else if idx.Some? {
        FreezeFromFails(cs, k + 1, Frozen(fa, idx.value), fb, idx, n);
      }
    }
  }

  /** The index the loop as written leaves behind is the one in force after
      its last record. */
  lemma {:induction false} FreezeFromIndexAt(cs: seq<Constraint>, k: nat, fa: Matrix, fb: Matrix, idx: Option<nat>, n: nat)
    requires k <= |cs| && IsShape(fa, n, n) && IsShape(fb, n, n) && InRange(cs, n)
    requires idx.Some? ==> idx.value < n
    ensures var r := FreezeFrom(cs, k, fa, fb, idx, n);
      r.Some? ==> r.value.idx == IndexAt(cs, k, |cs|, idx)
    decreases |cs| - k
  {
    if k < |cs| {
      var c := cs[k];
      if !c.frz {
        FreezeFromIndexAt(cs, k + 1, fa, fb, idx, n);
      } else if c.spin == Beta {
        FreezeFromIndexAt(cs, k + 1, fa, Frozen(fb, c.orb), Some(c.orb), n);
      } else if idx.Some? {
        FreezeFromIndexAt(cs, k + 1, Frozen(fa, idx.value), fb, idx, n);
      }
    }
  }

  /** When the loop as written completes, its index variable holds the
      orbital of the last frozen beta record from `k` on, or the value it
      entered with when there is none; this is what the next iteration's
      loop starts from. */
  lemma FreezeFromIndex(cs: seq<Constraint>, k: nat, fa: Matrix, fb: Matrix, idx: Option<nat>, n: nat)
    requires k <= |cs| && IsShape(fa, n, n) && IsShape(fb, n, n) && InRange(cs, n)
    requires idx.Some? ==> idx.value < n
    ensures var r := FreezeFrom(cs, k, fa, fb, idx, n);
      r.Some? && NoBetaFreeze(cs, k, |cs|) ==> r.value.idx == idx
    ensures var r := FreezeFrom(cs, k, fa, fb, idx, n);
      forall p: nat :: r.Some? && LastBetaFreeze(cs, k, |cs|, p) ==> r.value.idx == Some(cs[p].orb)
  {
    FreezeFromIndexAt(cs, k, fa, fb, idx, n);
    IndexAtMeans(cs, k, |cs|, idx);
  }

  /** Orbital `o` is what the loop as written freezes in the alpha matrix for
      some frozen alpha record from `k` on: the index in force when that
      record is reached. */
  ghost predicate StaleOrbital(cs: seq<Constraint>, k: nat, idx: Option<nat>, o: nat)
    requires k <= |cs|
  {
    exists q :: k <= q < |cs| && cs[q].frz && cs[q].spin == Alpha && IndexAt(cs, k, q, idx) == Some(o)
  }

  /** Orbital `o` is frozen in alpha from record `k` on exactly when record
      `k` is a frozen alpha record entered with index `o`, or a later record
      freezes it. */
  lemma StaleOrbitalStep(cs: seq<Constraint>, k: nat, idx: Option<nat>, o: nat)
    requires k < |cs|
    ensures StaleOrbital(cs, k, idx, o) <==>
      (cs[k].frz && cs[k].spin == Alpha && idx == Some(o)) ||
      StaleOrbital(cs, k + 1, IndexAfter(cs[k], idx), o)
  {
    var idx' := IndexAfter(cs[k], idx);
    if StaleOrbital(cs, k, idx, o) && !(cs[k].frz && cs[k].spin == Alpha && idx == Some(o)) {
      var q :| k <= q < |cs| && cs[q].frz && cs[q].spin == Alpha && IndexAt(cs, k, q, idx) == Some(o);
      assert k + 1 <= q;
      assert IndexAt(cs, k, q, idx) == IndexAt(cs, k + 1, q, idx');
    }
    if cs[k].frz && cs[k].spin == Alpha && idx == Some(o) {
      assert IndexAt(cs, k, k, idx) == idx;
    } else if StaleOrbital(cs, k + 1, idx', o) {
      var q :| k + 1 <= q < |cs| && cs[q].frz && cs[q].spin == Alpha && IndexAt(cs, k + 1, q, idx') == Some(o);
      assert IndexAt(cs, k, q, idx) == IndexAt(cs, k + 1, q, idx');
    }
  }

  /** The alpha half of the loop as written: when it completes, an alpha entry
      off the diagonal is 0 when its row or its column is an orbital frozen
      for some frozen alpha record, namely the index in force when that record
      is reached, and every other entry keeps its value. */
  lemma {:induction false} FreezeFromAlphaEntries(cs: seq<Constraint>, k: nat, fa: Matrix, fb: Matrix, idx: Option<nat>, n: nat)
    requires k <= |cs| && IsShape(fa, n, n) && IsShape(fb, n, n) && InRange(cs, n)
    requires idx.Some? ==> idx.value < n
    ensures FreezeFrom(cs, k, fa, fb, idx, n).Some? ==>
      forall i, j {:trigger FreezeFrom(cs, k, fa, fb, idx, n).value.fa[i][j]} :: 0 <= i < n && 0 <= j < n ==>
        FreezeFrom(cs, k, fa, fb, idx, n).value.fa[i][j] ==
          (if i != j && (StaleOrbital(cs, k, idx, i) || StaleOrbital(cs, k, idx, j)) then 0.0 else fa[i][j])
    decreases |cs| - k
  {
    var r := FreezeFrom(cs, k, fa, fb, idx, n);
    if k == |cs| {
      forall o ensures !StaleOrbital(cs, k, idx, o) {
      }
    } else if r.Some? {
      var c := cs[k];
      assert !(c.frz && c.spin == Alpha && idx.None?);
      var fa' := if c.frz && c.spin == Alpha then Frozen(fa, idx.value) else fa;
      var fb' := if c.frz && c.spin == Beta then Frozen(fb, c.orb) else fb;
      var idx' := IndexAfter(c, idx);
      FreezeFromAlphaEntries(cs, k + 1, fa', fb', idx', n);
      assert r == FreezeFrom(cs, k + 1, fa', fb', idx', n);
      forall i, j | 0 <= i < n && 0 <= j < n
        ensures r.value.fa[i][j] ==
          (if i != j && (StaleOrbital(cs, k, idx, i) || StaleOrbital(cs, k, idx, j)) then 0.0 else fa[i][j])
      {
        StaleOrbitalStep(cs, k, idx, i);
        StaleOrbitalStep(cs, k, idx, j);
        assert fa'[i][j] ==
          (if c.frz && c.spin == Alpha && i != j && (idx == Some(i) || idx == Some(j)) then 0.0 else fa[i][j]);
      }
    }
  }

  /** A frozen alpha constraint met before any frozen beta one makes the loop
      as written fail, although the intended freeze is well defined. */
  lemma AlphaFreezeWithoutIndexFails()
    ensures var cs := [Constraint(Alpha, 0, 0.0, true, false, [1.0], 0.0)];
      FreezeFrom(cs, 0, [[1.0]], [[1.0]], None, 1).None? &&
      FrozenFrom(cs, 0, Alpha, [[1.0]], 1) == [[1.0]]
  {
    var cs := [Constraint(Alpha, 0, 0.0, true, false, [1.0], 0.0)];
    var once := Frozen([[1.0]], 0);
    assert once[0] == [1.0];
    assert FrozenFrom(cs, 1, Alpha, once, 1) == once;
  }

  /** Freezing beta orbital 1 and then alpha orbital 0 of 3-by-3 all-ones
      matrices: the loop as written freezes alpha orbital 1 instead, so the
      alpha entry (0, 2) stays 1 where the intended freeze makes it 0. */
  lemma AlphaFreezeUsesBetaIndex()
    ensures var ones := [[1.0, 1.0, 1.0], [1.0, 1.0, 1.0], [1.0, 1.0, 1.0]];
      var cs := [Constraint(Beta, 1, 0.0, true, false, [], 0.0), Constraint(Alpha, 0, 0.0, true, false, [], 0.0)];
      var r := FreezeFrom(cs, 0, ones, ones, None, 3);
      r.Some? && r.value.fa[0][2] == 1.0 && FrozenFrom(cs, 0, Alpha, ones, 3)[0][2] == 0.0
  {
    var ones := [[1.0, 1.0, 1.0], [1.0, 1.0, 1.0], [1.0, 1.0, 1.0]];
    var cs := [Constraint(Beta, 1, 0.0, true, false, [], 0.0), Constraint(Alpha, 0, 0.0, true, false, [], 0.0)];
    var fb1 := Frozen(ones, 1);
    var fa1 := Frozen(ones, 1);
    assert FreezeFrom(cs, 0, ones, ones, None, 3) == FreezeFrom(cs, 1, ones, fb1, Some(1), 3);
    assert FreezeFrom(cs, 1, ones, fb1, Some(1), 3) == FreezeFrom(cs, 2, fa1, fb1, Some(1), 3);
    assert fa1[0][2] == 1.0;
    FrozenFromEntries(cs, 0, Alpha, ones, 3);
    assert cs[1].frz && cs[1].spin == Alpha && cs[1].orb == 0;
    assert FrozenOrbital(cs, 0, Alpha, 0);
  }

  /** `cs` is `cs0` with its first `k` records tracked against their
      overlaps and the rest untouched. */
  ghost predicate TrackedUpTo(cs: seq<Constraint>, cs0: seq<Constraint>, overlaps: seq<seq<real>>, force: bool, k: nat)
  {
    && |cs| == |cs0| == |overlaps| && k <= |cs|
    && (forall j :: 0 <= j < k ==> cs0[j].orb < |overlaps[j]| && cs[j] == TrackOne(cs0[j], AbsAll(overlaps[j]), force))
    && (forall j :: k <= j < |cs| ==> cs[j] == cs0[j])
  }

  /** Tracking record `k` extends the tracked prefix by one and keeps every
      orbital in range. */
  lemma TrackStep(cs: seq<Constraint>, cs0: seq<Constraint>, overlaps: seq<seq<real>>, force: bool, k: nat, n: nat)
    requires TrackedUpTo(cs, cs0, overlaps, force, k) && k < |cs| && InRange(cs, n)
    requires forall j :: 0 <= j < |overlaps| ==> |overlaps[j]| == n
    ensures var next := cs[k := TrackOne(cs[k], AbsAll(overlaps[k]), force)];
      && TrackedUpTo(next, cs0, overlaps, force, k + 1) && InRange(next, n)
      && next[..k] == cs[..k]
  {
    var next := cs[k := TrackOne(cs[k], AbsAll(overlaps[k]), force)];
    assert next[..k] == cs[..k];
  }

  /** The constraint records and occupation vectors of one excited-state run. */
  class ExcitedOrbitals {
    const nbf: nat
    const nalpha: nat
    const nbeta: nat
    /** Occupation numbers of the alpha and beta orbitals. */
    const occa: array<real>
    const occb: array<real>
    /** The constraint records, in declaration order. */
    var orbitals: seq<Constraint>
    /** The orbital index last set by the freeze loop (unset at first). */
    var idx: Option<nat>

    ghost predicate Valid()
      reads this
    {
      && occa.Length == nbf && occb.Length == nbf && occa != occb
      && InRange(orbitals, nbf)
      && (idx.Some? ==> idx.value < nbf)
    }

    /** The records set up from the declarations and aufbau occupations for
        `nalpha` and `nbeta` electrons. */
    constructor(nbf: nat, nalpha: nat, nbeta: nat, records: seq<Constraint>)
      requires InRange(records, nbf)
      ensures Valid()
      ensures this.nbf == nbf && this.nalpha == nalpha && this.nbeta == nbeta
      ensures orbitals == records && idx.None?
      ensures occa[..] == Aufbau(nbf, nalpha) && occb[..] == Aufbau(nbf, nbeta)
      ensures fresh(occa) && fresh(occb)
    {
      this.nbf, this.nalpha, this.nbeta := nbf, nalpha, nbeta;
      orbitals, idx := records, None;
      occa := new real[nbf](_ => 0.0);
      occb := new real[nbf](_ => 0.0);
      new;
      forall c | 0 <= c < nbf && c < nalpha {
        occa[c] := 1.0;
      }
      forall c | 0 <= c < nbf && c < nbeta {
        occb[c] := 1.0;
      }
      assert occa[..] == Aufbau(nbf, nalpha);
    }

    /** Resets both occupation vectors to aufbau filling. */
    method ResetOccupations()
      requires Valid()
      modifies occa, occb
      ensures occa[..] == Aufbau(nbf, nalpha) && occb[..] == Aufbau(nbf, nbeta)
    {
      forall c | 0 <= c < nbf {
        occa[c] := 0.0;
      }
      forall c | 0 <= c < nbf {
        occb[c] := 0.0;
      }
      forall c | 0 <= c < nbf && c < nalpha {
        occa[c] := 1.0;
      }
      forall c | 0 <= c < nbf && c < nbeta {
        occb[c] := 1.0;
      }
      assert occa[..] == Aufbau(nbf, nalpha);
      assert occb[..] == Aufbau(nbf, nbeta);
    }

    /** Sets the occupation of the orbital record `k` of `cs` follows, in
        its own spin's vector, to its target; the other vector is left alone.
        Applied to the records in order from `a0` and `b0`, this builds the
        overridden occupations one record at a time. */
    method Occupy(c: Constraint, ghost cs: seq<Constraint>, ghost k: nat, ghost a0: seq<real>, ghost b0: seq<real>)
      requires Valid() && k < |cs| && cs[k] == c && InRange(cs, nbf) && |a0| == |b0| == nbf
      requires occa[..] == Overridden(a0, cs[..k], Alpha) && occb[..] == Overridden(b0, cs[..k], Beta)
      modifies occa, occb
      ensures occa[..] == Overridden(a0, cs[..k + 1], Alpha) && occb[..] == Overridden(b0, cs[..k + 1], Beta)
      ensures c.spin == Alpha ==> occa[..] == old(occa[..])[c.orb := c.occ] && occb[..] == old(occb[..])
      ensures c.spin == Beta ==> occb[..] == old(occb[..])[c.orb := c.occ] && occa[..] == old(occa[..])
    {
      OverriddenStep(a0, cs, k, Alpha);
      OverriddenStep(b0, cs, k, Beta);
      if c.spin == Beta {
        occb[c.orb] := c.occ;
      } else {
        occa[c.orb] := c.occ;
      }
    }

    /** Tracks every constraint, in order, against `overlaps[k]` (the signed
        overlaps of its reference column with the current orbitals of its
        spin) and sets the occupation of the orbital it then follows to its
        target. With `force` the orbital is always re-chosen by largest
        overlap (the initial pass); otherwise only where the record asks. */
    method Track(overlaps: seq<seq<real>>, force: bool)
      requires Valid()
      requires |overlaps| == |orbitals| && forall k :: 0 <= k < |overlaps| ==> |overlaps[k]| == nbf
      modifies this`orbitals, occa, occb
      ensures Valid()
      ensures |orbitals| == |old(orbitals)|
      ensures forall k :: 0 <= k < |orbitals| ==>
        orbitals[k] == TrackOne(old(orbitals)[k], AbsAll(overlaps[k]), force)
      ensures occa[..] == Overridden(old(occa[..]), orbitals, Alpha)
      ensures occb[..] == Overridden(old(occb[..]), orbitals, Beta)
    {
      ghost var a0, b0 := occa[..], occb[..];
      var cs := orbitals;
      var k := 0;
      while k < |cs|
        modifies occa, occb
        invariant TrackedUpTo(cs, orbitals, overlaps, force, k) && InRange(cs, nbf)
        invariant occa[..] == Overridden(a0, cs[..k], Alpha)
        invariant occb[..] == Overridden(b0, cs[..k], Beta)
      {
        var c := TrackOne(cs[k], AbsAll(overlaps[k]), force);
        TrackStep(cs, orbitals, overlaps, force, k, nbf);
        cs := cs[k := c];
        Occupy(c, cs, k, a0, b0);
        k := k + 1;
      }
      assert cs[..k] == cs;
      orbitals := cs;
    }

    /** The occupation rebuild after each diagonalisation: aufbau filling,
        then the constraints, each following its orbital by overlap only if
        it asks to. An orbital's occupation is the target of the last
        constraint of its spin that now follows it, and aufbau otherwise. */
    method SetOccupations(overlaps: seq<seq<real>>)
      requires Valid()
      requires |overlaps| == |orbitals| && forall k :: 0 <= k < |overlaps| ==> |overlaps[k]| == nbf
      modifies this`orbitals, occa, occb
      ensures Valid()
      ensures |orbitals| == |old(orbitals)|
      ensures forall k :: 0 <= k < |orbitals| ==>
        orbitals[k] == TrackOne(old(orbitals)[k], AbsAll(overlaps[k]), false)
      ensures forall c :: 0 <= c < nbf ==>
        occa[c] == (match LastAt(orbitals, Alpha, c)
                    case Some(k) => orbitals[k].occ
                    case None => if c < nalpha then 1.0 else 0.0)
      ensures forall c :: 0 <= c < nbf ==>
        occb[c] == (match LastAt(orbitals, Beta, c)
                    case Some(k) => orbitals[k].occ
                    case None => if c < nbeta then 1.0 else 0.0)
    {
      ResetOccupations();
      Track(overlaps, false);
      RebuiltOccupations(nbf, nalpha, orbitals, Alpha);
      RebuiltOccupations(nbf, nbeta, orbitals, Beta);
      assert forall c :: 0 <= c < nbf ==> occa[c] == occa[..][c];
      assert forall c :: 0 <= c < nbf ==> occb[c] == occb[..][c];
    }

    /** The freeze loop as written, on the molecular-orbital Fock matrices of
        both spins; `ok` is false where the run fails on the unset index. */
    method FreezeOrbitals(fmoA: array2<real>, fmoB: array2<real>) returns (ok: bool)
      requires Valid()
      requires fmoA.Length0 == nbf && fmoA.Length1 == nbf && fmoB.Length0 == nbf && fmoB.Length1 == nbf
      requires fmoA != fmoB
      modifies this`idx, fmoA, fmoB
      ensures Valid()
      ensures var r := FreezeFrom(orbitals, 0, old(Elements(fmoA)), old(Elements(fmoB)), old(idx), nbf);
        (ok <==> r.Some?) &&
        (ok ==> Elements(fmoA) == r.value.fa && Elements(fmoB) == r.value.fb && idx == r.value.idx)
    {
      ghost var r := FreezeFrom(orbitals, 0, Elements(fmoA), Elements(fmoB), idx, nbf);
      var k := 0;
      while k < |orbitals|
        invariant 0 <= k <= |orbitals|
        invariant Valid()
        invariant r == FreezeFrom(orbitals, k, Elements(fmoA), Elements(fmoB), idx, nbf)
      {
        var c := orbitals[k];
        if c.frz {
          if c.spin == Beta {
            idx := Some(c.orb);
            Freeze(fmoB, c.orb);
          } else {
            if idx.None? {
              return false;
            }
            Freeze(fmoA, idx.value);
          }
        }
        k := k + 1;
      }
      return true;
    }

    /** The freeze loop with the alpha branch freezing its own orbital, as
        evidently intended: each spin's matrix is frozen at exactly the frozen
        orbitals of that spin. */
    method FreezeOrbitalsIntended(fmoA: array2<real>, fmoB: array2<real>)
      requires Valid()
      requires fmoA.Length0 == nbf && fmoA.Length1 == nbf && fmoB.Length0 == nbf && fmoB.Length1 == nbf
      requires fmoA != fmoB
      modifies fmoA, fmoB
      ensures Elements(fmoA) == FrozenFrom(orbitals, 0, Alpha, old(Elements(fmoA)), nbf)
      ensures Elements(fmoB) == FrozenFrom(orbitals, 0, Beta, old(Elements(fmoB)), nbf)
    {
      ghost var ra := FrozenFrom(orbitals, 0, Alpha, Elements(fmoA), nbf);
      ghost var rb := FrozenFrom(orbitals, 0, Beta, Elements(fmoB), nbf);
      var k := 0;
      while k < |orbitals|
        invariant 0 <= k <= |orbitals|
        invariant ra == FrozenFrom(orbitals, k, Alpha, Elements(fmoA), nbf)
        invariant rb == FrozenFrom(orbitals, k, Beta, Elements(fmoB), nbf)
      {
        var c := orbitals[k];
        if c.frz {
          if c.spin == Beta {
            Freeze(fmoB, c.orb);
          } else {
            Freeze(fmoA, c.orb);
          }
        }
        k := k + 1;
      }
    }

    /** The level shift of both spins: `vshift` is added to the diagonal entry
        of every orbital that is empty and lies at or above the aufbau count
        of its spin. */
    method ShiftVirtuals(fmoA: array2<real>, fmoB: array2<real>, vshift: real)
      requires Valid()
      requires fmoA.Length0 == nbf && fmoA.Length1 == nbf && fmoB.Length0 == nbf && fmoB.Length1 == nbf
      requires fmoA != fmoB
      modifies fmoA, fmoB
      ensures Elements(fmoA) == Shifted(old(Elements(fmoA)), occa[..], nalpha, vshift)
      ensures Elements(fmoB) == Shifted(old(Elements(fmoB)), occb[..], nbeta, vshift)
    {
      LevelShift(fmoA, occa[..], nalpha, vshift);
      LevelShift(fmoB, occb[..], nbeta, vshift);
    }
  }
}
