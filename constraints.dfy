/** The orbital constraints of the excited-state solver: their validation
    against the starting coefficients, the overlap-based choice of the orbital
    a constraint follows, and the occupation vector they produce. */
module Constraints {
  import opened Common

  datatype Spin = Alpha | Beta

  /** A constraint as declared: spin label, orbital index, target occupation,
      whether to freeze the orbital and whether to follow it by overlap. */
  datatype Declared = Declared(spin: string, orb: nat, occ: real, frz: bool, doOvl: bool)

  /** A constraint record during the run. `ref` is the reference coefficient
      column taken from the starting orbitals and `ovl` the overlap last
      recorded for it. */
  datatype Constraint = Constraint(spin: Spin, orb: nat, occ: real, frz: bool, doOvl: bool,
                                   ref: seq<real>, ovl: real)

  /** Why setting up the constraints fails: the first offending record (by
      position) has a spin label other than "a" or "b", or an orbital index
      outside the coefficient matrix. */
  datatype SetupError = NonAbSpin(index: nat) | OrbitalOutOfRange(index: nat)

  /** The spin a label names: "b" is beta, "a" is alpha, nothing else is valid. */
  function SpinOf(name: string): (s: Option<Spin>)
    ensures s == Some(Beta) <==> name == "b"
    ensures s == Some(Alpha) <==> name == "a"
  {
    if name == "b" then Some(Beta) else if name == "a" then Some(Alpha) else None
  }

  /** A declared constraint that setup accepts. */
  predicate Acceptable(d: Declared, n: nat)
  {
    SpinOf(d.spin).Some? && d.orb < n
  }

  /** `c` is the record set up for `d`: the declared fields, the reference
      column of its own spin's coefficients and no overlap yet. */
  predicate Fits(c: Constraint, d: Declared, ca: Matrix, cb: Matrix)
  {
    && SpinOf(d.spin) == Some(c.spin)
    && c.orb == d.orb && c.occ == d.occ && c.frz == d.frz && c.doOvl == d.doOvl
    && (forall i :: 0 <= i < |ca| ==> c.orb < |ca[i]|)
    && (forall i :: 0 <= i < |cb| ==> c.orb < |cb[i]|)
    && c.ref == Column(if c.spin == Alpha then ca else cb, c.orb)
    && c.ovl == 0.0
  }

  /** The setup loop: every declared constraint, in order, gets the reference
      column of its own spin; the first record whose spin is neither "a" nor
      "b", or whose orbital lies outside the coefficient matrix, aborts the
      run before any SCF iteration. */
  method Setup(decls: seq<Declared>, ca: Matrix, cb: Matrix, n: nat) returns (r: Result<seq<Constraint>, SetupError>)
    requires IsShape(ca, n, n) && IsShape(cb, n, n)
    ensures r.Ok? <==> forall j :: 0 <= j < |decls| ==> Acceptable(decls[j], n)
    ensures r.Ok? ==> |r.value| == |decls| && forall j :: 0 <= j < |decls| ==> Fits(r.value[j], decls[j], ca, cb)
    ensures r.Err? ==>
      var i := r.error.index;
      && i < |decls| && !Acceptable(decls[i], n)
      && (r.error.NonAbSpin? <==> SpinOf(decls[i].spin).None?)
      && forall j :: 0 <= j < i ==> Acceptable(decls[j], n)
  {
    var done: seq<Constraint> := [];
    var k := 0;
    while k < |decls|
      invariant 0 <= k <= |decls| && |done| == k
      invariant forall j :: 0 <= j < k ==> Acceptable(decls[j], n) && Fits(done[j], decls[j], ca, cb)
    {
      var d := decls[k];
      var c;
      if d.spin == "b" {
        if d.orb >= n {
          return Err(OrbitalOutOfRange(k));
        }
        c := Constraint(Beta, d.orb, d.occ, d.frz, d.doOvl, Column(cb, d.orb), 0.0);
      } else if d.spin == "a" {
        if d.orb >= n {
          return Err(OrbitalOutOfRange(k));
        }
        c := Constraint(Alpha, d.orb, d.occ, d.frz, d.doOvl, Column(ca, d.orb), 0.0);
      } else {
        return Err(NonAbSpin(k));
      }
      done := done + [c];
      k := k + 1;
    }
    r := Ok(done);
  }

  /** `np.argmax`: the first index holding the largest entry. */
  function Argmax(v: seq<real>): (k: nat)
    requires |v| > 0
    ensures k < |v|
    ensures forall j :: 0 <= j < |v| ==> v[j] <= v[k]
    ensures forall j :: 0 <= j < k ==> v[j] < v[k]
  {
    if |v| == 1 then 0
    else
      var k := Argmax(v[..|v| - 1]);
      if v[|v| - 1] > v[k] then |v| - 1 else k
  }

  /** Entry-wise absolute values (`np.abs`). */
  function AbsAll(v: seq<real>): (a: seq<real>)
    ensures |a| == |v|
    ensures forall j :: 0 <= j < |v| ==> a[j] >= 0.0 && (a[j] == v[j] || a[j] == -v[j])
  {
    seq(|v|, j requires 0 <= j < |v| => Abs(v[j]))
  }

  /** One constraint after the overlaps `ovl` (already absolute) of its
      reference column with the current orbitals are known. When tracking is
      on (`force`, as in the initial pass, or the record's own flag) the
      constraint moves to the first orbital of largest overlap and records
      that overlap; otherwise it keeps its orbital and records the overlap
      there. */
  function TrackOne(c: Constraint, ovl: seq<real>, force: bool): (r: Constraint)
    requires c.orb < |ovl|
    ensures r.orb < |ovl| && r.ovl == ovl[r.orb]
    ensures force || c.doOvl ==>
      (forall j :: 0 <= j < |ovl| ==> ovl[j] <= r.ovl) && (forall j :: 0 <= j < r.orb ==> ovl[j] < r.ovl)
    ensures !(force || c.doOvl) ==> r.orb == c.orb
    ensures r == c.(orb := r.orb, ovl := r.ovl)
  {
    if force || c.doOvl then
      var k := Argmax(ovl);
      c.(orb := k, ovl := ovl[k])
    else
      c.(ovl := ovl[c.orb])
  }

  /** Every constraint's orbital lies below `n`. */
  predicate InRange(cs: seq<Constraint>, n: nat)
  {
    forall k :: 0 <= k < |cs| ==> cs[k].orb < n
  }

  /** The occupations of spin `s` after the constraints, in order, each set
      the occupation of their orbital to their target. */
  function Overridden(base: seq<real>, cs: seq<Constraint>, s: Spin): (occ: seq<real>)
    requires InRange(cs, |base|)
    ensures |occ| == |base|
  {
    if cs == [] then base
    else
      var prev := Overridden(base, cs[..|cs| - 1], s);
      var c := cs[|cs| - 1];
      if c.spin == s then prev[c.orb := c.occ] else prev
  }

  /** Overriding with the first `k + 1` constraints: the first `k`, then
      constraint `k` if it has spin `s`. */
  lemma OverriddenStep(base: seq<real>, cs: seq<Constraint>, k: nat, s: Spin)
    requires k < |cs| && InRange(cs, |base|)
    ensures InRange(cs[..k], |base|) && InRange(cs[..k + 1], |base|)
    ensures Overridden(base, cs[..k + 1], s) ==
      if cs[k].spin == s then Overridden(base, cs[..k], s)[cs[k].orb := cs[k].occ]
      else Overridden(base, cs[..k], s)
  {
    assert cs[..k + 1][..k] == cs[..k];
  }

  /** The position of the last constraint of spin `s` on orbital `c`. */
  function LastAt(cs: seq<Constraint>, s: Spin, c: nat): (r: Option<nat>)
    ensures r.Some? ==> r.value < |cs| && cs[r.value].spin == s && cs[r.value].orb == c
    ensures r.Some? ==> forall k :: r.value < k < |cs| ==> !(cs[k].spin == s && cs[k].orb == c)
    ensures r.None? ==> forall k :: 0 <= k < |cs| ==> !(cs[k].spin == s && cs[k].orb == c)
  {
    if cs == [] then None
    else if cs[|cs| - 1].spin == s && cs[|cs| - 1].orb == c then Some(|cs| - 1)
    else LastAt(cs[..|cs| - 1], s, c)
  }

  /** Each occupation is the target of the last constraint of that spin on
      that orbital, and the base occupation where there is none. */
  lemma {:induction false} OverriddenAt(base: seq<real>, cs: seq<Constraint>, s: Spin)
    requires InRange(cs, |base|)
    ensures forall c :: 0 <= c < |base| ==>
      Overridden(base, cs, s)[c] ==
        (match LastAt(cs, s, c) case Some(k) => cs[k].occ case None => base[c])
  {
    if cs != [] {
      var init := cs[..|cs| - 1];
      OverriddenAt(base, init, s);
      forall c | 0 <= c < |base|
        ensures Overridden(base, cs, s)[c] ==
          (match LastAt(cs, s, c) case Some(k) => cs[k].occ case None => base[c])
      {
        var last := cs[|cs| - 1];
        if !(last.spin == s && last.orb == c) {
          assert LastAt(cs, s, c) == LastAt(init, s, c);
          match LastAt(init, s, c)
          case Some(k) =>
            assert cs[k] == init[k];
          case None =>
        }
      }
    }
  }

  /** After the rebuild from aufbau, an orbital without a constraint of its
      spin is occupied exactly when it lies below the electron count `nocc`. */
  lemma RebuiltOccupations(n: nat, nocc: nat, cs: seq<Constraint>, s: Spin)
    requires InRange(cs, n)
    ensures forall c :: 0 <= c < n ==>
      Overridden(Aufbau(n, nocc), cs, s)[c] ==
        (match LastAt(cs, s, c)
         case Some(k) => cs[k].occ
         case None => if c < nocc then 1.0 else 0.0)
  {
    OverriddenAt(Aufbau(n, nocc), cs, s);
  }
}
