/** The orbital dump both solvers write for the external program (the file
    `OLDMOS`): first the alpha, then the beta coefficients, in groups of four
    orbitals; within a group, one line per basis function, taken in the
    legacy order. Number formatting is not modelled: a line is the sequence
    of coefficients written on it. */
module OldMos {
  import opened Common
  import opened LegacyBasis

  /** The map has `nbf` entries, each a row of an `nbf`-row matrix. */
  predicate InBasis(order: seq<int>, nbf: nat)
  {
    |order| == nbf && forall i :: 0 <= i < nbf ==> 0 <= order[i] < nbf
  }

  /** The number of orbital groups, one per start `0, 4, 8, ...` below `nbf`:
      the fewest groups of four that hold `nbf` orbitals. */
  function Groups(nbf: nat): (g: nat)
    ensures nbf <= 4 * g < nbf + 4
  {
    (nbf + 3) / 4
  }

  /** The line for basis function `i` in the group starting at orbital `j0`:
      the coefficients of row `order[i]` for orbitals `j0` up to the group's
      end or the last orbital. */
  function Line(c: Matrix, order: seq<int>, nbf: nat, i: nat, j0: nat): (line: seq<real>)
    requires IsShape(c, nbf, nbf) && InBasis(order, nbf) && i < nbf && j0 < nbf
    ensures 1 <= |line| <= 4 && j0 + |line| <= nbf
    ensures |line| == 4 || j0 + |line| == nbf
  {
    c[order[i]][j0..Min(nbf, j0 + 4)]
  }

  /** The lines of the group starting at orbital `j0`, one per basis function. */
  function Block(c: Matrix, order: seq<int>, nbf: nat, j0: nat): (lines: seq<seq<real>>)
    requires IsShape(c, nbf, nbf) && InBasis(order, nbf) && j0 < nbf
    ensures |lines| == nbf
  {
    seq(nbf, i requires 0 <= i < nbf => Line(c, order, nbf, i, j0))
  }

  /** The lines of the first `g` groups of one coefficient matrix. */
  function Blocks(c: Matrix, order: seq<int>, nbf: nat, g: nat): (lines: seq<seq<real>>)
    requires IsShape(c, nbf, nbf) && InBasis(order, nbf) && g <= Groups(nbf)
  {
    if g == 0 then [] else Blocks(c, order, nbf, g - 1) + Block(c, order, nbf, 4 * (g - 1))
  }

  /** The whole dump: every group of the alpha coefficients, then every
      group of the beta coefficients. */
  function Dump(ca: Matrix, cb: Matrix, order: seq<int>, nbf: nat): (lines: seq<seq<real>>)
    requires IsShape(ca, nbf, nbf) && IsShape(cb, nbf, nbf) && InBasis(order, nbf)
  {
    Blocks(ca, order, nbf, Groups(nbf)) + Blocks(cb, order, nbf, Groups(nbf))
  }

  /** `g` groups hold `g * nbf` lines. */
  lemma {:induction false} BlocksLength(c: Matrix, order: seq<int>, nbf: nat, g: nat)
    requires IsShape(c, nbf, nbf) && InBasis(order, nbf) && g <= Groups(nbf)
    ensures |Blocks(c, order, nbf, g)| == g * nbf
    decreases g
  {
    if g > 0 {
      BlocksLength(c, order, nbf, g - 1);
    }
  }

  /** The dump has one line per basis function in each group of each spin:
      `2 * ceil(nbf / 4) * nbf` lines. */
  lemma DumpLength(ca: Matrix, cb: Matrix, order: seq<int>, nbf: nat)
    requires IsShape(ca, nbf, nbf) && IsShape(cb, nbf, nbf) && InBasis(order, nbf)
    ensures |Dump(ca, cb, order, nbf)| == 2 * Groups(nbf) * nbf
  {
    BlocksLength(ca, order, nbf, Groups(nbf));
    BlocksLength(cb, order, nbf, Groups(nbf));
  }

  /** `q` whole groups of `nbf` lines end no later than `g > q` groups. */
  lemma {:induction false} GroupsEndBefore(q: nat, g: nat, nbf: nat)
    requires q < g
    ensures q * nbf + nbf <= g * nbf
    decreases g
  {
    if q < g - 1 {
      GroupsEndBefore(q, g - 1, nbf);
    }
  }

  /** Line `q * nbf + i` of the first `g` groups is the line of basis
      function `i` in group `q`. */
  lemma {:induction false} BlocksAt(c: Matrix, order: seq<int>, nbf: nat, g: nat, q: nat, i: nat)
    requires IsShape(c, nbf, nbf) && InBasis(order, nbf) && q < g <= Groups(nbf) && i < nbf
    ensures q * nbf + i < |Blocks(c, order, nbf, g)|
    ensures Blocks(c, order, nbf, g)[q * nbf + i] == Line(c, order, nbf, i, 4 * q)
    decreases g
  {
    var prev := Blocks(c, order, nbf, g - 1);
    BlocksLength(c, order, nbf, g - 1);
    assert Blocks(c, order, nbf, g) == prev + Block(c, order, nbf, 4 * (g - 1));
    if q < g - 1 {
      BlocksAt(c, order, nbf, g - 1, q, i);
      GroupsEndBefore(q, g - 1, nbf);
    }
  }

  /** Orbital `j` lies in group `j / 4`, at position `j % 4` of that group. */
  lemma GroupOf(j: nat, nbf: nat)
    requires j < nbf
    ensures j / 4 < Groups(nbf) && j == 4 * (j / 4) + j % 4 && j % 4 < 4
  {
  }

  /** Value `x` is entry `p` of line `k` of the lines `d`. */
  predicate WrittenAt(d: seq<seq<real>>, k: nat, p: nat, x: real)
  {
    k < |d| && p < |d[k]| && d[k][p] == x
  }

  /** In one spin's half, coefficient `C[order[i]][j]` is entry `j % 4` of
      line `(j / 4) * nbf + i`. */
  lemma EntryAt(c: Matrix, order: seq<int>, nbf: nat, i: nat, j: nat)
    requires IsShape(c, nbf, nbf) && InBasis(order, nbf) && i < nbf && j < nbf
    ensures var half := Blocks(c, order, nbf, Groups(nbf));
      |half| == Groups(nbf) * nbf && WrittenAt(half, (j / 4) * nbf + i, j % 4, c[order[i]][j])
  {
    GroupOf(j, nbf);
    BlocksLength(c, order, nbf, Groups(nbf));
    BlocksAt(c, order, nbf, Groups(nbf), j / 4, i);
  }

  /** Where each coefficient goes: coefficient `C[order[i]][j]` is entry
      `j % 4` of line `(j / 4) * nbf + i` of its spin's half, the beta half
      starting after the `ceil(nbf / 4) * nbf` alpha lines. */
  lemma CoefficientPlacement(ca: Matrix, cb: Matrix, order: seq<int>, nbf: nat, i: nat, j: nat)
    requires IsShape(ca, nbf, nbf) && IsShape(cb, nbf, nbf) && InBasis(order, nbf)
    requires i < nbf && j < nbf
    ensures var d, k := Dump(ca, cb, order, nbf), (j / 4) * nbf + i;
      && WrittenAt(d, k, j % 4, ca[order[i]][j])
      && WrittenAt(d, k + Groups(nbf) * nbf, j % 4, cb[order[i]][j])
  {
    EntryAt(ca, order, nbf, i, j);
    EntryAt(cb, order, nbf, i, j);
    HalvesAt(Blocks(ca, order, nbf, Groups(nbf)), Blocks(cb, order, nbf, Groups(nbf)),
             (j / 4) * nbf + i, j % 4, ca[order[i]][j], cb[order[i]][j]);
  }

  /** An entry of line `k` of `alpha` is the same entry of line `k` of
      `alpha + beta`, and one of `beta` sits `|alpha|` lines further on. */
  lemma HalvesAt(alpha: seq<seq<real>>, beta: seq<seq<real>>, k: nat, p: nat, x: real, y: real)
    requires WrittenAt(alpha, k, p, x) && WrittenAt(beta, k, p, y)
    ensures WrittenAt(alpha + beta, k, p, x) && WrittenAt(alpha + beta, k + |alpha|, p, y)
  {
  }

  /** With a map that passes the solvers' check, every coefficient of both
      matrices is written: row `r`, orbital `j` appears in the group of `j`
      on the line of the one basis function the map sends to `r`. */
  lemma EveryCoefficientWritten(ca: Matrix, cb: Matrix, order: seq<int>, nbf: nat, r: nat, j: nat)
    requires IsShape(ca, nbf, nbf) && IsShape(cb, nbf, nbf) && MapAccepted(order, nbf)
    requires r < nbf && j < nbf
    ensures exists i :: 0 <= i < nbf && order[i] == r &&
              var d, k := Dump(ca, cb, order, nbf), (j / 4) * nbf + i;
              WrittenAt(d, k, j % 4, ca[r][j]) && WrittenAt(d, k + Groups(nbf) * nbf, j % 4, cb[r][j])
  {
    AcceptedMapIsOnto(order, nbf, r);
    var i :| 0 <= i < |order| && order[i] == r;
    CoefficientPlacement(ca, cb, order, nbf, i, j);
  }

  /** The innermost loop: the coefficients of row `order[i]` for the orbitals
      of the group starting at `j0`, one after another. */
  method WriteLine(c: Matrix, order: seq<int>, nbf: nat, i: nat, j0: nat) returns (line: seq<real>)
    requires IsShape(c, nbf, nbf) && InBasis(order, nbf) && i < nbf && j0 < nbf
    ensures line == Line(c, order, nbf, i, j0)
  {
    line := [];
    var j := j0;
    var stop := Min(nbf, j0 + 4);
    while j < stop
      invariant j0 <= j <= stop && line == c[order[i]][j0..j]
    {
      line := line + [c[order[i]][j]];
      j := j + 1;
    }
  }

  /** The basis-function loop: the line of every basis function, in order,
      for the group starting at `j0`. */
  method WriteBlock(c: Matrix, order: seq<int>, nbf: nat, j0: nat) returns (lines: seq<seq<real>>)
    requires IsShape(c, nbf, nbf) && InBasis(order, nbf) && j0 < nbf
    ensures lines == Block(c, order, nbf, j0)
  {
    lines := [];
    var i := 0;
    while i < nbf
      invariant i <= nbf && |lines| == i
      invariant forall k :: 0 <= k < i ==> lines[k] == Line(c, order, nbf, k, j0)
    {
      var line := WriteLine(c, order, nbf, i, j0);
      lines := lines + [line];
      i := i + 1;
    }
  }

  /** The group loop over one coefficient matrix: starts `0, 4, 8, ...`
      below `nbf`. */
  method WriteMatrix(c: Matrix, order: seq<int>, nbf: nat) returns (lines: seq<seq<real>>)
    requires IsShape(c, nbf, nbf) && InBasis(order, nbf)
    ensures lines == Blocks(c, order, nbf, Groups(nbf))
  {
    lines := [];
    var j0 := 0;
    while j0 < nbf
      invariant j0 % 4 == 0 && j0 < nbf + 4 && j0 / 4 <= Groups(nbf)
      invariant lines == Blocks(c, order, nbf, j0 / 4)
    {
      var block := WriteBlock(c, order, nbf, j0);
      lines := lines + block;
      j0 := j0 + 4;
    }
  }

  /** The map check followed by the dump: a map the check rejects stops the
      solver before anything is written (`None`); otherwise the lines of the
      alpha and then the beta coefficients. */
  method WriteOldMos(ca: Matrix, cb: Matrix, order: seq<int>, nbf: nat) returns (r: Option<seq<seq<real>>>)
    requires IsShape(ca, nbf, nbf) && IsShape(cb, nbf, nbf)
    ensures r.None? <==> !MapAccepted(order, nbf)
    ensures r.Some? ==> InBasis(order, nbf) && r.value == Dump(ca, cb, order, nbf)
  {
    if !MapAccepted(order, nbf) {
      return None;
    }
    var alpha := WriteMatrix(ca, order, nbf);
    var beta := WriteMatrix(cb, order, nbf);
    r := Some(alpha + beta);
  }
}
