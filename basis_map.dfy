/** The legacy ordering of basis functions used when the solvers write their
    orbitals for an external program. Each basis function of the psi4 basis
    is sent to a position chosen per atom, per angular momentum `l`, per
    spherical component `li` and, within those, per shell. Components of
    shells with `l <= 6` come from the lookup table `LMap`; above that a
    closed-form rule places them. */
module LegacyBasis {

  /** A shell of the basis: the atom it sits on, its angular momentum `l` and
      the index of its first basis function. It holds the `2l + 1` spherical
      functions `first .. first + 2l`. */
  datatype Shell = Shell(center: nat, am: nat, first: nat)

  /** The placement rule for components above `l = 6`: the one the solvers
      use, or the corrected one. */
  datatype OffsetRule = AsWritten | Corrected

  /** The component reordering table for `l = 0 .. 6`. */
  const LMap: seq<seq<nat>> :=
    [[0],
     [1, 2, 0],
     [0, 4, 1, 3, 2],
     [1, 2, 0, 5, 4, 6, 3],
     [0, 4, 1, 7, 6, 3, 8, 5, 2],
     [1, 2, 3, 5, 8, 10, 7, 6, 0, 9, 4],
     [11, 4, 9, 7, 10, 3, 12, 5, 8, 0, 6, 2, 1]]

  /** The offset within its shell at which component `li` of an `l` shell
      lands. Above `l = 6` the solvers add `2 * (l - li / 2) + li % 2`; the
      corrected rule subtracts the parity instead, which is `2l - li`. */
  function Offset(rule: OffsetRule, l: nat, li: nat): nat
    requires li <= 2 * l
  {
    if l > 6 then
      match rule
      case AsWritten => 2 * (l - li / 2) + li % 2
      case Corrected => 2 * (l - li / 2) - li % 2
    else LMap[l][li]
  }

  /** `s` lists each of `lo .. hi - 1` exactly once and nothing else. */
  ghost predicate PermutationOf(s: seq<int>, lo: nat, hi: nat)
  {
    forall v :: multiset(s)[v] == if lo <= v < hi then 1 else 0
  }

  /** No value occurs twice in `s`. */
  predicate Distinct(s: seq<int>)
  {
    forall i, j :: 0 <= i < j < |s| ==> s[i] != s[j]
  }

  /** Row `LMap[l]` has `2l + 1` entries below `2l + 1`, no two alike. */
  lemma LMapRowIsDistinct(l: nat)
    requires l < 7
    ensures |LMap| == 7 && |LMap[l]| == 2 * l + 1
    ensures Distinct(LMap[l]) && forall li :: 0 <= li < |LMap[l]| ==> LMap[l][li] < 2 * l + 1
  {
    var row := LMap[l];
    if l == 0 {
      assert row == [0];
    } else if l == 1 {
      assert row == [1, 2, 0];
    } else if l == 2 {
      assert row == [0, 4, 1, 3, 2];
    } else if l == 3 {
      assert row == [1, 2, 0, 5, 4, 6, 3];
    } else if l == 4 {
      assert row == [0, 4, 1, 7, 6, 3, 8, 5, 2];
    } else if l == 5 {
      assert row == [1, 2, 3, 5, 8, 10, 7, 6, 0, 9, 4];
    } else {
      assert row == [11, 4, 9, 7, 10, 3, 12, 5, 8, 0, 6, 2, 1];
    }
  }

  /** In a sequence without repetitions each value occurs at most once. */
  lemma {:induction false} DistinctCount(s: seq<int>)
    requires Distinct(s)
    ensures forall v :: multiset(s)[v] == if v in s then 1 else 0
  {
    if s != [] {
      var init := s[..|s| - 1];
      DistinctCount(init);
      assert s == init + [s[|s| - 1]];
    }
  }

  /** The set of values occurring in `s`. */
  function Values(s: seq<int>): (vs: set<int>)
    ensures forall v :: v in vs <==> v in s
  {
    if s == [] then {} else Values(s[..|s| - 1]) + {s[|s| - 1]}
  }

  /** A sequence without repetitions has as many distinct values as entries. */
  lemma {:induction false} DistinctCard(s: seq<int>)
    requires Distinct(s)
    ensures |Values(s)| == |s|
  {
    if s != [] {
      var init, x := s[..|s| - 1], s[|s| - 1];
      assert forall k :: 0 <= k < |init| ==> init[k] == s[k];
      DistinctCard(init);
      assert Values(init) * {x} == {};
    }
  }

  /** The set `{lo, .., hi - 1}`, of `hi - lo` elements. */
  function Between(lo: nat, hi: nat): (b: set<nat>)
    ensures forall v :: v in b <==> lo <= v < hi
    ensures |b| == if lo <= hi then hi - lo else 0
  {
    if hi <= lo then {}
    else
      var b := Between(lo, hi - 1);
      assert b * {hi - 1} == {};
      b + {hi - 1}
  }

  /** Pigeonhole: `hi - lo` distinct values in `lo .. hi - 1` are a
      permutation of that range. */
  lemma DistinctBoundedIsPermutation(s: seq<int>, lo: nat, hi: nat)
    requires lo <= hi && |s| == hi - lo && Distinct(s)
    requires forall i :: 0 <= i < |s| ==> lo <= s[i] < hi
    ensures PermutationOf(s, lo, hi)
  {
    var values, range := Values(s), Between(lo, hi);
    DistinctCard(s);
    assert values <= range;
    assert values + (range - values) == range;
    assert values * (range - values) == {};
    assert range - values == {};
    DistinctCount(s);
  }

  /** Every row `LMap[l]` is a permutation of `0 .. 2l`. */
  lemma LMapRowsArePermutations()
    ensures |LMap| == 7
    ensures forall l :: 0 <= l < 7 ==> |LMap[l]| == 2 * l + 1 && PermutationOf(LMap[l], 0, 2 * l + 1)
  {
    forall l | 0 <= l < 7
      ensures |LMap[l]| == 2 * l + 1 && PermutationOf(LMap[l], 0, 2 * l + 1)
    {
      LMapRowIsDistinct(l);
      DistinctBoundedIsPermutation(LMap[l], 0, 2 * l + 1);
    }
  }

  /** The basis functions of one shell starting at `first`, listed by
      component: component `li` goes to `first + Offset(rule, l, li)`
      (components `0 .. c - 1`). */
  function Row(rule: OffsetRule, first: nat, l: nat, c: nat): (r: seq<int>)
    requires c <= 2 * l + 1
    ensures |r| == c
  {
    if c == 0 then [] else Row(rule, first, l, c - 1) + [first + Offset(rule, l, c - 1)]
  }

  /** Entry `li` of a row is the position of component `li`. */
  lemma {:induction false} RowEntries(rule: OffsetRule, first: nat, l: nat, c: nat)
    requires c <= 2 * l + 1
    ensures forall li :: 0 <= li < c ==> Row(rule, first, l, c)[li] == first + Offset(rule, l, li)
    decreases c
  {
    if c > 0 {
      RowEntries(rule, first, l, c - 1);
    }
  }

  /** The full row of a shell covered by the table, or placed by the
      corrected rule, is a permutation of the shell's own basis functions. */
  lemma RowIsPermutation(rule: OffsetRule, first: nat, l: nat)
    requires rule == Corrected || l <= 6
    ensures PermutationOf(Row(rule, first, l, 2 * l + 1), first, first + 2 * l + 1)
  {
    var r := Row(rule, first, l, 2 * l + 1);
    RowEntries(rule, first, l, 2 * l + 1);
    if l <= 6 {
      LMapRowIsDistinct(l);
      assert forall li :: 0 <= li < |r| ==> r[li] == first + LMap[l][li];
    } else {
      assert forall li :: 0 <= li < |r| ==> r[li] == first + 2 * l - li;
    }
    DistinctBoundedIsPermutation(r, first, first + 2 * l + 1);
  }

  /** The entries appended by the first `n` shells for component `li` of
      angular momentum `l` on atom `i`: one per such shell on that atom with
      that `l`, in shell order. */
  function Hits(rule: OffsetRule, shells: seq<Shell>, n: nat, i: nat, l: nat, li: nat): seq<int>
    requires n <= |shells| && li <= 2 * l
  {
    if n == 0 then []
    else
      var s := shells[n - 1];
      Hits(rule, shells, n - 1, i, l, li) + (if s.center == i && s.am == l then [s.first + Offset(rule, l, li)] else [])
  }

  /** The entries for components `0 .. c - 1` of angular momentum `l` on atom `i`. */
  function Comps(rule: OffsetRule, shells: seq<Shell>, n: nat, i: nat, l: nat, c: nat): seq<int>
    requires n <= |shells| && c <= 2 * l + 1
  {
    if c == 0 then [] else Comps(rule, shells, n, i, l, c - 1) + Hits(rule, shells, n, i, l, c - 1)
  }

  /** The entries for angular momenta `0 .. ls - 1` on atom `i`. */
  function Levels(rule: OffsetRule, shells: seq<Shell>, n: nat, i: nat, ls: nat): seq<int>
    requires n <= |shells|
  {
    if ls == 0 then [] else Levels(rule, shells, n, i, ls - 1) + Comps(rule, shells, n, i, ls - 1, 2 * (ls - 1) + 1)
  }

  /** The map built from the first `n` shells for atoms `0 .. natom - 1` and
      angular momenta up to `maxl`: atom by atom, then by angular momentum,
      then by component, then by shell. */
  function BasisMap(rule: OffsetRule, shells: seq<Shell>, n: nat, maxl: nat, natom: nat): seq<int>
    requires n <= |shells|
  {
    if natom == 0 then [] else BasisMap(rule, shells, n, maxl, natom - 1) + Levels(rule, shells, n, natom - 1, maxl + 1)
  }

  /** How often `v` occurs among the first `k` entries of `s`. This count and
      `Occ` say what `multiset(s)[v]` says. They are kept because the
      permutation proofs split the map into concatenations, and counting
      over a concatenation by these recursive definitions is much cheaper
      for the solver than reasoning about multisets of concatenations. */
  function Count(s: seq<int>, v: int, k: nat): nat
    requires k <= |s|
  {
    if k == 0 then 0 else Count(s, v, k - 1) + (if s[k - 1] == v then 1 else 0)
  }

  /** How often `v` occurs in `s`. */
  function Occ(s: seq<int>, v: int): nat
  {
    Count(s, v, |s|)
  }

  /** Counting a prefix of `a + b` that lies within `a` counts in `a`. */
  lemma {:induction false} CountPrefix(a: seq<int>, b: seq<int>, v: int, k: nat)
    requires k <= |a|
    ensures Count(a + b, v, k) == Count(a, v, k)
    decreases k
  {
    if k > 0 {
      CountPrefix(a, b, v, k - 1);
    }
  }

  /** Counting past the end of `a` in `a + b` adds the count in `b`. */
  lemma {:induction false} CountSuffix(a: seq<int>, b: seq<int>, v: int, k: nat)
    requires k <= |b|
    ensures Count(a + b, v, |a| + k) == Count(a, v, |a|) + Count(b, v, k)
    decreases k
  {
    if k == 0 {
      CountPrefix(a, b, v, |a|);
    } else {
      CountSuffix(a, b, v, k - 1);
    }
  }

  /** Counting distributes over concatenation. */
  lemma OccAppend(a: seq<int>, b: seq<int>, v: int)
    ensures Occ(a + b, v) == Occ(a, v) + Occ(b, v)
  {
    CountSuffix(a, b, v, |b|);
  }

  /** The counts in the empty sequence and in a one-entry sequence. */
  lemma OccSingle(x: int, v: int)
    ensures Occ([], v) == 0
    ensures Occ([x], v) == if x == v then 1 else 0
  {
    assert Count([x], v, 1) == Count([x], v, 0) + (if x == v then 1 else 0);
  }

  /** The count of `v` among the first `k` entries is its multiplicity in the
      multiset of those entries. */
  lemma {:induction false} CountIsMultiplicity(s: seq<int>, v: int, k: nat)
    requires k <= |s|
    ensures Count(s, v, k) == multiset(s[..k])[v]
    decreases k
  {
    if k > 0 {
      CountIsMultiplicity(s, v, k - 1);
      assert s[..k] == s[..k - 1] + [s[k - 1]];
    }
  }

  /** So `v` occurs in `s` exactly when its count is positive. */
  lemma OccIsMultiplicity(s: seq<int>, v: int)
    ensures Occ(s, v) == multiset(s)[v]
    ensures Occ(s, v) > 0 <==> v in s
  {
    CountIsMultiplicity(s, v, |s|);
    assert s[..|s|] == s;
  }

  /** A permutation of `lo .. hi - 1` is a sequence that holds each of those
      values once and nothing else. */
  lemma PermutationCount(s: seq<int>, lo: nat, hi: nat)
    ensures PermutationOf(s, lo, hi) <==> forall v :: Occ(s, v) == if lo <= v < hi then 1 else 0
  {
    forall v {
      OccIsMultiplicity(s, v);
    }
  }

  /** The values `lo .. hi - 1` in increasing order. */
  function Range(lo: nat, hi: nat): (r: seq<int>)
    ensures |r| == if lo <= hi then hi - lo else 0
  {
    if hi <= lo then [] else Range(lo, hi - 1) + [hi - 1]
  }

  /** `Range(lo, hi)` holds each of `lo .. hi - 1` once and nothing else. */
  lemma {:induction false} RangeOcc(lo: nat, hi: nat, v: int)
    ensures Occ(Range(lo, hi), v) == if lo <= v < hi then 1 else 0
    decreases hi
  {
    if lo < hi {
      RangeOcc(lo, hi - 1, v);
      OccSingle(hi - 1, v);
      OccAppend(Range(lo, hi - 1), [hi - 1], v);
    }
  }

  lemma RangeIsPermutation(lo: nat, hi: nat)
    ensures PermutationOf(Range(lo, hi), lo, hi)
  {
    forall v
      ensures Occ(Range(lo, hi), v) == if lo <= v < hi then 1 else 0
    {
      RangeOcc(lo, hi, v);
    }
    PermutationCount(Range(lo, hi), lo, hi);
  }

  /** A permutation of `lo .. hi - 1` has `hi - lo` entries. */
  lemma PermutationLength(s: seq<int>, lo: nat, hi: nat)
    requires lo <= hi && PermutationOf(s, lo, hi)
    ensures |s| == hi - lo
  {
    RangeIsPermutation(lo, hi);
    forall v
      ensures multiset(s)[v] == multiset(Range(lo, hi))[v]
    {
    }
    assert multiset(s) == multiset(Range(lo, hi));
    assert |multiset(s)| == |multiset(Range(lo, hi))|;
  }

  /** How often the first `n` shells place value `v` for component `li` of
      angular momentum `l` on atom `i`, counted shell by shell. */
  function HitsCount(rule: OffsetRule, shells: seq<Shell>, n: nat, i: nat, l: nat, li: nat, v: int): nat
    requires n <= |shells| && li <= 2 * l
  {
    if n == 0 then 0
    else
      var s := shells[n - 1];
      HitsCount(rule, shells, n - 1, i, l, li, v) +
        (if s.center == i && s.am == l && s.first + Offset(rule, l, li) == v then 1 else 0)
  }

  /** ... for components `0 .. c - 1`. */
  function CompsCount(rule: OffsetRule, shells: seq<Shell>, n: nat, i: nat, l: nat, c: nat, v: int): nat
    requires n <= |shells| && c <= 2 * l + 1
  {
    if c == 0 then 0 else CompsCount(rule, shells, n, i, l, c - 1, v) + HitsCount(rule, shells, n, i, l, c - 1, v)
  }

  /** ... for angular momenta `0 .. ls - 1`. */
  function LevelsCount(rule: OffsetRule, shells: seq<Shell>, n: nat, i: nat, ls: nat, v: int): nat
    requires n <= |shells|
  {
    if ls == 0 then 0
    else LevelsCount(rule, shells, n, i, ls - 1, v) + CompsCount(rule, shells, n, i, ls - 1, 2 * (ls - 1) + 1, v)
  }

  /** ... for atoms `0 .. natom - 1`. */
  function MapCount(rule: OffsetRule, shells: seq<Shell>, n: nat, maxl: nat, natom: nat, v: int): nat
    requires n <= |shells|
  {
    if natom == 0 then 0
    else MapCount(rule, shells, n, maxl, natom - 1, v) + LevelsCount(rule, shells, n, natom - 1, maxl + 1, v)
  }

  /** How often the first `c` components of a shell starting at `first` land on `v`. */
  function RowCount(rule: OffsetRule, first: nat, l: nat, c: nat, v: int): nat
    requires c <= 2 * l + 1
  {
    if c == 0 then 0 else RowCount(rule, first, l, c - 1, v) + (if first + Offset(rule, l, c - 1) == v then 1 else 0)
  }

  /** The counts above are the occurrences in the sequences the loops build. */
  lemma {:induction false} HitsOcc(rule: OffsetRule, shells: seq<Shell>, n: nat, i: nat, l: nat, li: nat, v: int)
    requires n <= |shells| && li <= 2 * l
    ensures Occ(Hits(rule, shells, n, i, l, li), v) == HitsCount(rule, shells, n, i, l, li, v)
    decreases n
  {
    if n > 0 {
      HitsOcc(rule, shells, n - 1, i, l, li, v);
      OccSingle(shells[n - 1].first + Offset(rule, l, li), v);
      OccAppend(Hits(rule, shells, n - 1, i, l, li),
                if shells[n - 1].center == i && shells[n - 1].am == l then [shells[n - 1].first + Offset(rule, l, li)] else [],
                v);
    }
  }

  lemma {:induction false} CompsOcc(rule: OffsetRule, shells: seq<Shell>, n: nat, i: nat, l: nat, c: nat, v: int)
    requires n <= |shells| && c <= 2 * l + 1
    ensures Occ(Comps(rule, shells, n, i, l, c), v) == CompsCount(rule, shells, n, i, l, c, v)
    decreases c
  {
    if c > 0 {
      CompsOcc(rule, shells, n, i, l, c - 1, v);
      HitsOcc(rule, shells, n, i, l, c - 1, v);
      OccAppend(Comps(rule, shells, n, i, l, c - 1), Hits(rule, shells, n, i, l, c - 1), v);
    }
  }

  lemma {:induction false} LevelsOcc(rule: OffsetRule, shells: seq<Shell>, n: nat, i: nat, ls: nat, v: int)
    requires n <= |shells|
    ensures Occ(Levels(rule, shells, n, i, ls), v) == LevelsCount(rule, shells, n, i, ls, v)
    decreases ls
  {
    if ls > 0 {
      LevelsOcc(rule, shells, n, i, ls - 1, v);
      CompsOcc(rule, shells, n, i, ls - 1, 2 * (ls - 1) + 1, v);
      OccAppend(Levels(rule, shells, n, i, ls - 1), Comps(rule, shells, n, i, ls - 1, 2 * (ls - 1) + 1), v);
    }
  }

  /** `OccAppend` with the two counts named. */
  lemma OccAppendCounts(a: seq<int>, b: seq<int>, v: int, x: nat, y: nat)
    requires Occ(a, v) == x && Occ(b, v) == y
    ensures Occ(a + b, v) == x + y
  {
    OccAppend(a, b, v);
  }

  /** One atom more: the count grows by the count of that atom's levels. */
  lemma MapOccStep(rule: OffsetRule, shells: seq<Shell>, n: nat, maxl: nat, natom: nat, v: int)
    requires n <= |shells| && natom > 0
    requires Occ(BasisMap(rule, shells, n, maxl, natom - 1), v) == MapCount(rule, shells, n, maxl, natom - 1, v)
    ensures Occ(BasisMap(rule, shells, n, maxl, natom), v) == MapCount(rule, shells, n, maxl, natom, v)
  {
    LevelsOcc(rule, shells, n, natom - 1, maxl + 1, v);
    OccAppendCounts(BasisMap(rule, shells, n, maxl, natom - 1), Levels(rule, shells, n, natom - 1, maxl + 1), v,
      MapCount(rule, shells, n, maxl, natom - 1, v), LevelsCount(rule, shells, n, natom - 1, maxl + 1, v));
  }

  lemma {:induction false} MapOcc(rule: OffsetRule, shells: seq<Shell>, n: nat, maxl: nat, natom: nat, v: int)
    requires n <= |shells|
    ensures Occ(BasisMap(rule, shells, n, maxl, natom), v) == MapCount(rule, shells, n, maxl, natom, v)
    decreases natom
  {
    if natom > 0 {
      MapOcc(rule, shells, n, maxl, natom - 1, v);
      MapOccStep(rule, shells, n, maxl, natom, v);
    }
  }

  /** One component more: the count grows by one when that component lands on `v`. */
  lemma RowOccStep(rule: OffsetRule, first: nat, l: nat, c: nat, v: int)
    requires 0 < c <= 2 * l + 1
    requires Occ(Row(rule, first, l, c - 1), v) == RowCount(rule, first, l, c - 1, v)
    ensures Occ(Row(rule, first, l, c), v) == RowCount(rule, first, l, c, v)
  {
    OccSingle(first + Offset(rule, l, c - 1), v);
    OccAppend(Row(rule, first, l, c - 1), [first + Offset(rule, l, c - 1)], v);
  }

  lemma {:induction false} RowOcc(rule: OffsetRule, first: nat, l: nat, c: nat, v: int)
    requires c <= 2 * l + 1
    ensures Occ(Row(rule, first, l, c), v) == RowCount(rule, first, l, c, v)
    decreases c
  {
    if c > 0 {
      RowOcc(rule, first, l, c - 1, v);
      RowOccStep(rule, first, l, c, v);
    }
  }

  /** Taking one more shell, `shells[n]`, adds its first `c` components to
      the entries of its own atom and angular momentum, and nothing
      elsewhere. */
  lemma {:induction false} CompsGrow(rule: OffsetRule, shells: seq<Shell>, n: nat, i: nat, l: nat, c: nat, v: int)
    requires n < |shells| && c <= 2 * l + 1
    ensures CompsCount(rule, shells, n + 1, i, l, c, v) == CompsCount(rule, shells, n, i, l, c, v) +
      (if shells[n].center == i && shells[n].am == l then RowCount(rule, shells[n].first, l, c, v) else 0)
    decreases c
  {
    if c > 0 {
      CompsGrow(rule, shells, n, i, l, c - 1, v);
    }
  }

  /** ... its whole row to the entries of its atom once its angular momentum
      is among `0 .. ls - 1`. */
  lemma {:induction false} LevelsGrow(rule: OffsetRule, shells: seq<Shell>, n: nat, i: nat, ls: nat, v: int)
    requires n < |shells|
    ensures LevelsCount(rule, shells, n + 1, i, ls, v) == LevelsCount(rule, shells, n, i, ls, v) +
      (if shells[n].center == i && shells[n].am < ls
       then RowCount(rule, shells[n].first, shells[n].am, 2 * shells[n].am + 1, v) else 0)
    decreases ls
  {
    if ls > 0 {
      LevelsGrow(rule, shells, n, i, ls - 1, v);
      CompsGrow(rule, shells, n, i, ls - 1, 2 * (ls - 1) + 1, v);
    }
  }

  /** ... and its whole row to the map once the loops reach its atom and
      angular momentum. */
  lemma {:induction false} BasisMapGrows(rule: OffsetRule, shells: seq<Shell>, n: nat, maxl: nat, natom: nat, v: int)
    requires n < |shells|
    ensures MapCount(rule, shells, n + 1, maxl, natom, v) == MapCount(rule, shells, n, maxl, natom, v) +
      (if shells[n].center < natom && shells[n].am <= maxl
       then RowCount(rule, shells[n].first, shells[n].am, 2 * shells[n].am + 1, v) else 0)
    decreases natom
  {
    if natom > 0 {
      BasisMapGrows(rule, shells, n, maxl, natom - 1, v);
      LevelsGrow(rule, shells, n, natom - 1, maxl + 1, v);
    }
  }

  /** Without shells the loops place nothing. */
  lemma {:induction false} NoShellsNoCount(rule: OffsetRule, shells: seq<Shell>, maxl: nat, natom: nat, v: int)
    ensures MapCount(rule, shells, 0, maxl, natom, v) == 0
    decreases natom
  {
    if natom > 0 {
      NoShellsNoCount(rule, shells, maxl, natom - 1, v);
      NoShellsNoLevelsCount(rule, shells, natom - 1, maxl + 1, v);
    }
  }

  lemma {:induction false} NoShellsNoLevelsCount(rule: OffsetRule, shells: seq<Shell>, i: nat, ls: nat, v: int)
    ensures LevelsCount(rule, shells, 0, i, ls, v) == 0
    decreases ls
  {
    if ls > 0 {
      NoShellsNoLevelsCount(rule, shells, i, ls - 1, v);
      NoShellsNoCompsCount(rule, shells, i, ls - 1, 2 * (ls - 1) + 1, v);
    }
  }

  lemma {:induction false} NoShellsNoCompsCount(rule: OffsetRule, shells: seq<Shell>, i: nat, l: nat, c: nat, v: int)
    requires c <= 2 * l + 1
    ensures CompsCount(rule, shells, 0, i, l, c, v) == 0
    decreases c
  {
    if c > 0 {
      NoShellsNoCompsCount(rule, shells, i, l, c - 1, v);
    }
  }

  /** One past the last basis function of shell `s`. */
  function End(s: Shell): (e: nat)
    ensures e > s.first
  {
    s.first + 2 * s.am + 1
  }

  /** The basis functions covered by the first `n` shells of a tiling. */
  function Covered(shells: seq<Shell>, n: nat): nat
    requires n <= |shells|
  {
    if n == 0 then 0 else End(shells[n - 1])
  }

  /** The shells, in order, cover the basis functions `0 .. nbf - 1`
      contiguously: each has `2l + 1` functions and starts where the
      previous one ends. */
  predicate Tiles(shells: seq<Shell>, nbf: nat)
  {
    && Covered(shells, |shells|) == nbf
    && forall k {:trigger Covered(shells, k)} :: 0 <= k < |shells| ==> shells[k].first == Covered(shells, k)
  }

  /** A full row places each function of its shell once and nothing else,
      under the corrected rule always and under the rule as written up to
      `l = 6`. */
  lemma RowCountIsOne(rule: OffsetRule, first: nat, l: nat, v: int)
    requires rule == Corrected || l <= 6
    ensures RowCount(rule, first, l, 2 * l + 1, v) == if first <= v < first + 2 * l + 1 then 1 else 0
  {
    RowIsPermutation(rule, first, l);
    PermutationCount(Row(rule, first, l, 2 * l + 1), first, first + 2 * l + 1);
    RowOcc(rule, first, l, 2 * l + 1, v);
  }

  /** The first `n` shells of a tiling, all reached by the loops, place each
      function they cover once and nothing else. */
  lemma {:induction false} PrefixCount(rule: OffsetRule, shells: seq<Shell>, n: nat, maxl: nat, natom: nat, v: int)
    requires n <= |shells| && forall k {:trigger Covered(shells, k)} :: 0 <= k < |shells| ==> shells[k].first == Covered(shells, k)
    requires forall k :: 0 <= k < |shells| ==>
      shells[k].center < natom && shells[k].am <= maxl && (rule == Corrected || shells[k].am <= 6)
    ensures MapCount(rule, shells, n, maxl, natom, v) == if 0 <= v < Covered(shells, n) then 1 else 0
    decreases n
  {
    if n == 0 {
      NoShellsNoCount(rule, shells, maxl, natom, v);
    } else {
      PrefixCount(rule, shells, n - 1, maxl, natom, v);
      BasisMapGrows(rule, shells, n - 1, maxl, natom, v);
      RowCountIsOne(rule, shells[n - 1].first, shells[n - 1].am, v);
    }
  }

  /** Under the same hypotheses, each value occurs in the map once when it
      is a basis function of the tiling and not at all otherwise. */
  lemma MapOccurrences(rule: OffsetRule, shells: seq<Shell>, maxl: nat, natom: nat, nbf: nat, v: int)
    requires Tiles(shells, nbf)
    requires forall k :: 0 <= k < |shells| ==>
      shells[k].center < natom && shells[k].am <= maxl && (rule == Corrected || shells[k].am <= 6)
    ensures Occ(BasisMap(rule, shells, |shells|, maxl, natom), v) == if 0 <= v < nbf then 1 else 0
  {
    PrefixCount(rule, shells, |shells|, maxl, natom, v);
    MapOcc(rule, shells, |shells|, maxl, natom, v);
  }

  /** When the shells tile the basis and the loops reach every atom and
      angular momentum, the map has `nbf` entries and is a permutation of
      `0 .. nbf - 1` (the solvers' `len(map) == nbf` and
      `sorted(map) == list(range(nbf))`), for the corrected rule always and
      for the rule as written as long as no shell has `l > 6`. */
  lemma BasisMapIsPermutation(rule: OffsetRule, shells: seq<Shell>, maxl: nat, natom: nat, nbf: nat)
    requires Tiles(shells, nbf)
    requires forall k :: 0 <= k < |shells| ==>
      shells[k].center < natom && shells[k].am <= maxl && (rule == Corrected || shells[k].am <= 6)
    ensures |BasisMap(rule, shells, |shells|, maxl, natom)| == nbf
    ensures PermutationOf(BasisMap(rule, shells, |shells|, maxl, natom), 0, nbf)
  {
    var m := BasisMap(rule, shells, |shells|, maxl, natom);
    forall v
      ensures Occ(m, v) == if 0 <= v < nbf then 1 else 0
    {
      MapOccurrences(rule, shells, maxl, natom, nbf, v);
    }
    PermutationCount(m, 0, nbf);
    PermutationLength(m, 0, nbf);
  }

  /** A permutation of `lo .. hi - 1` has its entries in that range and no
      two alike. */
  lemma PermutationIsDistinctBounded(s: seq<int>, lo: nat, hi: nat)
    requires PermutationOf(s, lo, hi)
    ensures Distinct(s) && forall i :: 0 <= i < |s| ==> lo <= s[i] < hi
  {
    forall i | 0 <= i < |s|
      ensures lo <= s[i] < hi
    {
      assert s[i] in multiset(s);
    }
    forall i, j | 0 <= i < j < |s|
      ensures s[i] != s[j]
    {
      RepeatedValue(s, i, j);
    }
  }

  /** A value at two positions of `s` has multiplicity at least two. */
  lemma RepeatedValue(s: seq<int>, i: nat, j: nat)
    requires i < j < |s|
    ensures s[i] == s[j] ==> multiset(s)[s[j]] >= 2
  {
    var front, back := s[..j], s[j..];
    assert s == front + back;
    assert s[i] == front[i] && s[j] == back[0];
    assert front[i] in multiset(front) && back[0] in multiset(back);
  }

  /** The check both solvers run on the finished map, `len(map) == nbf` and
      `sorted(map) == list(range(nbf))`, stated without sorting: `nbf`
      entries, each in range, no two alike. */
  predicate MapAccepted(order: seq<int>, nbf: nat)
  {
    && |order| == nbf
    && (forall i :: 0 <= i < |order| ==> 0 <= order[i] < nbf)
    && Distinct(order)
  }

  /** The check accepts exactly the maps of `nbf` entries that are a
      permutation of `0 .. nbf - 1`. */
  lemma MapAcceptedIsPermutation(order: seq<int>, nbf: nat)
    ensures MapAccepted(order, nbf) <==> |order| == nbf && PermutationOf(order, 0, nbf)
  {
    if MapAccepted(order, nbf) {
      DistinctBoundedIsPermutation(order, 0, nbf);
    }
    if |order| == nbf && PermutationOf(order, 0, nbf) {
      PermutationIsDistinctBounded(order, 0, nbf);
    }
  }

  /** A map the check accepts sends some position to every basis function. */
  lemma AcceptedMapIsOnto(order: seq<int>, nbf: nat, r: nat)
    requires MapAccepted(order, nbf) && r < nbf
    ensures exists i :: 0 <= i < |order| && order[i] == r
  {
    MapAcceptedIsPermutation(order, nbf);
    assert multiset(order)[r] == 1;
    assert r in order;
  }

  /** When every shell has `l <= 6`, tiles the basis and is reached by the
      loops, the map the solvers build passes their check. */
  lemma BuiltMapAccepted(shells: seq<Shell>, maxl: nat, natom: nat, nbf: nat)
    requires Tiles(shells, nbf)
    requires forall k :: 0 <= k < |shells| ==>
      shells[k].center < natom && shells[k].am <= maxl && shells[k].am <= 6
    ensures MapAccepted(BasisMap(AsWritten, shells, |shells|, maxl, natom), nbf)
  {
    BasisMapIsPermutation(AsWritten, shells, maxl, natom, nbf);
    MapAcceptedIsPermutation(BasisMap(AsWritten, shells, |shells|, maxl, natom), nbf);
  }

  /** The rule as written sends component 1 of an `l > 6` shell to offset
      `2l + 1`, one past the shell; the corrected rule is the reversal
      `2l - li`. */
  lemma HighShellOffsets(l: nat)
    requires l > 6
    ensures Offset(AsWritten, l, 1) == 2 * l + 1
    ensures forall li :: 0 <= li <= 2 * l ==> Offset(Corrected, l, li) == 2 * l - li
  {
  }

  /** A value at or above `hi` that occurs in `s` is an entry of `s` that
      keeps it from being a permutation of `0 .. hi - 1`. */
  lemma OutsideValue(s: seq<int>, hi: nat, v: int)
    requires Occ(s, v) > 0 && v >= hi
    ensures v in s && !PermutationOf(s, 0, hi)
  {
    OccIsMultiplicity(s, v);
  }

  /** A value at or above `hi` that the loops place keeps the map from being
      a permutation of `0 .. hi - 1`. */
  lemma PlacedOutside(rule: OffsetRule, shells: seq<Shell>, n: nat, maxl: nat, natom: nat, hi: nat, v: int)
    requires n <= |shells| && MapCount(rule, shells, n, maxl, natom, v) > 0 && v >= hi
    ensures v in BasisMap(rule, shells, n, maxl, natom)
    ensures !PermutationOf(BasisMap(rule, shells, n, maxl, natom), 0, hi)
  {
    MapOcc(rule, shells, n, maxl, natom, v);
    OutsideValue(BasisMap(rule, shells, n, maxl, natom), hi, v);
  }

  /** For a one-shell basis whose shell has `l > 6` and sits on an atom the
      loops reach, the rule as written places value `first + 2l + 1` at
      least once. */
  lemma AsWrittenCount(shells: seq<Shell>, maxl: nat, natom: nat, v: int)
    requires |shells| == 1 && shells[0].am > 6 && shells[0].center < natom && shells[0].am <= maxl
    requires v == shells[0].first + 2 * shells[0].am + 1
    ensures MapCount(AsWritten, shells, 1, maxl, natom, v) > 0
  {
    var s := shells[0];
    NoShellsNoCount(AsWritten, shells, maxl, natom, v);
    BasisMapGrows(AsWritten, shells, 0, maxl, natom, v);
    HighShellOffsets(s.am);
    RowCountPositive(AsWritten, s.first, s.am, 2 * s.am + 1, 1);
  }

  /** A single shell starting at 0 tiles its own `2l + 1` functions. */
  lemma SingleShellTiles(shells: seq<Shell>)
    requires |shells| == 1 && shells[0].first == 0
    ensures Tiles(shells, 2 * shells[0].am + 1)
  {
  }

  /** The rule as written breaks the permutation as soon as a shell has
      `l > 6`: for a basis of one such shell (functions `0 .. 2l`), component
      1 lands on position `2l + 1`, outside the basis, so the solvers'
      assertion fails. */
  lemma AsWrittenMapLeavesTheBasis(shells: seq<Shell>, maxl: nat, natom: nat)
    requires |shells| == 1 && shells[0].am > 6 && shells[0].first == 0
    requires shells[0].center < natom && shells[0].am <= maxl
    ensures Tiles(shells, 2 * shells[0].am + 1)
    ensures 2 * shells[0].am + 1 in BasisMap(AsWritten, shells, 1, maxl, natom)
    ensures !PermutationOf(BasisMap(AsWritten, shells, 1, maxl, natom), 0, 2 * shells[0].am + 1)
    ensures !MapAccepted(BasisMap(AsWritten, shells, 1, maxl, natom), 2 * shells[0].am + 1)
  {
    var hi := 2 * shells[0].am + 1;
    SingleShellTiles(shells);
    AsWrittenCount(shells, maxl, natom, hi);
    PlacedOutside(AsWritten, shells, 1, maxl, natom, hi, hi);
    MapAcceptedIsPermutation(BasisMap(AsWritten, shells, 1, maxl, natom), hi);
  }

  /** A row places the value of each of its components at least once. */
  lemma {:induction false} RowCountPositive(rule: OffsetRule, first: nat, l: nat, c: nat, li: nat)
    requires li < c <= 2 * l + 1
    ensures RowCount(rule, first, l, c, first + Offset(rule, l, li)) > 0
    decreases c
  {
    if li < c - 1 {
      RowCountPositive(rule, first, l, c - 1, li);
    }
  }

  /** The innermost loop of the map construction: for component `li`, the
      position of that component in every shell on atom `i` with angular
      momentum `l`, in shell order. */
  method ShellPass(shells: seq<Shell>, i: nat, l: nat, li: nat) returns (hits: seq<int>)
    requires li <= 2 * l
    ensures hits == Hits(AsWritten, shells, |shells|, i, l, li)
  {
    hits := [];
    var j := 0;
    while j < |shells|
      invariant j <= |shells| && hits == Hits(AsWritten, shells, j, i, l, li)
    {
      var s := shells[j];
      if s.center == i && s.am == l {
        var k := s.first;
        if l > 6 {
          var m := l - li / 2;
          k := k + 2 * m + li % 2;
        } else {
          k := k + LMap[l][li];
        }
        hits := hits + [k];
      }
      j := j + 1;
    }
  }

  /** The component loop for angular momentum `l` on atom `i`: the shell
      pass of each component `0 .. 2l` in turn. */
  method ComponentPass(shells: seq<Shell>, i: nat, l: nat) returns (comps: seq<int>)
    ensures comps == Comps(AsWritten, shells, |shells|, i, l, 2 * l + 1)
  {
    comps := [];
    var li := 0;
    while li < 2 * l + 1
      invariant li <= 2 * l + 1 && comps == Comps(AsWritten, shells, |shells|, i, l, li)
    {
      var hits := ShellPass(shells, i, l, li);
      comps := comps + hits;
      li := li + 1;
    }
  }

  /** The angular-momentum loop on atom `i`: the component loop of each
      `l = 0 .. maxl` in turn. */
  method AtomPass(shells: seq<Shell>, i: nat, maxl: nat) returns (levels: seq<int>)
    ensures levels == Levels(AsWritten, shells, |shells|, i, maxl + 1)
  {
    levels := [];
    var l := 0;
    while l <= maxl
      invariant l <= maxl + 1 && levels == Levels(AsWritten, shells, |shells|, i, l)
    {
      var comps := ComponentPass(shells, i, l);
      levels := levels + comps;
      l := l + 1;
    }
  }

  /** The map-building loops of both solvers: the positions of every atom's
      basis functions, atom by atom. */
  method BuildMap(shells: seq<Shell>, natom: nat, maxl: nat) returns (order: seq<int>)
    ensures order == BasisMap(AsWritten, shells, |shells|, maxl, natom)
  {
    order := [];
    var i := 0;
    while i < natom
      invariant i <= natom && order == BasisMap(AsWritten, shells, |shells|, maxl, i)
    {
      var levels := AtomPass(shells, i, maxl);
      order := order + levels;
      i := i + 1;
    }
  }
}
