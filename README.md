# psixas solvers: discrete core in Dafny

psixas is a psi4 plug-in for X-ray absorption work. It has two
unrestricted Kohn-Sham solvers:

- `DFTGroundState` (ksgs.py);
- `DFTExcitedState` (ksex.py), which runs a constrained excited-state SCF.

Around the numerical linear algebra, both solvers do discrete,
sequential bookkeeping. This project models that bookkeeping and proves
what it does. Matrix and overlap entries are `real`s. The model copies,
zeroes, compares and negates them, adds constants to them, and forms the
damped combination and the density's sums of products.

- **Constraints** (`constraints.dfy`, module `Constraints`). These are the
  orbital constraint records of the excited state:
  - spin validation and the reference column each record takes
    (`Setup`);
  - the overlap tracker, which follows the first orbital of largest
    absolute overlap (`Argmax`, `AbsAll`, `TrackOne`);
  - the occupation vector the constraints produce: aufbau filling, then
    one override per constraint in declaration order (`Overridden`,
    `LastAt`).
- **Fock edits** (`fock_edits.dfy`, module `FockEdits`). These act on a
  Fock matrix in the molecular-orbital basis:
  - freezing an orbital zeroes the off-diagonal part of its row and
    column;
  - the level shift adds `vshift` to the diagonal of empty virtual
    orbitals.

  Each is a function with its properties, plus an in-place method on an
  `array2`.
- **Excited-state bookkeeping** (`excited_state.dfy`, module
  `ExcitedState`). The class `ExcitedOrbitals` holds:
  - the constraint records;
  - the two occupation arrays;
  - the orbital-index variable of the freeze loop.

  Its methods are:
  - the initial tracking pass and the per-iteration tracking pass;
  - the occupation rebuild;
  - the freeze loop as written, and the freeze loop as evidently intended;
  - the level shift.
- **SCF control** (`scf_control.dfy`, `ground_state.dfy`,
  `excited_control.dfy`). This is the loop's state machine: the
  DAMP/DIIS mode, no mixing on iteration 1, damping, the convergence test
  and the fatal `maxiter`.
  - In the excited state, the first converged iteration switches the level
    shift off instead of stopping when `vshift` is not 0. With `vshift` = 0
    it stops, as the ground state does.
  - Each iteration's energy, freshly built Fock matrix and DIIS
    extrapolation are inputs.
  - `Scf` and `ExScf` are the loops themselves, carrying `MIXMODE`,
    `Eold`, `FaOld` and `vshift`. Each is proved equal to a recursive
    specification (`Run`, `ExRun`), and `RunSpec` and `ExRunSpec` state
    what that specification means.
  - `GroundState` also models:
    - the restart-or-core-guess choice;
    - the occupied block and its density;
    - the final aufbau occupations.
- **Legacy basis map** (`basis_map.dfy`, module `LegacyBasis`). This is the
  permutation of basis functions that both solvers build, in nested loops,
  before writing `OLDMOS`:
  - rows of the `lmap` table for `l <= 6`;
  - a closed-form rule above `l = 6`.

  The module proves:
  - when the map is a bijection on `0 .. nbf - 1` (the solvers' two
    `assert`s);
  - that the rule for `l > 6` breaks the bijection.
- **OLDMOS layout** (`oldmos.dfy`, module `OldMos`). This is the order in
  which the coefficients are written: alpha then beta, groups of four
  orbitals, one line per basis function in map order. The module proves
  where each coefficient ends up.

The solver-facing methods keep the code's behaviour where it looks wrong.
Each of these has a member that models the code as written and a
corrected member (see "## Findings").

Several definitions are specification functions whose meaning is stated by
lemmas about them rather than by their own contracts. Each is listed with
the rows below that state it:

- `ScfControl.NextMode`: `GroundState.RunFromMixes`, `GroundState.RunSpec`,
  `ExcitedControl.ExRunFromMixes` and `ExcitedControl.ExRunSpec`.
- `LegacyBasis.Offset`: `LegacyBasis.LMapRowsArePermutations`,
  `LegacyBasis.RowIsPermutation` and `LegacyBasis.HighShellOffsets`.
- `LegacyBasis.BasisMap`: `LegacyBasis.BasisMapIsPermutation` and
  `LegacyBasis.BuildMap`.
- `LegacyBasis.MapAccepted`: `LegacyBasis.MapAcceptedIsPermutation`.
- `OldMos.Blocks` and `OldMos.Dump`: `OldMos.DumpLength`, `OldMos.BlocksAt`,
  `OldMos.CoefficientPlacement` and `OldMos.WriteMatrix`.
- `Common.Aufbau`: `Common.AufbauTotal`.
- `ExcitedControl.ShiftBefore`: `ExcitedControl.ShiftBeforeMeans`.

## Model

| member | source | states |
|---|---|---|
| Common.Aufbau | ksgs.py:255-259 | the occupation vector has one entry per orbital, whatever the electron count |
| Common.AufbauTotal | ksgs.py:255-259 | entry c of the aufbau vector is 1 when c < nocc and 0 otherwise, and the entries sum to min(n, nocc) |
| Common.ColumnEntries | ksex.py:46-52 | entry i of the column taken as a record's reference coefficients is C[i][orb] |
| ScfControl.MixFor | ksgs.py:165-172 | an iteration goes on with the unmixed Fock exactly on iteration 1, with the DIIS extrapolation exactly on later iterations in DIIS mode, and is damped otherwise |
| ScfControl.Damping | ksgs.py:169-172 | damping yields a matrix of the same shape |
| ScfControl.DampIsConvex | ksex.py:268-271 | for 0 <= gamma <= 1 every damped entry lies between the new and the previous entry, and gamma = 0 keeps the new matrix |
| ScfControl.Mixed | ksgs.py:165-172 | the Fock matrix chosen by the mixing kind keeps the shape of the built matrix |
| ScfControl.Delta | ksgs.py:238-243 | the residual tested against diis_eps and E_conv is non-negative |
| ScfControl.MixStep | ksex.py:264-271 | one mixing step extends the Fock matrices the run went on with: unmixed first, then the extrapolation or the damped combination with the previous matrix |
| GroundState.InitialOrbitals | ksgs.py:75-95 | the archive's Ca and Cb are used exactly when the archive's (or the empty stand-in's) Ca is nbf by nbf, otherwise both spins start from the core-Hamiltonian guess |
| GroundState.Occupied | ksgs.py:84-86 | the occupied block is the nbf by nocc matrix of the first nocc columns |
| GroundState.Density | ksgs.py:213-220 | the density of an nbf by k block is nbf by nbf |
| GroundState.DensitySymmetric | ksgs.py:213-220 | D = Cocc Cocc^T is symmetric |
| GroundState.DensityIgnoresVirtuals | ksgs.py:213-220 | orbitals that agree in their first nocc columns give the same density |
| GroundState.FinalOccupations | ksgs.py:255-259 | final occupation c is 1 if c < nalpha (nbeta) and 0 otherwise, with min(nbf, nalpha) (min(nbf, nbeta)) electrons in total |
| GroundState.RunFrom | ksgs.py:243-250 | a run from iteration iter converges at an iteration from iter to maxiter, fails only when iter <= maxiter, records one mixing per executed iteration and starts with the mixing of its mode |
| GroundState.Run | ksgs.py:126-127 | a run executes at most maxiter iterations, one mixing each, and the first is unmixed |
| GroundState.RunFromStep | ksgs.py:238-250 | one iteration records its mixing, then converges with its energy, fails at maxiter, or leaves the rest of the run to the next iteration in the mode the residual selects with Eold = E |
| GroundState.Scf | ksgs.py:126-250 | the loop produces exactly the specified run, and the Fock matrices it goes on with follow that run's mixings |
| GroundState.RunFromStops | ksgs.py:243-250 | the run converges at the first iteration whose residual is below E_conv, with that iteration's energy, and fails at maxiter only when no iteration has such a residual |
| GroundState.RunFromMixes | ksgs.py:238-241 | every iteration mixes by the mode that the previous residual selected |
| GroundState.RunSpec | ksgs.py:126-250 | iteration 1 is unmixed; a later iteration uses DIIS iff the previous residual was below diis_eps and damping otherwise; the run converges iff some residual up to maxiter is below E_conv, and then at the first one with its energy; it never runs iff maxiter = 0 |
| ExcitedControl.ExRunFrom | ksex.py:380-400 | an excited-state run from iteration iter converges between iter and maxiter, fails only when iter <= maxiter, records one mixing and one shift per executed iteration and starts with the mixing of its mode |
| ExcitedControl.ExRun | ksex.py:180-181 | an excited-state run executes at most maxiter iterations, one mixing and one shift each, and the first is unmixed |
| ExcitedControl.ExRunFromStep | ksex.py:380-400 | one iteration records its mixing and shift, then stops only if the residual is below E_conv while the shift is off, fails at maxiter, or leaves the rest of the run to the next iteration, with the shift switched off if the residual was below E_conv |
| ExcitedControl.ExRunFromGoesOn | ksex.py:386-394 | an iteration that neither stops nor reaches maxiter is followed by the run from the next iteration in the state it leaves |
| ExcitedControl.ExScfStep | ksex.py:380-400 | the same step stated for the whole run the loop is building |
| ExcitedControl.ExScf | ksex.py:180-400 | the loop produces exactly the specified excited-state run, and the Fock matrices it goes on with follow that run's mixings |
| ExcitedControl.ShiftBefore | ksex.py:386-391 | the shift in force at any iteration is either the configured vshift or 0 |
| ExcitedControl.ShiftBeforeMeans | ksex.py:386-391 | the shift in force at iteration j is 0 when some earlier iteration had a residual below E_conv, and the configured vshift otherwise |
| ExcitedControl.ExRunFromShifts | ksex.py:386-391 | each executed iteration runs with the shift in force at that point |
| ExcitedControl.ExRunFromConverges | ksex.py:386-391 | a converged run stops at the first iteration whose residual is below E_conv while the shift is off, with that iteration's energy |
| ExcitedControl.ExRunFromExhausts | ksex.py:398-400 | a run that fails at maxiter had no iteration that could stop it |
| ExcitedControl.ExRunFromMixes | ksex.py:264-271 | every iteration mixes by the mode that the previous residual selected, whatever the shift |
| ExcitedControl.ExRunSpec | ksex.py:180-400 | iteration 1 is unmixed with the configured shift; the mixing is that of the ground state; iteration j has the configured shift until an earlier residual fell below E_conv and 0 from then on; the run converges iff some iteration up to maxiter has a residual below E_conv with the shift off, and then at the first one with its energy; it never runs iff maxiter = 0 |
| ExcitedControl.ShiftsSwitchOffOnce | ksex.py:386-391 | the shift takes only the configured value or 0, and once 0 it stays 0 |
| ExcitedControl.NoShiftIsGroundState | ksex.py:386-391 | with vshift = 0 the excited-state loop makes the same mixings and ends the same way as the ground-state loop, with every shift 0 |
| Constraints.SpinOf | ksex.py:47-52 | "b" names beta, "a" names alpha, and every other label is invalid |
| Constraints.Setup | ksex.py:46-52 | setup succeeds iff every record has spin "a" or "b" and an orbital inside the matrix; then each record keeps its declared fields and takes the column of its own spin's coefficients; otherwise the first offending record is reported, with the reason |
| Constraints.Argmax | ksex.py:113-115 | np.argmax gives an index of a largest entry, and no earlier index holds that value |
| Constraints.AbsAll | ksex.py:112 | every overlap becomes non-negative with the same magnitude |
| Constraints.TrackOne | ksex.py:331-339 | with tracking on, the record moves to the first orbital of largest overlap and records that overlap; with tracking off it keeps its orbital and records the overlap there; nothing else changes |
| Constraints.Overridden | ksex.py:325-355 | the overridden occupation vector has the length of the base vector |
| Constraints.LastAt | ksex.py:325-355 | finds the last constraint of a spin on an orbital, or reports that there is none |
| Constraints.OverriddenAt | ksex.py:325-355 | each occupation is the target of the last constraint of that spin on that orbital, and the base occupation where there is none |
| Constraints.RebuiltOccupations | ksex.py:318-355 | after the rebuild from aufbau, occ[c] is the target of the last constraint of that spin now on c, and otherwise 1 if c < nocc and 0 if not |
| FockEdits.Frozen | ksex.py:226-229 | a frozen matrix stays square of the same size |
| FockEdits.Shifted | ksex.py:238-241 | a shifted matrix stays square of the same size |
| FockEdits.FrozenDecouples | ksex.py:226-229 | freezing idx zeroes F[idx][j] and F[j][idx] for every j != idx, and keeps F[idx][idx] and every entry outside row and column idx |
| FockEdits.FrozenIdempotent | ksex.py:226-229 | freezing the same orbital twice is freezing it once |
| FockEdits.FrozenCommute | ksex.py:222-234 | freezing two orbitals gives the same matrix in either order |
| FockEdits.ShiftedOnlySelectedDiagonal | ksex.py:238-241 | the shift adds exactly vshift to F[c][c] for every c with occ[c] == 0 and c >= nocc, and changes no other entry |
| FockEdits.ShiftedByZero | ksex.py:238-241 | a zero shift leaves the matrix unchanged |
| FockEdits.FreezeShiftCommute | ksex.py:222-241 | freezing and shifting commute |
| FockEdits.Freeze | ksex.py:226-229 | the four slice assignments leave the array equal to the frozen matrix |
| FockEdits.LevelShift | ksex.py:238-241 | the in-place shift leaves the array equal to the shifted matrix |
| ExcitedState.FreezeFrom | ksex.py:222-234 | the freeze loop as written keeps both matrices nbf by nbf and its index variable in range |
| ExcitedState.FrozenFrom | ksex.py:222-234 | the intended freeze keeps the matrix nbf by nbf |
| ExcitedState.FrozenFromEntries | ksex.py:222-234 | the intended freeze zeroes exactly the off-diagonal entries in the row or column of a frozen orbital of that spin, and keeps all other entries |
| ExcitedState.FreezeFromBeta | ksex.py:224-229 | when the loop as written completes, the beta matrix is frozen exactly at the frozen beta orbitals |
| ExcitedState.AlphaFreezeWithoutIndexFails | ksex.py:230-234 | a frozen alpha constraint with no earlier frozen beta one makes the loop as written fail, although the intended freeze is defined |
| ExcitedState.AlphaFreezeUsesBetaIndex | ksex.py:225-234 | the loop as written freezes the alpha matrix at the beta constraint's orbital instead of the alpha constraint's own |
| ExcitedState.IndexAtMeans | ksex.py:222-225 | the index in force at a record is the orbital of the last frozen beta record before it, or the value the loop entered with when there is none |
| ExcitedState.FreezeFromFails | ksex.py:222-234 | the loop as written fails exactly when it enters with no index and some frozen alpha record comes before every frozen beta record |
| ExcitedState.FreezeFromIndexAt | ksex.py:222-234 | on success the index left behind is the one in force after the last record |
| ExcitedState.FreezeFromIndex | ksex.py:222-234 | on success the index left behind is the orbital of the last frozen beta record, or the entry value when there is none |
| ExcitedState.FreezeFromAlphaEntries | ksex.py:222-234 | on success an alpha entry off the diagonal is 0 exactly when its row or column is the index in force at some frozen alpha record, and every other alpha entry keeps its value |
| ExcitedState.ExcitedOrbitals.constructor | ksex.py:95-99 | records as set up, index variable unset, and aufbau occupations for nalpha and nbeta |
| ExcitedState.ExcitedOrbitals.ResetOccupations | ksex.py:318-322 | both occupation arrays become the aufbau vectors |
| ExcitedState.ExcitedOrbitals.Occupy | ksex.py:341-355 | setting a constraint's target in its own spin's array extends the overridden occupations by that constraint and leaves the other array alone |
| ExcitedState.ExcitedOrbitals.Track | ksex.py:107-136 | every record, in order, is tracked against its overlaps, and each array becomes its previous content overridden by the tracked records of its spin |
| ExcitedState.ExcitedOrbitals.SetOccupations | ksex.py:318-355 | records are tracked only where they ask to be; occ[c] is the target of the last constraint of that spin now on c, and otherwise aufbau |
| ExcitedState.ExcitedOrbitals.FreezeOrbitals | ksex.py:222-234 | the in-place loop fails exactly when the loop as written does, and otherwise leaves both matrices and the index variable as the loop as written does |
| ExcitedState.ExcitedOrbitals.FreezeOrbitalsIntended | ksex.py:222-234 | each spin's matrix is frozen at exactly the frozen orbitals of that spin |
| ExcitedState.ExcitedOrbitals.ShiftVirtuals | ksex.py:238-241 | both matrices are shifted at the empty orbitals at or above the aufbau count of their spin |
| LegacyBasis.LMapRowIsDistinct | ksex.py:461-467 | row l of the table has 2l + 1 distinct entries below 2l + 1 |
| LegacyBasis.LMapRowsArePermutations | ksex.py:461-467 | every row l of the table is a permutation of 0 .. 2l |
| LegacyBasis.RowIsPermutation | ksex.py:476-480 | for one shell, the offsets of its 2l + 1 components are a permutation of its functions, under the table and under the corrected rule for l > 6 |
| LegacyBasis.PrefixCount | ksex.py:469-481 | the first n shells of a tiling place each function they cover once and nothing else |
| LegacyBasis.MapOccurrences | ksex.py:469-481 | every basis function occurs once in the map and no other value occurs |
| LegacyBasis.BasisMapIsPermutation | ksex.py:469-484 | for shells tiling the basis, all reached by the loops, the map has nbf entries and is a permutation of 0 .. nbf - 1, for the corrected rule always and for the rule as written when no shell has l > 6 (ksgs.py:303-318 builds and checks the same map) |
| LegacyBasis.MapAcceptedIsPermutation | ksex.py:483-484 | len(map) == nbf and sorted(map) == range(nbf) hold iff the map is a permutation of 0 .. nbf - 1 |
| LegacyBasis.AcceptedMapIsOnto | ksex.py:483-484 | an accepted map sends some position to every basis function |
| LegacyBasis.BuiltMapAccepted | ksex.py:469-484 | the map the loops build passes both assertions for any tiling with l <= 6 |
| LegacyBasis.HighShellOffsets | ksex.py:476-478 | the rule as written puts component 1 of an l > 6 shell at offset 2l + 1, while the corrected rule is 2l - li |
| LegacyBasis.AsWrittenMapLeavesTheBasis | ksex.py:469-484 | for one shell with l > 6, the built map holds 2l + 1, is no permutation of the basis, and fails the assertions |
| LegacyBasis.ShellPass | ksex.py:472-481 | the innermost loop appends, in shell order, the position of component li of every shell of that atom and l |
| LegacyBasis.ComponentPass | ksex.py:471-481 | the component loop is the shell pass of each component 0 .. 2l in turn |
| LegacyBasis.AtomPass | ksex.py:470-481 | the angular-momentum loop is the component loop of each l = 0 .. maxl in turn |
| LegacyBasis.BuildMap | ksex.py:469-481 | the nested loops build exactly the map, atom by atom (the same loops are at ksgs.py:303-315) |
| OldMos.Groups | ksex.py:488 | the groups starting at 0, 4, 8, ... below nbf are the fewest groups of four that hold nbf orbitals |
| OldMos.Line | ksex.py:490-491 | a line holds four coefficients, or those up to the last orbital, without passing nbf |
| OldMos.Block | ksex.py:489-492 | a group has one line per basis function |
| OldMos.DumpLength | ksex.py:486-492 | the file has 2 * ceil(nbf / 4) * nbf lines |
| OldMos.BlocksAt | ksex.py:488-492 | line q * nbf + i of a spin's half is the line of basis function i in group q |
| OldMos.CoefficientPlacement | ksex.py:486-492 | C[map[i]][j] is entry j % 4 of line (j / 4) * nbf + i, with the beta half starting after the ceil(nbf / 4) * nbf alpha lines |
| OldMos.EveryCoefficientWritten | ksex.py:483-492 | with an accepted map, every coefficient of both matrices is written, on the line of the basis function that the map sends to its row |
| OldMos.WriteLine | ksex.py:490-491 | the innermost loop writes exactly the line |
| OldMos.WriteBlock | ksex.py:489-492 | the basis-function loop writes exactly the group |
| OldMos.WriteMatrix | ksex.py:488-492 | the group loop writes exactly every group of one matrix |
| OldMos.WriteOldMos | ksex.py:483-492 | nothing is written iff the map fails the check; otherwise the alpha then beta groups are written (the same check and dump are at ksgs.py:317-326) |

## Left out

- **psi4 calls.** These cover the integrals, J/K builds, the XC potential
  and quadrature, basis-set construction, `UHF` and `MoldenWriter`. They
  are foreign code.
- **`diag_H`, `DIIS_helper` and `Timer`.** They come from kshelper.py,
  which is not part of this model.
  - Diagonalisation results are parameters (`coreGuess`).
  - Each iteration's built Fock matrix, DIIS extrapolation and overlap
    vector are inputs.
- **The energy evaluation** (ksgs.py:183-201, ksex.py:283-300). It is
  floating-point summation, so each iteration's energy is an input. The
  ground-state version adds `Da * H` twice; that is not modelled.
- **Numerical linear algebra:**
  - the AO/MO transforms;
  - the matrix inverse;
  - `S^-1/2`;
  - the DIIS commutator error;
  - the `sqrt(occ)` column scaling (ksex.py:138-144, 358-363).

  The density is modelled for the ground state only (`Occupied`,
  `Density`).
- **File I/O:**
  - `np.load` / `np.savez`, GENBAS, molden files and `JFSGUESS`;
  - the `%30.20e` formatting of `OLDMOS` (a line is the sequence of its
    coefficients);
  - every `print_out` / `print` line, including the final occupation
    table and the excitation energy (ksex.py:402-421).

  The archive's contents are a parameter of `InitialOrbitals`.
- **The excited-state restart branch** (ksex.py:31). It is dead
  (`and False`), so the solver always reads the ground-state orbitals.
  That read is I/O.
- **The per-iteration pipeline** (build, freeze, shift, mix, diagonalise,
  rebuild occupations) is not composed into one method. Each step is
  modelled and proved on its own, connected through the inputs.
- **Inputs the model treats as well formed:**
  - Coefficient matrices are taken to be `nbf` by `nbf`.
  - Orbital indices are natural numbers. Python's negative indices are
    not modelled.
  - The excited state sizes its occupation vectors by `Ca.shape[0]`,
    which is taken to be `nbf`.
- ExScf, Scf: they track a single spin channel's Fock matrix. The beta
  channel is handled identically and is not repeated.
- **Failures of the run.** An exception raised by the run is an outcome
  (`MaxIterExceeded`, `None`, `Err`). The undefined `clean()` before it
  (ksgs.py:249) is modelled only as that failure.
- ExcitedOrbitals.Track, ExcitedOrbitals.SetOccupations: the overlap
  vectors (the `einsum` against `S`) are inputs, one per record, already
  signed. The model applies `abs` and `argmax` itself.
- LegacyBasis.BuildMap: it keeps the rule as written, because the solvers
  do. The corrected rule is proved correct (`BasisMapIsPermutation`) but
  is not substituted into the loops.
- ExcitedOrbitals.FreezeOrbitals: it keeps the code's stale index, which
  persists across iterations. `FreezeOrbitalsIntended` is the corrected
  loop beside it.
- **Map entries** are `int`s. The map check is stated without sorting:
  `MapAccepted` is proved equivalent to "`nbf` entries forming a
  permutation of `0 .. nbf - 1`".
- GroundState.Occupied: it requires `nocc <= nbf` (every row has at least `nocc`
  columns). In the source the slice `Ca[:, :nalpha]` is clamped to `nbf`
  columns when `nalpha > nbf`. It then no longer fits the `nbf` by `nalpha`
  `Cocca` (ksgs.py:73, 84, 90), and for `nbf > 1` the assignment raises.
  The model does not carry that failure.
- **A loop that never runs** (`maxiter == 0`) leaves the name the code
  reads after the loop unbound. This is the `NoIterations` outcome.

## Findings

| source | as written | input that shows it | evidently intended | confidence | as-written member | corrected member |
|---|---|---|---|---|---|---|
| ksex.py:230-234 | the alpha branch of the freeze loop never sets `idx`, so it freezes whatever orbital the variable last held, or fails if it was never set | a frozen beta constraint on orbital 1, then a frozen alpha constraint on orbital 0, on 3 by 3 all-ones matrices: the alpha matrix is frozen at orbital 1 and entry (0, 2) stays 1 | set `idx = i["orb"]` in the alpha branch too, so each constraint freezes its own orbital | not executed | ExcitedState.AlphaFreezeUsesBetaIndex | ExcitedState.ExcitedOrbitals.FreezeOrbitalsIntended |
| ksex.py:230-234 | with no earlier frozen beta constraint, the alpha branch reads `idx` before any assignment | one frozen alpha constraint on orbital 0 of a 1 by 1 basis: the loop as written fails | the alpha constraint freezes its own orbital | not executed | ExcitedState.AlphaFreezeWithoutIndexFails | ExcitedState.FrozenFromEntries |
| ksex.py:476-478 | above `l = 6` the component offset is `2*(l - li//2) + li%2`, which gives `2l + 1` at `li = 1`, one past the shell (the same code is at ksgs.py:310-312) | a basis of one `l = 7` shell (functions 0 .. 14): the map holds 15 and the assertion `sorted(map) == list(range(nbf))` fails | a permutation of the shell's functions, e.g. subtracting the parity: `2*(l - li//2) - li%2 = 2l - li` | not executed | LegacyBasis.AsWrittenMapLeavesTheBasis | LegacyBasis.BasisMapIsPermutation |
