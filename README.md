# skdiff comparison core, modelled in Dafny

`skdiff` reads two Slater-Koster (SK) files and reports how far apart their
numbers are. This project models the two comparison routines of
`sktools/src/sktools/scripts/skdiff.py`. Each takes the already parsed
records of both files as inputs.

- `compare_atomic_data` sees the onsite energies, Hubbard U values and
  occupations of a homonuclear file, one number per shell. For each of the
  three quantities it reports the largest absolute difference and the shell
  where it lies. It also always reports the Hubbard U difference of the last
  shell.
- `compare_integral_tables` sees the grid spacing `dr`, the number `nr` of
  grid points and the Hamiltonian and Overlap tables. It rejects files whose
  spacings differ by more than 1e-8. It rejects a skip count `nstart` larger
  than the shorter `nr`. Otherwise it compares rows `[nstart, nr)` of both
  tables through `||A| - |B||`, which ignores signs. For each table it reports
  the largest deviation and its cell: 0-based `(row + nstart, col)` for the
  Hamiltonian and 1-based `(row + nstart + 1, col + 1)` for the Overlap.

`skdiff.py` prints its reports. Here each routine is a pure function that
returns them as a value: an `AtomicReport`, or a `TableOutcome` that is one of
`IncompatibleGrid`, `TablesTooShort`, `EmptyWindow` or `Compared(hamiltonian,
overlap)`. The model uses exact reals and unbounded integers.

Files:

- `numpy_ops.dfy` (module `NumPyOps`) models the NumPy operations the script
  calls. `np.argmax` is a left-to-right scan that moves only on a strictly
  larger value, so the first occurrence of the maximum wins. The 2-D argmax
  is the 1-D argmax of the row-major flattening, unravelled back to
  `(row, col)`, which is what NumPy does.
- `skdiff.dfy` (module `SkDiff`) holds the data model and the two comparisons.
  `IsShellMax`, `IsWindowMax` and `IsTableOutcome` state independently what a
  correct report is.
- `skdiff_properties.dfy` (module `SkDiffProperties`) holds lemmas relating
  several calls. Reports are unique, swapping the files changes nothing, the
  table report ignores signs and skipped rows, identical inputs report zero,
  the Overlap indices are the Hamiltonian's plus one, and both guards are
  strict comparisons.

The guard at line 65 is strict: with `nstart == nr`, `nstart > nr` is false
and the call goes on. The window is then empty, and `np.argmax` raises
`ValueError` (line 72). The model returns `EmptyWindow` for this case rather
than `TablesTooShort`.

## Model

| member | source | states |
|---|---|---|
| NumPyOps.Abs | sktools/src/sktools/scripts/skdiff.py:45-52 | `abs` returns a non-negative value equal to `x` or `-x` |
| NumPyOps.ArgMax | sktools/src/sktools/scripts/skdiff.py:46-53 | the argmax index is in range, holds a value at least every other, and every earlier index holds a strictly smaller value (first occurrence wins) |
| NumPyOps.ArgMaxUnique | sktools/src/sktools/scripts/skdiff.py:46-53 | at most one index is the first position of the maximum, so the argmax is fully determined |
| NumPyOps.Flatten | sktools/src/sktools/scripts/skdiff.py:72 | the C-order flattening inside `np.argmax` holds exactly the entries of the rows of the array |
| NumPyOps.FlattenLength | sktools/src/sktools/scripts/skdiff.py:72 | flattening an `n`-by-`w` array gives `n * w` entries |
| NumPyOps.FlattenIndex | sktools/src/sktools/scripts/skdiff.py:72-73 | in row-major flattening, cell `(i, j)` sits at flat position `i * w + j` |
| NumPyOps.RowMajorOrder | sktools/src/sktools/scripts/skdiff.py:72-73 | a cell before another in row-major order has a smaller flat position |
| NumPyOps.UnravelIndex | sktools/src/sktools/scripts/skdiff.py:73 | `unravel_index` gives a column below the width, and `row * w + col` is the flat position |
| NumPyOps.ArgMax2D | sktools/src/sktools/scripts/skdiff.py:72-73 | argmax plus unravel on a 2-D array gives an in-bounds cell at least every cell, and every cell before it in row-major order is strictly smaller |
| SkDiff.ShellDiffs | sktools/src/sktools/scripts/skdiff.py:45-52 | `abs(sk1.x - sk2.x)` has one non-negative entry per shell, equal to the difference of the two values in one order or the other |
| SkDiff.MaxShellDeviation | sktools/src/sktools/scripts/skdiff.py:45-47 | the reported deviation is `abs(x[i] - y[i])` at the reported shell `i`, no shell deviates more, and every earlier shell deviates strictly less |
| SkDiff.CompareAtomicData | sktools/src/sktools/scripts/skdiff.py:42-54 | the onsite, Hubbard and occupation lines each meet that characterisation, and "Hubbard (s)" is the Hubbard deviation of the last shell, wherever the maximum lies |
| SkDiff.Min | sktools/src/sktools/scripts/skdiff.py:64 | `min(sk1.nr, sk2.nr)` is at most both row counts and equals one of them |
| SkDiff.CellDiff | sktools/src/sktools/scripts/skdiff.py:69-79 | the deviation of one cell, `abs(abs(A) - abs(B))`, is non-negative and zero exactly when both entries have the same magnitude |
| SkDiff.DiffTable | sktools/src/sktools/scripts/skdiff.py:69-79 | the difference table has the shape of its inputs and holds the cell deviation at every position |
| SkDiff.WindowCell | sktools/src/sktools/scripts/skdiff.py:69-70 | cell `(i - nstart, j)` of the windowed difference table is `abs(abs(A[i][j]) - abs(B[i][j]))` of the full tables |
| SkDiff.WindowMax | sktools/src/sktools/scripts/skdiff.py:69-73 | `hamdiff[maxinds]` with `maxinds` counted from the window start picks, in full-table rows, a cell of rows `[nstart, nr)` that no cell of the window exceeds, with every earlier cell in row-major order strictly smaller |
| SkDiff.HamiltonianLine | sktools/src/sktools/scripts/skdiff.py:69-76 | the Hamiltonian line reports the window maximum at `(localRow + nstart, localCol)`, 0-based |
| SkDiff.OverlapLine | sktools/src/sktools/scripts/skdiff.py:78-84 | the Overlap line reports the window maximum at `(localRow + nstart + 1, localCol + 1)`, 1-based |
| SkDiff.CompareIntegralTables | sktools/src/sktools/scripts/skdiff.py:57-84 | the grid check rejects exactly when `abs(dr1 - dr2) > 1e-8`; otherwise the skip check rejects exactly when `nstart > min(nr1, nr2)`; `nstart == nr` is the empty-window error; otherwise both lines name their table's window maximum with the two index conventions |
| SkDiffProperties.IsShellMaxUnique | sktools/src/sktools/scripts/skdiff.py:45-54 | at most one deviation meets the atomic characterisation, so each atomic line is fully determined |
| SkDiffProperties.ShellMaxSwap | sktools/src/sktools/scripts/skdiff.py:45-54 | the atomic characterisation does not depend on which record comes first |
| SkDiffProperties.AtomicReportSymmetric | sktools/src/sktools/scripts/skdiff.py:42-54 | swapping the two files leaves the whole atomic report unchanged |
| SkDiffProperties.IdenticalAtomicDataReportZero | sktools/src/sktools/scripts/skdiff.py:42-54 | comparing a record with itself reports 0 at shell 0 on every line, and 0 for the last shell |
| SkDiffProperties.OnsiteExample | sktools/src/sktools/scripts/skdiff.py:45-47 | onsites `[1, 2, 3]` against `[1, 2.5, 2.9]` report 0.5 at shell 1 |
| SkDiffProperties.IsWindowMaxUnique | sktools/src/sktools/scripts/skdiff.py:72-73 | at most one cell of a window is its maximum under the row-major first-occurrence rule |
| SkDiffProperties.IsTableOutcomeUnique | sktools/src/sktools/scripts/skdiff.py:57-84 | at most one outcome meets the table characterisation, so the table comparison is fully determined |
| SkDiffProperties.WindowMaxTransfer | sktools/src/sktools/scripts/skdiff.py:69-73 | tables whose cells deviate alike over the window have the same window maximum |
| SkDiffProperties.OutcomeTransfer | sktools/src/sktools/scripts/skdiff.py:57-84 | files with the same spacing difference, the same shorter `nr` and alike window deviations admit the same outcome |
| SkDiffProperties.SameMagnitudesSameDiffs | sktools/src/sktools/scripts/skdiff.py:69-70 | entries of equal magnitude give equal sign-insensitive deviations |
| SkDiffProperties.WindowMagnitudesDetermineOutcome | sktools/src/sktools/scripts/skdiff.py:57-84 | the table outcome depends only on the spacings, the row counts and the magnitudes of the entries in rows `[nstart, nr)` |
| SkDiffProperties.SignFlippedMagnitudes | sktools/src/sktools/scripts/skdiff.py:69-70 | negating entries keeps the table's shape and the magnitude of every entry |
| SkDiffProperties.SignInsensitive | sktools/src/sktools/scripts/skdiff.py:69-84 | negating any entries of either file's tables leaves every reported value and position unchanged |
| SkDiffProperties.SkippedRowsIgnored | sktools/src/sktools/scripts/skdiff.py:64-73 | changing rows before `nstart` never changes the table report, so a deviation planted in a skipped row is never reported |
| SkDiffProperties.SwappedDiffs | sktools/src/sktools/scripts/skdiff.py:69-70 | `abs(abs(a) - abs(b))` is symmetric in the two tables |
| SkDiffProperties.TableReportSymmetric | sktools/src/sktools/scripts/skdiff.py:57-84 | swapping the two files leaves the table outcome unchanged |
| SkDiffProperties.IdenticalTablesReportZero | sktools/src/sktools/scripts/skdiff.py:57-84 | comparing tables with themselves reports 0 at `(nstart, 0)` for the Hamiltonian and at `(nstart + 1, 1)` for the Overlap |
| SkDiffProperties.OverlapIndicesShiftedByOne | sktools/src/sktools/scripts/skdiff.py:75-84 | when the Overlap windows hold the magnitudes of the Hamiltonian windows, the Overlap line reports the Hamiltonian's value at its row plus one and its column plus one |
| SkDiffProperties.GridToleranceBoundary | sktools/src/sktools/scripts/skdiff.py:60-62 | spacings exactly 1e-8 apart (0.1 and 0.10000001) are compared, and 0.1 and 0.10000002 are rejected |
| SkDiffProperties.SkipCountBoundary | sktools/src/sktools/scripts/skdiff.py:64-72 | skipping exactly `nr` rows passes the guard and hits the empty-window error, and skipping `nr + 1` is "too short" |

## Left out

- `parseargs` and `main` (skdiff.py:20-39, 87-101) are argument parsing and wiring. They are not modelled, and the `--atomic` and `--skip` values become the caller's choice and the `nstart` parameter.
- `OldSKFile.fromfile` (skdiff.py:92-93) is file parsing in a module that is not part of this model. The parsed arrays and scalars are inputs.
- Printing is left out: the `{:12.3e}` and column-width formats, the section headings, and the text of the two notices. The incompatible-grid notice (line 61) prints unfilled `{:.3f}` placeholders, so `IncompatibleGrid` carries no values.
- IEEE double rounding and NaN handling are left out, because values are exact reals. In floating point, `abs(0.1 - 0.10000001)` need not be exactly `1e-8`, and `np.argmax` returns the first NaN.
- Negative `nstart` is left out (`nstart` is a `nat`). Python slicing with a negative start counts from the end.
- CompareIntegralTables: requires `IntegralTables.Valid` of both files and equal channel counts. This excludes tables with fewer stored rows than `nr`, rows of unequal width, zero channels and files with different channel counts. NumPy would silently truncate the slice, raise on an empty argmax, or broadcast or raise on a shape mismatch.
- CompareAtomicData: requires each quantity to have the same, non-zero number of shells in both records. On unequal lengths NumPy broadcasts (length 1) or raises. On empty arrays `np.argmax` and `hubbu_diffs[-1]` raise. The SK file format fixes the shell count.
