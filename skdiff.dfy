/**
 The comparison core of `skdiff`: given the parsed contents of two
 Slater-Koster files, report the largest deviations between their atomic
 data (onsite energies, Hubbard U values, occupations) and between their
 Hamiltonian and Overlap integral tables.

 `skdiff.py` prints its reports; here each comparison returns them as values.
 */
module SkDiff {
  import opened NumPyOps

  /** Largest difference of the two grid spacings that still counts as the
      same grid (1e-8, compared with a strict `>`). */
  const GridTolerance: real := 0.00000001

  /** The atomic data of a homonuclear SK-file, one entry per shell. */
  datatype AtomicData = AtomicData(onsites: seq<real>, hubbardUs: seq<real>, occupations: seq<real>)

  /** The integral tables of an SK-file: grid spacing `dr`, the number `nr` of
      populated grid points, and the Hamiltonian and Overlap tables, each an
      array with one row per grid point and `channels` columns. */
  datatype IntegralTables = IntegralTables(
    dr: real,
    nr: nat,
    channels: nat,
    hamiltonian: seq<seq<real>>,
    overlap: seq<seq<real>>)
  {
    /** Both tables are `channels` columns wide, hold at least `nr` rows and
        have at least one channel. */
    ghost predicate Valid()
    {
      && channels > 0
      && nr <= |hamiltonian| && IsMatrix(hamiltonian, channels)
      && nr <= |overlap| && IsMatrix(overlap, channels)
    }
  }

  /** The largest deviation of one atomic quantity and the shell it occurs at. */
  datatype Deviation = Deviation(value: real, index: nat)

  /** The four lines of the atomic-data report: "Onsite:", "Hubbards:",
      "Hubbard (s):" and "Occupations:". */
  datatype AtomicReport = AtomicReport(
    onsite: Deviation,
    hubbard: Deviation,
    hubbardLast: real,
    occupation: Deviation)

  /** The largest deviation of one integral table and the (row, column) it is
      reported at. */
  datatype CellDeviation = CellDeviation(value: real, row: nat, col: nat)

  /** What the integral-table comparison produces: one of the two notices the
      script prints and returns after, the `ValueError` that `np.argmax`
      raises on an empty window, or the "Hamiltonian:" and "Overlap:" lines. */
  datatype TableOutcome =
    | IncompatibleGrid
    | TablesTooShort
    | EmptyWindow
    | Compared(hamiltonian: CellDeviation, overlap: CellDeviation)

  /** `min(sk1.nr, sk2.nr)`: the row count of the shorter table. */
  function Min(a: nat, b: nat): (m: nat)
    ensures m <= a && m <= b
    ensures m == a || m == b
  {
    if a <= b then a else b
  }

  // ---------------------------------------------------------------------
  // Atomic data
  // ---------------------------------------------------------------------

  /** `abs(xs - ys)` on two 1-D arrays of equal length. */
  function ShellDiffs(xs: seq<real>, ys: seq<real>): (d: seq<real>)
    requires |xs| == |ys|
    ensures |d| == |xs|
    ensures forall i :: 0 <= i < |d| ==> d[i] >= 0.0 && (d[i] == xs[i] - ys[i] || d[i] == ys[i] - xs[i])
  {
    seq(|xs|, i requires 0 <= i < |xs| => Abs(xs[i] - ys[i]))
  }

  /** `d` is what the script reports for one quantity: the deviation at the
      reported shell, no shell deviates more, and every earlier shell deviates
      strictly less. */
  ghost predicate IsShellMax(xs: seq<real>, ys: seq<real>, d: Deviation)
  {
    && |xs| == |ys|
    && d.index < |xs|
    && d.value == Abs(xs[d.index] - ys[d.index])
    && (forall i :: 0 <= i < |xs| ==> Abs(xs[i] - ys[i]) <= d.value)
    && (forall i :: 0 <= i < d.index ==> Abs(xs[i] - ys[i]) < d.value)
  }

  /** One line of the atomic report: `diffs[np.argmax(diffs)]` and the
      position `np.argmax(diffs)` for `diffs = abs(xs - ys)`. */
  function MaxShellDeviation(xs: seq<real>, ys: seq<real>): (d: Deviation)
    requires |xs| == |ys| > 0
    ensures IsShellMax(xs, ys, d)
  {
    var diffs := ShellDiffs(xs, ys);
    var maxpos := ArgMax(diffs);
    assert forall i :: 0 <= i < |xs| ==> Abs(xs[i] - ys[i]) == diffs[i];
    Deviation(diffs[maxpos], maxpos)
  }

  /** The two records hold the same number of shells for each quantity, and at
      least one. */
  ghost predicate Comparable(a1: AtomicData, a2: AtomicData)
  {
    && |a1.onsites| == |a2.onsites| > 0
    && |a1.hubbardUs| == |a2.hubbardUs| > 0
    && |a1.occupations| == |a2.occupations| > 0
  }

  /** `compare_atomic_data`: the largest onsite, Hubbard U and occupation
      deviation with their shells, and the Hubbard U deviation of the last
      shell whatever shell the maximum is at. */
  function CompareAtomicData(a1: AtomicData, a2: AtomicData): (r: AtomicReport)
    requires Comparable(a1, a2)
    ensures IsShellMax(a1.onsites, a2.onsites, r.onsite)
    ensures IsShellMax(a1.hubbardUs, a2.hubbardUs, r.hubbard)
    ensures r.hubbardLast == Abs(a1.hubbardUs[|a1.hubbardUs| - 1] - a2.hubbardUs[|a2.hubbardUs| - 1])
    ensures IsShellMax(a1.occupations, a2.occupations, r.occupation)
  {
    var hubbuDiffs := ShellDiffs(a1.hubbardUs, a2.hubbardUs);
    AtomicReport(
      MaxShellDeviation(a1.onsites, a2.onsites),
      MaxShellDeviation(a1.hubbardUs, a2.hubbardUs),
      hubbuDiffs[|hubbuDiffs| - 1],
      MaxShellDeviation(a1.occupations, a2.occupations))
  }

  // ---------------------------------------------------------------------
  // Integral tables
  // ---------------------------------------------------------------------

  /** The sign-insensitive deviation of one table cell, `||a| - |b||`. */
  function CellDiff(a: seq<seq<real>>, b: seq<seq<real>>, i: nat, j: nat): (d: real)
    requires i < |a| && i < |b| && j < |a[i]| && j < |b[i]|
    ensures d >= 0.0
    ensures d == 0.0 <==> Abs(a[i][j]) == Abs(b[i][j])
  {
    Abs(Abs(a[i][j]) - Abs(b[i][j]))
  }

  /** `abs(abs(a) - abs(b))` on two arrays of the same shape. */
  function DiffTable(a: seq<seq<real>>, b: seq<seq<real>>, w: nat): (d: seq<seq<real>>)
    requires |a| == |b| && IsMatrix(a, w) && IsMatrix(b, w)
    ensures |d| == |a| && IsMatrix(d, w)
    ensures forall i, j :: 0 <= i < |a| && 0 <= j < w ==> d[i][j] == CellDiff(a, b, i, j)
  {
    seq(|a|, i requires 0 <= i < |a| =>
      seq(w, j requires 0 <= j < w => CellDiff(a, b, i, j)))
  }

  /** Cell `(row, col)` of rows `[lo, hi)` of `a` and `b` is the one the script
      must select: its deviation is `value`, no cell of the window deviates
      more, and every cell before it in row-major order deviates strictly
      less. Rows and columns are those of the whole table. */
  ghost predicate IsWindowMax(a: seq<seq<real>>, b: seq<seq<real>>, lo: nat, hi: nat, w: nat,
                              row: int, col: int, value: real)
  {
    && hi <= |a| && hi <= |b| && IsMatrix(a, w) && IsMatrix(b, w)
    && lo <= row < hi && 0 <= col < w
    && value == CellDiff(a, b, row, col)
    && (forall i, j :: lo <= i < hi && 0 <= j < w ==> CellDiff(a, b, i, j) <= value)
    && (forall i, j :: (lo <= i < hi && 0 <= j < w && (i < row || (i == row && j < col)))
                       ==> CellDiff(a, b, i, j) < value)
  }

  /** Cell `(i - lo, j)` of the deviations of rows `[lo, hi)` is cell `(i, j)`
      of the whole tables. */
  lemma WindowCell(a: seq<seq<real>>, b: seq<seq<real>>, lo: nat, hi: nat, w: nat, i: nat, j: nat)
    requires lo <= i < hi <= |a| && hi <= |b| && j < w && IsMatrix(a, w) && IsMatrix(b, w)
    ensures DiffTable(a[lo..hi], b[lo..hi], w)[i - lo][j] == CellDiff(a, b, i, j)
  {
    assert a[lo..hi][i - lo] == a[i] && b[lo..hi][i - lo] == b[i];
  }

  /** `diff[maxinds]` and `maxinds = np.unravel_index(np.argmax(diff), diff.shape)`
      for `diff = abs(abs(a[lo:hi, :]) - abs(b[lo:hi, :]))`: the largest
      deviation of the window and its position, counted from the window's
      first row. */
  function WindowMax(a: seq<seq<real>>, b: seq<seq<real>>, lo: nat, hi: nat, w: nat): (m: CellDeviation)
    requires lo < hi <= |a| && hi <= |b| && w > 0 && IsMatrix(a, w) && IsMatrix(b, w)
    ensures IsWindowMax(a, b, lo, hi, w, m.row + lo, m.col, m.value)
  {
    var diff := DiffTable(a[lo..hi], b[lo..hi], w);
    var maxinds := ArgMax2D(diff, w);
    var row := maxinds.0 + lo;
    WindowCell(a, b, lo, hi, w, row, maxinds.1);
    assert forall i, j :: lo <= i < hi && 0 <= j < w ==> CellDiff(a, b, i, j) <= CellDiff(a, b, row, maxinds.1) by {
      forall i, j | lo <= i < hi && 0 <= j < w
        ensures CellDiff(a, b, i, j) <= CellDiff(a, b, row, maxinds.1)
      {
        WindowCell(a, b, lo, hi, w, i, j);
      }
    }
    assert forall i, j :: (lo <= i < hi && 0 <= j < w && (i < row || (i == row && j < maxinds.1)))
                          ==> CellDiff(a, b, i, j) < CellDiff(a, b, row, maxinds.1) by {
      forall i, j | lo <= i < hi && 0 <= j < w && (i < row || (i == row && j < maxinds.1))
        ensures CellDiff(a, b, i, j) < CellDiff(a, b, row, maxinds.1)
      {
        WindowCell(a, b, lo, hi, w, i, j);
      }
    }
    CellDeviation(diff[maxinds.0][maxinds.1], maxinds.0, maxinds.1)
  }

  /** The "Hamiltonian:" line: the window maximum of the Hamiltonian tables
      with its row shifted back to the table's own numbering (`+ nstart`)
      and its column as it is, both 0-based. */
  function HamiltonianLine(t1: IntegralTables, t2: IntegralTables, nstart: nat, nr: nat): (c: CellDeviation)
    requires t1.Valid() && t2.Valid() && t1.channels == t2.channels
    requires nstart < nr <= t1.nr && nr <= t2.nr
    ensures IsWindowMax(t1.hamiltonian, t2.hamiltonian, nstart, nr, t1.channels, c.row, c.col, c.value)
  {
    var m := WindowMax(t1.hamiltonian, t2.hamiltonian, nstart, nr, t1.channels);
    CellDeviation(m.value, m.row + nstart, m.col)
  }

  /** The "Overlap:" line: the window maximum of the Overlap tables with its
      row shifted by `nstart + 1` and its column by `1`, so both are 1-based. */
  function OverlapLine(t1: IntegralTables, t2: IntegralTables, nstart: nat, nr: nat): (c: CellDeviation)
    requires t1.Valid() && t2.Valid() && t1.channels == t2.channels
    requires nstart < nr <= t1.nr && nr <= t2.nr
    ensures c.row >= 1 && c.col >= 1
    ensures IsWindowMax(t1.overlap, t2.overlap, nstart, nr, t1.channels, c.row - 1, c.col - 1, c.value)
  {
    var m := WindowMax(t1.overlap, t2.overlap, nstart, nr, t1.channels);
    CellDeviation(m.value, m.row + nstart + 1, m.col + 1)
  }

  /** `r` is what the integral-table comparison must produce: the grid check
      comes first and rejects exactly when the spacings differ by more than
      the tolerance; the skip check rejects exactly when `nstart` exceeds the
      shorter table's `nr`; skipping exactly `nr` rows leaves nothing to
      compare; otherwise both lines name the window maximum of their table,
      the Hamiltonian with 0-based and the Overlap with 1-based indices. */
  ghost predicate IsTableOutcome(t1: IntegralTables, t2: IntegralTables, nstart: nat, r: TableOutcome)
  {
    var nr := Min(t1.nr, t2.nr);
    var gridOk := Abs(t1.dr - t2.dr) <= GridTolerance;
    match r
    case IncompatibleGrid => !gridOk
    case TablesTooShort => gridOk && nstart > nr
    case EmptyWindow => gridOk && nstart == nr
    case Compared(ham, over) =>
      && gridOk && nstart < nr
      && IsWindowMax(t1.hamiltonian, t2.hamiltonian, nstart, nr, t1.channels, ham.row, ham.col, ham.value)
      && over.row >= 1 && over.col >= 1
      && IsWindowMax(t1.overlap, t2.overlap, nstart, nr, t1.channels, over.row - 1, over.col - 1, over.value)
  }

  /** `compare_integral_tables`: reject tables on different grids, reject a
      skip count beyond the shorter table, and otherwise report the largest
      sign-insensitive deviation of rows `[nstart, nr)` of the Hamiltonian
      (0-based row and column) and of the Overlap (1-based row and column). */
  function CompareIntegralTables(t1: IntegralTables, t2: IntegralTables, nstart: nat): (r: TableOutcome)
    requires t1.Valid() && t2.Valid() && t1.channels == t2.channels
    ensures IsTableOutcome(t1, t2, nstart, r)
  {
    if Abs(t1.dr - t2.dr) > GridTolerance then IncompatibleGrid
    else
      var nr := Min(t1.nr, t2.nr);
      if nstart > nr then TablesTooShort
      else if nstart == nr then EmptyWindow
      else
        Compared(HamiltonianLine(t1, t2, nstart, nr), OverlapLine(t1, t2, nstart, nr))
  }
}
