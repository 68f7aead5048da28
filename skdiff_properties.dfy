/**
 Properties of the `skdiff` comparisons: the reports are fully determined by
 their characterisations, they do not depend on which file comes first, the
 table report ignores signs and rows outside the compared window, identical
 inputs report zero at the first position, and the Overlap line's indices
 are those of the Hamiltonian line shifted by one.
 */
module SkDiffProperties {
  import opened NumPyOps
  import opened SkDiff

  // ---------------------------------------------------------------------
  // Atomic data
  // ---------------------------------------------------------------------

  /** At most one deviation meets the characterisation of an atomic report
      line, so `MaxShellDeviation` is pinned down by its postcondition. */
  lemma IsShellMaxUnique(xs: seq<real>, ys: seq<real>, d1: Deviation, d2: Deviation)
    requires IsShellMax(xs, ys, d1) && IsShellMax(xs, ys, d2)
    ensures d1 == d2
  {
    assert Abs(xs[d1.index] - ys[d1.index]) <= d2.value;
    assert Abs(xs[d2.index] - ys[d2.index]) <= d1.value;
    assert d1.value == d2.value;
  }

  /** The characterisation of a report line does not depend on which record
      comes first. */
  lemma ShellMaxSwap(xs: seq<real>, ys: seq<real>, d: Deviation)
    requires IsShellMax(xs, ys, d)
    ensures IsShellMax(ys, xs, d)
  {
    forall i | 0 <= i < |xs|
      ensures Abs(ys[i] - xs[i]) == Abs(xs[i] - ys[i])
    {
    }
  }

  /** Swapping the two files leaves the whole atomic report unchanged. */
  lemma AtomicReportSymmetric(a1: AtomicData, a2: AtomicData)
    requires Comparable(a1, a2)
    ensures Comparable(a2, a1) && CompareAtomicData(a1, a2) == CompareAtomicData(a2, a1)
  {
    var r, q := CompareAtomicData(a1, a2), CompareAtomicData(a2, a1);
    ShellMaxSwap(a2.onsites, a1.onsites, q.onsite);
    IsShellMaxUnique(a1.onsites, a2.onsites, r.onsite, q.onsite);
    ShellMaxSwap(a2.hubbardUs, a1.hubbardUs, q.hubbard);
    IsShellMaxUnique(a1.hubbardUs, a2.hubbardUs, r.hubbard, q.hubbard);
    ShellMaxSwap(a2.occupations, a1.occupations, q.occupation);
    IsShellMaxUnique(a1.occupations, a2.occupations, r.occupation, q.occupation);
  }

  /** Comparing a record with itself reports zero at shell 0 on every line. */
  lemma IdenticalAtomicDataReportZero(a: AtomicData)
    requires Comparable(a, a)
    ensures CompareAtomicData(a, a) == AtomicReport(Deviation(0.0, 0), Deviation(0.0, 0), 0.0, Deviation(0.0, 0))
  {
    var r := CompareAtomicData(a, a);
    var zero := Deviation(0.0, 0);
    assert IsShellMax(a.onsites, a.onsites, zero);
    IsShellMaxUnique(a.onsites, a.onsites, r.onsite, zero);
    assert IsShellMax(a.hubbardUs, a.hubbardUs, zero);
    IsShellMaxUnique(a.hubbardUs, a.hubbardUs, r.hubbard, zero);
    assert IsShellMax(a.occupations, a.occupations, zero);
    IsShellMaxUnique(a.occupations, a.occupations, r.occupation, zero);
  }

  /** Onsites [1.0, 2.0, 3.0] against [1.0, 2.5, 2.9]: the largest deviation
      is 0.5 at shell 1 (0.1 at shell 2 is smaller). */
  lemma OnsiteExample()
    ensures MaxShellDeviation([1.0, 2.0, 3.0], [1.0, 2.5, 2.9]) == Deviation(0.5, 1)
  {
    var xs, ys := [1.0, 2.0, 3.0], [1.0, 2.5, 2.9];
    assert Abs(xs[0] - ys[0]) == 0.0 && Abs(xs[1] - ys[1]) == 0.5 && Abs(xs[2] - ys[2]) == 0.1;
    assert IsShellMax(xs, ys, Deviation(0.5, 1));
    IsShellMaxUnique(xs, ys, MaxShellDeviation(xs, ys), Deviation(0.5, 1));
  }

  // ---------------------------------------------------------------------
  // Integral tables
  // ---------------------------------------------------------------------

  /** At most one cell of a window meets the characterisation of a table
      report line. */
  lemma IsWindowMaxUnique(a: seq<seq<real>>, b: seq<seq<real>>, lo: nat, hi: nat, w: nat,
                          r1: int, c1: int, v1: real, r2: int, c2: int, v2: real)
    requires IsWindowMax(a, b, lo, hi, w, r1, c1, v1)
    requires IsWindowMax(a, b, lo, hi, w, r2, c2, v2)
    ensures r1 == r2 && c1 == c2 && v1 == v2
  {
    assert CellDiff(a, b, r1, c1) <= v2;
    assert CellDiff(a, b, r2, c2) <= v1;
    assert v1 == v2;
  }

  /** At most one outcome meets the characterisation of the table
      comparison, so `CompareIntegralTables` is pinned down by its
      postcondition. */
  lemma IsTableOutcomeUnique(t1: IntegralTables, t2: IntegralTables, nstart: nat, r1: TableOutcome, r2: TableOutcome)
    requires IsTableOutcome(t1, t2, nstart, r1) && IsTableOutcome(t1, t2, nstart, r2)
    ensures r1 == r2
  {
    if r1.Compared? {
      var nr, w := Min(t1.nr, t2.nr), t1.channels;
      IsWindowMaxUnique(t1.hamiltonian, t2.hamiltonian, nstart, nr, w,
                        r1.hamiltonian.row, r1.hamiltonian.col, r1.hamiltonian.value,
                        r2.hamiltonian.row, r2.hamiltonian.col, r2.hamiltonian.value);
      IsWindowMaxUnique(t1.overlap, t2.overlap, nstart, nr, w,
                        r1.overlap.row - 1, r1.overlap.col - 1, r1.overlap.value,
                        r2.overlap.row - 1, r2.overlap.col - 1, r2.overlap.value);
    }
  }

  /** Two pairs of tables whose cells deviate alike over a window have the
      same window maximum. */
  lemma WindowMaxTransfer(a: seq<seq<real>>, b: seq<seq<real>>, a': seq<seq<real>>, b': seq<seq<real>>,
                          lo: nat, hi: nat, w: nat, row: int, col: int, value: real)
    requires IsWindowMax(a, b, lo, hi, w, row, col, value)
    requires hi <= |a'| && hi <= |b'| && IsMatrix(a', w) && IsMatrix(b', w)
    requires forall i, j :: lo <= i < hi && 0 <= j < w ==> CellDiff(a', b', i, j) == CellDiff(a, b, i, j)
    ensures IsWindowMax(a', b', lo, hi, w, row, col, value)
  {
  }

  /** A pair of files whose spacings differ alike, whose shorter table has
      the same `nr`, and whose cells deviate alike over the compared window
      admits the same outcome. */
  lemma OutcomeTransfer(t1: IntegralTables, t2: IntegralTables, u1: IntegralTables, u2: IntegralTables,
                        nstart: nat, r: TableOutcome)
    requires t1.Valid() && t2.Valid() && t1.channels == t2.channels
    requires IsTableOutcome(t1, t2, nstart, r)
    requires u1.Valid() && u2.Valid() && u1.channels == t1.channels && u2.channels == t1.channels
    requires Abs(u1.dr - u2.dr) == Abs(t1.dr - t2.dr) && Min(u1.nr, u2.nr) == Min(t1.nr, t2.nr)
    requires forall i, j :: nstart <= i < Min(t1.nr, t2.nr) && 0 <= j < t1.channels ==>
               CellDiff(u1.hamiltonian, u2.hamiltonian, i, j) == CellDiff(t1.hamiltonian, t2.hamiltonian, i, j)
    requires forall i, j :: nstart <= i < Min(t1.nr, t2.nr) && 0 <= j < t1.channels ==>
               CellDiff(u1.overlap, u2.overlap, i, j) == CellDiff(t1.overlap, t2.overlap, i, j)
    ensures IsTableOutcome(u1, u2, nstart, r)
  {
    if r.Compared? {
      var nr, w := Min(t1.nr, t2.nr), t1.channels;
      WindowMaxTransfer(t1.hamiltonian, t2.hamiltonian, u1.hamiltonian, u2.hamiltonian, nstart, nr, w,
                        r.hamiltonian.row, r.hamiltonian.col, r.hamiltonian.value);
      WindowMaxTransfer(t1.overlap, t2.overlap, u1.overlap, u2.overlap, nstart, nr, w,
                        r.overlap.row - 1, r.overlap.col - 1, r.overlap.value);
    }
  }

  /** `u` holds the same magnitudes as `t` in rows `[lo, hi)`. */
  ghost predicate SameMagnitudesInWindow(u: seq<seq<real>>, t: seq<seq<real>>, lo: nat, hi: nat, w: nat)
  {
    && hi <= |u| && hi <= |t| && IsMatrix(u, w) && IsMatrix(t, w)
    && forall i, j :: lo <= i < hi && 0 <= j < w ==> Abs(u[i][j]) == Abs(t[i][j])
  }

  lemma SameMagnitudesSameDiffs(a: seq<seq<real>>, b: seq<seq<real>>, a': seq<seq<real>>, b': seq<seq<real>>,
                                lo: nat, hi: nat, w: nat)
    requires SameMagnitudesInWindow(a', a, lo, hi, w) && SameMagnitudesInWindow(b', b, lo, hi, w)
    ensures forall i, j :: lo <= i < hi && 0 <= j < w ==> CellDiff(a', b', i, j) == CellDiff(a, b, i, j)
  {
  }

  /** The table report depends only on the grid spacings, the row counts and
      the magnitudes of the entries in rows `[nstart, nr)`. */
  lemma WindowMagnitudesDetermineOutcome(t1: IntegralTables, t2: IntegralTables,
                                         u1: IntegralTables, u2: IntegralTables, nstart: nat)
    requires t1.Valid() && t2.Valid() && t1.channels == t2.channels
    requires u1.Valid() && u2.Valid() && u1.channels == t1.channels && u2.channels == t1.channels
    requires u1.dr == t1.dr && u2.dr == t2.dr && u1.nr == t1.nr && u2.nr == t2.nr
    requires SameMagnitudesInWindow(u1.hamiltonian, t1.hamiltonian, nstart, Min(t1.nr, t2.nr), t1.channels)
    requires SameMagnitudesInWindow(u2.hamiltonian, t2.hamiltonian, nstart, Min(t1.nr, t2.nr), t1.channels)
    requires SameMagnitudesInWindow(u1.overlap, t1.overlap, nstart, Min(t1.nr, t2.nr), t1.channels)
    requires SameMagnitudesInWindow(u2.overlap, t2.overlap, nstart, Min(t1.nr, t2.nr), t1.channels)
    ensures CompareIntegralTables(u1, u2, nstart) == CompareIntegralTables(t1, t2, nstart)
  {
    var nr, w := Min(t1.nr, t2.nr), t1.channels;
    var r := CompareIntegralTables(t1, t2, nstart);
    SameMagnitudesSameDiffs(t1.hamiltonian, t2.hamiltonian, u1.hamiltonian, u2.hamiltonian, nstart, nr, w);
    SameMagnitudesSameDiffs(t1.overlap, t2.overlap, u1.overlap, u2.overlap, nstart, nr, w);
    OutcomeTransfer(t1, t2, u1, u2, nstart, r);
    IsTableOutcomeUnique(u1, u2, nstart, r, CompareIntegralTables(u1, u2, nstart));
  }

  /** `u` is `t` with any of its entries negated. */
  ghost predicate SignFlipped(u: seq<seq<real>>, t: seq<seq<real>>)
  {
    && |u| == |t|
    && forall i :: 0 <= i < |t| ==>
         && |u[i]| == |t[i]|
         && forall j :: 0 <= j < |t[i]| ==> u[i][j] == t[i][j] || u[i][j] == -t[i][j]
  }

  lemma SignFlippedMagnitudes(u: seq<seq<real>>, t: seq<seq<real>>, lo: nat, hi: nat, w: nat)
    requires SignFlipped(u, t) && IsMatrix(t, w) && hi <= |t|
    ensures IsMatrix(u, w) && SameMagnitudesInWindow(u, t, lo, hi, w)
  {
    forall i, j | lo <= i < hi && 0 <= j < w
      ensures Abs(u[i][j]) == Abs(t[i][j])
    {
      assert u[i][j] == t[i][j] || u[i][j] == -t[i][j];
    }
  }

  /** Negating any entries of either file's tables changes neither the
      reported deviations nor their positions. */
  lemma SignInsensitive(t1: IntegralTables, t2: IntegralTables, u1: IntegralTables, u2: IntegralTables, nstart: nat)
    requires t1.Valid() && t2.Valid() && t1.channels == t2.channels
    requires u1.dr == t1.dr && u1.nr == t1.nr && u1.channels == t1.channels
    requires u2.dr == t2.dr && u2.nr == t2.nr && u2.channels == t2.channels
    requires SignFlipped(u1.hamiltonian, t1.hamiltonian) && SignFlipped(u1.overlap, t1.overlap)
    requires SignFlipped(u2.hamiltonian, t2.hamiltonian) && SignFlipped(u2.overlap, t2.overlap)
    ensures u1.Valid() && u2.Valid()
    ensures CompareIntegralTables(u1, u2, nstart) == CompareIntegralTables(t1, t2, nstart)
  {
    var nr := Min(t1.nr, t2.nr);
    SignFlippedMagnitudes(u1.hamiltonian, t1.hamiltonian, nstart, nr, t1.channels);
    SignFlippedMagnitudes(u2.hamiltonian, t2.hamiltonian, nstart, nr, t1.channels);
    SignFlippedMagnitudes(u1.overlap, t1.overlap, nstart, nr, t1.channels);
    SignFlippedMagnitudes(u2.overlap, t2.overlap, nstart, nr, t1.channels);
    WindowMagnitudesDetermineOutcome(t1, t2, u1, u2, nstart);
  }

  /** `u` agrees with `t` from row `lo` on; the rows before may differ. */
  ghost predicate AgreeFromRow(u: seq<seq<real>>, t: seq<seq<real>>, lo: nat)
  {
    && |u| == |t|
    && forall i :: lo <= i < |t| ==> u[i] == t[i]
  }

  /** Rows skipped with `nstart` never influence the table report: a
      deviation planted in a skipped row can not be reported. */
  lemma SkippedRowsIgnored(t1: IntegralTables, t2: IntegralTables, u1: IntegralTables, u2: IntegralTables, nstart: nat)
    requires t1.Valid() && t2.Valid() && t1.channels == t2.channels
    requires u1.Valid() && u2.Valid() && u1.channels == t1.channels && u2.channels == t1.channels
    requires u1.dr == t1.dr && u1.nr == t1.nr && u2.dr == t2.dr && u2.nr == t2.nr
    requires AgreeFromRow(u1.hamiltonian, t1.hamiltonian, nstart) && AgreeFromRow(u1.overlap, t1.overlap, nstart)
    requires AgreeFromRow(u2.hamiltonian, t2.hamiltonian, nstart) && AgreeFromRow(u2.overlap, t2.overlap, nstart)
    ensures CompareIntegralTables(u1, u2, nstart) == CompareIntegralTables(t1, t2, nstart)
  {
    WindowMagnitudesDetermineOutcome(t1, t2, u1, u2, nstart);
  }

  lemma SwappedDiffs(a: seq<seq<real>>, b: seq<seq<real>>, lo: nat, hi: nat, w: nat)
    requires hi <= |a| && hi <= |b| && IsMatrix(a, w) && IsMatrix(b, w)
    ensures forall i, j :: lo <= i < hi && 0 <= j < w ==> CellDiff(b, a, i, j) == CellDiff(a, b, i, j)
  {
  }

  /** Swapping the two files leaves the table report unchanged. */
  lemma TableReportSymmetric(t1: IntegralTables, t2: IntegralTables, nstart: nat)
    requires t1.Valid() && t2.Valid() && t1.channels == t2.channels
    ensures CompareIntegralTables(t2, t1, nstart) == CompareIntegralTables(t1, t2, nstart)
  {
    var nr, w := Min(t1.nr, t2.nr), t1.channels;
    var r := CompareIntegralTables(t1, t2, nstart);
    assert Abs(t2.dr - t1.dr) == Abs(t1.dr - t2.dr);
    SwappedDiffs(t1.hamiltonian, t2.hamiltonian, nstart, nr, w);
    SwappedDiffs(t1.overlap, t2.overlap, nstart, nr, w);
    OutcomeTransfer(t1, t2, t2, t1, nstart, r);
    IsTableOutcomeUnique(t2, t1, nstart, r, CompareIntegralTables(t2, t1, nstart));
  }

  /** Comparing tables with themselves reports zero at the first compared
      cell: `(nstart, 0)` for the Hamiltonian and `(nstart + 1, 1)` for the
      Overlap. */
  lemma IdenticalTablesReportZero(t: IntegralTables, nstart: nat)
    requires t.Valid() && nstart < t.nr
    ensures CompareIntegralTables(t, t, nstart)
              == Compared(CellDeviation(0.0, nstart, 0), CellDeviation(0.0, nstart + 1, 1))
  {
    var nr, w := t.nr, t.channels;
    assert IsWindowMax(t.hamiltonian, t.hamiltonian, nstart, nr, w, nstart, 0, 0.0);
    assert IsWindowMax(t.overlap, t.overlap, nstart, nr, w, nstart, 0, 0.0);
    IsTableOutcomeUnique(t, t, nstart, CompareIntegralTables(t, t, nstart),
                         Compared(CellDeviation(0.0, nstart, 0), CellDeviation(0.0, nstart + 1, 1)));
  }

  /** When each file's Overlap window holds the magnitudes of its Hamiltonian
      window, both lines report the same deviation at the same cell, and the
      Overlap names it one row and one column further: its indices are
      1-based where the Hamiltonian's are 0-based. */
  lemma OverlapIndicesShiftedByOne(t1: IntegralTables, t2: IntegralTables, nstart: nat)
    requires t1.Valid() && t2.Valid() && t1.channels == t2.channels
    requires SameMagnitudesInWindow(t1.overlap, t1.hamiltonian, nstart, Min(t1.nr, t2.nr), t1.channels)
    requires SameMagnitudesInWindow(t2.overlap, t2.hamiltonian, nstart, Min(t1.nr, t2.nr), t1.channels)
    ensures var r := CompareIntegralTables(t1, t2, nstart);
            r.Compared? ==> r.overlap == CellDeviation(r.hamiltonian.value, r.hamiltonian.row + 1, r.hamiltonian.col + 1)
  {
    var r := CompareIntegralTables(t1, t2, nstart);
    if r.Compared? {
      var nr, w, h := Min(t1.nr, t2.nr), t1.channels, r.hamiltonian;
      SameMagnitudesSameDiffs(t1.hamiltonian, t2.hamiltonian, t1.overlap, t2.overlap, nstart, nr, w);
      WindowMaxTransfer(t1.hamiltonian, t2.hamiltonian, t1.overlap, t2.overlap, nstart, nr, w, h.row, h.col, h.value);
      IsWindowMaxUnique(t1.overlap, t2.overlap, nstart, nr, w, h.row, h.col, h.value,
                        r.overlap.row - 1, r.overlap.col - 1, r.overlap.value);
    }
  }

  /** The grid check is a strict comparison: spacings 0.1 and 0.10000001
      (exactly 1e-8 apart) are compared, 0.1 and 0.10000002 are not. */
  lemma GridToleranceBoundary(t1: IntegralTables, t2: IntegralTables, nstart: nat)
    requires t1.Valid() && t2.Valid() && t1.channels == t2.channels && t1.dr == 0.1
    ensures t2.dr == 0.10000001 ==> !CompareIntegralTables(t1, t2, nstart).IncompatibleGrid?
    ensures t2.dr == 0.10000002 ==> CompareIntegralTables(t1, t2, nstart) == IncompatibleGrid
  {
  }

  /** The row-count check is a strict comparison too: skipping all `nr` rows
      passes it and leaves an empty window, skipping more is "too short". */
  lemma SkipCountBoundary(t1: IntegralTables, t2: IntegralTables)
    requires t1.Valid() && t2.Valid() && t1.channels == t2.channels && t1.dr == t2.dr
    ensures CompareIntegralTables(t1, t2, Min(t1.nr, t2.nr)) == EmptyWindow
    ensures CompareIntegralTables(t1, t2, Min(t1.nr, t2.nr) + 1) == TablesTooShort
  {
  }
}
