/**
 The few NumPy operations the comparison relies on, over exact reals:
 elementwise absolute value, `np.argmax` on a 1-D array (first occurrence of
 the maximum wins), and `np.argmax` on a 2-D array followed by
 `np.unravel_index`, which flattens the array in row-major (C) order.
 */
module NumPyOps {

  /** Absolute value of a real number (`abs` on a NumPy scalar). */
  function Abs(x: real): (r: real)
    ensures r >= 0.0
    ensures r == x || r == -x
  {
    if x < 0.0 then -x else x
  }

  /** `k` is the index `np.argmax` must return for `s`: a position of the
      maximum, and no earlier position holds the same value. */
  ghost predicate IsArgMax(s: seq<real>, k: int)
  {
    && 0 <= k < |s|
    && (forall j :: 0 <= j < |s| ==> s[j] <= s[k])
    && (forall j :: 0 <= j < k ==> s[j] < s[k])
  }

  /** `np.argmax` on a non-empty 1-D array: a left-to-right scan that moves
      to a new position only on a strictly larger value. */
  function ArgMax(s: seq<real>): (k: nat)
    requires |s| > 0
    ensures IsArgMax(s, k)
  {
    if |s| == 1 then 0
    else
      var k := ArgMax(s[..|s| - 1]);
      if s[|s| - 1] > s[k] then |s| - 1 else k
  }

  /** The characterisation determines the index: at most one position of a
      sequence is the first position of its maximum. */
  lemma ArgMaxUnique(s: seq<real>, k1: int, k2: int)
    requires IsArgMax(s, k1) && IsArgMax(s, k2)
    ensures k1 == k2
  {
    assert s[k1] == s[k2];
  }

  /** Every row of `m` has exactly `w` entries: the shape of a 2-D array. */
  ghost predicate IsMatrix(m: seq<seq<real>>, w: nat)
  {
    forall i :: 0 <= i < |m| ==> |m[i]| == w
  }

  /** The rows of `m` laid end to end: NumPy's row-major (C order) flattening. */
  function Flatten(m: seq<seq<real>>): (r: seq<real>)
    ensures forall x :: x in r <==> exists i :: 0 <= i < |m| && x in m[i]
  {
    if |m| == 0 then []
    else
      var rest := Flatten(m[1..]);
      assert forall i :: 1 <= i < |m| ==> m[1..][i - 1] == m[i];
      m[0] + rest
  }

  /** A flattened `|m|`-by-`w` matrix has `|m| * w` entries, and entry
      `(i, j)` sits at position `i * w + j`. */
  lemma {:induction false} FlattenIndex(m: seq<seq<real>>, w: nat, i: nat, j: nat)
    requires IsMatrix(m, w)
    requires i < |m| && j < w
    ensures |Flatten(m)| == |m| * w
    ensures i * w + j < |Flatten(m)|
    ensures Flatten(m)[i * w + j] == m[i][j]
  {
    FlattenLength(m, w);
    if i > 0 {
      FlattenIndex(m[1..], w, i - 1, j);
      assert (i - 1) * w + j + w == i * w + j;
    }
  }

  lemma {:induction false} FlattenLength(m: seq<seq<real>>, w: nat)
    requires IsMatrix(m, w)
    ensures |Flatten(m)| == |m| * w
  {
    if |m| > 0 {
      FlattenLength(m[1..], w);
      assert (|m| - 1) * w + w == |m| * w;
    }
  }

  /** Row-major order: a cell lexicographically before another has a smaller
      flat position. */
  lemma RowMajorOrder(w: nat, i: nat, j: nat, r: nat, c: nat)
    requires j < w && c < w
    requires i < r || (i == r && j < c)
    ensures i * w + j < r * w + c
  {
    if i < r {
      assert (i + 1) * w <= r * w by {
        MulMonotone(i + 1, r, w);
      }
    }
  }

  /** Multiplying by the same width keeps the order of two row numbers. */
  lemma MulMonotone(a: nat, b: nat, w: nat)
    requires a <= b
    ensures a * w <= b * w
  {
  }

  /** `np.unravel_index` of a flat position in a `w`-column array:
      the (row, column) it names in row-major order. */
  function UnravelIndex(k: nat, w: nat): (p: (nat, nat))
    requires w > 0
    ensures p.1 < w
    ensures k == p.0 * w + p.1
  {
    (k / w, k % w)
  }

  /** `np.unravel_index(np.argmax(m), m.shape)` for a non-empty `|m|`-by-`w`
      matrix: the position of the maximum, the lexicographically first among
      equal maxima. */
  function ArgMax2D(m: seq<seq<real>>, w: nat): (p: (nat, nat))
    requires |m| > 0 && w > 0 && IsMatrix(m, w)
    ensures p.0 < |m| && p.1 < w
    ensures forall i, j :: 0 <= i < |m| && 0 <= j < w ==> m[i][j] <= m[p.0][p.1]
    ensures forall i, j :: (0 <= i < |m| && 0 <= j < w && (i < p.0 || (i == p.0 && j < p.1)))
                           ==> m[i][j] < m[p.0][p.1]
  {
    FlattenLength(m, w);
    var flat := Flatten(m);
    var k := ArgMax(flat);
    var p := UnravelIndex(k, w);
    assert p.0 < |m| by {
      if p.0 >= |m| {
        MulMonotone(|m|, p.0, w);
      }
    }
    FlattenIndex(m, w, p.0, p.1);
    assert forall i, j :: 0 <= i < |m| && 0 <= j < w ==> m[i][j] <= m[p.0][p.1] by {
      forall i, j | 0 <= i < |m| && 0 <= j < w
        ensures m[i][j] <= m[p.0][p.1]
      {
        FlattenIndex(m, w, i, j);
      }
    }
    assert forall i, j :: (0 <= i < |m| && 0 <= j < w && (i < p.0 || (i == p.0 && j < p.1)))
                          ==> m[i][j] < m[p.0][p.1] by {
      forall i, j | 0 <= i < |m| && 0 <= j < w && (i < p.0 || (i == p.0 && j < p.1))
        ensures m[i][j] < m[p.0][p.1]
      {
        FlattenIndex(m, w, i, j);
        RowMajorOrder(w, i, j, p.0, p.1);
      }
    }
    p
  }
}
