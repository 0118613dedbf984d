/** The numpy primitives the reduction relies on, over exact reals:
    `sum`, `ravel` (row-major flattening) and boolean-mask selection `a[mask]`. */
module ArrayOps {

  /** The total of a sequence; the conservation lemmas state their totals with it. */
  function Sum(s: seq<real>): real
    decreases |s|
  {
    if |s| == 0 then 0.0 else Sum(s[..|s| - 1]) + s[|s| - 1]
  }

  lemma {:induction false} SumAppend(s: seq<real>, t: seq<real>)
    ensures Sum(s + t) == Sum(s) + Sum(t)
    decreases |t|
  {
    if |t| == 0 {
      assert s + t == s;
    } else {
      assert (s + t)[..|s + t| - 1] == s + t[..|t| - 1];
      SumAppend(s, t[..|t| - 1]);
    }
  }

  /** Adding two equally long sequences element by element adds their sums. */
  lemma {:induction false} SumPointwise(a: seq<real>, b: seq<real>, c: seq<real>)
    requires |a| == |b| == |c|
    requires forall k | 0 <= k < |c| :: c[k] == a[k] + b[k]
    ensures Sum(c) == Sum(a) + Sum(b)
    decreases |c|
  {
    if |c| > 0 {
      var n := |c| - 1;
      SumPointwise(a[..n], b[..n], c[..n]);
    }
  }

  /** A sequence that is zero everywhere except possibly at `b` sums to its entry at `b`. */
  lemma {:induction false} SumSingle(s: seq<real>, b: nat)
    requires b < |s|
    requires forall k | 0 <= k < |s| && k != b :: s[k] == 0.0
    ensures Sum(s) == s[b]
    decreases |s|
  {
    var n := |s| - 1;
    if b < n {
      SumSingle(s[..n], b);
    } else {
      SumZero(s[..n]);
    }
  }

  /** A sequence of zeros sums to zero. */
  lemma {:induction false} SumZero(s: seq<real>)
    requires forall k | 0 <= k < |s| :: s[k] == 0.0
    ensures Sum(s) == 0.0
    decreases |s|
  {
    if |s| > 0 {
      SumZero(s[..|s| - 1]);
    }
  }

  /** `m.ravel()` for a list of rows: the rows laid end to end, first row first. */
  function Ravel(m: seq<seq<real>>): seq<real>
    decreases |m|
  {
    if |m| == 0 then [] else Ravel(m[..|m| - 1]) + m[|m| - 1]
  }

  /** True when every row of `m` has `w` entries, i.e. `m` is a 2-D array with `w` columns. */
  predicate Rectangular(m: seq<seq<real>>, w: nat)
  {
    forall i | 0 <= i < |m| :: |m[i]| == w
  }

  lemma MulMonotone(a: nat, b: nat, w: nat)
    requires a <= b
    ensures a * w <= b * w
  {
  }

  /** Entry (i, j) of a `w`-column array with `n` rows has a flat position below `n * w`. */
  lemma FlatPositionBelow(i: nat, j: nat, n: nat, w: nat)
    requires i < n && j < w
    ensures i * w + j < n * w
  {
    MulMonotone(i, n - 1, w);
    assert (n - 1) * w + w == n * w;
  }

  /** Flattening a rectangular array keeps every entry and puts entry (i, j) at position i*w + j. */
  lemma {:induction false} RavelIndex(m: seq<seq<real>>, w: nat)
    requires Rectangular(m, w)
    ensures |Ravel(m)| == |m| * w
    ensures forall i, j | 0 <= i < |m| && 0 <= j < w :: Ravel(m)[i * w + j] == m[i][j]
    decreases |m|
  {
    if |m| > 0 {
      var n := |m| - 1;
      var front := m[..n];
      var flatFront := Ravel(front);
      RavelIndex(front, w);
      assert Ravel(m) == flatFront + m[n];
      assert |flatFront| == n * w;
      assert |m| * w == n * w + w;
      forall i, j | 0 <= i < |m| && 0 <= j < w
        ensures Ravel(m)[i * w + j] == m[i][j]
      {
        if i < n {
          FlatPositionBelow(i, j, n, w);
          assert Ravel(m)[i * w + j] == flatFront[i * w + j];
          assert flatFront[i * w + j] == front[i][j];
        } else {
          assert i * w + j == |flatFront| + j;
        }
      }
    }
  }

  /** Whatever holds of every entry of every row holds of every entry of the flattened array. */
  lemma {:induction false} RavelForall(m: seq<seq<real>>, P: real -> bool)
    requires forall i, j | 0 <= i < |m| && 0 <= j < |m[i]| :: P(m[i][j])
    ensures forall p | 0 <= p < |Ravel(m)| :: P(Ravel(m)[p])
    decreases |m|
  {
    if |m| > 0 {
      var n := |m| - 1;
      var front := Ravel(m[..n]);
      RavelForall(m[..n], P);
      forall p | 0 <= p < |Ravel(m)|
        ensures P(Ravel(m)[p])
      {
        if p < |front| {
          assert Ravel(m)[p] == front[p];
        } else {
          assert Ravel(m)[p] == m[n][p - |front|];
        }
      }
    }
  }

  /** `a[mask]`: the entries of `a` whose mask entry is true, in their original order. */
  function Select(a: seq<real>, mask: seq<bool>): seq<real>
    requires |a| == |mask|
    decreases |a|
  {
    if |a| == 0 then []
    else Select(a[..|a| - 1], mask[..|a| - 1]) + (if mask[|a| - 1] then [a[|a| - 1]] else [])
  }

  /** The positions where `mask` is true, ascending: what `np.nonzero(mask)` gives. */
  function TrueIndices(mask: seq<bool>): (idx: seq<nat>)
    ensures |idx| <= |mask|
    ensures forall j | 0 <= j < |idx| :: idx[j] < |mask| && mask[idx[j]]
    ensures forall j, j' | 0 <= j < j' < |idx| :: idx[j] < idx[j']
    ensures forall k | 0 <= k < |mask| && mask[k] :: k in idx
    decreases |mask|
  {
    if |mask| == 0 then []
    else TrueIndices(mask[..|mask| - 1]) + (if mask[|mask| - 1] then [|mask| - 1] else [])
  }

  /** Selecting by a mask picks, in order, exactly the entries at the mask's true positions. */
  lemma {:induction false} SelectAt(a: seq<real>, mask: seq<bool>)
    requires |a| == |mask|
    ensures |Select(a, mask)| == |TrueIndices(mask)|
    ensures forall j | 0 <= j < |Select(a, mask)| :: Select(a, mask)[j] == a[TrueIndices(mask)[j]]
    decreases |a|
  {
    if |a| > 0 {
      var n := |a| - 1;
      SelectAt(a[..n], mask[..n]);
      var s, idx := Select(a[..n], mask[..n]), TrueIndices(mask[..n]);
      forall j | 0 <= j < |s|
        ensures Select(a, mask)[j] == a[TrueIndices(mask)[j]]
      {
        assert Select(a, mask)[j] == s[j];
        assert TrueIndices(mask)[j] == idx[j];
        assert a[..n][idx[j]] == a[idx[j]];
      }
    }
  }

  /** Dropping the non-positive entries of a non-negative sequence keeps its sum. */
  lemma {:induction false} SumSelectPositive(a: seq<real>)
    requires forall k | 0 <= k < |a| :: a[k] >= 0.0
    ensures Sum(Select(a, Positive(a))) == Sum(a)
    decreases |a|
  {
    if |a| > 0 {
      var n := |a| - 1;
      assert Positive(a)[..n] == Positive(a[..n]);
      SumSelectPositive(a[..n]);
      var tail := if Positive(a)[n] then [a[n]] else [];
      SumAppend(Select(a[..n], Positive(a[..n])), tail);
      if !Positive(a)[n] {
        assert a[n] == 0.0;
      }
    }
  }

  /** The mask `a > 0`. */
  function Positive(a: seq<real>): (mask: seq<bool>)
    ensures |mask| == |a|
    ensures forall k | 0 <= k < |a| :: mask[k] <==> a[k] > 0.0
  {
    seq(|a|, k requires 0 <= k < |a| => a[k] > 0.0)
  }
}
