/** `clean_mythen_data`: zero the readout entries outside a window of array columns and
    above a saturation threshold, in place, on the caller's 2-D array
    (rows = readouts, columns = detector channels). */
module Cleaning {

  /** Where a Python slice bound `k` lands on an axis of length `n`: a negative bound counts
      from the end, and the result is clamped into `[0, n]`. */
  function SliceBound(k: int, n: nat): (b: nat)
    ensures b <= n
    ensures 0 <= k <= n ==> b == k
    ensures -(n as int) <= k < 0 ==> b == n + k
    ensures k > n ==> b == n
    ensures k < -(n as int) ==> b == 0
  {
    if k < 0 then (if n + k < 0 then 0 else n + k)
    else if k > n then n
    else k
  }

  /** True when column `j` of `n` is hit by `[:, :minChan] = 0` or `[:, maxChan:] = 0`. */
  predicate OutsideWindow(j: int, n: nat, minChan: int, maxChan: int)
  {
    j < SliceBound(minChan, n) || j >= SliceBound(maxChan, n)
  }

  /** The value an entry `v` in column `j` (of `n`) holds after the three assignments of the cleaner. */
  function CleanedValue(v: real, j: int, n: nat, minChan: int, maxChan: int, threshold: real): (r: real)
    ensures OutsideWindow(j, n, minChan, maxChan) ==> r == 0.0
    ensures v > threshold ==> r == 0.0
    ensures !OutsideWindow(j, n, minChan, maxChan) && v <= threshold ==> r == v
    ensures 0 <= j < n && minChan >= 0 && maxChan >= 0 && (j < minChan || j >= maxChan) ==> r == 0.0
  {
    var windowed := if OutsideWindow(j, n, minChan, maxChan) then 0.0 else v;
    if windowed > threshold then 0.0 else windowed
  }

  /** The cleaned 2-D array, as rows. */
  function CleanRows(m: seq<seq<real>>, minChan: int, maxChan: int, threshold: real): (c: seq<seq<real>>)
    ensures |c| == |m|
    ensures forall i | 0 <= i < |m| :: |c[i]| == |m[i]|
  {
    seq(|m|, i requires 0 <= i < |m| =>
      seq(|m[i]|, j requires 0 <= j < |m[i]| => CleanedValue(m[i][j], j, |m[i]|, minChan, maxChan, threshold)))
  }

  /** Cleaning is idempotent: a second call with the same parameters changes nothing. */
  lemma CleanIdempotent(m: seq<seq<real>>, minChan: int, maxChan: int, threshold: real)
    ensures CleanRows(CleanRows(m, minChan, maxChan, threshold), minChan, maxChan, threshold)
         == CleanRows(m, minChan, maxChan, threshold)
  {
    var c := CleanRows(m, minChan, maxChan, threshold);
    var cc := CleanRows(c, minChan, maxChan, threshold);
    forall i | 0 <= i < |m|
      ensures cc[i] == c[i]
    {
      forall j | 0 <= j < |m[i]|
        ensures cc[i][j] == c[i][j]
      {
        var n := |m[i]|;
        assert c[i][j] == CleanedValue(m[i][j], j, n, minChan, maxChan, threshold);
        assert cc[i][j] == CleanedValue(c[i][j], j, n, minChan, maxChan, threshold);
      }
    }
  }

  /** Cleaning never lets a value above the threshold through, and keeps the shape. */
  lemma CleanBounded(m: seq<seq<real>>, minChan: int, maxChan: int, threshold: real)
    ensures forall i, j | 0 <= i < |m| && 0 <= j < |m[i]| ::
      var c := CleanRows(m, minChan, maxChan, threshold)[i][j];
      c == 0.0 || (c == m[i][j] && c <= threshold)
  {
  }

  /** The contents of a 2-D array as a sequence of rows. */
  function Rows(a: array2<real>): (m: seq<seq<real>>)
    reads a
    ensures |m| == a.Length0
    ensures forall i | 0 <= i < a.Length0 :: |m[i]| == a.Length1
    ensures forall i, j | 0 <= i < a.Length0 && 0 <= j < a.Length1 :: m[i][j] == a[i, j]
  {
    seq(a.Length0, i reads a requires 0 <= i < a.Length0 => seq(a.Length1, j reads a requires 0 <= i < a.Length0 && 0 <= j < a.Length1 => a[i, j]))
  }

  /** `a[:, :stop] = 0` for a stop already resolved to a column position. */
  method ZeroColumnsBefore(a: array2<real>, stop: nat)
    modifies a
    ensures forall i, j | 0 <= i < a.Length0 && 0 <= j < a.Length1 ::
      a[i, j] == if j < stop then 0.0 else old(a[i, j])
  {
    for i := 0 to a.Length0
      invariant forall r, j | 0 <= r < a.Length0 && 0 <= j < a.Length1 ::
        a[r, j] == if r < i && j < stop then 0.0 else old(a[r, j])
    {
      for j := 0 to if stop < a.Length1 then stop else a.Length1
        invariant forall r, c | 0 <= r < a.Length0 && 0 <= c < a.Length1 ::
          a[r, c] == if (r < i || (r == i && c < j)) && c < stop then 0.0 else old(a[r, c])
      {
        a[i, j] := 0.0;
      }
    }
  }

  /** `a[:, start:] = 0` for a start already resolved to a column position. */
  method ZeroColumnsFrom(a: array2<real>, start: nat)
    modifies a
    ensures forall i, j | 0 <= i < a.Length0 && 0 <= j < a.Length1 ::
      a[i, j] == if j >= start then 0.0 else old(a[i, j])
  {
    for i := 0 to a.Length0
      invariant forall r, j | 0 <= r < a.Length0 && 0 <= j < a.Length1 ::
        a[r, j] == if r < i && j >= start then 0.0 else old(a[r, j])
    {
      for j := if start < a.Length1 then start else a.Length1 to a.Length1
        invariant forall r, c | 0 <= r < a.Length0 && 0 <= c < a.Length1 ::
          a[r, c] == if (r < i || (r == i && c < j)) && c >= start then 0.0 else old(a[r, c])
      {
        a[i, j] := 0.0;
      }
    }
  }

  /** `a[a > threshold] = 0`. */
  method ZeroAbove(a: array2<real>, threshold: real)
    modifies a
    ensures forall i, j | 0 <= i < a.Length0 && 0 <= j < a.Length1 ::
      a[i, j] == if old(a[i, j]) > threshold then 0.0 else old(a[i, j])
  {
    for i := 0 to a.Length0
      invariant forall r, j | 0 <= r < a.Length0 && 0 <= j < a.Length1 ::
        a[r, j] == if r < i && old(a[r, j]) > threshold then 0.0 else old(a[r, j])
    {
      for j := 0 to a.Length1
        invariant forall r, c | 0 <= r < a.Length0 && 0 <= c < a.Length1 ::
          a[r, c] == if (r < i || (r == i && c < j)) && old(a[r, c]) > threshold then 0.0 else old(a[r, c])
      {
        if a[i, j] > threshold {
          a[i, j] := 0.0;
        }
      }
    }
  }

  /** `clean_mythen_data`: cleans the caller's array in place and hands the same array back. */
  method Clean(data: array2<real>, minChan: int, maxChan: int, threshold: real) returns (cleaned: array2<real>)
    modifies data
    ensures cleaned == data
    ensures forall i, j | 0 <= i < data.Length0 && 0 <= j < data.Length1 ::
      data[i, j] == CleanedValue(old(data[i, j]), j, data.Length1, minChan, maxChan, threshold)
    ensures Rows(data) == CleanRows(old(Rows(data)), minChan, maxChan, threshold)
  {
    var n := data.Length1;
    ZeroColumnsBefore(data, SliceBound(minChan, n));
    ZeroColumnsFrom(data, SliceBound(maxChan, n));
    ZeroAbove(data, threshold);
    cleaned := data;
    ghost var before := old(Rows(data));
    ghost var want := CleanRows(before, minChan, maxChan, threshold);
    forall i | 0 <= i < data.Length0
      ensures Rows(data)[i] == want[i]
    {
      assert |before[i]| == n;
    }
  }
}
