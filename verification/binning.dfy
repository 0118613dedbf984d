/** `bin_mythen` with explicit bin edges: flatten the energy, monitor and intensity grids and
    histogram them onto the edges the way `np.histogram(E_all, bins=edges, weights=w)` does,
    then keep only the bins with positive intensity in E and I. */
module Binning {
  import opened ArrayOps

  /** The reasons numpy's histogram raises a ValueError here. */
  datatype BinError =
    | WeightsShapeMismatch   // the flattened weights are not as long as the flattened energies
    | EdgesNotIncreasing     // some edge is larger than the one after it

  datatype Result<T> = Ok(value: T) | Err(error: BinError)

  /** Bin centres `E`, intensities `I` and monitors `M`. */
  datatype Spectrum = Spectrum(E: seq<real>, I: seq<real>, M: seq<real>)

  /** numpy's only check on explicit edges: no edge may exceed its successor (equal edges are accepted). */
  predicate NonDecreasing(edges: seq<real>)
  {
    forall k | 0 <= k < |edges| - 1 :: edges[k] <= edges[k + 1]
  }

  /** Edges that pass numpy's check are ordered as a whole, not just neighbour by neighbour. */
  lemma {:induction false} NonDecreasingOrdered(edges: seq<real>, i: nat, j: nat)
    requires NonDecreasing(edges)
    requires i <= j < |edges|
    ensures edges[i] <= edges[j]
    decreases j - i
  {
    if i < j {
      NonDecreasingOrdered(edges, i + 1, j);
    }
  }

  /** The number of bins: one fewer than the edges, none when there are fewer than two. */
  function NumBins(edges: seq<real>): nat
  {
    if |edges| == 0 then 0 else |edges| - 1
  }

  /** numpy's bin membership: bin `k` is `[edges[k], edges[k+1])`, except that the last bin also
      holds its right edge. */
  predicate InBin(x: real, edges: seq<real>, k: nat)
    requires k + 1 < |edges|
  {
    edges[k] <= x && (x < edges[k + 1] || (k + 2 == |edges| && x == edges[k + 1]))
  }

  /** True when `x` lies in the closed range spanned by the edges (and there is at least one bin). */
  predicate InRange(x: real, edges: seq<real>)
  {
    |edges| >= 2 && edges[0] <= x <= edges[|edges| - 1]
  }

  /** A value belongs to some bin only if it lies within the edges. */
  lemma InBinInRange(x: real, edges: seq<real>, k: nat)
    requires NonDecreasing(edges)
    requires k + 1 < |edges|
    requires InBin(x, edges, k)
    ensures InRange(x, edges)
  {
    NonDecreasingOrdered(edges, 0, k);
    NonDecreasingOrdered(edges, k + 1, |edges| - 1);
  }

  /** A value within the edges belongs to some bin. */
  lemma {:induction false} FindBin(x: real, edges: seq<real>) returns (k: nat)
    requires NonDecreasing(edges)
    requires InRange(x, edges)
    ensures k + 1 < |edges| && InBin(x, edges, k)
    decreases |edges|
  {
    var last := |edges| - 1;
    if x < edges[last - 1] {
      var front := edges[..last];
      k := FindBin(x, front);
      assert InBin(x, front, k);
    } else {
      k := last - 1;
    }
  }

  /** No value belongs to two bins. */
  lemma BinUnique(x: real, edges: seq<real>, k: nat, k': nat)
    requires NonDecreasing(edges)
    requires k + 1 < |edges| && k' + 1 < |edges|
    requires InBin(x, edges, k) && InBin(x, edges, k')
    ensures k == k'
  {
    if k < k' {
      NonDecreasingOrdered(edges, k + 1, k');
    } else if k' < k {
      NonDecreasingOrdered(edges, k' + 1, k);
    }
  }

  /** The weight histogrammed into bin `k`: the sum of `ws[p]` over the positions `p` whose
      value `xs[p]` falls in that bin. */
  function BinWeight(xs: seq<real>, ws: seq<real>, edges: seq<real>, k: nat): real
    requires |xs| == |ws|
    requires k + 1 < |edges|
    decreases |xs|
  {
    if |xs| == 0 then 0.0
    else
      var n := |xs| - 1;
      BinWeight(xs[..n], ws[..n], edges, k) + (if InBin(xs[n], edges, k) then ws[n] else 0.0)
  }

  /** Values outside the edges contribute to no bin. */
  lemma {:induction false} BinWeightIgnoresOutOfRange(xs: seq<real>, ws: seq<real>, edges: seq<real>, k: nat, p: nat)
    requires |xs| == |ws| && k + 1 < |edges| && p < |xs|
    requires NonDecreasing(edges)
    requires !InRange(xs[p], edges)
    ensures BinWeight(xs, ws, edges, k) == BinWeight(xs, ws[p := 0.0], edges, k)
    decreases |xs|
  {
    var n := |xs| - 1;
    if p < n {
      assert ws[p := 0.0][..n] == ws[..n][p := 0.0];
      BinWeightIgnoresOutOfRange(xs[..n], ws[..n], edges, k, p);
    } else {
      assert ws[p := 0.0][..n] == ws[..n];
      if InBin(xs[n], edges, k) {
        InBinInRange(xs[n], edges, k);
      }
    }
  }

  /** `np.histogram(xs, bins=edges, weights=ws)[0]`. */
  function Histogram(xs: seq<real>, ws: seq<real>, edges: seq<real>): (h: seq<real>)
    requires |xs| == |ws|
    ensures |h| == NumBins(edges)
  {
    seq(NumBins(edges), k requires 0 <= k < NumBins(edges) => BinWeight(xs, ws, edges, k))
  }

  /** `(edges[1:] + edges[:-1]) / 2`. */
  function Centres(edges: seq<real>): (c: seq<real>)
    ensures |c| == NumBins(edges)
    ensures NonDecreasing(edges) ==> forall k | 0 <= k < |c| :: edges[k] <= c[k] <= edges[k + 1]
    ensures forall k | 0 <= k < |c| :: c[k] - edges[k] == edges[k + 1] - c[k]
  {
    seq(NumBins(edges), k requires 0 <= k < NumBins(edges) => (edges[k + 1] + edges[k]) / 2.0)
  }

  /** The weight of the positions whose value lies within the edges. */
  function InRangeWeight(xs: seq<real>, ws: seq<real>, edges: seq<real>): real
    requires |xs| == |ws|
    decreases |xs|
  {
    if |xs| == 0 then 0.0
    else
      var n := |xs| - 1;
      InRangeWeight(xs[..n], ws[..n], edges) + (if InRange(xs[n], edges) then ws[n] else 0.0)
  }

  /** The histogram of one value: its weight in its bin, zero elsewhere (zero everywhere when out of range). */
  lemma OneValueHistogram(x: real, w: real, edges: seq<real>, ind: seq<real>)
    requires NonDecreasing(edges)
    requires |ind| == NumBins(edges)
    requires forall k | 0 <= k < |ind| :: ind[k] == if InBin(x, edges, k) then w else 0.0
    ensures Sum(ind) == if InRange(x, edges) then w else 0.0
  {
    if InRange(x, edges) {
      var b := FindBin(x, edges);
      forall k | 0 <= k < |ind| && k != b
        ensures ind[k] == 0.0
      {
        if InBin(x, edges, k) {
          BinUnique(x, edges, k, b);
        }
      }
      SumSingle(ind, b);
    } else {
      forall k | 0 <= k < |ind|
        ensures ind[k] == 0.0
      {
        if InBin(x, edges, k) {
          InBinInRange(x, edges, k);
        }
      }
      SumZero(ind);
    }
  }

  /** Every value within the edges lands in exactly one bin, so the histogram's total is the
      weight of the in-range values: nothing is lost or counted twice. */
  lemma {:induction false} HistogramTotal(xs: seq<real>, ws: seq<real>, edges: seq<real>)
    requires |xs| == |ws|
    requires NonDecreasing(edges)
    ensures Sum(Histogram(xs, ws, edges)) == InRangeWeight(xs, ws, edges)
    decreases |xs|
  {
    var h := Histogram(xs, ws, edges);
    if |xs| == 0 {
      SumZero(h);
    } else {
      var n := |xs| - 1;
      var front := Histogram(xs[..n], ws[..n], edges);
      HistogramTotal(xs[..n], ws[..n], edges);
      var ind := seq(NumBins(edges), k requires 0 <= k < NumBins(edges) =>
        if InBin(xs[n], edges, k) then ws[n] else 0.0);
      OneValueHistogram(xs[n], ws[n], edges, ind);
      SumPointwise(front, ind, h);
    }
  }

  /** When every value lies within the edges, the in-range weight is the whole weight. */
  lemma {:induction false} InRangeWeightAll(xs: seq<real>, ws: seq<real>, edges: seq<real>)
    requires |xs| == |ws|
    requires forall p | 0 <= p < |xs| :: InRange(xs[p], edges)
    ensures InRangeWeight(xs, ws, edges) == Sum(ws)
    decreases |xs|
  {
    if |xs| > 0 {
      var n := |xs| - 1;
      InRangeWeightAll(xs[..n], ws[..n], edges);
    }
  }

  /** Conservation: with every value inside the edges, the histogram sums to the total weight. */
  lemma HistogramConserves(xs: seq<real>, ws: seq<real>, edges: seq<real>)
    requires |xs| == |ws|
    requires NonDecreasing(edges)
    requires forall p | 0 <= p < |xs| :: InRange(xs[p], edges)
    ensures Sum(Histogram(xs, ws, edges)) == Sum(ws)
  {
    HistogramTotal(xs, ws, edges);
    InRangeWeightAll(xs, ws, edges);
  }

  /** `bin_mythen(E_dataset, M_dataset, mythen_dataset, bin_edges=edges)`. The checks come in
      numpy's order: the intensity weights' shape, then the edges, then the monitor weights' shape. */
  function BinMythen(eGrid: seq<seq<real>>, mGrid: seq<seq<real>>, iGrid: seq<seq<real>>, edges: seq<real>)
    : (r: Result<Spectrum>)
    ensures r.Ok? <==> |Ravel(iGrid)| == |Ravel(eGrid)| == |Ravel(mGrid)| && NonDecreasing(edges)
    ensures |Ravel(iGrid)| != |Ravel(eGrid)| ==> r == Err(WeightsShapeMismatch)
    ensures r.Err? && |Ravel(iGrid)| == |Ravel(eGrid)| && NonDecreasing(edges) ==> r.error == WeightsShapeMismatch
    ensures r.Err? && |Ravel(iGrid)| == |Ravel(eGrid)| && !NonDecreasing(edges) ==> r.error == EdgesNotIncreasing
    ensures r.Ok? ==>
      var xs := Ravel(eGrid);
      // the monitor is histogrammed but never filtered: one entry per bin
      && |r.value.M| == NumBins(edges)
      && (forall k | 0 <= k < NumBins(edges) :: r.value.M[k] == BinWeight(xs, Ravel(mGrid), edges, k))
      // E and I have one entry per bin of positive intensity
      && |r.value.E| == |r.value.I| <= NumBins(edges)
      && (forall j | 0 <= j < |r.value.I| :: r.value.I[j] > 0.0)
  {
    var xs, ws, mw := Ravel(eGrid), Ravel(iGrid), Ravel(mGrid);
    if |ws| != |xs| then Err(WeightsShapeMismatch)
    else if !NonDecreasing(edges) then Err(EdgesNotIncreasing)
    else if |mw| != |xs| then Err(WeightsShapeMismatch)
    else
      var centres := Centres(edges);
      var intensity := Histogram(xs, ws, edges);
      var monitor := Histogram(xs, mw, edges);
      var choose := Positive(intensity);
      SelectAt(centres, choose);
      SelectAt(intensity, choose);
      Ok(Spectrum(Select(centres, choose), Select(intensity, choose), monitor))
  }

  /** The kept bins, in order, are exactly the bins of positive intensity: the `j`-th kept entry
      is bin `idx[j]` with its centre and its full intensity, and every bin of positive intensity
      appears among the `idx`. */
  lemma BinMythenKeepsPositiveBins(eGrid: seq<seq<real>>, mGrid: seq<seq<real>>, iGrid: seq<seq<real>>, edges: seq<real>)
    requires BinMythen(eGrid, mGrid, iGrid, edges).Ok?
    ensures
      var s := BinMythen(eGrid, mGrid, iGrid, edges).value;
      var xs, ws := Ravel(eGrid), Ravel(iGrid);
      var idx := TrueIndices(Positive(Histogram(xs, ws, edges)));
      && |s.I| == |idx|
      && (forall j | 0 <= j < |idx| :: idx[j] + 1 < |edges|
            && s.I[j] == BinWeight(xs, ws, edges, idx[j])
            && s.E[j] == (edges[idx[j] + 1] + edges[idx[j]]) / 2.0)
      && (forall j, j' | 0 <= j < j' < |idx| :: idx[j] < idx[j'])
      && (forall k: nat | k + 1 < |edges| && BinWeight(xs, ws, edges, k) > 0.0 :: k in idx)
  {
    var xs, ws := Ravel(eGrid), Ravel(iGrid);
    var intensity := Histogram(xs, ws, edges);
    var choose := Positive(intensity);
    SelectAt(Centres(edges), choose);
    SelectAt(intensity, choose);
    forall k: nat | k + 1 < |edges| && BinWeight(xs, ws, edges, k) > 0.0
      ensures k in TrueIndices(choose)
    {
      assert intensity[k] > 0.0;
    }
  }

  /** Conservation through `bin_mythen`: when every pixel energy lies within the edges and no
      intensity is negative, the returned I sums to the total intensity (the dropped bins are
      all zero), and the returned M always sums to the total monitor. */
  lemma BinMythenConserves(eGrid: seq<seq<real>>, mGrid: seq<seq<real>>, iGrid: seq<seq<real>>, edges: seq<real>)
    requires BinMythen(eGrid, mGrid, iGrid, edges).Ok?
    requires forall p | 0 <= p < |Ravel(eGrid)| :: InRange(Ravel(eGrid)[p], edges)
    requires forall p | 0 <= p < |Ravel(iGrid)| :: Ravel(iGrid)[p] >= 0.0
    ensures Sum(BinMythen(eGrid, mGrid, iGrid, edges).value.I) == Sum(Ravel(iGrid))
    ensures Sum(BinMythen(eGrid, mGrid, iGrid, edges).value.M) == Sum(Ravel(mGrid))
  {
    var xs, ws, mw := Ravel(eGrid), Ravel(iGrid), Ravel(mGrid);
    var intensity := Histogram(xs, ws, edges);
    HistogramConserves(xs, ws, edges);
    HistogramConserves(xs, mw, edges);
    forall k | 0 <= k < |intensity|
      ensures intensity[k] >= 0.0
    {
      BinWeightNonNegative(xs, ws, edges, k);
    }
    SumSelectPositive(intensity);
  }

  /** Non-negative weights give non-negative bins. */
  lemma {:induction false} BinWeightNonNegative(xs: seq<real>, ws: seq<real>, edges: seq<real>, k: nat)
    requires |xs| == |ws| && k + 1 < |edges|
    requires forall p | 0 <= p < |ws| :: ws[p] >= 0.0
    ensures BinWeight(xs, ws, edges, k) >= 0.0
    decreases |xs|
  {
    if |xs| > 0 {
      BinWeightNonNegative(xs[..|xs| - 1], ws[..|xs| - 1], edges, k);
    }
  }
}
