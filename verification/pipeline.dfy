/** `bin_RIXS`: clean the readouts, build the energy and monitor grids, and bin them into one
    RIXS spectrum. Cleaning happens on the caller's array, which therefore stays cleaned. */
module Pipeline {
  import opened ArrayOps
  import opened Cleaning
  import opened Grids
  import opened Binning

  /** The spectrum `bin_RIXS` returns for readouts `rows` with `n` channels each. */
  function RixsSpectrum(centralEs: seq<real>, centralMs: seq<real>, rows: seq<seq<real>>, n: nat,
                        magic: real, dEdchan: real, minChan: int, maxChan: int, threshold: real,
                        edges: seq<real>): Result<Spectrum>
  {
    BinMythen(EnergyGrid(centralEs, centralMs, n, magic, dEdchan), MonitorGrid(centralEs, centralMs, n),
              CleanRows(rows, minChan, maxChan, threshold), edges)
  }

  lemma MulCancel(a: nat, b: nat, n: nat)
    requires n > 0 && a * n == b * n
    ensures a == b
  {
  }

  /** `bin_RIXS` succeeds exactly when numpy accepts the edges and the grids built from the
      calibration series have as many pixels as the readouts: one calibration pair per readout
      (or readouts without channels). Otherwise it fails on the intensity weights first. */
  lemma RixsOutcome(centralEs: seq<real>, centralMs: seq<real>, rows: seq<seq<real>>, n: nat,
                    magic: real, dEdchan: real, minChan: int, maxChan: int, threshold: real, edges: seq<real>)
    requires Rectangular(rows, n)
    ensures var r := RixsSpectrum(centralEs, centralMs, rows, n, magic, dEdchan, minChan, maxChan, threshold, edges);
      && (r.Ok? <==> NonDecreasing(edges) && (n == 0 || Min(|centralEs|, |centralMs|) == |rows|))
      && (r.Err? && NonDecreasing(edges) ==> r.error == WeightsShapeMismatch)
      && (!(n == 0 || Min(|centralEs|, |centralMs|) == |rows|) ==> r == Err(WeightsShapeMismatch))
      && ((n == 0 || Min(|centralEs|, |centralMs|) == |rows|) && !NonDecreasing(edges) ==> r == Err(EdgesNotIncreasing))
  {
    var eGrid := EnergyGrid(centralEs, centralMs, n, magic, dEdchan);
    var mGrid := MonitorGrid(centralEs, centralMs, n);
    var cleaned := CleanRows(rows, minChan, maxChan, threshold);
    RavelIndex(eGrid, n);
    RavelIndex(mGrid, n);
    RavelIndex(cleaned, n);
    var k := Min(|centralEs|, |centralMs|);
    if n > 0 && |Ravel(cleaned)| == |Ravel(eGrid)| {
      MulCancel(|rows|, k, n);
    }
  }

  /** When both end channels of a readout land inside the edges, so does every channel. */
  lemma RowInRange(n: nat, magic: real, dEdchan: real, centralE: real, edges: seq<real>, c: nat)
    requires 1 <= c <= n
    requires InRange(dEdchan * (magic - 1.0) + centralE, edges)
    requires InRange(dEdchan * (magic - n as real) + centralE, edges)
    ensures InRange(EnergyRow(n, magic, dEdchan, centralE)[c - 1], edges)
  {
    var row := EnergyRow(n, magic, dEdchan, centralE);
    PixelEnergyBetweenEnds(n, magic, dEdchan, centralE, c);
    assert ChannelNumbers(n)[0] == 1.0;
    assert ChannelNumbers(n)[n - 1] == n as real;
    assert row[0] == dEdchan * (magic - 1.0) + centralE;
    assert row[n - 1] == dEdchan * (magic - n as real) + centralE;
  }

  /** When both end channels of every readout land inside the edges, every pixel energy does. */
  lemma GridInRange(centralEs: seq<real>, centralMs: seq<real>, n: nat, magic: real, dEdchan: real, edges: seq<real>)
    requires forall i | 0 <= i < Min(|centralEs|, |centralMs|) ::
      InRange(dEdchan * (magic - 1.0) + centralEs[i], edges) &&
      InRange(dEdchan * (magic - n as real) + centralEs[i], edges)
    ensures forall p | 0 <= p < |Ravel(EnergyGrid(centralEs, centralMs, n, magic, dEdchan))| ::
      InRange(Ravel(EnergyGrid(centralEs, centralMs, n, magic, dEdchan))[p], edges)
  {
    var eGrid := EnergyGrid(centralEs, centralMs, n, magic, dEdchan);
    forall i, j | 0 <= i < |eGrid| && 0 <= j < |eGrid[i]|
      ensures InRange(eGrid[i][j], edges)
    {
      assert eGrid[i] == EnergyRow(n, magic, dEdchan, centralEs[i]);
      RowInRange(n, magic, dEdchan, centralEs[i], edges, j + 1);
    }
    RavelForall(eGrid, x => InRange(x, edges));
  }

  /** Cleaning non-negative counts leaves them non-negative. */
  lemma CleanedNonNegative(rows: seq<seq<real>>, minChan: int, maxChan: int, threshold: real)
    requires forall i, j | 0 <= i < |rows| && 0 <= j < |rows[i]| :: rows[i][j] >= 0.0
    ensures forall p | 0 <= p < |Ravel(CleanRows(rows, minChan, maxChan, threshold))| ::
      Ravel(CleanRows(rows, minChan, maxChan, threshold))[p] >= 0.0
  {
    var cleaned := CleanRows(rows, minChan, maxChan, threshold);
    forall i, j | 0 <= i < |cleaned| && 0 <= j < |cleaned[i]|
      ensures cleaned[i][j] >= 0.0
    {
      assert rows[i][j] >= 0.0;
    }
    RavelForall(cleaned, x => x >= 0.0);
  }

  /** Conservation through the whole pipeline: when the counts are non-negative and, for every
      readout, both end channels land inside the edges, the returned intensities add up to the
      total cleaned intensity and the returned monitors to the total monitor over all pixels. */
  lemma RixsConserves(centralEs: seq<real>, centralMs: seq<real>, rows: seq<seq<real>>, n: nat,
                      magic: real, dEdchan: real, minChan: int, maxChan: int, threshold: real, edges: seq<real>)
    requires RixsSpectrum(centralEs, centralMs, rows, n, magic, dEdchan, minChan, maxChan, threshold, edges).Ok?
    requires forall i, j | 0 <= i < |rows| && 0 <= j < |rows[i]| :: rows[i][j] >= 0.0
    requires forall i | 0 <= i < Min(|centralEs|, |centralMs|) ::
      InRange(dEdchan * (magic - 1.0) + centralEs[i], edges) &&
      InRange(dEdchan * (magic - n as real) + centralEs[i], edges)
    ensures var s := RixsSpectrum(centralEs, centralMs, rows, n, magic, dEdchan, minChan, maxChan, threshold, edges).value;
      && Sum(s.I) == Sum(Ravel(CleanRows(rows, minChan, maxChan, threshold)))
      && Sum(s.M) == Sum(Ravel(MonitorGrid(centralEs, centralMs, n)))
  {
    GridInRange(centralEs, centralMs, n, magic, dEdchan, edges);
    CleanedNonNegative(rows, minChan, maxChan, threshold);
    BinMythenConserves(EnergyGrid(centralEs, centralMs, n, magic, dEdchan), MonitorGrid(centralEs, centralMs, n),
                       CleanRows(rows, minChan, maxChan, threshold), edges);
  }

  /** `bin_RIXS`: cleans `data` in place (the caller sees the cleaned array afterwards), then
      builds the grids and bins them. */
  method BinRIXS(centralEs: seq<real>, centralMs: seq<real>, data: array2<real>,
                 magic: real, dEdchan: real, minChan: int, maxChan: int, threshold: real, edges: seq<real>)
    returns (r: Result<Spectrum>)
    modifies data
    ensures Rows(data) == CleanRows(old(Rows(data)), minChan, maxChan, threshold)
    ensures r == RixsSpectrum(centralEs, centralMs, old(Rows(data)), data.Length1,
                              magic, dEdchan, minChan, maxChan, threshold, edges)
    ensures r.Ok? <==> NonDecreasing(edges) && (data.Length1 == 0 || Min(|centralEs|, |centralMs|) == data.Length0)
  {
    ghost var raw := Rows(data);
    var cleaned := Clean(data, minChan, maxChan, threshold);
    var eGrid, mGrid := ConstructEM(centralEs, centralMs, cleaned, magic, dEdchan);
    r := BinMythen(eGrid, mGrid, Rows(cleaned), edges);
    RixsOutcome(centralEs, centralMs, raw, data.Length1, magic, dEdchan, minChan, maxChan, threshold, edges);
  }
}
