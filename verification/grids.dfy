/** `construct_E_M`: the per-pixel energy and monitor grids that accompany a stack of
    Mythen readouts. Channel numbers are 1-based; array column `c - 1` holds channel `c`. */
module Grids {

  function Min(a: nat, b: nat): nat
  {
    if a < b then a else b
  }

  /** `np.arange(1, n + 1)`: the 1-based channel numbers of a readout with `n` channels. */
  function ChannelNumbers(n: nat): (indices: seq<real>)
    ensures |indices| == n
  {
    seq(n, j requires 0 <= j < n => (j + 1) as real)
  }

  /** `dEdchan * (magicchannel - indices) + central_E`: the energy of every channel of one readout. */
  function EnergyRow(n: nat, magic: real, dEdchan: real, centralE: real): (row: seq<real>)
    ensures |row| == n
    // neighbouring channels differ by exactly one dispersion step, higher channels reading lower energy
    ensures forall j | 0 <= j < n - 1 :: row[j] - row[j + 1] == dEdchan
    // the magic channel reads the readout's central energy
    ensures forall j | 0 <= j < n && (j + 1) as real == magic :: row[j] == centralE
  {
    var indices := ChannelNumbers(n);
    seq(n, j requires 0 <= j < n => dEdchan * (magic - indices[j]) + centralE)
  }

  /** `indices * 0 + central_M`: the readout's monitor broadcast over every channel. */
  function MonitorRow(n: nat, centralM: real): (row: seq<real>)
    ensures |row| == n
    ensures forall j | 0 <= j < n :: row[j] == centralM
  {
    var indices := ChannelNumbers(n);
    seq(n, j requires 0 <= j < n => indices[j] * 0.0 + centralM)
  }

  /** The energy grid: one row per readout that `zip(central_Es, central_Ms)` produces. */
  function EnergyGrid(centralEs: seq<real>, centralMs: seq<real>, n: nat, magic: real, dEdchan: real)
    : (grid: seq<seq<real>>)
    ensures |grid| == Min(|centralEs|, |centralMs|)
    ensures forall i | 0 <= i < |grid| :: |grid[i]| == n
    ensures forall i, j | 0 <= i < |grid| && 0 <= j < n - 1 :: grid[i][j] - grid[i][j + 1] == dEdchan
    ensures forall i, j | 0 <= i < |grid| && 0 <= j < n && (j + 1) as real == magic :: grid[i][j] == centralEs[i]
  {
    seq(Min(|centralEs|, |centralMs|), i requires 0 <= i < Min(|centralEs|, |centralMs|) =>
      EnergyRow(n, magic, dEdchan, centralEs[i]))
  }

  /** The monitor grid, with the same rows and columns as the energy grid. */
  function MonitorGrid(centralEs: seq<real>, centralMs: seq<real>, n: nat): (grid: seq<seq<real>>)
    ensures |grid| == Min(|centralEs|, |centralMs|)
    ensures forall i | 0 <= i < |grid| :: |grid[i]| == n
    ensures forall i, j | 0 <= i < |grid| && 0 <= j < n :: grid[i][j] == centralMs[i]
  {
    seq(Min(|centralEs|, |centralMs|), i requires 0 <= i < Min(|centralEs|, |centralMs|) =>
      MonitorRow(n, centralMs[i]))
  }

  /** `construct_E_M`: walks the readouts pairwise and appends one energy row and one monitor
      row for each; the readout array contributes only its number of channels. */
  method ConstructEM(centralEs: seq<real>, centralMs: seq<real>, data: array2<real>, magic: real, dEdchan: real)
    returns (eGrid: seq<seq<real>>, mGrid: seq<seq<real>>)
    ensures eGrid == EnergyGrid(centralEs, centralMs, data.Length1, magic, dEdchan)
    ensures mGrid == MonitorGrid(centralEs, centralMs, data.Length1)
  {
    var n := data.Length1;
    var indices := ChannelNumbers(n);
    eGrid, mGrid := [], [];
    for i := 0 to Min(|centralEs|, |centralMs|)
      invariant |eGrid| == |mGrid| == i
      invariant forall r | 0 <= r < i :: eGrid[r] == EnergyRow(n, magic, dEdchan, centralEs[r])
      invariant forall r | 0 <= r < i :: mGrid[r] == MonitorRow(n, centralMs[r])
    {
      var centralE, centralM := centralEs[i], centralMs[i];
      var eRow := seq(n, j requires 0 <= j < n => dEdchan * (magic - indices[j]) + centralE);
      var mRow := seq(n, j requires 0 <= j < n => indices[j] * 0.0 + centralM);
      eGrid := eGrid + [eRow];
      mGrid := mGrid + [mRow];
    }
  }

  /** One dispersion step: moving one channel up lowers the energy by `dEdchan`. */
  lemma Step(dEdchan: real, magic: real, c: real)
    ensures dEdchan * (magic - c) - dEdchan == dEdchan * (magic - (c + 1.0))
  {
  }

  /** Entries of a row with constant steps `dEdchan` that reads `centralE` at the 1-based channel
      `magic` follow the affine law, walking outwards from the magic channel. */
  lemma {:induction false} AffineFromMagic(row: seq<real>, magic: nat, dEdchan: real, centralE: real, j: nat)
    requires 1 <= magic <= |row| && j < |row|
    requires row[magic - 1] == centralE
    requires forall k | 0 <= k < |row| - 1 :: row[k] - row[k + 1] == dEdchan
    ensures row[j] == dEdchan * (magic as real - (j + 1) as real) + centralE
    decreases if j < magic - 1 then magic - 1 - j else j - (magic - 1)
  {
    if j > magic - 1 {
      AffineFromMagic(row, magic, dEdchan, centralE, j - 1);
      Step(dEdchan, magic as real, j as real);
    } else if j < magic - 1 {
      AffineFromMagic(row, magic, dEdchan, centralE, j + 1);
      Step(dEdchan, magic as real, (j + 1) as real);
    }
  }

  /** The energy row is the only row that reads `centralE` at the magic channel and steps down by
      `dEdchan` from channel to channel: the two properties stated on `EnergyRow` pin it down. */
  lemma EnergyRowCharacterised(row: seq<real>, magicChannel: nat, dEdchan: real, centralE: real)
    requires 1 <= magicChannel <= |row|
    requires row[magicChannel - 1] == centralE
    requires forall k | 0 <= k < |row| - 1 :: row[k] - row[k + 1] == dEdchan
    ensures row == EnergyRow(|row|, magicChannel as real, dEdchan, centralE)
  {
    var want := EnergyRow(|row|, magicChannel as real, dEdchan, centralE);
    var indices := ChannelNumbers(|row|);
    forall j | 0 <= j < |row|
      ensures row[j] == want[j]
    {
      AffineFromMagic(row, magicChannel, dEdchan, centralE, j);
      assert indices[j] == (j + 1) as real;
      assert want[j] == dEdchan * (magicChannel as real - indices[j]) + centralE;
    }
  }

  /** Every pixel energy lies between the energies of the first and the last channel of its
      readout, whichever way the dispersion points. */
  lemma {:induction false} PixelEnergyBetweenEnds(n: nat, magic: real, dEdchan: real, centralE: real, c: nat)
    requires 1 <= c <= n
    ensures var row := EnergyRow(n, magic, dEdchan, centralE);
      (dEdchan >= 0.0 ==> row[n - 1] <= row[c - 1] <= row[0]) &&
      (dEdchan <= 0.0 ==> row[0] <= row[c - 1] <= row[n - 1])
  {
    var row := EnergyRow(n, magic, dEdchan, centralE);
    assert row[c - 1] - row[0] == dEdchan * ((1 - c) as real);
    assert row[c - 1] - row[n - 1] == dEdchan * ((n - c) as real);
  }
}
