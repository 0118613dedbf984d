/** One readout of five channels run through the whole reduction. Array columns are 0-based, so
    `min_chan = 2` zeroes columns 0 and 1 (channels 1 and 2) and `max_chan = 4` zeroes column 4;
    the threshold 5 zeroes the 6 in column 2. */
module Scenario {
  import opened ArrayOps
  import opened Cleaning
  import opened Grids
  import opened Binning
  import opened Pipeline

  const Raw: seq<seq<real>> := [[2.0, 4.0, 6.0, 3.0, 1.0]]
  const Energies: seq<real> := [10.02, 10.01, 10.0, 9.99, 9.98]
  const Edges: seq<real> := [9.975, 9.985, 9.995, 10.005, 10.015, 10.025]

  lemma CleanExample()
    ensures CleanRows(Raw, 2, 4, 5.0) == [[0.0, 0.0, 0.0, 3.0, 0.0]]
  {
    var c := CleanRows(Raw, 2, 4, 5.0);
    assert c[0] == [0.0, 0.0, 0.0, 3.0, 0.0];
  }

  lemma GridExample()
    ensures EnergyGrid([10.0], [100.0], 5, 3.0, 0.01) == [[10.02, 10.01, 10.0, 9.99, 9.98]]
    ensures MonitorGrid([10.0], [100.0], 5) == [[100.0, 100.0, 100.0, 100.0, 100.0]]
  {
    var e := EnergyGrid([10.0], [100.0], 5, 3.0, 0.01);
    var indices := ChannelNumbers(5);
    assert indices == [1.0, 2.0, 3.0, 4.0, 5.0];
    assert e[0] == [10.02, 10.01, 10.0, 9.99, 9.98];
    var m := MonitorGrid([10.0], [100.0], 5);
    assert m[0] == [100.0, 100.0, 100.0, 100.0, 100.0];
  }

  /** The surviving bin is the one centred at 9.99 with the 3 counts of channel 4; the monitor
      is histogrammed over all five pixels, so every bin holds 100. */
  lemma SpectrumExample()
    ensures RixsSpectrum([10.0], [100.0], Raw, 5, 3.0, 0.01, 2, 4, 5.0, Edges)
         == Ok(Spectrum([9.99], [3.0], [100.0, 100.0, 100.0, 100.0, 100.0]))
  {
    CleanExample();
    GridExample();
    assert Ravel([[10.02, 10.01, 10.0, 9.99, 9.98]]) == Energies;
    assert Ravel([[0.0, 0.0, 0.0, 3.0, 0.0]]) == [0.0, 0.0, 0.0, 3.0, 0.0];
    assert Ravel([[100.0, 100.0, 100.0, 100.0, 100.0]]) == [100.0, 100.0, 100.0, 100.0, 100.0];
    assert NonDecreasing(Edges);
    BinsOfExample([0.0, 0.0, 0.0, 3.0, 0.0]);
    BinsOfExample([100.0, 100.0, 100.0, 100.0, 100.0]);
    SelectExample();
  }

  /** With only the second bin of five positive, the mask keeps exactly the second entry. */
  lemma SelectSecondOfFive(a: seq<real>)
    requires |a| == 5
    ensures Select(a, [false, true, false, false, false]) == [a[1]]
  {
    var choose := [false, true, false, false, false];
    assert choose[..4] == [false, true, false, false] && choose[..3] == [false, true, false];
    assert choose[..2] == [false, true] && choose[..1] == [false];
    assert choose[..4][..3] == choose[..3] && choose[..3][..2] == choose[..2] && choose[..2][..1] == choose[..1];
    assert a[..4][..3] == a[..3] && a[..3][..2] == a[..2] && a[..2][..1] == a[..1];
    assert a[..1][..0] == [] && choose[..1][..0] == [];
    assert Select(a[..1], choose[..1]) == [];
    assert Select(a[..2], choose[..2]) == [a[1]];
    assert Select(a[..3], choose[..3]) == [a[1]];
    assert Select(a[..4], choose[..4]) == [a[1]];
  }

  /** Only the second bin has positive intensity, so only its centre and its intensity survive. */
  lemma SelectExample()
    ensures Positive([0.0, 3.0, 0.0, 0.0, 0.0]) == [false, true, false, false, false]
    ensures Centres(Edges) == [9.98, 9.99, 10.0, 10.01, 10.02]
    ensures Select(Centres(Edges), [false, true, false, false, false]) == [9.99]
    ensures Select([0.0, 3.0, 0.0, 0.0, 0.0], [false, true, false, false, false]) == [3.0]
  {
    SelectSecondOfFive(Centres(Edges));
    SelectSecondOfFive([0.0, 3.0, 0.0, 0.0, 0.0]);
  }

  /** Pixel p of the readout lands in bin 4 - p. */
  lemma BinsOfExample(ws: seq<real>)
    requires |ws| == 5
    ensures Histogram(Energies, ws, Edges) == [ws[4], ws[3], ws[2], ws[1], ws[0]]
  {
    var xs := Energies;
    var h := Histogram(xs, ws, Edges);
    forall k | 0 <= k < 5
      ensures h[k] == ws[4 - k]
    {
      assert xs[..4] == [10.02, 10.01, 10.0, 9.99];
      assert xs[..3] == [10.02, 10.01, 10.0];
      assert xs[..2] == [10.02, 10.01];
      assert xs[..1] == [10.02];
      assert xs[..0] == [];
      assert xs[..4][..3] == xs[..3] && xs[..3][..2] == xs[..2] && xs[..2][..1] == xs[..1] && xs[..1][..0] == xs[..0];
      assert ws[..4][..3] == ws[..3] && ws[..3][..2] == ws[..2] && ws[..2][..1] == ws[..1] && ws[..1][..0] == ws[..0];
      assert BinWeight(xs, ws, Edges, k)
          == BinWeight(xs[..4], ws[..4], Edges, k) + (if InBin(xs[4], Edges, k) then ws[4] else 0.0);
      assert BinWeight(xs[..4], ws[..4], Edges, k)
          == BinWeight(xs[..3], ws[..3], Edges, k) + (if InBin(xs[3], Edges, k) then ws[3] else 0.0);
      assert BinWeight(xs[..3], ws[..3], Edges, k)
          == BinWeight(xs[..2], ws[..2], Edges, k) + (if InBin(xs[2], Edges, k) then ws[2] else 0.0);
      assert BinWeight(xs[..2], ws[..2], Edges, k)
          == BinWeight(xs[..1], ws[..1], Edges, k) + (if InBin(xs[1], Edges, k) then ws[1] else 0.0);
      assert BinWeight(xs[..1], ws[..1], Edges, k)
          == BinWeight(xs[..0], ws[..0], Edges, k) + (if InBin(xs[0], Edges, k) then ws[0] else 0.0);
    }
  }
}
