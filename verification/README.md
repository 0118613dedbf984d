# Mythen RIXS reduction, modelled in Dafny

This project models the core of `pymcaspec/utils.py`. That code reduces a stack of Mythen strip-detector
readouts into one energy-binned RIXS spectrum. The readouts form a 2-D array: one row per readout,
one column per detector channel. Each readout carries a central energy (the energy of the
"magic" reference channel) and a monitor value. The reduction has three steps:

1. **Cleaning** (`clean_mythen_data`, module `Cleaning`). It zeroes the array columns outside a window
   and every value above a saturation threshold. The work is done in place, on the caller's array,
   which the function also returns. The model is a method over `array2<real>` with three in-place
   passes, one per assignment in the source. Each pass states the whole new array in terms of the
   old one. `Clean`, which runs the three passes, is proved against `CleanedValue`/`CleanRows`.
   The window bounds follow Python slicing exactly: `[:, :min_chan]` and `[:, max_chan:]` take array
   positions, so they are 0-based. Negative bounds count from the end and all bounds are clamped
   (`SliceBound`).
2. **Grid construction** (`construct_E_M`, module `Grids`). It builds an energy grid and a monitor grid.
   Each grid has one row per pair produced by `zip(central_Es, central_Ms)`, and as many columns as
   the data has channels. Channel `c` (1-based, array column `c-1`) of readout `i` has energy
   `dEdchan*(magic - c) + central_Es[i]`. Its monitor is `central_Ms[i]`. The model is a method whose
   loop appends one row per readout, proved equal to `EnergyGrid`/`MonitorGrid`.
3. **Binning** (`bin_mythen` with explicit edges, module `Binning`). It flattens the three grids in
   row-major order and histograms them the way `np.histogram(E_all, bins=edges, weights=w)` does.
   Bins are half-open and the last bin is closed; values outside the edges are dropped. Bin centres
   are the midpoints of consecutive edges. E and I then keep only the bins with positive intensity.
   M keeps every bin. The errors numpy raises become a `Result`: a weights array whose length differs
   from the energies, or an edge larger than its successor. They are checked in numpy's order.

`bin_RIXS` (module `Pipeline`) chains the three steps. The caller's array is left cleaned.
`ArrayOps` models the numpy primitives used, `ravel` and boolean-mask selection. It also defines
`Sum`, the total of a sequence, in which the conservation lemmas are stated.
`Scenario` runs one five-channel readout through the whole pipeline.

Energies, intensities and monitors are exact `real`s, so float rounding plays no part.

The model follows what the code does, including where its docstrings say something else:
- The docstrings of `clean_mythen_data` and `bin_RIXS` (`pymcaspec/utils.py:62-65`, `:190-193`) call
  `min_chan` and `max_chan` channels, and say of both that the channels below them are zeroed.
  - The code slices 0-based array columns: `[:, :min_chan]` zeroes columns `0 .. min_chan-1`.
  - `[:, max_chan:]` zeroes columns `max_chan` onwards, the columns at and above the bound.
  - Channels as `construct_E_M` numbers them start at 1 (column `c-1`), so the kept channels are
    `min_chan+1 .. max_chan`.
  - For `[2, 4, 6, 3, 1]` with `min_chan=2, max_chan=4, threshold=5`, the code gives
    `[0, 0, 0, 3, 0]` (`Scenario.CleanExample`).
- The monitor is histogrammed over every pixel, whatever its intensity. In that scenario every bin
  has M = 100, including the bins with zero intensity (`Scenario.SpectrumExample`).
- The binner returns E, I and M only. There is no pixel-count output and no NaN filtering.
- There are no default "no masking" bounds. The window and threshold are always applied.
- numpy accepts equal consecutive edges, so the edges need only be non-decreasing (`NonDecreasing`).
  A zero-width bin collects nothing, except when it is the closed last bin.

## Model

| member | source | states |
|---|---|---|
| Cleaning.SliceBound | pymcaspec/utils.py:74-75 | a slice bound lands in `[0, n]`; a bound already in `[0, n]` is kept; a negative bound down to `-n` counts from the end; a bound above `n` clamps to `n`, one below `-n` to 0 |
| Cleaning.CleanedValue | pymcaspec/utils.py:74-76 | an entry outside the column window is 0; an entry above the threshold is 0; an entry inside the window and at or below the threshold is unchanged; for non-negative bounds, columns `j < min_chan` and `j >= max_chan` are 0 |
| Cleaning.CleanRows | pymcaspec/utils.py:74-77 | cleaning keeps the number of readouts and of channels per readout |
| Cleaning.CleanIdempotent | pymcaspec/utils.py:74-77 | cleaning twice with the same parameters equals cleaning once |
| Cleaning.CleanBounded | pymcaspec/utils.py:76 | every cleaned entry is either 0 or its original value, and then no greater than the threshold |
| Cleaning.ZeroColumnsBefore | pymcaspec/utils.py:74 | `a[:, :stop] = 0`: columns before `stop` become 0 in every row; all other entries are unchanged |
| Cleaning.ZeroColumnsFrom | pymcaspec/utils.py:75 | `a[:, start:] = 0`: columns from `start` on become 0 in every row; all other entries are unchanged |
| Cleaning.ZeroAbove | pymcaspec/utils.py:76 | `a[a > threshold] = 0`: exactly the entries above the threshold become 0 |
| Cleaning.Clean | pymcaspec/utils.py:56-77 | mutates the caller's array and returns that same array; each entry of the new contents is `CleanedValue` of the old entry; the shape is unchanged |
| Grids.ChannelNumbers | pymcaspec/utils.py:108 | `np.arange(1, n+1)` has one entry per channel |
| Grids.EnergyRow | pymcaspec/utils.py:108-112 | one energy per channel; adjacent channels differ by exactly `dEdchan`, the lower channel reading higher when `dEdchan > 0`; the magic channel reads exactly the central energy |
| Grids.EnergyRowCharacterised | pymcaspec/utils.py:112 | any row with constant step `dEdchan` that reads the central energy at the magic channel is the energy row, so the two properties above determine the affine law |
| Grids.PixelEnergyBetweenEnds | pymcaspec/utils.py:112 | every channel's energy lies between the energies of the first and the last channel, for either sign of `dEdchan` |
| Grids.MonitorRow | pymcaspec/utils.py:115 | `indices*0 + central_M` holds the readout's monitor in every channel |
| Grids.EnergyGrid | pymcaspec/utils.py:108-119 | `min(len(central_Es), len(central_Ms))` rows of `n` columns; constant step `dEdchan` along each row; the magic channel of row `i` reads `central_Es[i]` |
| Grids.MonitorGrid | pymcaspec/utils.py:108-119 | same shape as the energy grid; entry `(i, j)` is `central_Ms[i]` |
| Grids.ConstructEM | pymcaspec/utils.py:80-119 | the loop over `zip` builds exactly `EnergyGrid` and `MonitorGrid`, with the column count taken from the data array |
| ArrayOps.RavelIndex | pymcaspec/utils.py:152-154 | `Ravel` (`m.ravel()`, the rows laid end to end) of an `r x w` array has `r*w` entries, with entry `(i, j)` at position `i*w + j` |
| ArrayOps.RavelForall | pymcaspec/utils.py:152-154 | a property of every grid entry holds of every entry of the flattened array |
| ArrayOps.TrueIndices | pymcaspec/utils.py:165-167 | the positions where a mask is true, strictly ascending, each true position listed |
| ArrayOps.SelectAt | pymcaspec/utils.py:166-167 | `Select(a, mask)` (`a[mask]`) has one entry per true mask position, in order: its `j`-th entry is `a` at the `j`-th true position |
| ArrayOps.SumSelectPositive | pymcaspec/utils.py:165-167 | selecting with the mask `I > 0` (`Positive`) drops no weight from a non-negative sequence: the selection has the same sum |
| Binning.InBinInRange | pymcaspec/utils.py:162-163 | a value that falls in a bin lies within `[edges[0], edges[-1]]` |
| Binning.FindBin | pymcaspec/utils.py:162-163 | a value within `[edges[0], edges[-1]]` falls in some bin, the last edge included |
| Binning.BinUnique | pymcaspec/utils.py:162-163 | no value falls in two bins |
| Binning.BinWeightIgnoresOutOfRange | pymcaspec/utils.py:162-163 | a value outside the edges contributes nothing to any bin, whatever its weight |
| Binning.Histogram | pymcaspec/utils.py:162-163 | `np.histogram` gives one weight per bin, one bin fewer than there are edges; a bin is `[edges[k], edges[k+1])`, the last one closed (`InBin`) |
| Binning.Centres | pymcaspec/utils.py:161 | one centre per bin, equidistant from its two edges, and between them when the edges are ordered |
| Binning.HistogramTotal | pymcaspec/utils.py:162-163 | `BinWeight` gives one bin's weight, the sum of the weights of the values in that bin; the histogram of these sums to the weight of the in-range values: nothing is lost or counted twice |
| Binning.HistogramConserves | pymcaspec/utils.py:162-163 | when every value lies within the edges, the histogram sums to the total weight |
| Binning.BinMythen | pymcaspec/utils.py:122-168 | succeeds exactly when the flattened grids have equal lengths and the edges are ordered, else reports numpy's error in numpy's order: a weights array whose length differs from the energies gives the shape error whatever the edges, then decreasing edges give the edges error, then a mismatched monitor gives the shape error; M has one entry per bin and entry `k` is the monitor of bin `k`; E and I have equal length and every I is positive |
| Binning.BinMythenKeepsPositiveBins | pymcaspec/utils.py:161-168 | the kept E and I are, in ascending bin order, exactly the bins of positive intensity: each with its centre `(edges[k]+edges[k+1])/2` and its full intensity sum |
| Binning.BinMythenConserves | pymcaspec/utils.py:161-168 | with every pixel energy inside the edges and no negative intensity, the returned I sums to the total intensity and the returned M to the total monitor |
| Pipeline.RixsOutcome | pymcaspec/utils.py:171-219 | `RixsSpectrum`, the spectrum `bin_RIXS` returns (cleaned data, then grids, then binning), succeeds exactly when the edges are ordered and there is one calibration pair per readout (or no channels); a calibration series that does not match the readouts gives the shape error whatever the edges; with matching series, decreasing edges give the edges error |
| Pipeline.RowInRange | pymcaspec/utils.py:112 | if both end channels of a readout lie within the edges, every channel does |
| Pipeline.GridInRange | pymcaspec/utils.py:108-119 | if both end channels of every readout lie within the edges, every flattened pixel energy does |
| Pipeline.CleanedNonNegative | pymcaspec/utils.py:74-77 | cleaning non-negative counts leaves every entry non-negative |
| Pipeline.RixsConserves | pymcaspec/utils.py:171-219 | with non-negative counts and both end channels of every readout inside the edges, the sum of I is the total cleaned intensity and the sum of M is the total monitor over all pixels |
| Pipeline.BinRIXS | pymcaspec/utils.py:171-219 | leaves the caller's array cleaned; returns `RixsSpectrum` of the original readouts, i.e. the binned spectrum of the cleaned data and the grids; succeeds exactly when the edges are ordered and the calibration series matches the readouts |
| Scenario.CleanExample | pymcaspec/utils.py:74-76 | `[2, 4, 6, 3, 1]` with window `2..4` and threshold 5 cleans to `[0, 0, 0, 3, 0]` |
| Scenario.GridExample | pymcaspec/utils.py:108-115 | magic channel 3, `dEdchan = 0.01`, central energy 10 gives energies `[10.02, 10.01, 10.0, 9.99, 9.98]` and monitors all 100 |
| Scenario.SelectExample | pymcaspec/utils.py:161-167 | for the scenario's edges, the centres are `9.98 … 10.02`, and the mask keeps only the centre 9.99 and the intensity 3 |
| Scenario.BinsOfExample | pymcaspec/utils.py:162-163 | each of the scenario's five pixel energies lands in its own bin, the highest energy in the last bin |
| Scenario.SpectrumExample | pymcaspec/utils.py:171-219 | the whole pipeline on the scenario returns E = [9.99], I = [3], M = [100, 100, 100, 100, 100] |

## Left out

- `calculate_dEdChan` (`pymcaspec/utils.py:30-53`): Bragg-angle numerics with `arcsin`, `tan` and `pi` on floats. The dispersion `dEdchan` is a parameter.
- Automatic bin edges (`bin_edges=None` with `binstep`, `pymcaspec/utils.py:156-159`): how many edges `np.arange` produces depends on float rounding. The model always takes explicit edges.
- `get_T_ISR` (`pymcaspec/utils.py:4-27`): it parses header text with `float()`, which is foreign parsing with little logic of its own.
- The `scan` and `specfile` classes in `pymcaspec/pymcaspec.py` and `pymcaspec.py`: thin wrappers over an external spec-file reader, plus plotting. `setup.py` is packaging only.
- Floating point: NaN and infinity, rounding, and summation order. All values are exact reals. The source does not filter non-finite values, so neither does the model.
- Integer data types: the readouts are `real`. A float64 or int64 array behaves the same. With a narrower integer dtype, `np.histogram` adds each bin's total in that dtype and can wrap it around, and a wrapped total at or below 0 is then dropped by `I > 0`. The exact-real model does not capture this.
- Binning.BinMythen: the `E_dataset`, `M_dataset` and `mythen_dataset` arrays are modelled as sequences of rows, so a ragged grid is flattened rather than rejected. Every grid the pipeline builds is rectangular.
- Fewer than two edges: numpy then returns empty histograms. The model gives zero bins, and `InRange` is false for every value.
