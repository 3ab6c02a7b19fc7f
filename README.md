# btpy: brightness temperature of the downwelling atmosphere, modelled in Dafny

btpy computes the microwave brightness temperature that a ground-based radiometer sees
looking up through the atmosphere, frequency by frequency. This project models its
computational core:

- **integration.py** is the quadrature engine. It has rank-dispatching accessors (`at`,
  `diap`), the composite trapezoid, Simpson and Boole rules over irregular layer
  thicknesses, selection of a rule by label with a silent fallback to Boole, and
  integration of a function tabulated at integer heights. Modules: `Integration` holds
  the operations. `Quadrature` holds the reference weights and the theorems about them.
- **vapor.py** converts between vapour partial pressure, absolute humidity and relative
  humidity. It also computes the saturated vapour pressure by five approximations,
  chosen by a case-insensitive name, with the moist-air enhancement factor. Module:
  `Vapor`.
- **core.py** is the driver. Module: `Core`. It covers:
  - the `Initialize` constructor, which filters the profile to the altitude window and
    derives humidity, layer thicknesses and the secant;
  - `bt_downwelling`, one integral nested inside another;
  - the progress counter that clamps and throttles its writes;
  - the run over the frequency grid, which collects results in arrival order, sorts
    them by frequency, saves them and then writes progress 100.

All arithmetic is over exact reals. A Python exception becomes an `Err` value of
`Results.Result`:
- IndexError becomes `Err(IndexError)`.
- ZeroDivisionError on Python floats becomes `Err(ZeroDivision)`.
- Broadcasting failure becomes `Err(BroadcastError)`.
- An unsupported rank becomes `Err(WrongRank)`.
- Division of a numpy float64 by zero becomes `Err(NonFinite)`. numpy does not raise
  there; it stores inf or nan.

The exponential, the cosine and the two attenuation models are parameters. In `Vapor`
they are function arguments. In `Core` they are fields of the `Externals` datatype.

The process pool is modelled as an arbitrary arrival order: any sequence with the same
multiset of frequencies as the grid. The two files under `.tmp` are modelled as an
append-only log of `Event`s held by a `Store` object.

### Behaviour at the edges

- An empty altitude window is not rejected up front. `g` becomes empty, the outer
  integral tabulates an empty table, and `at(a, 0)` raises IndexError inside every
  `bt_downwelling` call (`Core.EmptyWindow`).
- Simpson and Boole do not check the parity of upper − lower. With an odd number of
  intervals (Simpson) or one that is not a multiple of four (Boole) the result on a
  constant is simply not exact (`Quadrature.SimpsonOddInterval`).
- The setter of `n` truncates the percentage with `int()`, clamps it to 99, and
  throttles on its own call counter `k`: it writes on the 1st, 11th, 21st, …
  assignment of `n`, whenever tqdm makes one. tqdm's constructor makes the first
  assignment, `n = 0`, so every run writes progress 0 first. With an empty frequency
  grid the total is 0 and that first assignment raises ZeroDivisionError, before any
  result is collected. When its iterator ends, normally or by an exception, tqdm assigns
  the number of results delivered once more. The model takes the points at which tqdm
  assigns `n` inside the loop as an input.

## Model

| member | source | states |
|---|---|---|
| Integration.At | integration.py:18-26 | a scalar comes back unchanged whatever the index; a vector gives a[index] for 0 <= index < len, a[index + len] for −len <= index < 0, and IndexError outside −len..len−1; ranks other than 0, 1 and 3 raise |
| Integration.Diap | integration.py:7-15 | a scalar comes back untouched; on a vector the k-th result is a[lo + k·step] with every index strictly below the normalised stop, and the next stride would reach or pass the stop; other ranks raise |
| Integration.Item | integration.py:23 | Python indexing succeeds exactly for −len <= i < len, gives a[i] for a non-negative index and a[i + len] for a negative one, and raises IndexError otherwise |
| Integration.Broadcast | integration.py:37 | numpy broadcasting succeeds exactly for equal lengths or a length-1 operand; the result pairs elements, repeating a length-1 operand |
| Integration.Tabulate | integration.py:64 | the table exists exactly when every f(i) in the range succeeds; it has one entry per index, in order |
| Quadrature.RuleOf | integration.py:54-60 | the trapezoid is chosen exactly for the TRAPZ label and Simpson exactly for the SIMPSON label; every other string means Boole |
| Quadrature.IntegrateIsWeighted | integration.py:54-60 | for in-range bounds, integrate by any label is the selected rule's weighted sum of a[i]·dh[i] over lower..upper with the textbook composite weights |
| Quadrature.RuleIsWeighted | integration.py:36-51 | each of trapz, simpson and boole equals the weighted sum with its composite weights |
| Quadrature.SetsPartitionInterior | integration.py:41-51 | the strided index sets of each rule cover every interior index exactly once and never an endpoint |
| Quadrature.WeightIsCoverage | integration.py:41-51 | the composite weight of each index is the sum of the rule's coefficients over the strided sets that contain it |
| Quadrature.TrapzConstant | integration.py:36-38 | for constant a = c and dh = d with upper > lower, trapz gives c·d·(upper − lower) |
| Quadrature.SimpsonConstant | integration.py:41-44 | for constant a, dh and an even number of intervals, simpson gives c·d·(upper − lower) |
| Quadrature.BooleConstant | integration.py:47-51 | for constant a, dh and a multiple of four intervals, boole gives c·d·(upper − lower) |
| Quadrature.TrapzLinear | integration.py:36-38 | for a sampled at integer heights from a line α + β·x and constant dh = d, trapz gives d times the exact integral of the line from lower to upper |
| Quadrature.SimpsonQuadratic | integration.py:41-44 | for a sampled from a parabola α + β·x + γ·x² with constant dh = d and an even number of intervals, simpson gives d times the exact integral of the parabola from lower to upper |
| Quadrature.TrapzWeightsLinear | integration.py:36-38 | the trapezoid weighted sum of samples of a line is d times its exact integral |
| Quadrature.SimpsonWeightsQuadratic | integration.py:41-44 | the Simpson weighted sum of samples of a parabola over an even number of intervals is d times its exact integral |
| Integration.StridedProducts | integration.py:37-51 | sum(a[lo:hi:step] · dh[lo:hi:step]) succeeds whenever a and dh have the same length, raises only BroadcastError, and is 0 on an empty slice (Quadrature.StridedProductsExact gives its value) |
| Quadrature.StridedProductsExact | integration.py:37-51 | for aligned arrays and in-range bounds, the numpy sum of strided products is the sum of a[i]·dh[i] over i = start, start + step, … below stop |
| Quadrature.SimpsonOddInterval | integration.py:41-44 | with three intervals simpson on a constant gives 8/3·c·d, not 3·c·d |
| Quadrature.DegenerateInterval | integration.py:36-51 | when lower == upper the rules give a[l]·dh[l], 2/3·a[l]·dh[l] and 28/45·a[l]·dh[l], not 0 |
| Quadrature.RuleNeedsUpper | integration.py:38 | every rule raises when upper is outside the sample array |
| Quadrature.CallableFromZero | integration.py:63-67 | from lower 0, integrate_callable is integrate applied to the table [f(0), …, f(upper)], hence the weighted sum of that table |
| Quadrature.CallableOffsetRaises | integration.py:63-67 | for lower > 0 (or upper < lower) the table is indexed from 0 but read at upper, so integrate_callable raises |
| Vapor.Div | vapor.py:69-83 | Python float division succeeds exactly when the divisor is non-zero, raises ZeroDivision otherwise, and the quotient times the divisor is the dividend |
| Vapor.NpDiv | vapor.py:33-48 | numpy division is finite exactly when the divisor is non-zero, with the same quotient property |
| Vapor.Lower | vapor.py:68-74 | lower-casing keeps the length, maps A–Z to a–z and leaves every other character but the Kelvin sign unchanged |
| Vapor.LowerIdempotent | vapor.py:68-74 | lower-casing twice is lower-casing once |
| Vapor.PressureLinear | vapor.py:10-18 | partial pressure is linear in the density and zero density gives zero pressure |
| Vapor.PressureInjective | vapor.py:10-18 | away from −273.15 °C the partial pressure determines the density |
| Vapor.SaturatedPressure | vapor.py:56-83 | saturated pressure is defined exactly away from the pole of the formula selected by the lower-cased name and when P ≠ 0; otherwise it raises ZeroDivision |
| Vapor.EnhancementFactor | vapor.py:81-83 | with P given and non-zero, the result is (1.0016 + 3.15e-6·P − 0.074/P) times the pressure over a flat surface |
| Vapor.CaseInsensitive | vapor.py:68-74 | the method name is matched after lower-casing, so any casing selects the same formula |
| Vapor.Fallback | vapor.py:79-80 | any name that is none of the four named approximations selects the WMO (2008) formula |
| Vapor.AugustRocheMagnus | vapor.py:69 | defined exactly for T ≠ −243.04, otherwise ZeroDivision; positive when exp is; 6.1094 hPa at 0 °C |
| Vapor.Tetens | vapor.py:71 | defined exactly for T ≠ −237.3, otherwise ZeroDivision; positive when exp is; 6.1078 hPa at 0 °C |
| Vapor.August | vapor.py:73 | defined exactly for T ≠ −273.15, otherwise ZeroDivision; positive when exp is |
| Vapor.Buck | vapor.py:75-78 | above 0 °C always defined; at or below, defined exactly for T ≠ −279.82, otherwise ZeroDivision; positive when exp is; 6.1115 hPa at 0 °C, from the ice branch |
| Vapor.Wmo2008 | vapor.py:80 | defined exactly for T ≠ −243.12, otherwise ZeroDivision; positive when exp is; 6.112 hPa at 0 °C |
| Vapor.WmoFormula | vapor.py:80 | the default formula is 6.112·exp(17.62·T/(243.12 + T)) |
| Vapor.BuckAtZero | vapor.py:75-78 | Buck's test is strictly T > 0, so 0 °C uses the ice coefficients |
| Vapor.RelativeOf | vapor.py:33 | relative humidity is finite exactly when the saturated pressure is non-zero, and then rel/100 · e is the partial pressure |
| Vapor.DensityOf | vapor.py:48 | absolute humidity is finite exactly when T ≠ −273.15, and its partial pressure is rel/100 times the saturated pressure |
| Vapor.RelativeHumidity | vapor.py:21-33 | defined exactly when the saturated pressure e is and e ≠ 0; then rel/100 · e is the partial pressure of rho; it raises ZeroDivision when e does and is non-finite when e = 0 |
| Vapor.AbsoluteHumidity | vapor.py:36-48 | defined exactly when the saturated pressure e is and T ≠ −273.15; then the partial pressure of the result is rel/100 · e; it raises ZeroDivision when e does and is non-finite at −273.15 °C |
| Vapor.RelativeOfDensity | vapor.py:33-48 | for a given saturated pressure, relative from absolute from rel gives rel back |
| Vapor.DensityOfRelative | vapor.py:33-48 | for a given saturated pressure, absolute from relative from rho gives rho back |
| Vapor.RelativeRoundTrip | vapor.py:21-48 | relative_humidity(absolute_humidity(rel)) == rel when the saturated pressure is non-zero and T ≠ −273.15 |
| Vapor.AbsoluteRoundTrip | vapor.py:21-48 | absolute_humidity(relative_humidity(rho)) == rho under the same conditions |
| Core.Window | core.py:47 | the mask holds at i exactly when h_start <= alt[i] <= h_stop |
| Core.SelectAt | core.py:48 | boolean indexing picks the elements at the kept indices, the same indices for every array, so the filtered arrays stay aligned |
| Core.SelectIndex | core.py:48 | the k-th selected element is the element at the k-th kept index |
| Core.KeptIndices | core.py:48 | the kept indices are in range, strictly increasing, and are exactly the indices where the mask holds |
| Core.WindowFilter | core.py:47-48 | the filtered altitudes all lie in the window, every in-window sample is kept, and the original order is preserved |
| Core.Thickness | core.py:50 | dh has the length of the filtered alt, dh[0] = alt[0] − h_start and dh[i] = alt[i] − alt[i−1] |
| Core.SumDiff | core.py:50 | np.diff telescopes: its sum is last minus first |
| Core.ThicknessSum | core.py:50 | the thicknesses add up to alt[last] − h_start |
| Core.Kelvin | core.py:62 | T + 273.15 element by element, keeping the length |
| Core.BtDownwelling | core.py:54-76 | the row returned carries the frequency it was asked for, and its temperature is the outer integral plus the background term, both computed on the same attenuation profile |
| Core.NoBackground | core.py:71-76 | with relic_background false the background term is 0 and the temperature is the outer integral alone |
| Core.Background | core.py:71-74 | the background is 0 without the relic; with it, it exists exactly when the optical depth of the whole column does, and is 2.72548·exp(−tau) |
| Core.OuterIntegral | core.py:64-69 | the outer integral is the selected rule applied to the table f(0) … f(len(g)−1) with the layer thicknesses |
| Core.EmptyWindow | core.py:68-69 | an empty attenuation profile makes bt_downwelling raise IndexError rather than return a value |
| Core.SortByFrequency | core.py:89 | the sorted results are a permutation of the collected ones, in ascending frequency |
| Core.SortedUnique | core.py:89 | two frequency-sorted arrangements of the same genuine rows are equal |
| Core.RowsPermutation | core.py:84-87 | rows delivered in another order of the same frequencies are the same multiset of rows |
| Core.Spectrum | core.py:89 | the saved array has one row per frequency, sorted by frequency, and is a permutation of the computed rows |
| Core.SpectrumIndependent | core.py:82-89 | whatever the arrival order, the sorted results are the same spectrum, one row per frequency |
| Core.DownwellingKeepsFrequency | core.py:76 | bt_downwelling returns its input frequency as the first component, for every frequency |
| Core.Truncate | core.py:24 | int() truncates toward zero: within one below a non-negative value and within one above a negative one |
| Core.Percent | core.py:24-26 | the written percent is at most 99, equals int(value/total·100) below 100, and is non-negative for a non-negative count |
| Core.PercentMonotone | core.py:24-26 | a larger count never gives a smaller percent |
| Core.ThrottledWrites | core.py:27-30 | from a fresh counter, m assignments write ⌈m/10⌉ times, on assignments 0, 10, 20, … |
| Core.Store.Write | core.py:28-29 | a write appends exactly one event to the log |
| Core.ProgressBar.constructor | core.py:13-14 | before tqdm's own constructor runs, the bar keeps its total and its store and its counter k is 0 |
| Core.ProgressBar.Create | core.py:13-30 | creating the bar assigns n = 0 through the setter: with total 0 it raises ZeroDivision and writes nothing; otherwise the new bar has n = 0 and k = 1, and exactly progress 0 was written |
| Core.ProgressBar.SetN | core.py:21-30 | stores the value; with a zero total raises ZeroDivision and changes nothing else; otherwise writes the clamped percent exactly when k % 10 == 0, then increments k by one |
| Core.Collect | core.py:82-88 | on a bar just created: succeeds exactly when every arriving frequency is solved, with the rows in arrival order; the log gains exactly the loop's reports (`Reports(refresh, total, 1)`, the counter starting at 1) and then the write, if due, of the closing assignment n = len(grid); the bar ends with n = len(grid) and k = Count(refresh) + 2; on failure at the j-th result the log gains the reports of the results before it and the closing write of n = j, and n = j |
| Core.Advance | core.py:21-30 | one turn of the loop: after the (j+1)-th result the count is assigned j + 1 when its flag is set, and the counter and the log move from the prefix's values to those of the prefix one longer |
| Core.ReportsFirst | core.py:24-29 | from a counter on a multiple of ten, the first refreshed result is written first, as Percent(1, total) |
| Core.ReportsCount | core.py:27-30 | the reports number exactly the writes of Count(refresh) assignments from a counter at k0 |
| Core.ReportsRise | core.py:24-30 | every report is a progress event with a percent in 0..99, at most that of the latest result, and the percents never go down |
| Core.WritesShift | core.py:27-30 | from a fresh counter, m + 1 assignments write once more than m assignments from a counter at 1 |
| Core.LogCount | core.py:13-30 | a bar that delivered every result has written exactly the throttled writes of its Count(refresh) + 2 assignments: the initial one, the loop's, and the closing one |
| Core.ClosingRise | core.py:24-30 | the loop's reports and the closing write are progress in 0..99, never going down, and none exceeds the percent of the results delivered |
| Core.LogRise | core.py:13-30 | the bar's whole log starts with progress 0, is progress in 0..99 and never goes down |
| Core.FinalReport | core.py:85-95 | the bar's log followed by the saved spectrum and progress 100 still never goes down |
| Core.Logged | core.py:13-30 | the initial write followed by the bar's later writes is the bar's whole log, rising progress in 0..99 |
| Core.Save | core.py:89-95 | the rows are sorted by frequency and saved, and only then is progress 100 written: the log gains exactly those two events |
| Core.SavedCount | core.py:85-95 | after a full run the earlier log is kept and the writes number the bar's throttled writes plus two |
| Core.SavedRising | core.py:85-95 | after a full run every event before the last two is progress in 0..99, and progress never goes down |
| Core.Initialize.constructor | core.py:34-52 | T, P, rho_rel and alt are filtered with one mask; rho is the absolute humidity of the filtered arrays; dh is the thickness; sec = 1/cos(theta·π/180) |
| Core.Sweep | core.py:78-95 | for any solver that labels results with their frequency: an empty grid raises ZeroDivision and writes nothing; otherwise it fails exactly when some frequency fails, and then the log gains exactly the bar's log up to the first failing result and nothing is saved; on success the log gains exactly the bar's whole log (progress 0, the throttled reports, the closing write), the frequency-sorted spectrum and progress 100, in that order, Writes(0, Count(refresh) + 2) + 2 events in all; progress never goes down |
| Core.Initialize.Run | core.py:78-95 | the sweep with bt_downwelling: an empty grid raises ZeroDivision and writes nothing; otherwise it fails exactly when some frequency fails, logging the bar's writes up to that result; on success the log gains exactly the bar's whole log, then the saved spectrum, then progress 100; progress never goes down |
| Integration.Slice | integration.py:12 | a[start:stop:step] has one element per stride from the normalised start to below the normalised stop, and one more stride would reach or pass that stop |
| Integration.SliceAt | integration.py:12 | the k-th element of a[start:stop:step] is a[lo + k·step], below the normalised stop |
| Integration.Trapz | integration.py:36-38 | defined whenever 0 <= lower <= upper < len(a) = len(dh); a result means both endpoints index both arrays (the weighted value is Quadrature.RuleIsWeighted) |
| Integration.Simpson | integration.py:41-44 | defined whenever 0 <= lower <= upper < len(a) = len(dh); a result means both endpoints index both arrays |
| Integration.Boole | integration.py:47-51 | defined whenever 0 <= lower <= upper < len(a) = len(dh); a result means both endpoints index both arrays |
| Integration.Integrate | integration.py:54-60 | whatever the label, defined whenever 0 <= lower <= upper < len(a) = len(dh), and a result means both endpoints index both arrays |
| Integration.IntegrateCallable | integration.py:63-67 | a result means lower <= upper, both bounds index dh and every f(i) on lower..upper succeeded; from lower 0 with len(dh) = upper + 1 and every f(i) succeeding there is a result |
| Vapor.Pressure | vapor.py:10-18 | zero density gives zero pressure; above −273.15 °C the pressure has the sign of the density |
| Vapor.FlatPressure | vapor.py:68-80 | the formula selected by name is defined exactly away from its pole and otherwise raises ZeroDivision |
| Vapor.Enhanced | vapor.py:81-83 | without P the pressure is returned unchanged; the correction is defined exactly when P ≠ 0 and otherwise raises ZeroDivision |
| Core.Select | core.py:48 | boolean indexing keeps one element per kept index |
| Core.Diff | core.py:50 | np.diff has one element fewer than a non-empty input (SumDiff says what they add up to) |
| Core.Humidity | core.py:49 | one entry per filtered layer; an entry is a value exactly when the saturated pressure is defined there and T ≠ −273.15, that value being the density whose partial pressure is rho_rel percent of the saturated pressure; a failing layer is marked non-finite |
| Core.Attenuation | core.py:56-61 | g exists exactly when the two attenuation profiles broadcast, otherwise BroadcastError; for equal lengths g[i] = sec·(γO[i] + γW[i]) |
| Core.Emission | core.py:64-66 | f(h) is a value only when h indexes g and T and the optical depth up to h exists; for h >= 0 it is (T[h] + 273.15)·g[h]·exp(−depth); for 0 <= h < len(g) with matching lengths it always is |
| Core.Brightness | core.py:68-69 | the outer integral raises on an empty g; a value means every f(h) over the column succeeded; with matching non-empty lengths there is a value (OuterIntegral gives it) |

## Left out

- Rank 3 of `at` and `diap` and the transpose in `integrate_callable` (integration.py:13-14, 24-25, 65-66) are excluded by a precondition. No caller in the core produces 3-D data.
- Integration.Trapz, Integration.Simpson, Integration.Boole: these take 1-D `a` and `dh` only. A scalar `a` or `dh` would broadcast in numpy, but no caller passes one.
- Floating point is not modelled. Rounding, inf and nan are absent, and every value is an exact real. numpy's inf or nan from a zero divisor is `Err(NonFinite)`.
- Core.Humidity: the conversion is applied layer by layer with the scalar functions of `Vapor`, and a failing layer is only marked non-finite. At T = −243.12 °C numpy's exp(−inf) = 0 gives a finite humidity of 0.0 where the model marks the layer non-finite, and which of inf or nan numpy stores is not modelled.
- Core.Percent: the percent is computed over exact reals, so it is `int()` of the exact quotient. A float64 product can land just below an integer and truncate one lower (for example 29/100·100).
- Core.Initialize.constructor: requires the four profile arrays to have equal lengths. numpy would raise IndexError when a mask of one length indexes an array of another.
- Core.Initialize.constructor: requires cos(theta·π/180) ≠ 0. The source would store inf; no double has a cosine of exactly zero.
- The exponential, the cosine and the `attenuation` module (core.py:5, 56-61) are parameters. The attenuation module is not part of this model.
- The keyword-argument mechanism of `Initialize.__init__` (core.py:44-45) becomes a `Settings` datatype.
- The frequency grid from `np.arange` (core.py:52) is an input sequence. Its length is sensitive to rounding.
- The process pool (core.py:84-87) is an arbitrary arrival order of the grid's frequencies. The moments at which tqdm itself assigns `n` are an input sequence of flags.
- The property getter of `n` and tqdm's other machinery (display, timing, `close`) are not modelled. The assignments of `n` that tqdm makes are: the initial `n = 0` in its constructor (Core.ProgressBar.Create), the updates inside its iterator (the `refresh` flags) and the closing `n = <count delivered>` (Core.Collect).
- Quadrature.TrapzConstant, Quadrature.SimpsonConstant, Quadrature.BooleConstant: exactness is proved for constants under each rule's parity, for lines with the trapezoid rule (Quadrature.TrapzLinear) and for parabolas with Simpson's rule (Quadrature.SimpsonQuadratic). Simpson's exactness on cubics and Boole's on polynomials up to degree five are not proved.
- Creating `.tmp` (core.py:79-80), dill and np.save serialisation, and the file names are not modelled. A write is an event in the log.
- Vapor.Lower folds only A–Z and the Kelvin sign. No other character lowers to an ASCII letter, so the dispatch cannot tell the difference.
- `vapor.py` is modelled for scalar arguments. With an array `T`, the `T > 0` test in Buck's branch would raise.
- Overflow of `np.exp` is not modelled.
- gui.py is not part of this model.
