# STMAnalysis calibration and validation core, modelled in Dafny

This project models five analysis scripts of the Mu2e stopping-target monitor (STM).

- **Zero-suppression validation plots** (`plotZSAnalysis`). The script reads the analysis tree and the result tree. It checks their branches. It intersects their event IDs into a sorted, unique list. It picks the events to plot: all of them for ID 0, otherwise the one requested. For each event it selects that event's rows. It then cuts a time window, either the requested one or the data range, in whole ADC ticks of 3.125 ns. It slices the input samples. It keeps the output samples strictly inside the window. It splits the output stream into separate waveforms wherever two samples are more than one tick apart. A "fit" drawing and a "results" drawing come out of the same selection. Every fatal check is an error value.
- **Peak fitting for the energy gain** (`energyGain`). TSpectrum finds the peaks. For each peak, the script finds the first bins above and below half maximum of the background-subtracted spectrum, within ±25 bins. It seeds a Gaussian-plus-line fit from that scan. HPGe uses a second Gaussian and a ±50 window; LaBr uses a ±250 window. The mean is held within ±10. Only peaks above 500 are fitted. The script logs one `peak_number, par_name, par_value, par_error` row per fitted parameter.
- **Resolution of the MWD peak** (`MWDResolution`). The same half-maximum scan, on raw bin contents around 1.836 MeV, seeds a box-limited fit. The fitted sigma (parameter 2) is appended to the log with the file name.
- **Moving-window deconvolution** (`MWDLaBrTest`). Bin `i` of the output is `(w[i] - P) - (1 - T0/tau)(w[i-1] - P) + D[i-1]`, and the first bin copies the sample. The source's constants are tau = 35 ns, T0 = 3.125 ns, a 3800 pedestal and 160 bins.
- **Energy calibration** (`calibrationSTM.py`). The script takes the ` Mean` rows of the peak log and sorts them by value. It pairs them with the energies 0.392, 0.662, 0.898, 1.173 and 1.333 MeV. It fits `adc = p0 + p1·E` by least squares. It reports `chi2/ndof` with `ndof = 5 - 2` and computes `gain = 1/p1` and `cal = -p0/p1`. It exports a `TableRow` for both channels.

ROOT and library calls become inputs or function parameters:
- reading trees and histograms;
- `FindBin`;
- the TSpectrum peak search and background;
- the fitter;
- the least-squares fit.

The bin contents of a histogram are a total function from bin number to content. The bin centres come from a uniform axis.

Where the code and its documentation disagree, the model follows the code:
- `plotZSAnalysis` documents `tMax = 0` as "no cut". Yet `tMax = 0` with `tMin > 0` fails the `tMax < tMin` check, and `ZSWindow.ValidateBounds` states this.
- `energyGain` checks the detector letter inside the peak loop. An unknown detector therefore goes unnoticed when no peak is found, and `EnergyGain.LogOf` returns an empty log in that case.

Each scripted loop that fills vectors is a `method` with loop invariants. Its `ensures` is equality with a specification `function`. Lemmas prove properties of those functions.

## Model

| member | source | states |
|---|---|---|
| ZSIngest.FirstMissing | Plotting/plotZSAnalysis.C:73-92 | the position of the first required branch that is absent; none exactly when every required branch is present |
| ZSIngest.ClampKeepsBelowThreshold | Plotting/plotZSAnalysis.C:108-109 | a kept gradient or averaged gradient never exceeds the overlap threshold 100; it changes exactly when it exceeded 100; clamping twice changes nothing |
| ZSIngest.AnalyseEntries | Plotting/plotZSAnalysis.C:101-111 | one element per entry in each of the five aligned vectors |
| ZSIngest.ResultOfEntries | Plotting/plotZSAnalysis.C:191-199 | one element per entry in each of the three aligned vectors |
| ZSIngest.CollectAnalysisData | Plotting/plotZSAnalysis.C:73-115 | the first missing branch is fatal, then an empty tree is fatal; otherwise element i of each vector is entry i's ADC, its time × 3.125 ns, its clamped gradient, its clamped averaged gradient and its event ID |
| ZSIngest.CollectResultData | Plotting/plotZSAnalysis.C:171-203 | the same for the result tree with its ADC, time and eventId branches |
| ZSIngest.AnalysisBranchCheck | Plotting/plotZSAnalysis.C:73-92 | the analysis tree passes the branch checks exactly when ADC, time, gradient, averagedGradient and eventId are all present |
| ZSIngest.ResultBranchCheck | Plotting/plotZSAnalysis.C:171-182 | the result tree passes exactly when ADC, time and eventId are present |
| ZSEvents.Insert | Plotting/plotZSAnalysis.C:427-427 | inserting an ID into a set's increasing contents keeps them strictly increasing and adds exactly that ID |
| ZSEvents.SortUnique | Plotting/plotZSAnalysis.C:427-436 | a vector turned into a set and back: strictly increasing, holding exactly the vector's IDs |
| ZSEvents.SetIntersection | Plotting/plotZSAnalysis.C:438-440 | the ordered merge of two increasing ranges is increasing and holds exactly the common IDs |
| ZSEvents.MakeUniqueEventIds | Plotting/plotZSAnalysis.C:408-444 | the result is strictly increasing and holds exactly the IDs found in both datasets |
| ZSEvents.MakeUniqueIgnoresOrderAndDuplicates | Plotting/plotZSAnalysis.C:427-443 | the intersection depends only on the sets of IDs, not on their order or repetitions |
| ZSEvents.MakeUniqueExample | Plotting/plotZSAnalysis.C:408-444 | input IDs 5,1,3,2,1 and output IDs 4,3,2 give exactly [2, 3] |
| ZSEvents.SelectEventsSound | Plotting/plotZSAnalysis.C:509-517 | the selection fails exactly for a non-zero ID absent from either dataset; ID 0 selects the whole intersection; any other ID selects only itself; every selected ID occurs in both datasets |
| ZSEvents.InputOf | Plotting/plotZSAnalysis.C:525-532 | the selected analysis buffers stay aligned |
| ZSEvents.OutputOf | Plotting/plotZSAnalysis.C:533-538 | the selected result buffers stay aligned |
| ZSEvents.SelectInputRows | Plotting/plotZSAnalysis.C:525-532 | the selection loop over the analysis rows yields the event's analysis rows |
| ZSEvents.SelectOutputRows | Plotting/plotZSAnalysis.C:533-538 | the selection loop over the result rows yields the event's result rows |
| ZSEvents.InputOfIsEventRows | Plotting/plotZSAnalysis.C:525-532 | the selection holds exactly the rows carrying the event ID, in their original order, with every column taken from the same row |
| ZSEvents.OutputOfIsEventRows | Plotting/plotZSAnalysis.C:533-538 | the same for the result rows |
| ZSEvents.SelectionEmptyIffAbsent | Plotting/plotZSAnalysis.C:541-552 | a selection is empty exactly when the event is absent from that dataset |
| ZSWindow.ValidateBounds | Plotting/plotZSAnalysis.C:488-494 | the bounds pass exactly when 0 ≤ tMin ≤ tMax; a negative tMin is reported first, then a negative tMax; tMax = 0 with tMin > 0 is rejected as tMax below tMin |
| ZSWindow.TruncToInt | Plotting/plotZSAnalysis.C:273-274 | `static_cast<int>` truncates toward zero: the result lies within one of x, on the side of zero |
| ZSWindow.MinOf | Plotting/plotZSAnalysis.C:265-265 | `min_element` returns an element that is at most every element |
| ZSWindow.MaxOf | Plotting/plotZSAnalysis.C:266-266 | `max_element` returns an element that is at least every element |
| ZSWindow.CutIsIntersection | Plotting/plotZSAnalysis.C:269-279 | the tick cut is the truncated intersection of the requested window with the data range, a bound below epsilon meaning no cut; it fails exactly when tMin lies beyond the data or fewer than 10 ticks remain |
| ZSWindow.NoCutMeansFullRange | Plotting/plotZSAnalysis.C:273-274 | zero bounds cut at the data range |
| ZSWindow.AsReals | Plotting/plotZSAnalysis.C:286-288 | each ADC value is converted to a double, position by position |
| ZSWindow.SliceInput | Plotting/plotZSAnalysis.C:285-290 | the input loop yields sample lo + k at position k, for every k below hi - lo, in all four columns |
| ZSWindow.WindowOutputOf | Plotting/plotZSAnalysis.C:293-299 | the windowed output has one ADC value per time |
| ZSWindow.WindowOutput | Plotting/plotZSAnalysis.C:292-300 | the output filter loop computes the windowed output |
| ZSWindow.WindowOutputKeepsInside | Plotting/plotZSAnalysis.C:293-299 | the filter keeps exactly the samples strictly inside (tMinns, tMaxns), in order, with each ADC still paired with its time |
| ZSSegments.GapStartsFacts | Plotting/plotZSAnalysis.C:352-355 | an index in [1, k) is listed exactly when its sample follows the previous one by more than one tick; the list is increasing |
| ZSSegments.SplitIndexesOf | Plotting/plotZSAnalysis.C:351-356 | the split indexes start at 0 and end at the sample count; they are strictly increasing for a non-empty stream; an inner index is listed exactly when a gap of more than one tick precedes it |
| ZSSegments.SplitIndexes | Plotting/plotZSAnalysis.C:351-356 | the loop yields exactly those split indexes |
| ZSSegments.SegmentsOf | Plotting/plotZSAnalysis.C:366-369 | one output graph per pair of consecutive split indexes |
| ZSSegments.OneSegmentIsWhole | Plotting/plotZSAnalysis.C:378-384 | the split [0, n] gives a single graph of the whole stream |
| ZSSegments.OutputPlots | Plotting/plotZSAnalysis.C:359-384 | both branches, more than two split indexes or not, draw the segments of the split |
| ZSSegments.SegmentsConcatenate | Plotting/plotZSAnalysis.C:359-384 | joining the graphs' times and ADCs gives back the windowed output stream |
| ZSSegments.SegmentsHaveNoInnerGap | Plotting/plotZSAnalysis.C:351-376 | every graph is non-empty, and consecutive samples inside a graph are at most one tick apart |
| ZSSegments.SegmentsStartAfterGap | Plotting/plotZSAnalysis.C:351-376 | each graph after the first starts more than one tick after the previous one ends |
| ZSSegments.SingleSegmentIffNoGap | Plotting/plotZSAnalysis.C:357-384 | the stream is drawn as one graph exactly when it has no gap of more than one tick |
| ZSSegments.SegmentsOfIsGapSegmentation | Plotting/plotZSAnalysis.C:350-384 | the graphs are non-empty and join up to the stream; none spans a gap of more than one tick; consecutive graphs are separated by such a gap; there is one graph exactly when the stream has no gap |
| ZSPlot.SelectFrame | Plotting/plotZSAnalysis.C:284-302 | the two selection loops and the empty-output check compute the frame of ticks [lo, hi) |
| ZSPlot.ComputeFrame | Plotting/plotZSAnalysis.C:261-302 | the range, the cut, its checks and the selections of `plot` compute the frame |
| ZSPlot.Plot | Plotting/plotZSAnalysis.C:316-388 | "fit" draws from the frame with the threshold line; "results" draws the frame with the segments of its output |
| ZSPlot.TickFloor | Plotting/plotZSAnalysis.C:273-275 | a truncated tick boundary lies less than one tick below the time, and at or below it when positive |
| ZSPlot.FrameErrors | Plotting/plotZSAnalysis.C:265-302 | each fatal error of `plot` occurs exactly under its own condition: start beyond the data, fewer than 10 ticks, or a tick range outside the input buffer; the only other error is no output point |
| ZSPlot.FrameWindow | Plotting/plotZSAnalysis.C:265-302 | a successful frame spans at least 10 ticks and holds one input sample per tick, from the cut's first tick; its limits lie at most one tick below the effective start and not above the effective end; it holds at least one output sample |
| ZSPlot.FrameAtInside | Plotting/plotZSAnalysis.C:293-299 | the output samples kept for ticks [lo, hi) lie strictly between lo and hi ticks |
| ZSPlot.FrameOutputInside | Plotting/plotZSAnalysis.C:293-302 | every output sample of a frame lies strictly inside its limits |
| ZSPlot.KindsShareFrame | Plotting/plotZSAnalysis.C:554-556 | the two plot kinds succeed or fail together and use the same frame |
| ZSPlot.ResultsSegments | Plotting/plotZSAnalysis.C:340-388 | the graphs of a "results" plot cut the frame's non-empty output exactly at its gaps of more than one tick: they join up to it, none spans such a gap, consecutive graphs are separated by one |
| ZSPlot.EventPlotsOf | Plotting/plotZSAnalysis.C:524-556 | an empty input selection fails exactly when the event is absent from the analysis data; an empty output selection fails exactly when the event is in the analysis data but not in the result data; every error names the event |
| ZSPlot.AllEventPlotsSucceed | Plotting/plotZSAnalysis.C:521-565 | the loop succeeds exactly when every event succeeds, and then gives each event's own plots, in order |
| ZSPlot.AllEventPlotsFailFirst | Plotting/plotZSAnalysis.C:521-565 | a failed loop reports the error of the first failing event; all earlier events succeeded |
| ZSPlot.PlotEvents | Plotting/plotZSAnalysis.C:521-565 | the event loop yields the plots of every event, or the first failure |
| ZSPlot.EventPlot | Plotting/plotZSAnalysis.C:524-556 | the loop body yields the event's plots or its first failure |
| ZSPlot.PlotZSAnalysis | Plotting/plotZSAnalysis.C:488-565 | the whole run: bounds, both trees, the event selection and the event loop |
| ZSPlot.SharedEventsAreNeverEmpty | Plotting/plotZSAnalysis.C:540-552 | for events present in both datasets, the loop can fail only inside `plot` |
| ZSPlot.RunPlotsSelectedEvents | Plotting/plotZSAnalysis.C:509-565 | the run fails at selection exactly for a non-zero ID outside the intersection; a successful run plots, in order, the intersection for ID 0 or else only the requested event, each from its own rows; any later failure is inside `plot` |
| Fwhm.FirstAbove | Calibration/energyGain.C:69-78 | the first bin of the window strictly above the level, or none when no bin is above it |
| Fwhm.FirstBelow | Calibration/energyGain.C:79-84 | the first bin after the rise strictly below the level, or none when no bin is below it |
| Fwhm.ScanHalfMax | Calibration/energyGain.C:65-85 | the threshold-flag loop over bins [bin-25, bin+25) yields the scan of that window |
| Fwhm.BracketIff | Calibration/energyGain.C:69-85 | the scan brackets (r, f) exactly when r is the first bin above the level, f > r is the first bin below it, and the bins in between are at or above it |
| Fwhm.NoRiseIff | Calibration/energyGain.C:69-85 | no rise exactly when no bin of the window is above the level, so `x1` and `x2` are never set |
| Fwhm.RiseOnlyIff | Calibration/energyGain.C:69-85 | a rise without a fall exactly when no later bin is below the level, so `x2` is never set |
| Fwhm.CenterGap | Calibration/energyGain.C:86-86 | the FWHM between bin centres n bins apart is n bin widths |
| Fwhm.BracketWidth | Calibration/energyGain.C:86-88 | a bracket gives a FWHM of a whole number of bins, at least one bin and less than the 50-bin window; sigma = FWHM/2.35 is positive |
| Fwhm.ScanPointwise | Calibration/energyGain.C:69-85 | the scan depends only on the contents of the window's bins |
| Fwhm.WindowPointwise | Calibration/energyGain.C:69-69 | the same for the ±25-bin window around a bin |
| EnergyGain.DetectorOf | Calibration/energyGain.C:45-48 | "H" is HPGe, "L" is LaBr, and any other name is unknown |
| EnergyGain.BuildPeakConfig | Calibration/energyGain.C:44-92 | the loop body computes the fit request from the peak's bin, the half-maximum scan of the background-subtracted content, the seeds and the mean limit |
| EnergyGain.PeakSeed | Calibration/energyGain.C:46-92 | seed height is the peak bin's content and seed mean is the peak; sigma is present exactly when the scan brackets the peak, and is then positive; the fit range is peak ± 50 (HPGe) or peak ± 250 (LaBr); the background seeds are -0.05 and 2; the mean is limited to ±10; the parameter names are Amplitude, Mean, Sigma, Linear, Constant; HPGe fits the two-Gaussian formula with 8 parameters and LaBr the one-Gaussian formula with 5 |
| EnergyGain.RowsOf | Calibration/energyGain.C:103-110 | one row per fit parameter, in parameter order, tagged with the peak index |
| EnergyGain.FitResults | Calibration/energyGain.C:97-99 | one fitter result per peak, in peak order, for that peak's own request |
| EnergyGain.PeakBlocks | Calibration/energyGain.C:96-111 | one block per peak: its rows if above 500, else none |
| EnergyGain.WriteParameterRows | Calibration/energyGain.C:103-110 | the inner loop appends the rows of the fitted parameters to the rows written so far |
| EnergyGain.EnergyGainLog | Calibration/energyGain.C:41-112 | the fitting loop over the peaks yields the log of the run |
| EnergyGain.LogFailsIff | Calibration/energyGain.C:41-48 | the run fails exactly when there is a peak and the detector is neither "H" nor "L" |
| EnergyGain.PeakBlocksTagged | Calibration/energyGain.C:97-110 | block j holds only rows tagged j, and only for a peak above 500 |
| EnergyGain.TaggedFlatten | Calibration/energyGain.C:41-111 | the written rows carry tags of gated peaks, in non-decreasing peak order |
| EnergyGain.LogRowsGated | Calibration/energyGain.C:96-110 | every logged row belongs to a peak above 500, and rows appear in peak order |
| EnergyGain.FittedPeakRows | Calibration/energyGain.C:97-110 | every peak above 500 writes all of its fitted parameters, in order, as one contiguous run after the rows of the earlier peaks |
| MWDResolution.MeasureResolution | MWDResolution.C:13-69 | the logged line is the file name with fitted parameter 2 of the request built from the scan |
| MWDResolution.ResolutionSeed | MWDResolution.C:13-57 | the one-Gaussian formula with no parameter names, over 1.836 ± 0.15; seed height is the peak bin's content and seed mean is 1.836; sigma is present exactly when the scan brackets the peak, and is then positive; the background seeds are -0.05 and 2; the box limits are [0, 300] on the amplitude, [0, 2.5] on the mean and [0, 50] on the width; the mean seed lies inside its limit and inside the fit range |
| MWDResolution.ScanIsZeroBackgroundScan | MWDResolution.C:24-46 | the scan is the half-maximum scan of `energyGain` on the same bins with zero background |
| MWD.NextBin | MWDAnalysis/MWDLaBrTest.C:35-35 | the loop body's `D`, computed with `1 - T0/tau`, is the next deconvolved bin |
| MWD.Deconvolve | MWDAnalysis/MWDLaBrTest.C:32-37 | a new histogram of the same size whose bin i is the deconvolved value at i, with the retained part `1 - T0/tau` |
| MWD.Telescoping | MWDAnalysis/MWDLaBrTest.C:33-37 | closed form: D[n] = w[n] + (T0/tau)·Σ_{j<n}(w[j]-P), with `1 - a` standing for T0/tau |
| MWD.Causal | MWDAnalysis/MWDLaBrTest.C:34-37 | bin i depends only on samples 0..i |
| MWD.FlatPedestal | MWDAnalysis/MWDLaBrTest.C:19-37 | a waveform on the pedestal deconvolves to the pedestal |
| MWD.LeakAdds | MWDAnalysis/MWDLaBrTest.C:33-37 | the decayed part (T0/tau)·Σ_{j<n}(w[j]-P) is additive in the excursions |
| MWD.Superposition | MWDAnalysis/MWDLaBrTest.C:33-37 | the rise above the first bin is additive in the excursions |
| MWD.TestSettings | MWDAnalysis/MWDLaBrTest.C:3-37 | with tau = 35, T0 = 3.125, 160 bins and pedestal 3800, the bins exactly cover 0-500 ns, the retained part lies strictly between 0 and 1, and a flat 160-bin waveform deconvolves to 3800 in every bin |
| Calibration.MeanFieldOfName | calibrationSTM.py:48-50 | a log row is a mean row exactly when its parameter name is `Mean` |
| Calibration.SelectMeans | calibrationSTM.py:50-50 | the selection keeps exactly the rows whose name field is ` Mean`, with their multiplicities |
| Calibration.InsertSorted | calibrationSTM.py:51-51 | inserting into sorted rows keeps them sorted and adds exactly the row |
| Calibration.SortByValue | calibrationSTM.py:51-51 | the result is ascending in `par_value` and a permutation of the input |
| Calibration.EnergiesIncreasing | calibrationSTM.py:16-16 | the five energies are strictly increasing |
| Calibration.PointsOf | calibrationSTM.py:50-58 | pairing fails exactly when the number of mean rows is not 5 |
| Calibration.PairWithEnergies | calibrationSTM.py:55-55 | point i is energy i paired with the value and error of mean row i |
| Calibration.SortedPairsInOrder | calibrationSTM.py:51-55 | sorted means paired with the energies rise in both coordinates |
| Calibration.PointsPairInOrder | calibrationSTM.py:50-55 | the i-th smallest mean is paired with the i-th energy, so both coordinates rise together |
| Calibration.AdcsOf | calibrationSTM.py:52-52 | the `adc` column of the points |
| Calibration.ErrorsOf | calibrationSTM.py:53-53 | the `error` column of the points |
| Calibration.Predicted | calibrationSTM.py:89-89 | the line's prediction at each energy, in order |
| Calibration.TermPos | calibrationSTM.py:40-43 | a non-zero residual contributes a positive term |
| Calibration.TermZero | calibrationSTM.py:40-43 | a zero residual contributes nothing |
| Calibration.ChiSumFacts | calibrationSTM.py:40-43 | the chi-squared sum is never negative, and is zero exactly when observed equals expected |
| Calibration.ChiSquaredFacts | calibrationSTM.py:19-44 | chi²/ndof is defined exactly when ndof ≠ 0 and no error is 0; with ndof > 0 it is ≥ 0, and 0 exactly on a perfect fit |
| Calibration.CalibOf | calibrationSTM.py:68-69 | gain and offset are undefined exactly when the slope is zero |
| Calibration.CalibInvertsLine | calibrationSTM.py:62-69 | cal + gain·adc_pred(E) = E, and predicting from cal + gain·adc gives back adc |
| Calibration.CalibrationOf | calibrationSTM.py:46-91 | the run fails exactly when the log does not hold 5 mean rows |
| Calibration.PointsChiSquared | calibrationSTM.py:65-67 | five points at the energies give ndof = 3; chi² is defined exactly without zero errors, is then ≥ 0, and is 0 exactly when the line meets every point |
| Calibration.CalibrationChiSquared | calibrationSTM.py:65-91 | the same for the points of the whole run |
| Calibration.TableInvertsFit | calibrationSTM.py:78-85 | both channels of the table, HPGe then LaBr, map the ADC value the line predicts for E back to E |

## Left out

- ROOT file and tree access, canvases, graphs, legends, colours, PNG and log file writing: not modelled. A drawing is the data handed to the graphs, and a log is its rows.
- `TSpectrum` peak search and background, `Rebin`, `FindBin`, the Minuit fit and the statsmodels least-squares fit: these are library calls, so they are inputs or function parameters. Nothing is stated about the fit's quality.
- ZSWindow.TruncToInt: the 32-bit `int` range of `tMinCutIndex` and `tMaxCutIndex` is not modelled. Beyond 2^31 ticks (about 6.7 s of data), `static_cast<int>` is undefined behaviour in the source; the model returns the unbounded truncation. The same goes for `int entries = tree->GetEntries()` (`Plotting/plotZSAnalysis.C` lines 95 and 185): the model reads every entry.
- The header line `peak_number, par_name, par_value, par_error`, written once by `energyGain` before the peak loop, is not modelled. A log is only its data rows, and `calibrationSTM.py` reads it with `header=0` as column names.
- Floating point: times, contents and fit values are exact reals. IEEE rounding is not modelled. The `Int16`/`UInt32` ranges of the tree branches are kept. The single precision of the `TH1F` histograms in `MWDLaBrTest` is not modelled.
- Division by zero: a zero slope, a zero peak error or zero degrees of freedom gives `inf`/`nan` in Python. Here the result is `None` (`CalibOf`, `ChiSquared`).
- `plot` with an out-of-range tick index: the C++ reads past the input vectors (undefined behaviour). The model reports `InputIndexOutOfRange`.
- An unknown detector letter in `energyGain` dereferences an unset `fitGaus` (undefined behaviour). The model reports `UnknownDetector`.
- No bracket in the half-maximum scan: the source then uses uninitialised `x1`/`x2`. The model gives the seed sigma as `None`, and the fitter still receives the request.
- The HPGe parameters 5 to 7 get seed 0 from the default arguments of `SetParameters`. The five-field `Seed` does not record them. The script names none of them, so they keep ROOT's default names p5-p7. The model's `names` holds only the five names the script sets; the names that reach the log come from the fitter's result.
- The fitter is a pure function parameter. `EnergyGain.FitResults` therefore has a result for every peak, and the rows of peaks at or below 500 are dropped. This cannot be told apart from never fitting those peaks.
- In `MWDResolution`, `res_error` and the printed integral are computed but never logged, so they are not modelled.
- The waveform synthesis in `MWDLaBrTest` is not modelled: the pulses, including `pulse2->SetParameter(1500, tau)`, which sets no amplitude. Deconvolution takes any waveform as input. The unused duplicate `energyPeaks` array in `energyGain` is not modelled either.
- In `calibrationSTM.py`, `.str.strip('')` is not modelled: its result is discarded and it removes nothing anyway. The `detector` argument is unused. The last line uses an undefined `run_number` (a `NameError`); `ExportTable` takes the run number as a parameter. The script reads `adcPeaks.log`, while `energyGain` writes `energyPeaks.log`; the model treats both as the same rows.
- Calibration.SortByValue: pandas' default sort is not stable. The contract promises only ascending order and a permutation, and insertion sort is one such order.
- Calibration.PointsOf: statsmodels rejects columns of different lengths. A count of mean rows other than 5 is modelled as `LengthMismatch`.
- `R2` and the printed messages are not modelled.
