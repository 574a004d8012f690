# ZETA responsiveness core, modelled in Dafny

This project models `calcZetaOne` of zetapy and the helpers it calls in `dependencies.py`. The
function computes the ZETA statistic: whether a neuron's spike train responds to a set of events
(stimulus onsets), without binning.

The model follows the source step by step:

- **Validation and orientation.** The event array is checked and oriented: a 0-D or 1-D array,
  T-by-1, T-by-2, or a 1/2-by-T array that is transposed. Its first column gives the onsets.
- **Spike reduction.** The spike train is reduced to the open span around the events, padded by
  5·W·J (W is the window, J the jitter size). Fewer than three remaining spikes give the default
  result.
- **Stitching** (optional). `getPseudoSpikeVectors` splices the spikes near each event into one
  pseudo-recording. A pseudo event time advances by the gap between onsets when trials overlap,
  and by the window otherwise. On overlap, samples already used are dropped. A trial with no
  spike at or after its onset leaves its samples as an empty float array. Indexing the spikes
  with that array raises (dependencies.py:330, 344). The model reports this as the
  `EmptyFloatIndex` failure. With a non-negative window this happens exactly when no spike
  comes at or after the last onset.
- **The deviation curve.** `getSpikeT` collects the spikes inside every window, relative to their
  onset, sorts them and adds the sentinels 0 and W. It does this imperatively, in a buffer that
  doubles when full. `getTempOffsetOne` turns the sorted distinct times into the curve: the
  cumulative fractions 1/n … 1, minus the linear fractions t/W, with the mean removed.
- **The real statistic.** The real curve is re-centred. `zetaIdx` is the first index of the
  largest absolute deviation, and `maxD` is that value.
- **Resamplings.** Each resampling shifts every onset by a jitter. The jitters are J times evenly
  spaced values from -W to W, dealt out by a random permutation of the trials. A jitter matrix is
  filled column by column. The resampling loop appends each curve's times and re-centred
  deviation, and stores its largest absolute deviation in an array.
- **Significance.** `getZetaP` ranks `maxD` among the sorted distinct null maxima by linear
  interpolation and returns the p-value 1 - rank/(n + 1). In Gumbel mode the model hands over the
  null maxima the fit would use.

Modules, one per part of the source:

- `Wrappers` (wrappers.dfy): `Option`, `Result` and the failures the source raises.
- `ArrayOps` (arrayops.dfy): the numpy primitives the code relies on, on sequences of reals.
- `Utility` (utility.dfy): `findfirst` and `flatten`.
- `Events` (events.dfy): orientation of the event array and spike reduction.
- `SpikeWindows` (spikewindows.dfy): `getSpikeT`, imperative, over an array buffer.
- `Deviation` (deviation.dfy): `getTempOffsetOne`.
- `Significance` (significance.dfy): the direct-quantile part of `getZetaP`.
- `Stitching` (stitching.dfy): `getPseudoSpikeVectors`. The loop is written imperatively and
  proved equal to a functional run over the trials.
- `Zeta` (zeta.dfy): `calcZetaOne`. The jitter matrix and the resampling loop are imperative
  (`array2`, `array`). The whole computation is also a function, `CalcZeta`, which the method is
  proved equal to.

Things the source leaves to its caller or its environment are parameters of the model:

- the `np.random.permutation` draws are the parameter `perms`, one rearrangement of the trials
  per resampling;
- whether the event array has a floating dtype is the flag `floating`.

Times are `real` (exact arithmetic).

## Model

| member | source | states |
|---|---|---|
| Utility.FindFirst | dependencies.py:395-401 | None exactly when no entry of the mask is true; otherwise the least index whose entry is true |
| Utility.FlattenAppend | dependencies.py:404-409 | flattening a concatenation is the concatenation of the flattened parts |
| Utility.FlattenColumns | dependencies.py:404-409 | flattening a list of column arrays (k rows of one float each) yields the fragments concatenated in order |
| ArrayOps.Sort | dependencies.py:294 | the result is sorted and is a permutation (same multiset) of the input |
| ArrayOps.Unique | dependencies.py:238 | the result is strictly increasing and holds exactly the values of the input |
| ArrayOps.UniqueKeepsAllMeansDistinct | dependencies.py:238-244 | when the unique values are as many as the inputs, no two input positions hold the same value (the duplicate branch is not entered) |
| ArrayOps.LinspaceAt | dependencies.py:100 | the k-th of num evenly spaced values lies k steps of (stop - start)/(num - 1) from start, and the last one is stop |
| ArrayOps.Centre | dependencies.py:87 | subtracting the mean keeps the length, makes the sum zero and keeps every pairwise difference |
| ArrayOps.CentreIdempotent | dependencies.py:87 | centring an already centred sequence changes nothing |
| ArrayOps.ArgMaxAbs | dependencies.py:88 | an index whose absolute value is the largest, and the first such index |
| ArrayOps.MaxAbs | dependencies.py:116 | an upper bound of every absolute value that is attained by some entry |
| ArrayOps.KeepOpen | dependencies.py:64 | the kept entries are, with their multiplicity, exactly the entries strictly between the bounds |
| Events.Transpose | dependencies.py:51 | the transposed table is rectangular with rows and columns swapped, and entry (j, i) is input entry (i, j) |
| Events.Orient | dependencies.py:45-57 | a non-float or 3-D input is rejected; a matrix at least 3 by 3 is ambiguous and rejected; a matrix with fewer than 3 columns is kept unchanged; one with 3 or more columns but fewer than 3 rows becomes its transpose; a vector becomes a single column, one row per value |
| Events.FirstColumn | dependencies.py:59 | the onsets are the first entry of every row; a table without columns has no first column |
| Events.EventOnsets | dependencies.py:43-59 | a float vector gives its values, a 0-D array its one value, a T-by-1/2 matrix its first column, and a 1/2-by-T matrix its first row; exactly the rejected shapes fail |
| Events.ReduceSpikes | dependencies.py:61-64 | no events and no spikes fail; otherwise a spike is kept, with its multiplicity, exactly when it lies after the first spike and within 5·W·J of the onset range |
| SpikeWindows.Resize | dependencies.py:286 | the new array has the requested size, repeats the old contents cyclically, and keeps the old prefix when growing |
| SpikeWindows.Store | dependencies.py:287 | the slice assignment leaves the entries before the cursor and appends the trial's spikes after it |
| SpikeWindows.MakeRoom | dependencies.py:285-286 | after the doubling check the trial's spikes fit behind the cursor and the entries before it are kept |
| SpikeWindows.GetSpikeT | dependencies.py:268-296 | the imperative buffer loop returns 0, the sorted relative spike times of all windows, and W |
| SpikeWindows.SpikeTBounds | dependencies.py:282-294 | the result starts at 0, ends at W, and every inner entry lies strictly inside (0, W) |
| SpikeWindows.SpikeTSorted | dependencies.py:294 | for a positive window the result is sorted |
| SpikeWindows.SpikeTLength | dependencies.py:277-294 | the result has two entries more than there are (onset, spike) pairs with the spike strictly inside the window |
| Deviation.Fractions | dependencies.py:255-256 | n fractions, the k-th equal to (k + 1)/n |
| Deviation.LinearFractions | dependencies.py:259 | every linear fraction times W gives back its time |
| Deviation.DeviationCurve | dependencies.py:255-263 | all four vectors have one entry per time; the deviation sums to zero and its differences are those of fraction minus linear fraction |
| Deviation.FractionIsEmpiricalCdf | dependencies.py:255-256 | for distinct sorted times the fraction of a time is the share of times at or before it |
| Deviation.LinearFractionInUnit | dependencies.py:259 | for a positive window, times inside [0, W] have linear fractions inside [0, 1] |
| Deviation.CurveCentred | dependencies.py:261-263 | the curve's deviation already has mean zero, so the re-centring in calcZetaOne changes nothing |
| Deviation.TempOffset | dependencies.py:234-265 | a curve exists exactly when the windowed times are distinct; it is the curve of those times, strictly sorted, at least the two sentinels |
| Deviation.TooFewTimes | dependencies.py:80-85 | the curve has fewer than three points exactly when no spike falls strictly inside any window |
| Deviation.GetTempOffsetOne | dependencies.py:234-265 | the method on top of the imperative getSpikeT returns the curve TempOffset describes |
| Significance.InterpAtKnot | dependencies.py:153-154 | at the j-th null maximum the interpolated rank is exactly j + 1 |
| Significance.InterpMonotone | dependencies.py:153-154 | the interpolated rank never decreases as the observation grows |
| Significance.QuantileRank | dependencies.py:148-154 | NaN, minus infinity and values below the null range rank 0; plus infinity and values above it rank n; values inside it get the interpolated rank, between 1 and n |
| Significance.DirectP | dependencies.py:147-156 | below the range or NaN gives 1; above it or infinite gives 1/(n + 1); inside it lies between 1/(n + 1) and n/(n + 1) |
| Significance.DirectPAtKnot | dependencies.py:153-156 | a null maximum itself gets 1 - (j + 1)/(n + 1) from its position j |
| Significance.DirectPMonotone | dependencies.py:147-156 | the p-value never increases as the observed maximum grows |
| Significance.GetZetaP | dependencies.py:135-156 | with an empty null distribution any observation fails; otherwise one p-value per observation, each the DirectP against the sorted distinct null maxima |
| Stitching.Range | dependencies.py:332 | b - a consecutive increasing integers from a |
| Stitching.KeepAfter | dependencies.py:345-353 | exactly the sample indices beyond the last used one, still increasing |
| Stitching.TrialSamples | dependencies.py:343-354 | in the overlap branch every sample a trial keeps lies beyond the last used sample |
| Stitching.Local | dependencies.py:364 | every local pseudo time lies as far from the pseudo event time as its spike from the onset |
| Stitching.EligibleShape | dependencies.py:319-334 | a trial takes consecutive samples. They run from the first spike at or after the onset to the first spike after onset + W. With no spike after onset + W it takes the first sample alone. For W ≥ 0 it takes none exactly when no spike comes at or after the onset |
| Stitching.EligibleSpikes | dependencies.py:319-334 | for sorted spikes, W ≥ 0 and some spike after onset + W, sample k is taken exactly when its spike is at or after the onset and the spike before it is not after onset + W: the window's spikes plus the first one past it |
| Stitching.FindEligible | dependencies.py:319-334 | the loop body's search returns the samples EligibleShape describes |
| Stitching.WidenShape | dependencies.py:337-341 | widening keeps every found sample. The first trial takes samples 0 through its last found one, the last trial takes its first found one through n - 1, and every other case leaves the samples unchanged |
| Stitching.WidenEdges | dependencies.py:337-341 | the loop body's edge widening returns the samples WidenShape describes |
| Stitching.Advance | dependencies.py:345-357 | the kept samples and the new pseudo event time equal the functional step's |
| Stitching.StitchTrial | dependencies.py:317-372 | one loop pass gives the next loop variables and the trial's local pseudo times |
| Stitching.StitchNext | dependencies.py:317-372 | after trial t the loop variables, the cells and the written pseudo event times are those of the first t + 1 trials |
| Stitching.StitchLoop | dependencies.py:317-372 | the loop fails exactly when some trial finds no sample. Otherwise the variables, cells and pseudo event times afterwards are those of the run over all trials |
| Stitching.RunPseudoT | dependencies.py:348-357 | the loop's pseudo event time depends on the onsets and the window only |
| Stitching.PseudoEventTimeline | dependencies.py:348-357 | pseudo event times start at 0, advance by the smaller of onset gap and window, stay no later than the onset offset and than t windows, and are sorted for sorted onsets and W ≥ 0 |
| Stitching.NoSampleReusedOnOverlap | dependencies.py:345-363 | when a trial overlaps the previous one, every sample it uses is later than every sample the previous trial used |
| Stitching.Stitch | dependencies.py:299-392 | no events fail. A trial that finds no sample makes indexing raise. Otherwise the pseudo spikes are sorted and exactly the spikes of all cells (a permutation of their concatenation), and there is one pseudo event time per trial |
| Stitching.StitchRaises | dependencies.py:319-344 | for W ≥ 0 with some onsets, stitching raises exactly when every spike lies before the last onset |
| Stitching.StitchedTrials | dependencies.py:299-392 | stitching succeeds exactly when every trial finds a sample. The pseudo event times then form the compressed time line over the sorted onsets, and every trial's fragment is contained in the pseudo spikes |
| Stitching.GetPseudoSpikeVectors | dependencies.py:299-392 | the imperative stitching returns what Stitch describes |
| Zeta.JitterSymmetric | dependencies.py:100 | with two trials or more the trial jitters are symmetric around zero |
| Zeta.JitterBounded | dependencies.py:100 | for a non-negative window no jitter exceeds the jitter size times the window in magnitude |
| Zeta.PickPermuted | dependencies.py:104 | dealing the jitters through a permutation uses every jitter exactly once |
| Zeta.ShiftsAreJitters | dependencies.py:104-108 | the shifts a resampling applies to the onsets are the trial jitters, each used once |
| Zeta.FillJitter | dependencies.py:101-104 | column q of the jitter matrix holds the jitters in the order permutation q draws them |
| Zeta.ResampleOne | dependencies.py:108-115 | a resampling fails exactly when its windowed times tie; otherwise its curve is that of the jittered onsets, centred, with at least two points |
| Zeta.ResampleCurve | dependencies.py:108-111 | the imperative resampling q gives the curve ResampleOne describes, already centred |
| Zeta.CollectAll | dependencies.py:106-116 | collecting succeeds exactly when every resampling does, keeps each curve at its position, and a failure is one resampling's failure |
| Zeta.ResampledAll | dependencies.py:106-116 | all resamplings succeed exactly when each does, failures are ties, and every resampled deviation sums to zero |
| Zeta.Record | dependencies.py:114-116 | one more curve appends its times and deviation and writes its largest absolute deviation at position q |
| Zeta.ResampleNext | dependencies.py:106-116 | after pass q the times, deviations and stored maxima are those of the first q + 1 resamplings, or the pass reports a tie |
| Zeta.Resample | dependencies.py:106-116 | the imperative loop fails exactly when some resampling ties, and otherwise returns the times, deviations and null maxima of all resamplings |
| Zeta.Assess | dependencies.py:138-163 | only direct-quantile mode without null maxima fails; otherwise the p-value against the sorted distinct maxima, or the maxima for the Gumbel fit |
| Zeta.DirectPInRange | dependencies.py:147-156 | with at least one and at most n distinct null maxima the p-value lies in [1/(n + 1), 1] |
| Zeta.QuantileRange | dependencies.py:138-156 | ties among R null maxima only shrink the distinct set, so the p-value stays in [1/(R + 1), 1] |
| Zeta.AssessRange | dependencies.py:142-163 | a direct-quantile p-value lies in [1/(R + 1), 1]; Gumbel mode hands over the maxima |
| Zeta.AboveAllNull | dependencies.py:150-151 | an observation above every null maximum gets the smallest p-value 1/(n + 1) |
| Zeta.ZetaSignificance | dependencies.py:135-163 | the significance step returns what Assess describes |
| Zeta.Prepared | dependencies.py:43-76 | orientation errors propagate and no events or no spikes fail. Without stitching nothing else fails. With stitching it fails (EmptyFloatIndex) exactly when at least three spikes are kept and some trial finds no sample. Fewer than three kept spikes give no data. There is one pseudo onset per onset, stitched spikes are sorted, and without stitching the kept spikes and onsets pass through |
| Zeta.PseudoData | dependencies.py:43-76 | the imperative preparation returns what Prepared describes |
| Zeta.RealCurve | dependencies.py:80-87 | tied times fail; a curve with fewer than three points gives the default; otherwise the centred curve of the pseudo data |
| Zeta.AnalysedPeak | dependencies.py:87-116 | the result keeps the real curve; zetaIdx is the first index of the largest absolute deviation and maxD that value; there is one zero-sum random deviation per resampling |
| Zeta.AnalysedSignificance | dependencies.py:119 | with R resamplings the direct-quantile p-value lies in [1/(R + 1), 1]; Gumbel mode yields the Gumbel inputs |
| Zeta.AnalysedNotDefault | dependencies.py:87-132 | once the real curve exists the default result never comes back |
| Zeta.ComputedFrom | dependencies.py:72-87 | a computed result comes from the prepared pseudo data and its real curve |
| Zeta.ComputedPeak | dependencies.py:80-132 | a computed result's real deviation has at least three points, sums to zero, lies over strictly increasing times; zetaIdx and maxD locate its largest absolute value; one zero-sum random deviation per resampling |
| Zeta.ComputedSignificance | dependencies.py:119-130 | a computed result's direct-quantile p-value lies in [1/(R + 1), 1] for R resamplings |
| Zeta.PseudoDefault | dependencies.py:80-85 | from the pseudo data on, the default result comes exactly from a curve with no spike inside any window |
| Zeta.DefaultResult | dependencies.py:66-85 | the default result comes exactly from fewer than three kept spikes, or from no spike inside any window |
| Zeta.NoResamplings | dependencies.py:142-150 | in direct-quantile mode without resamplings only the default result can succeed |
| Zeta.Analyse | dependencies.py:87-132 | the imperative analysis after the real curve returns what Analysed describes |
| Zeta.AnalysePseudoData | dependencies.py:80-132 | the imperative steps from the pseudo data on return what FromPseudoData describes |
| Zeta.CalcZetaOne | dependencies.py:9-132 | the whole imperative calcZetaOne returns what CalcZeta describes, whose properties are the lemmas above |

## Left out

- The Gumbel fit `getGumbel` (dependencies.py:171-231) and the z-score `-norm.ppf(p/2)` (dependencies.py:159) are left out. Both are floating-point special functions. `Zeta.Assess` returns the sorted distinct null maxima the fit would receive. No `dblZETA` value is computed.
- Zeta.Assess: the p-value and z-score outputs of Gumbel mode are not produced. Only their input is.
- Deviation.TempOffset: when two windowed times coincide, the source separates them by machine-epsilon offsets (dependencies.py:240-252). That branch depends on floating-point epsilon and is not modelled. The model reports the `TiedSpikeTimes` failure instead, and calcZetaOne propagates it.
- Randomness (`np.random.permutation`) is replaced by the parameter `perms`. Each entry must be a rearrangement of the trials.
- `boolParallel` is unused by the source and is not a parameter.
- `logging.warning` calls are not modelled. Only the early return they accompany is.
- The unused median inter-spike interval (dependencies.py:308) is not computed.
- The NaN pre-fill of buffers (dependencies.py:96, 102, 273, 311) is left out. Every entry that is read has been written.
- Floating-point rounding, NaN and infinities are left out: times are exact reals. NaN and ±∞ appear only as possible observations in `Significance.GetZetaP`.
- The array's dtype is the flag `floating`. Its shape is the `EventArray` variant.
- Deviation.TempOffset, Zeta.CalcZetaOne: a zero window (W = 0) is outside the modelled domain. The windowed times are then the two sentinels 0 and 0. The source drops the repeat, since it checks only values below the largest one for repeats, and returns the default result. The model reports `TiedSpikeTimes`. For every W > 0 the largest windowed time is the sentinel W alone, and both agree.
- Stitching.StitchedTrials: the fragments added before the first and after the last trial (dependencies.py:374-388) are modelled as written. No positional property is proved about them.
- setup.py and the rest of the package (plotting, the public wrappers around calcZetaOne) are not part of this model.
