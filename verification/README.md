# DDCS analysis engine, modelled in Dafny

DDCS is a data-reduction tool for counting-detector experiments. A scientist
loads repeated measurement and background acquisitions for an energy window.
Each acquisition is a text file with one row per detector channel, and its
count is in column index 2. The tool sums the measurement spectra and the
background spectra, subtracts one sum from the other, and builds a
(channel, measurement sum, background sum, final) table. It warns when a
loaded file deviates from its group's average, and when the final spectrum is
at or below the background or only slightly above it.

The whole program is one class, `DDCS_GUI` in `DDCS.py`. It mixes a tkinter
window with this small analysis engine. This project models the engine:

- `Spectra` (spectra.dfy): reading column 2 of a parsed file, reading a list of
  files, `sum_spectra` and the per-channel mean. Counts are exact `real`s.
  Reading a file is a parameter `read: Path -> Option<Spectrum>`. It stands
  for `Column2` applied to the rows the external parser produces, and `None`
  means the read raised.
- `Consistency` (consistency.dfy): `consistency_check`. The pure parts are
  functions: relative deviation, each file's mean deviation, and the list of
  warnings. The two loops of the source (build `deviations`, then scan it)
  are the methods `ComputeDeviations` and `ScanDeviations`. The method
  `ConsistencyCheck` runs them, and it is proved equal to the function `Check`.
- `FinalCalc` (final.dfy): the arithmetic of `calculate_final`. This covers the
  average relative difference and its classification into two warnings, and
  the result table built by `np.column_stack`.
- `Analysis` (analysis.dfy): the class `Engine`, holding the object's state.
  That is the two registries `measurements` and `backgrounds` (window to
  ordered paths) and `last_result`. Its methods are `_load_files`,
  `_remove_selected`, `calculate_final` and the guard of `save_final`. Dialogs
  become parameters and warnings become returned values.
- `Scenarios` (scenarios.dfy): worked examples on concrete numbers.

Behaviour of `DDCS.py` that a reader might not expect, kept as the code has
it:

- A file's mean deviation, and the average relative difference of the final
  calculation, are means over all channels. A skipped channel counts as 0 in
  the mean; it is not left out of it (`ZeroChannelCountsInMean`).
- Any integer is accepted as a window, not only positive ones.
- Loading is not all-or-nothing. The paths are appended before the
  consistency check reads them, so they stay registered when a read raises.
- Nothing keeps a path out of both roles of one window.
- Alignment is by position only. There is no join on the channel column, and
  no fixed channel count is checked.
- The in-memory result table `last_result`, read with the column-2 rule of
  `read_counts`, gives the background sums, not the final spectrum: column
  index 2 is `Sum_backgrounds` (`ReadBackGivesBackground`). A file written by
  `save_final` also starts with its header line, which `read_counts`
  (`header=None`) would take as a data row; the exported text is not modelled.

Numpy behaviour the model makes explicit:

- Spectra of unequal length are an error (`ShapeMismatch`), because
  `np.array` then raises.
- In `calculate_final`, a measurement sum and a background sum of different
  lengths always raise before `last_result` is assigned. Either the
  subtraction raises, or the boolean mask does.
- The mean of zero channels is NaN (`None`). NaN is never above a threshold
  and never below 0 or 0.1, so it raises no warning.

## Model

| member | source | states |
|---|---|---|
| `Spectra.Column2` | DDCS.py:169-171 | the read succeeds exactly when the file has rows and every row has a column index 2; the spectrum then has one count per row, the row's third entry |
| `Spectra.ReadAll` | DDCS.py:174 | reading a list of files succeeds exactly when every file reads; the result then lists each file's spectrum in list order |
| `Spectra.MeanOf` | DDCS.py:189 | numpy's mean: NaN (None) exactly for no entries, otherwise a value that times the count is the sum |
| `Spectra.Total` | DDCS.py:175 | `sum(axis=0)` of n-channel spectra has n channels, and channel j is the reference total of channel j over all files |
| `Spectra.SumSpectra` | DDCS.py:173-175 | on a non-empty list it succeeds exactly when all spectra have the first one's length; then the sum has that length and channel j is the sum over all files of their count at j |
| `Spectra.MeanSpectrum` | DDCS.py:182 | the group average has n channels, and channel j is the channel total divided by the number of files |
| `Spectra.MeanOfCopies` | DDCS.py:182 | the average of a group of identical spectra is that spectrum |
| `Consistency.RelDev` | DDCS.py:186-188 | a channel whose average is 0 scores 0 without a division; otherwise the score times the average is the absolute deviation, and it is non-negative when the average is positive |
| `Consistency.FileDeviation` | DDCS.py:184-189 | a file's deviation is NaN exactly when there are no channels; otherwise, times the number of all channels (skipped ones included as 0), it is the sum of the per-channel deviations |
| `Consistency.FlagsCharacterized` | DDCS.py:191-196 | every warning names a file, its position and its deviation, which is strictly above the threshold; every file strictly above the threshold is warned about; warnings are in ascending position order, so each file at most once |
| `Consistency.AllExceedAllFlagged` | DDCS.py:191-192 | when every file exceeds the threshold, there is one warning per file |
| `Consistency.Flags` | DDCS.py:191-192 | there are never more warnings than files |
| `Consistency.NothingExceedsNoFlags` | DDCS.py:191-192 | when no deviation exceeds the threshold there are no warnings |
| `Consistency.CheckOfReadGroup` | DDCS.py:180-192 | for two or more readable files of equal length, the outcome is the warnings computed from the deviations against the group average |
| `Consistency.Deviations` | DDCS.py:184-189 | one mean deviation per spectrum, in file order, each the file's mean deviation from the average |
| `Consistency.Check` | DDCS.py:177-192 | fewer than two files give no warnings; otherwise the outcome is the read error exactly when some file cannot be read, the shape error exactly when all read but some file's length differs from the first file's, and else at most one warning per file |
| `Consistency.ComputeDeviations` | DDCS.py:184-189 | the appending loop builds exactly the list `deviations`, one mean deviation per file in file order |
| `Consistency.ScanDeviations` | DDCS.py:191-196 | the scan over `enumerate(deviations)` collects exactly the warnings that `Flags` specifies |
| `Consistency.ConsistencyCheck` | DDCS.py:177-196 | the method returns exactly what `Check` specifies: no warnings for fewer than two files, a read or shape error, or the warnings |
| `Consistency.FewFilesNoFlags` | DDCS.py:178-179 | fewer than two files give no warnings whatever the reader does, because nothing is read |
| `Consistency.FlaggedExactly` | DDCS.py:191-192 | file i gets a warning if and only if its mean deviation is strictly greater than the threshold |
| `Consistency.IdenticalDeviationIsZero` | DDCS.py:184-189 | a spectrum compared with itself has mean deviation 0 (NaN without channels) |
| `Consistency.IdenticalSpectraNoFlags` | DDCS.py:177-192 | a group of identical spectra produces no warning for any non-negative threshold, the default 0.05 included |
| `FinalCalc.RelDiff` | DDCS.py:254-256 | a channel with measurement sum 0 scores 0 without a division; otherwise the score times the measurement is measurement minus background |
| `FinalCalc.AvgRelDiff` | DDCS.py:257 | NaN exactly when there are no channels; otherwise, times the number of all channels, it is the sum of the relative differences |
| `FinalCalc.Classify` | DDCS.py:259-262 | "at or below background" exactly when the average is below 0; "only slightly above" exactly when it is in [0, 0.1); no warning exactly when it is 0.1 or more, or NaN |
| `FinalCalc.ResultTable` | DDCS.py:264-269 | one row per channel, in ascending order; row j is (j + 1, meas[j], bkg[j], meas[j] - bkg[j]) |
| `FinalCalc.Compute` | DDCS.py:251-269 | it succeeds exactly when the two sums have the same length (otherwise numpy raises); on success the table is the result table and the warning classifies the average relative difference |
| `FinalCalc.FinalFor` | DDCS.py:249-251 | an unreadable measurement file gives the read error whatever the backgrounds are; the read error arises only from an unreadable file; a result has one row per channel of the first measurement |
| `FinalCalc.FinalForSucceeds` | DDCS.py:245-251 | once both roles have files, the calculation succeeds exactly when every file reads and all have the first measurement's length |
| `FinalCalc.FinalForIsCompute` | DDCS.py:249-251 | once every file reads as an n-channel spectrum, the calculation is `Compute` on the measurement total and the background total |
| `FinalCalc.TableOfTotals` | DDCS.py:249-269 | for n-channel spectra the table has n rows. Row j is (j + 1, channel j summed over the measurement files, the same for the backgrounds, their difference) |
| `FinalCalc.ReadBackGivesBackground` | DDCS.py:264-269 | the column-2 read rule applied to the in-memory result table gives back the background sums |
| `FinalCalc.ZeroChannelCountsInMean` | DDCS.py:254-257 | a zero-measurement channel still counts in the mean: [0, 10] over [0, 5] averages to 0.25, not 0.5 |
| `Analysis.KeptPrefix` | DDCS.py:162-163 | positions below every dropped one are kept unchanged |
| `Analysis.KeptFromIgnores` | DDCS.py:162-163 | dropping a position before i leaves what is kept from i on unchanged |
| `Analysis.PopBelowDropped` | DDCS.py:162-163 | popping position p, when every position already dropped is above p, is the same as dropping p as well |
| `Analysis.PopReversed` | DDCS.py:161-163 | popping ascending, distinct, in-range positions in reverse removes exactly those positions; the other paths keep their order, and the list is shorter by the number of positions |
| `Analysis.Engine.constructor` | DDCS.py:16-17 | both registries start empty for every window and there is no last result |
| `Analysis.Engine.SetFiles` | DDCS.py:131 | one window's list of one role is replaced; the other role and the last result are untouched |
| `Analysis.Engine.LoadFiles` | DDCS.py:122-133 | without a window or without chosen paths nothing changes and nothing is reported. Otherwise the paths are appended in order to that window's list for that role only, and the outcome is the consistency check of the whole extended list at threshold 0.05 |
| `Analysis.Engine.RemoveSelected` | DDCS.py:156-165 | without a window nothing changes. Otherwise exactly the selected positions leave that window's list, the rest keeps its order, and other windows and the other role are unchanged |
| `Analysis.Engine.CalculateFinal` | DDCS.py:240-269 | no window gives nothing; a window without measurement or background files gives the missing-data warning. Otherwise the outcome is the computed result exactly when the calculation on the window's files succeeds, and its error exactly when it fails. Except on success `last_result` is unchanged; on success it becomes the computed table |
| `Analysis.Engine.SaveFinal` | DDCS.py:276-289 | "no result" exactly when nothing was computed yet; an empty file name writes nothing; otherwise the last table is written to the chosen file |
| `Scenarios.TwoFileSumAndMean` | DDCS.py:173-182 | [10, 20, 30] and [12, 18, 33] sum to [22, 38, 63] and average to [11, 19, 31.5] |
| `Scenarios.SubtractBackground` | DDCS.py:251 | [22, 38, 63] minus a background of [5, 5, 5] gives the final spectrum [17, 33, 58] |
| `Scenarios.OutlierAverage` | DDCS.py:182 | the group [10, 20, 30], [12, 18, 33], [100, 20, 30] averages to [122/3, 58/3, 31] |
| `Scenarios.OutlierDeviation` | DDCS.py:184-189 | each file of that group deviates from the average by more than 0.2 |
| `Scenarios.OutlierRead` | DDCS.py:181 | reading the three files of the example group gives its three spectra in order |
| `Scenarios.OutlierFlagsWholeGroup` | DDCS.py:177-196 | at threshold 0.2 all three files of that group are flagged, not only the outlier |

## Left out

- The tkinter window (`build_gui`, `update_lists`, list boxes, the on-screen preview with `%10.1f`): user-interface plumbing. Warnings are returned as values, not shown with `messagebox`.
- File dialogs: the chosen paths, the listbox selection and the save file name are parameters.
- `plot_window`: plotting only; its final series is the subtraction modelled in `FinalCalc`.
- The `pandas.read_csv` whitespace parsing: a foreign library. The reader is a parameter, and `Column2` models only the column-2 projection of parsed rows. A short row that pandas fills with NaN is treated as an unreadable file.
- `get_window`'s `int()` parsing of the window field: library behaviour. The window is an `Option<int>` input.
- `np.savetxt` with `%d`/`%.6f` and its header line: fixed-precision formatting and file output. `SaveFinal` returns the table it would write, so a file read back (header line included) is not modelled.
- The warning texts, the file label and the percentage `d*100` with one decimal: `Flag` carries the position, the path and the deviation as a fraction.
- IEEE floating-point rounding: counts are exact reals.
- numpy's object arrays for ragged input (older numpy versions): ragged input is modelled as the `ValueError` that current numpy raises.
- Spectra.SumSpectra: requires a non-empty list. Both callers check for files first; numpy would return the scalar 0.0 for an empty list.
- Analysis.Engine.RemoveSelected: requires the selection to be ascending, distinct and in range for the shown list. A listbox's `curselection()` always returns such positions.
