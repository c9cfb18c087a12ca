# Mass-spectrometry data tools: a verified Dafny model

This project models four Python tools. Each reads tab-separated time-of-flight
mass-spectrometry data. The first line of a data file lists the masses, after
the label "Push number". Each data row holds a push number, then one intensity
per listed mass.

- **data_calibrator.py** fits a calibration line through standards of known
  concentration. For each standard it reads the mean and the standard deviation
  of one mass's signal. It weights each point by its inverse variance and fits
  the line with a weighted regression (`m`, `cov`, `corr`, `wls`). The window
  keeps a list of rows that can be added and deleted.
- **data_selector.py** copies the columns of the chosen masses into new files,
  chunk by chunk, and reports progress. Its window narrows the mass check boxes
  to the masses that every chosen file lists. It also suggests a name for each
  output file.
- **data_viewer.py** plots the chosen masses' columns of one file against the
  row number.
- **data_detector.py** loads four masses' columns and finds events in one of
  them. It integrates another mass over each event, converts each integral to a
  mass through the calibration line, and keeps the masses below 120 fg.

A file's content is already in memory: a `DataFile` holds the first line as a
string and the data rows as sequences of reals. Exact reals stand in for
floating point. The square root is a function parameter, and every lemma that
needs it requires `IsSqrt(sqrt)`. The peak search, the dialogs and the
concentration parser are parameters too.

The model follows the program's structure:

- `Text`: Python's `split()`, `split(sep)`, `join`, `readline`, `str()`, and `int()` on ASCII digits.
- `Channels`: the header readers, the header dictionary and `np.loadtxt(usecols=...)`.
- `DictColumns`: choosing columns through the header dictionary.
- `Checkboxes`: the grid of mass boxes, a class whose methods update its maps.
- `Stats`: the weighted statistics.
- One module per tool: `Calibrator`, `Selector` with `SelectorSave` and
  `SelectorWindow`, `Viewer` and `Detector`.

Code that changes state step by step is modelled as methods with loops:

- the calibrator's rows and its loop over them;
- `line_count`;
- the selector's chunk loop, file loop and worker;
- the detector's loop over columns;
- the check boxes.

Each such method is proved against a specification function. The
specification functions carry the lemmas.

The selector's output is modelled with the column bug of finding 1 corrected,
and its progress and save checks with findings 2 to 4 corrected.
`Selector.DataSelectorAsWritten` is the selector as written, and two lemmas
compare it with the corrected `Selector.DataSelector`. The
calibrator keeps `wls` as written. Its slope rescales the weighted
correlation by numpy's unweighted standard deviations. `Stats.WlsUniform`
proves that this agrees with the weighted least-squares line when all weights
are equal. `Stats.WlsNotLeastSquares` proves that it differs on three
concrete weighted points. That may be a deliberate approximation, so it is
not listed as a finding.

The header dictionary of the viewer and the detector,
`dict(zip(available, ...))` (data_viewer.py:70, data_detector.py:44), lets a
repeated mass's later position win, and the model keeps that.

## Model

| member | source | states |
|---|---|---|
| Text.SplitWs | data_selector.py:102 | `str.split()` returns only tokens: non-empty runs with no white space |
| Text.SplitWsJoin | data_selector.py:102-107 | splitting `"\t".join(ts) + "\n"` on white space gives back the tokens `ts` |
| Text.ParseIntToString | data_viewer.py:69 | `int(str(n)) == n` for every integer |
| Text.IntToStringInjective | data_selector.py:107 | different masses print as different strings |
| Text.SplitJoin | data_selector.py:123 | splitting a join of fields that hold no separator gives back the fields |
| Text.JoinSplit | data_selector.py:123 | joining the fields of a split gives back the text |
| Text.ConcatSplit | data_selector.py:127 | `"".join(s.split(sep))` is `s` with every `sep` removed |
| Text.LinesCount | data_selector.py:81-86 | the number of `readline()` results is the number of newlines, plus one if text follows the last newline |
| Text.ConcatLines | data_selector.py:84 | the successive `readline()` results put together are the whole file |
| Channels.ParseAll | data_selector.py:102 | `[int(x) for x in ts]` succeeds with one parsed value per token exactly when every token parses; otherwise some token does not parse and every token before it does, so the failure is at the first bad token |
| Channels.ParseAllStrings | data_selector.py:107 | parsing `str(m)` for every mass gives back the masses |
| Channels.WsMasses | data_selector.py:100-102 | the whitespace reader; `WsMassesHeaderLine` reads a written header back |
| Channels.TabMasses | data_viewer.py:68-69 | the tab reader; `TabMassesHeaderLine` and `TabMassesEmptyHeaderLine` state what it gives on a written header |
| Channels.HeaderLine | data_selector.py:107 | the header the selector writes; `HeaderLineColumns` names its columns |
| Channels.WsMassesHeaderLine | data_selector.py:101-102 | the whitespace reader (`split()[2:]`) reads the header the selector writes back as its masses |
| Channels.TabMassesHeaderLine | data_viewer.py:69 | the tab reader (`[:-1].split("\t")[1:]`) reads a written header with at least one mass back as its masses |
| Channels.TabMassesEmptyHeaderLine | data_viewer.py:69 | the tab reader fails on the header written for no masses, because `int("")` raises |
| Channels.HeaderLineColumns | data_selector.py:107 | column `k` of a written header is headed by the label for `k = 0` and by `str` of mass `k` otherwise |
| Channels.ColumnDict | data_viewer.py:70 | the header dictionary holds exactly the header masses; each maps to one past its last position, and no later position holds the same mass |
| Channels.ColumnDictSnoc | data_viewer.py:70 | zipping one more mass overwrites that mass's entry with the new 1-based position, so the later position wins |
| Channels.IndexOf | data_selector.py:103 | `list.index` gives the first position holding the value, and fails exactly when the value is absent |
| Channels.LastIndexOf | data_viewer.py:70 | the last position holding the value; none exactly when the value is absent |
| Channels.LoadColumns | data_viewer.py:73-78 | `np.loadtxt(usecols=cols)` succeeds exactly when every row reaches every column, and then gives one row per data row |
| Channels.LoadColumnsCell | data_viewer.py:73-78 | cell `j` of loaded row `i` is cell `cols[j]` of data row `i` |
| Channels.LoadColumn | data_calibrator.py:268-273 | loading one column succeeds exactly when every row reaches it |
| DictColumns.FirstUnknown | data_viewer.py:77 | names the first selected mass missing from the dictionary (the `KeyError`), or none when all are present |
| DictColumns.UseColsAt | data_viewer.py:77 | `usecols` lists, in selection order, one past each mass's last position in the header |
| DictColumns.LoadByDictSome | data_viewer.py:73-78 | with every mass in the header, the load succeeds exactly when every row reaches one past each mass's last position |
| DictColumns.LoadByDict | data_viewer.py:73-78 | each loaded row holds, for each selected mass in order, the field one past that mass's last header position |
| DictColumns.UseColsLabelled | data_viewer.py:69-77 | on a file the selector wrote, the dictionary finds each mass in the column its header names after it |
| Checkboxes.MassRange | data_selector.py:197 | `range(75, 210)` lists 75 to 209 in order |
| Checkboxes.MassRangeMembers | data_viewer.py:111 | the range is ascending and holds exactly the masses that have a box |
| Checkboxes.Keep | data_selector.py:204 | the comprehension keeping the masses also found; `KeepMembers` and `KeepIncreasing` state what it keeps |
| Checkboxes.Narrow | data_selector.py:197-213 | the masses on offer after the loop over the files; `NarrowCommon` states them |
| Checkboxes.Checked | data_viewer.py:59 | the comprehension over `number_vars`; `CheckedMembers` and `CheckedIncreasing` state what it selects |
| Checkboxes.KeepMembers | data_selector.py:204 | `[i for i in available if i in new]` keeps exactly the masses in both lists |
| Checkboxes.KeepIncreasing | data_selector.py:204 | the comprehension keeps the ascending order |
| Checkboxes.NarrowCommon | data_selector.py:197-204 | after the loop over files, the masses on offer are ascending and are exactly those of 75..209 in every readable header |
| Checkboxes.CheckedMembers | data_viewer.py:59 | the selected numbers are exactly the masses whose box is checked |
| Checkboxes.CheckedIncreasing | data_viewer.py:59 | the selected numbers are in ascending order |
| Checkboxes.SelectedMembers | data_selector.py:120 | a panel's selection is ascending, holds exactly the checked boxes, and every selected box is enabled |
| Checkboxes.Panel.constructor | data_selector.py:269-276 | every box starts unchecked and disabled |
| Checkboxes.Panel.Toggle | data_viewer.py:207-212 | a click flips an enabled box and leaves a disabled one as it was; no box changes whether it is enabled |
| Checkboxes.Panel.EnableButtons | data_selector.py:217-230 | every box is unchecked, and enabled exactly when its mass is available |
| Checkboxes.Panel.DisableButtons | data_selector.py:232-238 | every box is unchecked and disabled |
| Checkboxes.Panel.ClearSelection | data_selector.py:177-182 | every box is unchecked, and no box changes whether it is enabled |
| Stats.Wls | data_calibrator.py:109-124 | the fitted line passes through the weighted centroid `(m(x, w), m(y, w))` |
| Stats.WlsFixed | data_calibrator.py:109-124 | the weighted least-squares line also passes through the weighted centroid |
| Stats.M | data_calibrator.py:65-76 | `m(x, w)`; `MUniform` and `MAffine` state its properties |
| Stats.Cov | data_calibrator.py:79-91 | `cov(x, y, w)`; the `Cov*` lemmas state its properties |
| Stats.Corr | data_calibrator.py:94-106 | `corr(x, y, w)`; `CorrSquared` relates it to `RSquared` |
| Stats.RSquared | data_calibrator.py:106-124 | `corr**2` without the square root; `RSquaredBounds`, `RSquaredCollinear` and `RSquaredAffine` state its properties |
| Stats.MUniform | data_calibrator.py:65-76 | with all weights equal and non-zero, `m(x, w)` is the arithmetic mean |
| Stats.MAffine | data_calibrator.py:65-76 | the weighted mean of `a * x + b` is `a * m(x, w) + b` |
| Stats.CovSymmetric | data_calibrator.py:79-91 | `cov(x, y, w) == cov(y, x, w)` |
| Stats.CovShift | data_calibrator.py:79-91 | `cov` is unchanged when a constant is added to every x |
| Stats.CovShiftRight | data_calibrator.py:79-91 | `cov` is unchanged when a constant is added to every y |
| Stats.CovAffine | data_calibrator.py:79-91 | replacing x by `a * x + b` scales `cov(x, y, w)` by `a` |
| Stats.CovSelfNonneg | data_calibrator.py:91 | with positive weights, `cov(x, x, w) >= 0` |
| Stats.CovSelfPositive | data_calibrator.py:91 | with positive weights, data that is not constant has `cov(x, x, w) > 0` |
| Stats.CovCauchySchwarz | data_calibrator.py:106 | with positive weights, `cov(x, y)² <= cov(x, x) * cov(y, y)` |
| Stats.RSquaredBounds | data_calibrator.py:106-124 | with positive weights and non-zero self-covariances, the square-root-free r² lies in [0, 1] |
| Stats.RSquaredCollinear | data_calibrator.py:106-124 | data on a line `y = a * x + b` with `a != 0` has r² = 1 |
| Stats.RSquaredAffine | data_calibrator.py:106-124 | r² does not change when x is replaced by `a * x + b` with `a != 0` |
| Stats.CorrSquared | data_calibrator.py:106 | `corr(x, y, w)**2` is `cov(x, y)² / (cov(x, x) * cov(y, y))` |
| Stats.WlsRSquared | data_calibrator.py:121-124 | the r² that `wls` returns is `cov(x, y)² / (cov(x, x) * cov(y, y))` |
| Stats.WlsCollinear | data_calibrator.py:121-124 | on data `y = a * x + b` with `a != 0`, positive weights and x not constant, `wls` returns slope `a` and intercept `b` |
| Stats.WlsSlopeSquared | data_calibrator.py:122 | the slope `wls` returns satisfies `slope² * var(x) = r² * var(y)` with numpy's unweighted variances |
| Stats.WlsUniform | data_calibrator.py:109-124 | with all weights equal and positive, `wls` returns the weighted least-squares fit |
| Stats.WlsNotLeastSquares | data_calibrator.py:122 | on data with the statistics of three concrete weighted points, the slope `wls` returns differs from the least-squares slope 17/11 |
| Stats.WlsFixedLeastSquares | data_calibrator.py:109-124 | the line of `WlsFixed` has the least weighted squared error of all lines |
| Stats.WlsFixedCollinear | data_calibrator.py:109-124 | on data `y = a * x + b` with `a != 0`, the least-squares fit is that line |
| Calibrator.ShowPath | data_calibrator.py:233-239 | selecting a file changes only the file fields of the rows of that frame; frames and concentrations stay |
| Calibrator.Weights | data_calibrator.py:286 | `w = 1 / s**2` is positive and the inverse of each point's variance |
| Calibrator.CalibrateResult | data_calibrator.py:241-288 | `calibrate`'s outcome; `CalibrateGuards`, `CalibrateFitted` and the `ReadRows*` lemmas state it |
| Calibrator.ReadRow | data_calibrator.py:257-279 | one pass of the loop; `ReadRowFile`, `ReadRowColumn` and `ReadRowMissing` state it |
| Calibrator.ReadRows | data_calibrator.py:255-281 | the loop over the rows, stopping at the first that ends the calibration; the `ReadRows*` lemmas state it |
| Calibrator.Without | data_calibrator.py:223 | the rows left after `delete_row`; the `Without*` lemmas state them |
| Calibrator.CalibrationApp.constructor | data_calibrator.py:140-176 | the window opens with an empty mass entry and three empty rows with the default concentration |
| Calibrator.CalibrationApp.AddRow | data_calibrator.py:178-211 | exactly one row is appended, with a frame no other row has |
| Calibrator.CalibrationApp.DeleteRow | data_calibrator.py:213-223 | the rows become those whose frame is not the given one |
| Calibrator.CalibrationApp.SelectFile | data_calibrator.py:225-239 | a cancelled dialog changes nothing; otherwise every row of the frame shows the path |
| Calibrator.CalibrationApp.Calibrate | data_calibrator.py:241-288 | the method's result is the calibration function of the mass entry, the rows and the files |
| Calibrator.Collect | data_calibrator.py:255-281 | the loop stops where the row-by-row reading stops; otherwise x, y and s hold the concentrations, means and standard deviations of the points, in order |
| Calibrator.AddPoint | data_calibrator.py:279-281 | the appends extend x, y and s by the new point's entries |
| Calibrator.FitArrays | data_calibrator.py:283-288 | weighting and fitting the arrays is the fit of the points |
| Calibrator.WithoutMembers | data_calibrator.py:223 | deleting keeps exactly the rows of the other frames |
| Calibrator.WithoutConcat | data_calibrator.py:223 | deleting works row by row, so the kept rows stay in order |
| Calibrator.WithoutOne | data_calibrator.py:223 | with distinct frames, deleting a present frame removes exactly that one row |
| Calibrator.WithoutAbsent | data_calibrator.py:223 | deleting a frame no row has changes nothing |
| Calibrator.AddThenDelete | data_calibrator.py:211-223 | deleting the row just added gives back the rows there were before |
| Calibrator.CalibrateGuards | data_calibrator.py:246-254 | an empty mass entry is reported first, whatever the rows; with a mass, fewer than three rows are reported before any file is read; neither report arises otherwise |
| Calibrator.ReadRowFile | data_calibrator.py:257-266 | a row that is read in full has a readable file whose whitespace header tokens from the third on list the mass |
| Calibrator.ReadRowColumn | data_calibrator.py:268-279 | a row's signal is the column one past the mass's first position among the header masses; its concentration is the parsed entry |
| Calibrator.ReadRowMissing | data_calibrator.py:261-266 | a readable file aborts the calibration exactly when its header does not list the mass |
| Calibrator.CalibrationColumn | data_calibrator.py:260-272 | on a file with the selector's header, the column read is the one the header names after the mass |
| Calibrator.ReadRowsPoints | data_calibrator.py:255-281 | when every row is read, each row contributes its point in row order |
| Calibrator.ReadRowsOfPoints | data_calibrator.py:255-281 | rows each read in full give exactly those points |
| Calibrator.ReadRowsStopRow | data_calibrator.py:255-278 | a stopped reading was stopped by one row, and every row before it was read in full |
| Calibrator.ReadRowsStopKinds | data_calibrator.py:255-278 | the loop stops only on an unreadable file, a missing mass or an exception |
| Calibrator.ReadRowsStop | data_calibrator.py:255-278 | once a row ends the calibration, the rows after it are not read |
| Calibrator.FitDataFitted | data_calibrator.py:283-288 | a fit has no zero standard deviation and positive weights, and its line passes through the weighted centroid |
| Calibrator.CalibrateFitted | data_calibrator.py:241-288 | a fit has one point per row (at least three), in row order, with x the rows' concentrations |
| Selector.LineCount | data_selector.py:71-86 | an empty file raises, because `mmap` cannot map it; otherwise the count is the number of `readline()` results: the newlines, plus one for text after the last newline |
| Selector.Positions | data_selector.py:103 | the positions exist exactly when every mass is a header mass, and each is that mass's first position |
| Selector.Columns | data_selector.py:103 | `columns` as written; `ColumnsAsWritten` and `ColumnsAt` state it |
| Selector.ColumnsFixed | data_selector.py:103 | `columns` corrected; `ColumnsFixedNames` and `ColumnsFixedAt` state it |
| Selector.ColumnsAt | data_selector.py:103 | as written, each selected column is the mass's first header position itself, one short of the corrected column |
| Selector.ColumnOfMassAsWritten | data_selector.py:103 | as written, the column chosen for a mass is not the one the header names after it |
| Selector.ColumnsAsWritten | data_selector.py:103 | as written, `columns` is `[0]` and then, for each mass, a column not headed by that mass |
| Selector.ColumnsAsWrittenExample | data_selector.py:103 | as written, selecting 76 from a file of 75 and 76 copies the column headed 75 |
| Selector.ColumnsFixedNames | data_selector.py:103 | corrected, `columns` is `[0]` and then, for each mass in order, the column the header names after it |
| Selector.ColumnsFixedAt | data_selector.py:103 | corrected, each selected column is one past the mass's first header position |
| Selector.Chunks | data_selector.py:108 | pandas yields at least one chunk, a single empty one when there are no rows; the chunks cover all the rows, and each chunk but the last is full |
| Selector.ChunkEndOrder | data_selector.py:108-110 | chunks end in order within the rows, and the last ends at the last row |
| Selector.ProgressValue | data_selector.py:110 | as written, each progress value is `100 * chunk.index[-1] / lines` |
| Selector.Progress | data_selector.py:110 | the progress as written; `ProgressValue`, `ProgressShare` and `ProgressFinalShort` state it |
| Selector.ProgressFixed | data_selector.py:104-110 | the progress corrected; `ProgressFixedRange` states it |
| Selector.ProgressShare | data_selector.py:108-110 | as written, progress never decreases and stays in [0, 100) when `lines` is at least the row count |
| Selector.ProgressFinalShort | data_selector.py:104-110 | as written, a file of a header and `n` rows ends at `100 * (n - 1) / (n + 1)`, short of 100 |
| Selector.ProgressFixedRange | data_selector.py:104-110 | corrected, progress is positive, never decreases, never exceeds 100 and ends at exactly 100 |
| Selector.DataSelector | data_selector.py:88-110 | `data_selector` corrected; the `DataSelector*` lemmas state it |
| Selector.DataSelectorAsWritten | data_selector.py:88-110 | `data_selector` as written, built from `Columns` and `Progress`; `DataSelectorAsWrittenShifted` and `DataSelectorAsWrittenProgress` compare it with `DataSelector` |
| Selector.DataSelectorAsWrittenShifted | data_selector.py:100-110 | wherever the corrected selector writes, the one as written writes the same header and as many rows, but takes each mass's field one column to the left of the field the corrected one takes |
| Selector.DataSelectorAsWrittenProgress | data_selector.py:104-110 | both yield one value per chunk; as written the last falls short of 100, corrected it is 100 |
| Selector.DataSelectorHeaderOnly | data_selector.py:107-110 | a file whose header lists every mass but which has no data rows gets the output header and then raises, exactly then; a written selection has rows |
| Selector.RunDataSelector | data_selector.py:88-110 | corrected, the step-by-step selector gives the result of `DataSelector`, including `HeaderOnly` for a file without data rows |
| Selector.WriteChunks | data_selector.py:106-110 | corrected, the chunk loop writes exactly the selected columns of all rows, with one progress value per chunk; without rows the one empty chunk raises, exactly then, before any progress |
| Selector.LoadColumnsAppend | data_selector.py:108-109 | writing chunk after chunk gives the selection of all the rows |
| Selector.DataSelectorParts | data_selector.py:100-109 | corrected, the output has the header naming the masses, then the rows loaded from the selected columns |
| Selector.DataSelectorInput | data_selector.py:100-109 | corrected, a selection needs a header that parses, every mass in it, and every row reaching every selected column |
| Selector.DataSelectorOutput | data_selector.py:100-109 | corrected, each output row holds the push number and then, for each mass in order, the field in that mass's column |
| Selector.SelectedRows | data_selector.py:109 | corrected, the rows loaded through the selected columns are the selected rows |
| Selector.DataSelectorMissing | data_selector.py:103 | a requested mass missing from the header makes the selector raise |
| Selector.DataSelectorStandardWritten | data_selector.py:100-110 | corrected, on a file with the standard header and at least one row, all complete, the selector writes its output |
| Selector.DataSelectorHeader | data_selector.py:107 | both header readers read the written header back as the requested masses |
| Selector.DataSelectorProgress | data_selector.py:108-110 | corrected, a written selection has rows, and its progress values are positive, never decrease and end at 100 |
| SelectorSave.BasenameAfterSlash | data_selector.py:127 | the file name is what follows the last slash |
| SelectorSave.SaveName | data_selector.py:127-128 | the suggested name as written; `SaveNameAsWrittenDots` and `SaveNameAsWrittenNoDot` state it |
| SelectorSave.SaveNameFixed | data_selector.py:127-128 | the suggested name corrected; `SaveNameFixedStem` and `SaveNameFixedNoDot` state it |
| SelectorSave.SaveNameAsWrittenDots | data_selector.py:127-128 | as written, the suggestion drops every dot of the name before the extension |
| SelectorSave.SaveNameAsWrittenNoDot | data_selector.py:127-128 | as written, a name without a dot is lost and only the suffix is suggested |
| SelectorSave.SaveNameFixedStem | data_selector.py:127-128 | corrected, the suggestion is the name up to its last dot plus the suffix |
| SelectorSave.SaveNameFixedNoDot | data_selector.py:127-128 | corrected, a name without a dot is kept whole |
| SelectorSave.SaveNameExample | data_selector.py:127-128 | `d/data` is suggested `_modified.txt` as written and `data_modified.txt` corrected |
| SelectorSave.SaveSelectionAsWritten | data_selector.py:112-148 | `save_selection` as written; `SaveSelectionAsWrittenStarts` and `SaveSelectionCancelled` state it |
| SelectorSave.SaveSelection | data_selector.py:112-148 | `save_selection` corrected; `SaveSelectionGuards` and `SaveSelectionStarts` state it |
| SelectorSave.SaveSelectionAsWrittenStarts | data_selector.py:116-146 | as written, with a file and masses the worker always starts, whatever the save dialogs returned |
| SelectorSave.SaveSelectionCancelled | data_selector.py:124-146 | as written, a cancelled dialog starts the worker with an empty output name; corrected, the cancel is reported |
| SelectorSave.SaveSelectionGuards | data_selector.py:116-148 | the missing file is reported first, then missing masses, then a cancelled dialog, each exactly when it happens |
| SelectorSave.SaveSelectionStarts | data_selector.py:120-142 | the worker starts with the selected masses, the chosen files in order and one non-empty output per file |
| SelectorSave.SaveInputsAreChosenFiles | data_selector.py:123 | the inputs handed to the worker are the chosen files, in order |
| SelectorSave.RunWorker | data_selector.py:150-167 | the inputs are processed in order, each with its output path, until the first one that fails |
| SelectorSave.SelectIn | data_selector.py:100-106 | one input succeeds only through the selector on its file and with a non-empty output path; an empty output path fails, as `open("", "w")` raises |
| SelectorSave.SaveSelectionCancelledFails | data_selector.py:124-164 | as written, the worker started after a cancelled dialog fails on its one input, whatever the files hold |
| SelectorWindow.AnyReadableSome | data_selector.py:199-213 | some file counts as readable exactly when one of the headers was read |
| SelectorWindow.SelectorApp.constructor | data_selector.py:269-276 | the window opens with no file and every box unchecked and disabled |
| SelectorWindow.SelectorApp.SelectFiles | data_selector.py:191-215 | after the loop, every box is unchecked, and enabled exactly when the last file was readable and its mass is in every readable header; the path is set once a file was readable |
| SelectorWindow.SelectorApp.ReadOne | data_selector.py:200-213 | a readable header narrows the masses and enables them; an unreadable one disables every box |
| SelectorWindow.SelectorApp.Save | data_selector.py:112-148 | without a path "No file selected", with a path but no checked box "No numbers selected", then a cancelled dialog is reported, each exactly when it happens; otherwise the worker gets the checked masses, ascending, the chosen files in order and one non-empty output per file |
| Viewer.ReadHeader | data_viewer.py:113-118 | the header is unreadable exactly when the file cannot be opened; otherwise it gives the whitespace tokens from the third on, or fails to parse |
| Viewer.ViewerApp.constructor | data_viewer.py:205-212 | the window opens with no file and every box unchecked and disabled |
| Viewer.ViewerApp.SelectFile | data_viewer.py:100-129 | no path, or a header that does not parse, changes nothing; an unreadable file disables every box; otherwise each box is unchecked and enabled exactly when its mass is in the header, and the file becomes the path |
| Viewer.ViewerApp.ClearSelection | data_viewer.py:90-97 | every box is unchecked, and no box changes whether it is enabled |
| Viewer.ViewerApp.View | data_viewer.py:50-87 | "No file selected" exactly when there is no path, "No numbers selected" exactly when there is a path and no box is checked; a drawing is labelled with exactly the checked masses, ascending, each enabled |
| Viewer.GeneratePlot | data_viewer.py:50-83 | `generate_plot`; `GeneratePlotGuards`, `GeneratePlotStages` and `GeneratePlotLabels` state it |
| Viewer.PlotColumns | data_viewer.py:70-83 | the load and the plot, squeezed to one line for one row; the outcome raises or draws, labelled with the selected masses |
| Viewer.GeneratePlotGuards | data_viewer.py:59-66 | "No file selected" comes exactly when there is no path, and "No numbers selected" exactly when there is a path but no selection; both come before any file is read |
| Viewer.GeneratePlotStages | data_viewer.py:68-83 | past the guards, a missing file or a header that does not parse raises; otherwise the plot is the column stage |
| Viewer.PlotColumnsUnknown | data_viewer.py:77 | the plot raises `KeyError` exactly when a selected mass is not in the header, and names such a mass |
| Viewer.PlotColumnsShape | data_viewer.py:73-83 | a plot of one line per mass comes only from a file without exactly one row; it has the selected masses as labels and one point per row numbered from 1, and each line is that mass's column through the header dictionary |
| Viewer.PlotColumnsRowLine | data_viewer.py:72-83 | a file of one row and several masses, squeezed by numpy to that row, is drawn as one line through the masses' fields in order at x = 1..k |
| Viewer.PlotColumnsSucceeds | data_viewer.py:72-83 | when every selected mass is in the header and every row reaches its columns: one line per mass unless there is exactly one row; one line through the row for one row and several masses; `IndexError` from `ar.shape[0]` for one row and one mass; a load that fails otherwise |
| Viewer.GeneratePlotLabels | data_viewer.py:83 | whatever is drawn is labelled with the checked masses |
| Viewer.HeaderReadersAgree | data_viewer.py:69-116 | both header readers give the same masses on a written header, so every box offered can be plotted |
| Detector.LoadArrayStages | data_detector.py:42-56 | loading fails on the header exactly when it does not parse; otherwise it loads the wanted masses |
| Detector.LoadArray | data_detector.py:42-56 | the header and the load, with no data rows giving a table of none; `LoadArrayStages` and `LoadArrayShaped` state it |
| Detector.LoadWanted | data_detector.py:46-60 | the presence check and the load; `LoadWantedOutcomes` and `LoadWantedTable` state it |
| Detector.LoadWantedOutcomes | data_detector.py:46-60 | the presence check fails exactly when a loaded mass is missing from the header, and names it; a table comes exactly when every mass is present and the row count is not one (none is a table of no rows), each row reaching every column |
| Detector.LoadWantedTable | data_detector.py:51-56 | the table holds the loaded masses' columns in order, each one past that mass's last header position |
| Detector.LoadArrayShaped | data_detector.py:51-60 | the loaded table has four columns and a row count other than one |
| Detector.MassDictIndex | data_detector.py:62 | `mass_dict` maps exactly the loaded masses, each to its position, so 175 to 1 and 193 to 2 |
| Detector.EventsByMass | data_detector.py:66-76 | the events are keyed by exactly the loaded masses, each holding the peak search on that mass's column |
| Detector.SliceBoundCases | data_detector.py:84 | a non-negative bound is clipped to the row count; a negative one counts from the end |
| Detector.WindowSum | data_detector.py:84 | `np.sum` over one event's slice of a column; the `WindowSum*` lemmas state it |
| Detector.WindowSumEmpty | data_detector.py:84 | an event that starts at or after its end, or past the last row, sums to 0 |
| Detector.WindowSumClip | data_detector.py:84 | an event running past the last row sums only the rows there are |
| Detector.WindowSumOne | data_detector.py:84 | a one-row event sums that row's value |
| Detector.WindowSumSplit | data_detector.py:84 | cutting an event in two splits its sum |
| Detector.WindowSumFromEnd | data_detector.py:84 | a bound counted from the end sums the same rows as its positive form |
| Detector.WindowSumNonneg | data_detector.py:84 | a signal that is never negative has no negative integral |
| Detector.SumIEntries | data_detector.py:80-88 | each integral sums the column of mass 175 over its event, in event order |
| Detector.SumI | data_detector.py:80-88 | `sum_I`, one integral per event |
| Detector.ToMass | data_detector.py:97-99 | the conversion of one integral; `ToMassOfLine`, `ToMassRoundTrip` and `ToMassMonotone` state it |
| Detector.EventMasses | data_detector.py:99 | `event_mass_interest`, one mass per integral |
| Detector.Plausible | data_detector.py:106 | the filter `< 120`; the `Plausible*` lemmas state it |
| Detector.ToMassOfLine | data_detector.py:92-99 | an integral on the calibration line at concentration `c` converts to `c * DT * FLOW / TE`, which is `c * 0.000065` |
| Detector.ToMassRoundTrip | data_detector.py:99 | converting an integral to a mass and back, or a mass to an integral and back, is the identity |
| Detector.ToMassMonotone | data_detector.py:99 | with a rising calibration line, a larger integral gives a larger mass |
| Detector.EventMassesOfLine | data_detector.py:99 | every event mass is its integral converted, in order |
| Detector.PlausibleMembers | data_detector.py:106 | the filter keeps exactly the masses below 120 |
| Detector.PlausibleAppend | data_detector.py:106 | the filter works piece by piece, so it keeps the original order |
| Detector.PlausibleKeeps | data_detector.py:106 | masses all below 120 pass unchanged, and filtering twice is filtering once |
| Detector.Detect | data_detector.py:42-99 | a load that gives no table stops the script with that outcome; otherwise the table is shaped and analysed |
| Detector.Analyse | data_detector.py:66-106 | the events, integrals, masses and plausible masses are those of the table |
| Detector.AnalysedEvents | data_detector.py:66-106 | events come from the third loaded column; each integral sums the second (mass 175) over its event; each mass converts its integral; the plausible masses are those below 120 |

## Left out

- The Tkinter windows, dialogs, labels and message boxes, and the matplotlib plots. Dialog results are inputs: the chosen path, the `ask` function of the save dialog, and `select`/`read` functions for the worker and the header reads. Each message is an outcome constructor.
- File reading (`open`, `readline`, `mmap`, `np.loadtxt`, `pd.read_csv`): a file is a `DataFile` already split into a first line and rows of reals. For `np.loadtxt` (viewer and detector) a row too short for a wanted column gives the load-failure outcome, as numpy raises on it; a field that is not a number cannot be written in the model, where numpy raises too. `pd.read_csv` in the selector behaves differently; see the `Selector.DataSelector` line below. The UTF-8 decoding is not modelled.
- `pd.read_csv` treats the first line as column names and takes `line_count` of the whole file as `lines`. The model takes `lines` as the number of rows plus one, one line per row.
- SelectorSave.RunWorker: the thread and the `thread_running` cancel flag (data_selector.py:137-189) are left out, because their point is concurrency. The worker runs to the end or to the first input that raises.
- The progress and status strings of the selector's worker are not modelled.
- Selector.DataSelector: a data row is a sequence of reals, and a row too short for a selected column fails the selection. `pd.read_csv` instead pads a short row with empty (NaN) fields and writes them, keeps a field that is not a number as text, and raises `ParserError` on a row with more fields than the header, which the model accepts. `iloc` also bounds the columns by the header's width; the header masses already keep the selected columns within it.
- SelectorSave.RunWorker: requires at least as many output paths as inputs. `save_selection` always passes one per input (`SaveSelectionAsWrittenStarts`); the `IndexError` otherwise is not modelled.
- Floating point: data are exact reals. NaN and infinity are outcomes (`NotFinite`) in the calibrator. `np.sqrt` and `np.std` use a square-root parameter, constrained by `IsSqrt`.
- Stats.Wls: requires non-zero divisors (`Sum(w)`, the square root of the self-covariances, `np.std(x)`). `calibrate` checks these before calling it and reports `NotFinite` otherwise.
- Stats.WlsFixed: requires `Sum(w)` and the product of the self-covariances to be non-zero, for the same reason.
- Detector.Detect: `X0` and `X1` are parameters, and `X1 != 0` is required (as for `ToMass`). The script leaves them as placeholders to fill in.
- `scipy.signal.find_peaks`/`peak_widths` and the truncation of their positions to int: the peak search is the parameter `detect`, which returns the event windows.
- The detector's printed messages (data_detector.py:58-60, 71-72) and the text of its assertion message are not modelled. The message would itself raise on int masses, so the model only states that the check fails.
- The `ICP` comparison data and the box plot of the detector (data_detector.py:103-109).
- `validate_calibration_number` (data_calibrator.py:317-332) depends on Python's `float()` grammar. The concentration parser is the parameter `toFloat`.
- The viewer's `except OSError` around `np.loadtxt` (data_viewer.py:79-81) cannot fire in the model, because the same file was opened just before.
- A click on a disabled box is ignored (Checkboxes.Panel.Toggle). Tk's own event handling is not modelled.
- Text.ParseInt: accepts only ASCII digits after an optional sign. Python's `int()` also accepts `_` between digits (`int("1_0") == 10`) and non-ASCII decimal digits, where the model gives `None`. The files these tools read hold ASCII integers.
- The detector's array with exactly one row is squeezed by numpy to one dimension, so `ar.shape[1]` raises. The model reports it as `NotTable` without modelling numpy's squeezing. A file with no data rows gives a (0, 4) array, which squeezing leaves two-dimensional, so the script runs on with no events.

## Findings

| source | as written | input that shows it | evidently intended | confidence | as-written member | corrected member |
|---|---|---|---|---|---|---|
| data_selector.py:103 | `columns = [0] + [available_masses.index(int(i)) for i in masses]` uses the 0-based position among the masses as a column number, but column 0 holds the push number | header `Push number\t75\t76`, masses `[76]`: columns `[0, 1]`, and column 1 is headed 75 | `index(...) + 1`, the column the header names after the mass | high (not executed) | Selector.ColumnsAsWritten, Selector.ColumnsAsWrittenExample | Selector.ColumnsFixedNames |
| data_selector.py:104-110 | progress is `100 * chunk.index[-1] / lines` with `lines` counting the header and `index[-1]` 0-based | a header and one data row: `lines == 2`, last `index[-1] == 0`, final progress 0 | the last value is 100 | high (not executed) | Selector.ProgressFinalShort | Selector.ProgressFixedRange |
| data_selector.py:127-128 | the suggestion joins the dot-separated parts without dots and drops the last part even when there is no dot | `d/data` suggests `_modified.txt`; `d/a.b.txt` suggests `ab_modified.txt` | the name without its extension, `data_modified.txt` and `a.b_modified.txt` | medium (not executed) | SelectorSave.SaveNameAsWrittenNoDot, SelectorSave.SaveNameAsWrittenDots | SelectorSave.SaveNameFixedNoDot, SelectorSave.SaveNameFixedStem |
| data_selector.py:133 | one dialog result is appended per input, cancelled or not, so `len(save_path) == len(paths)` always holds and the error is never shown | one file, dialog cancelled: the worker starts with output name `""`, and `open("", "w")` raises `FileNotFoundError` before anything is written | a cancelled dialog is reported with "You need to select a save file for every input file." | high (not executed) | SelectorSave.SaveSelectionAsWrittenStarts, SelectorSave.SaveSelectionCancelled, SelectorSave.SaveSelectionCancelledFails | SelectorSave.SaveSelectionGuards, SelectorSave.SaveSelectionStarts |
