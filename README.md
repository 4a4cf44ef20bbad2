# Measured I-V curves: file reader and maximum power point

This project models the two routines of `iv_comparaison_des_3_cellules.py`
that hold logic: the reader of two-column measurement files
(`lire_donnees_fichier`) and the maximum-power-point scan of a measured
I-V curve (`MPP`). The solar-cell physics of the repository (barrier,
depletion widths, diode equation and its root-finding) is floating-point
transcendental numerics and is not part of this model.

- `wrappers.dfy` (module `Wrappers`): `Option` and `Result`.
- `max_power_point.dfy` (module `MaxPowerPoint`): the scan as a method
  `Mpp` with a loop. Its result is described two ways: declaratively, by
  the predicate `IsMaximumPowerPoint`, and by a recursive reference
  definition `ScanPrefix` of the loop's accumulators. A lemma proves that the
  reference satisfies the predicate, and a second lemma proves that the
  predicate allows exactly one result. The method is proved equal to
  both. A sample is *generating* when its voltage is positive and its
  current negative. Its power is `|V*I|`. The scan keeps the first index
  with the strictly largest power and returns 1000 times that power
  (W/cm² to mW/cm²) with the index, or `(0, 0)` when no sample generates
  any power. Values are exact `real`s.
- `measurement_file.dfy` (module `MeasurementFile`): the file reader. The
  file is given as its sequence of lines; `float()` is a parameter
  `parse: string -> Option<real>`, `None` standing for Python's
  `ValueError`. Splitting follows Python's `str.split()` with no
  separator: the maximal runs of non-whitespace characters, whitespace
  being the characters for which `str.isspace()` holds. `Split` is
  characterised by three lemmas: a whitespace character splits its two
  sides independently, a non-empty word without whitespace is one column,
  and a blank text has none. Together these fix `Split` on every input.
  The reader drops the header line, skips lines with fewer than two
  columns, replaces every `,` by `.` in the first two columns, ignores
  further columns and converts voltage then current. An empty file is the
  error `MissingHeader` (`next(file)` fails), and the first column that
  does not convert aborts the read with `InvalidNumber`. The predicate
  `IsReadingOf` states what a read yields; `ReadMeasurements` is proved to
  meet it, and `HeaderIgnored` shows that the first line cannot change it.

## Model

| member | source | states |
|---|---|---|
| `MaxPowerPoint.Abs` | iv_comparaison_des_3_cellules.py:34-36 | the magnitude is non-negative and is either the value or its negation |
| `MaxPowerPoint.ScanPrefix` | iv_comparaison_des_3_cellules.py:31-36 | the loop's accumulators after n iterations, as a recursion over the prefix with the same strict `>` update; its power is never negative and its index is below n unless the result is the initial `(0, 0)`; `ScanPrefixIsMaximumPowerPoint` pins down what it computes |
| `MaxPowerPoint.ScanPrefixIsMaximumPowerPoint` | iv_comparaison_des_3_cellules.py:31-36 | after any number of iterations the accumulators hold the largest power among generating samples seen (0 if none), attained at the first generating index that reaches it, and index 0 when the power is 0 |
| `MaxPowerPoint.MaximumPowerPointUnique` | iv_comparaison_des_3_cellules.py:33-37 | the maximum-power-point description admits only one (power, index) pair, so it pins down the scan's result completely |
| `MaxPowerPoint.Mpp` | iv_comparaison_des_3_cellules.py:30-37 | returned power is non-negative and at least 1000·abs(V·I) for every generating sample; it is 0 exactly when no sample is generating (over exact reals a generating sample always has positive power), and then the index is 0; otherwise the index is a generating sample whose 1000·abs(V·I) is the returned power, and every earlier generating sample has strictly less power; the index is in range whenever V is non-empty; the result equals the reference scan |
| `MeasurementFile.IsSpace` | iv_comparaison_des_3_cellules.py:16 | the characters `line.split()` separates on, exactly those for which Python's `str.isspace()` holds; space, tab, line feed and carriage return are among them, and digits, sign, exponent letters, `,` and `.` are not, so a number is never cut in two; `SplitAtSpace`, `SplitWord` and `SplitBlank` pin down how `Split` uses it |
| `MeasurementFile.Columns` | iv_comparaison_des_3_cellules.py:16 | every column produced is non-empty and contains no whitespace |
| `MeasurementFile.Split` | iv_comparaison_des_3_cellules.py:16 | every column of a split line is non-empty and whitespace-free, so empty tokens are dropped |
| `MeasurementFile.SplitAtSpace` | iv_comparaison_des_3_cellules.py:16 | a whitespace character separates: splitting `a + [c] + b` gives the columns of `a` followed by those of `b` |
| `MeasurementFile.SplitWord` | iv_comparaison_des_3_cellules.py:16 | a non-empty text without whitespace is a single column |
| `MeasurementFile.SplitBlank` | iv_comparaison_des_3_cellules.py:16-19 | an empty or all-whitespace line has no columns, so it is never a data line |
| `MeasurementFile.ReplaceComma` | iv_comparaison_des_3_cellules.py:21-22 | same length; every `,` becomes `.` and every other character is kept; the result contains no `,` |
| `MeasurementFile.DecimalComma` | iv_comparaison_des_3_cellules.py:21-22 | `"0,5"` normalises to `"0.5"` and `"0,002"` to `"0.002"` |
| `MeasurementFile.LineFields` | iv_comparaison_des_3_cellules.py:16-22 | a line contributes fields exactly when it has at least two columns, and the contributed voltage and current texts contain no `,` |
| `MeasurementFile.ExtraColumnsIgnored` | iv_comparaison_des_3_cellules.py:19-22 | appending whitespace and further columns to a data line leaves its contribution unchanged |
| `MeasurementFile.TwoColumnLine` | iv_comparaison_des_3_cellules.py:16-22 | a line `v + [sep] + c + [end]` of two whitespace-free columns, a separator and a terminator yields exactly those two columns, comma-normalised |
| `MeasurementFile.DecimalCommaLine` | iv_comparaison_des_3_cellules.py:16-22 | the line `"0,5 0,002\n"` yields voltage `"0.5"` and current `"0.002"` |
| `MeasurementFile.DataRows` | iv_comparaison_des_3_cellules.py:14-26 | the fields kept from a sequence of lines, one per line with at least two columns, in order; there are at most as many rows as lines and no row contains a `,`; `DataRowsSelectDataLines` pins down which lines they come from |
| `MeasurementFile.Rows` | iv_comparaison_des_3_cellules.py:10-26 | the rows of a whole file are the data rows of the lines after the first; an empty file has none, and a non-empty file has fewer rows than lines because the header never counts; `HeaderIgnored` states that the header cannot affect the read |
| `MeasurementFile.DataRowsSelectDataLines` | iv_comparaison_des_3_cellules.py:14-26 | there is one row per line with at least two columns and no other: the data-line positions are strictly increasing, every data line is among them, and row k holds the fields of the k-th data line |
| `MeasurementFile.DataRowsAppend` | iv_comparaison_des_3_cellules.py:14-26 | lines are processed independently and in order: the rows of two consecutive chunks of lines concatenate |
| `MeasurementFile.HeaderIgnored` | iv_comparaison_des_3_cellules.py:9-11 | two files that differ only in their first line read to the same result, success or error, so the header's content never matters |
| `MeasurementFile.BadRowFound` | iv_comparaison_des_3_cellules.py:21-22 | when all earlier rows convert and a data line does not, that line is the first bad row of the whole file |
| `MeasurementFile.ReadMeasurements` | iv_comparaison_des_3_cellules.py:4-28 | its result is a reading of the file in the sense of `IsReadingOf`: an empty file, and only an empty file, fails with `MissingHeader`; the read succeeds exactly when every data row's two columns convert; on success both lists have one entry per data line after the header, in file order, each the conversion of that line's normalised column; on failure the error names the offending column of the first row that does not convert, voltage before current |

## Left out

- All of `p-n_to_diode.py` and the physics of `Simulation Modal.py` (barrier potential, depletion widths, potential profile, saturation current, diode current): floating-point `log`, `sqrt`, `exp` and `tanh` numerics with no exact counterpart.
- The root-finding sweeps of `Simulation Modal.py` (lines 140-316), which call SciPy's `brentq` over transcendental residuals: a foreign numeric solver.
- The copy of `lire_donnees_fichier` in `Simulation Modal.py` (lines 22-46) is the same routine; it is covered by `ReadMeasurements`.
- `open()` and iterating over the file (iv_comparaison_des_3_cellules.py:9, 14): I/O. The file is given as its sequence of lines. Line-ending translation is the file object's business and happens before the model.
- `float()` (iv_comparaison_des_3_cellules.py:21-22): Python's number parser is a parameter `parse`. NaN and infinities have no `real` counterpart.
- `MaxPowerPoint.Mpp`: requires `|V| <= |I|`. The source raises `IndexError` on a shorter current list, and every caller passes the two equal-length lists the reader returns. Floating-point rounding of `V*I` and NaN samples are not modelled, because values are exact reals.
- The module-level script (iv_comparaison_des_3_cellules.py:40-74): hard-coded file names and plotting.
