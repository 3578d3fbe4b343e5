# Survey cleaning pipeline (`clean_data`)

This is a Dafny model of `clean_data`, the function that turns the raw student
wellness survey table into a numeric table for model training. The model
follows the function's five stages in order:

1. It drops the identifying columns `Timestamp` and `Username`.
2. It rewrites every column label. Each run of whitespace, `/`, `(`, `)` or `-`
   becomes one `_`. The label is then lower-cased and stripped of `_` at both
   ends.
3. It strips the text cells of the text (`object`) columns. Then, in every
   column, a cell equal to one of 23 non-answer tokens becomes missing.
4. It rewrites 32 named columns in source order. Each uses one of three
   rules, or a fourth:
   - numeric parse with coercion to missing (`pd.to_numeric(..., errors='coerce')`);
   - dictionary replacement that leaves unmatched values alone;
   - extraction of the first integer numeral (`(\d+)`);
   - extraction of the first decimal numeral (`(\d+\.?\d*)`).
5. It fills the gaps of every numeric column with that column's mean.

A cell is `Missing`, `Num(real)` or `Text(string)`. A column has a label and
a sequence of cells. A table has its columns in order and a row count.

The model comes in two layers.

- **The stages as functions.** Module `Cleaning` defines the stages as pure
  functions, and `Clean` composes them. The per-cell rules live in three
  modules:
  - `Text`: the label rewrite and strip;
  - `Numerals`: the numeric parse and the two regular-expression searches;
  - `Imputation`: the mean fill.
- **The program as it runs.** Module `Frames` models a data frame, `DataFrame`,
  whose methods change its columns in place, stage by stage, with loop
  invariants over the columns. `Frames.CleanData` runs those methods on one
  frame and is proved to return exactly `Clean(raw)`. Every property proved
  about `Clean` therefore holds of the in-place program.

Where the code's behaviour may be surprising, the model takes it as written
(line numbers refer to `backend/data_processing.py`):

- Dictionary replacement leaves a category that is not in the dictionary as
  text (lines 23-74). It does not become missing.
- An all-missing numeric column is left as it is. Its mean is NaN, so nothing
  is filled, and no error is raised (lines 116-118).
- A missing column raises `KeyError`. It is raised by the drop when an
  identifying label is absent (line 7), and by the first read of an absent
  specified column (lines 20-113). There is no schema check. `KeyError` is
  the only failure the model has; the errors the code can also raise are
  listed under "Left out".
- Only `object` columns are stripped (line 13). Within such a column, a
  cell that is not a string becomes missing.
- `.str.extract` keeps only the first match of its pattern (lines 32-113):
  `"2-3 cups"` gives 2.
- `'No'` is one of the non-answer tokens (line 17). It becomes missing before
  the three Yes/No dictionaries run (lines 47-53), so a Yes/No column that
  held text never holds 0.

## Model

| member | source | states |
|---|---|---|
| Frames.CleanData | backend/data_processing.py:5-120 | Running the stages in place on one data frame returns exactly the pipeline result `Clean(raw)`, including which `KeyError` is raised on failure. |
| Frames.DataFrame.constructor | backend/data_processing.py:5 | The frame starts with the caller's columns and row count. |
| Frames.DataFrame.DropIdentifying | backend/data_processing.py:7 | On success the columns become the input columns without `Timestamp`/`Username`, and no error is reported. Otherwise the error lists the absent labels and the columns are unchanged. Rows are unchanged either way. |
| Frames.DataFrame.RenameColumns | backend/data_processing.py:10 | After the loop, every column has its label normalised and its cells untouched. The row count is unchanged. |
| Frames.DataFrame.StripTextColumns | backend/data_processing.py:13-14 | After the loop, each text column has its cells stripped. Every numeric column is unchanged. |
| Frames.DataFrame.ReplaceTokens | backend/data_processing.py:17 | After the loop, every column in the frame has its non-answer cells blanked. |
| Frames.DataFrame.CoerceEntry | backend/data_processing.py:20-113 | For one label: it is found iff it names a column. If found, only the first such column is replaced by its coerced version. If not, nothing changes and the result is the `KeyError` for that label. |
| Frames.DataFrame.FillMeans | backend/data_processing.py:116-118 | After the loop, every column has been mean-imputed (only numeric columns change). |
| Pipeline.CleanIsColumnwise | backend/data_processing.py:5-120 | `Clean` succeeds iff both identifying labels are present and all 32 specified labels survive stages 1-3. On success the row count is kept, and there is one output column per kept input column, in order. Each output column is that column renamed, stripped, blanked, coerced by its rule and imputed. |
| Pipeline.CoerceAllIsColumnwise | backend/data_processing.py:20-113 | With distinct labels, the 32 assignments succeed iff every label is present. They then equal coercing each column by the rule of the first label that names it (later assignments never see an earlier rule's output). |
| Pipeline.CoerceAllFailsAtFirstAbsent | backend/data_processing.py:20-113 | A failure is the `KeyError` of the first specified label that is absent; every earlier label is present. |
| Pipeline.CoerceAllStep | backend/data_processing.py:20-113 | Running the assignments from position i equals running assignment i, then the rest from the resulting columns, or stopping at its `KeyError`. |
| Pipeline.SchemaNamesDistinct | backend/data_processing.py:20-113 | No column label is assigned twice in the 32 assignments. |
| Pipeline.SchemaFirstHalfDistinct | backend/data_processing.py:20-59 | The first 16 assigned labels are pairwise distinct. |
| Pipeline.SchemaSecondHalfDistinct | backend/data_processing.py:62-113 | The last 16 assigned labels are pairwise distinct. |
| Pipeline.SchemaHalvesApart | backend/data_processing.py:20-113 | No label of the first 16 assignments recurs in the last 16. |
| Pipeline.Lookup | backend/data_processing.py:20-113 | There is no rule for a label iff no assignment names it. |
| Pipeline.LookupAt | backend/data_processing.py:20-113 | With distinct labels, the rule found for an assigned label is the one its assignment uses. |
| Pipeline.LookupFirst | backend/data_processing.py:20-113 | The first assignment to a label determines the rule found for it. |
| Pipeline.AppliedStep | backend/data_processing.py:20-113 | Performing the first assignment, then the column-wise rules of the rest, equals applying all rules column-wise. |
| Pipeline.AppliedStepAt | backend/data_processing.py:20-113 | Column-by-column form of the step above: each column ends up coerced by the same rule either way. |
| Pipeline.PresentTail | backend/data_processing.py:20-113 | Once the first label is present, all labels are present iff the remaining ones are. |
| Pipeline.Prepared | backend/data_processing.py:7-17 | Stages 1-3 keep one column per kept column. |
| Pipeline.Applied | backend/data_processing.py:20-113 | Column-wise coercion keeps the number of columns. |
| Properties.CleanKeepsRows | backend/data_processing.py:5-120 | No row is ever dropped: on success the output has the input's row count, and every column has that many cells. |
| Properties.ColumnwiseKeepsRows | backend/data_processing.py:5-120 | A table built column-wise from a rectangular input, with its row count, is rectangular too. |
| Properties.KeptHaveRows | backend/data_processing.py:7 | The kept columns are as long as the table has rows. |
| Properties.CleanFailureNamesAbsentLabels | backend/data_processing.py:7-113 | A failure is either the drop's `KeyError`: a non-empty list of identifying labels, all absent. Or it is the `KeyError` of one specified label that is absent after stages 1-3. |
| Properties.KeptColumns | backend/data_processing.py:7 | The columns that remain are exactly the input columns not labelled `Timestamp` or `Username`. |
| Properties.CleanLabels | backend/data_processing.py:10 | On success, output column j has the normalised label of kept column j, and every output label is clean. |
| Properties.CleanColumnShape | backend/data_processing.py:10-120 | Each output column has the kept column's normalised label and its length. |
| Properties.SmokingStatusIsYesNo | backend/data_processing.py:47 | `smoking_status` is coerced by the `{'Yes': 1, 'No': 0}` dictionary. |
| Properties.ChronicHealthIssuesIsYesNo | backend/data_processing.py:50 | `chronic_health_issues` is coerced by the `{'Yes': 1, 'No': 0}` dictionary. |
| Properties.MedicationUseIsYesNo | backend/data_processing.py:53 | `medication_use` is coerced by the `{'Yes': 1, 'No': 0}` dictionary. |
| Properties.CleanYesNoNeverZero | backend/data_processing.py:17-118 | In the cleaned table, a text column coerced by the Yes/No dictionary never holds 0, even after imputation. |
| Properties.YesNoColumnAt | backend/data_processing.py:17-53 | A prepared text column whose rule is the Yes/No dictionary holds no 0 after coercion and imputation. |
| Properties.YesNoCell | backend/data_processing.py:47-53 | Yes/No coercion of a missing cell, or of text other than `No`, gives 1, missing, or text other than `Yes`/`No`. |
| Properties.NotATokenNotNo | backend/data_processing.py:17 | A string outside the non-answer list is not `No`. |
| Properties.YesNoOnBlanked | backend/data_processing.py:17-53 | After blanking, Yes/No coercion yields only 1, missing, or text other than Yes/No. |
| Properties.YesNoAfterCoercion | backend/data_processing.py:13-53 | The same for a text column taken through stages 2-3 and then coerced. |
| Properties.YesNoNeverZero | backend/data_processing.py:13-118 | The same after mean imputation. |
| Properties.ImputeOnes | backend/data_processing.py:116-118 | Imputing a column that holds only 1, missing, or text keeps it so (the mean of ones is 1). |
| Properties.NoZeroAmongOutcomes | backend/data_processing.py:47-53 | None of the Yes/No outcomes is 0. |
| Cleaning.Absent | backend/data_processing.py:7 | A label is reported absent iff it is requested and no column has it. |
| Cleaning.Without | backend/data_processing.py:7 | A column remains iff it is an input column whose label is not dropped. |
| Cleaning.CoerceColumn | backend/data_processing.py:20-113 | Coercion keeps the label and the length of a column. |
| Preparation.WithoutAppend | backend/data_processing.py:7 | Dropping commutes with concatenation, so the remaining columns keep their order. |
| Preparation.WithoutNoKeys | backend/data_processing.py:7 | Columns without a dropped label are all kept, unchanged and in order. |
| Preparation.StripColumnCells | backend/data_processing.py:13-14 | Stripping keeps name and length and leaves a numeric column alone. In a text column each text cell is stripped and each non-text cell becomes missing (`.str.strip()`). |
| Preparation.BlankTokensExact | backend/data_processing.py:17 | A cell changes iff it is text equal to a non-answer token, and then it becomes missing. No token survives. |
| Preparation.BlankTokensIdempotent | backend/data_processing.py:17 | Blanking twice is blanking once. |
| Preparation.PrepareCells | backend/data_processing.py:10-17 | Stages 2-3 on one column: the label is normalised and a numeric column's cells are kept. In a text column a cell becomes missing iff it is not text or its stripped text is a token; otherwise it is its stripped text. |
| Preparation.PrepareCell | backend/data_processing.py:13-17 | One text-column cell after stage 3: missing iff not text or a token once stripped, else the stripped text. |
| Preparation.PreparedTextCells | backend/data_processing.py:13-17 | After stage 3 a text column holds only missing cells and non-token text. |
| Preparation.StrippedIsTextOrMissing | backend/data_processing.py:13-14 | A stripped text column holds only text and missing cells. |
| Preparation.BlankedTextIsNoToken | backend/data_processing.py:17 | Blanking a column of text and missing cells leaves only missing cells and non-token text. |
| Preparation.PreparedTextColumn | backend/data_processing.py:13-17 | After stage 3 every text cell of a text column is a non-token with nothing left to strip. |
| Preparation.PaddedTokenIsBlanked | backend/data_processing.py:13-17 | `" No "` is stripped to a token and so becomes missing. |
| Preparation.PaddedNoStrips | backend/data_processing.py:14 | `" No "` strips to `"No"`. |
| Preparation.TokensAreCaseSensitive | backend/data_processing.py:17 | `"no"` is not a token and stays text. |
| Coercion.ToNumericCell | backend/data_processing.py:20 | Numeric coercion never yields text. It keeps numbers and missing cells. Text becomes a number iff it parses, and then it becomes the parsed value. |
| Coercion.ToNumericAcceptsLiterals | backend/data_processing.py:20 | Text becomes a number iff it is an optionally signed decimal literal, stated without the parser. |
| Coercion.ToNumericIdempotent | backend/data_processing.py:20 | Coercing twice is coercing once. |
| Coercion.ToNumericWholeNumbers | backend/data_processing.py:20 | The decimal numeral of n, optionally with `-`, coerces to n (or -n). |
| Coercion.ReplaceCell | backend/data_processing.py:23-74 | A text value in the dictionary becomes its code; any other value, missing included, is unchanged. |
| Coercion.ReplaceIdempotent | backend/data_processing.py:23-26 | Replacing twice is replacing once. |
| Coercion.CategoricalCodes | backend/data_processing.py:23-26 | Male→0, Female→1, Non-binary→2, Other→2. An unlisted gender stays text. Relationship Other→3 and Married/Partnered→2. Missing stays missing. |
| Coercion.ExtractIntegerCell | backend/data_processing.py:38 | Integer extraction never yields text, and a non-text cell gives missing. Text gives a number iff it holds a digit, and the number is the value of the first maximal digit run. |
| Coercion.ExtractDecimalCell | backend/data_processing.py:32 | Decimal extraction never yields text, and a non-text cell gives missing. Text gives a number iff it holds a digit, and the number is the value of the matched `\d+\.?\d*` text. |
| Coercion.ExtractDecimalLitres | backend/data_processing.py:32 | `"2.5 litres"` gives 2.5. |
| Coercion.LitresStartsWithDecimal | backend/data_processing.py:32 | In `"2.5 litres"` the match is the text `2.5` at the start, which parses to 2.5. |
| Coercion.ExtractDecimalRange | backend/data_processing.py:59 | `"2-3 cups"` gives 2 under decimal extraction. |
| Coercion.ExtractIntegerRange | backend/data_processing.py:41 | `"2-3 cups"` gives 2 under integer extraction. |
| Coercion.RangeStartsWithTwo | backend/data_processing.py:41 | In `"2-3 cups"` the first digit run is `2`, followed by `-`. |
| Coercion.ExtractNoDigit | backend/data_processing.py:32-38 | Any text without a digit gives missing under both extractions. |
| Numerals.ParseUnsignedAcceptsLiterals | backend/data_processing.py:20 | The unsigned parser accepts exactly the digit strings and the decimal literals with one point and some digit. |
| Numerals.ParseDigits | backend/data_processing.py:20 | A digit string parses to its value. |
| Numerals.ParseDecimal | backend/data_processing.py:20 | A literal `d.f` parses to the value of d plus the fraction f. |
| Numerals.ParseSignedDigits | backend/data_processing.py:20 | A digit string with a `-` sign parses to minus its value, and with a `+` sign to its value. |
| Numerals.ParseSignedDecimal | backend/data_processing.py:20 | A literal `d.f` with a `-` sign parses to minus (d plus the fraction f), and with a `+` sign to d plus f. |
| Numerals.ParseShowNat | backend/data_processing.py:20 | The numeral of n parses to n, and with a `-` sign to -n. |
| Numerals.ShowNatValue | backend/data_processing.py:20 | The numeral of n has value n. |
| Numerals.ShowNat | backend/data_processing.py:20 | A numeral is a non-empty digit string. |
| Numerals.RunEnd | backend/data_processing.py:38 | The end of the digit run from i: all digits before it, and a non-digit or the end at it. |
| Numerals.RunEndIs | backend/data_processing.py:38 | Any position with that property is the run's end. |
| Numerals.FindDigit | backend/data_processing.py:38 | The first digit at or after i, or the end. |
| Numerals.SearchInteger | backend/data_processing.py:38 | `(\d+)` finds nothing iff there is no digit. Otherwise it finds the leftmost maximal digit run. |
| Numerals.SearchDecimal | backend/data_processing.py:32 | A decimal match lies inside the text and is non-empty. |
| Numerals.SearchDecimalIsLeftmostLongest | backend/data_processing.py:32 | `(\d+\.?\d*)` finds nothing iff there is no digit. Otherwise it starts at the first digit, its text has the pattern's shape, and no longer text from there does (greedy match). |
| Numerals.PointMatchIsLongest | backend/data_processing.py:32 | Past a point and its digit run, no longer text has the pattern's shape. |
| Numerals.RunMatchIsLongest | backend/data_processing.py:32 | A digit run not followed by a point is a match, and nothing longer is. |
| Numerals.PointMatchIsShape | backend/data_processing.py:32 | Digits, a point and the following digit run form the pattern's shape. |
| Numerals.TwoNonDigitsNotShape | backend/data_processing.py:32 | Text with two non-digits does not match the pattern. |
| Numerals.StrayNotShape | backend/data_processing.py:32 | Text with a non-digit other than a point does not match the pattern. |
| Numerals.NonDigitIsAt | backend/data_processing.py:32 | In digits-point-digits text, the only non-digit is the point. |
| Numerals.MatchedTextParses | backend/data_processing.py:32-38 | The text either search finds always converts to a float (`.astype(float)` never fails); an integer match converts to its digits' value. |
| Numerals.ShapeParses | backend/data_processing.py:32 | Text of the decimal pattern's shape parses as a number. |
| Imputation.Count | backend/data_processing.py:118 | The present cells are at most all cells. |
| Numerals.DigitValue | backend/data_processing.py:20 | A digit's value is below ten. |
| Imputation.ImputeFillsAndKeepsMean | backend/data_processing.py:116-118 | In a numeric column with a present value, every missing cell becomes the mean and present cells are unchanged. Afterwards all cells are present and the column mean is unchanged. |
| Imputation.SumAfterFill | backend/data_processing.py:118 | Filling with v makes every cell present and adds v once per gap to the sum. |
| Imputation.MeanArithmetic | backend/data_processing.py:118 | If m is the mean of k values with sum s, then s plus m once for each of n - k gaps, divided by n, is m. |
| Imputation.ImputeSkips | backend/data_processing.py:117 | A column holding text, or with no present value, is left unchanged. |
| Imputation.ImputeKeepsShape | backend/data_processing.py:116-118 | Imputation keeps the length and which cells are text. |
| Imputation.MeanOfConstant | backend/data_processing.py:118 | If every present value is v, the mean is v. |
| Imputation.SumOfConstant | backend/data_processing.py:118 | If every present value is v, the sum is v times their count. |
| Imputation.FillMissing | backend/data_processing.py:118 | Filling keeps the length. |
| Imputation.FillMissingTail | backend/data_processing.py:118 | Filling a column is filling its head and then its tail. |
| Text.NormalizedNameIsClean | backend/data_processing.py:10 | A rewritten label has no whitespace, `/`, `(`, `)`, `-` or upper-case letter, and no `_` at either end. |
| Text.NormalizeIdempotent | backend/data_processing.py:10 | Rewriting a label twice is rewriting it once. |
| Text.CleanNameIsFixpoint | backend/data_processing.py:10 | A label is clean iff the rewrite leaves it unchanged. |
| Text.LowerSliceChars | backend/data_processing.py:10 | A slice of a lower-cased separator-free label has neither separators nor upper-case letters. |
| Text.CollapseSeparators | backend/data_processing.py:10 | After `re.sub(r'[\s/()-]+', '_', ...)` no separator remains. |
| Text.CollapseRun | backend/data_processing.py:10 | A separator-free prefix, then a maximal run of separators, then the rest, becomes the prefix, one `_`, and the rest rewritten on its own. |
| Text.CollapseWithoutSeparators | backend/data_processing.py:10 | A label without separators is unchanged by the substitution. |
| Text.LowerChar | backend/data_processing.py:10 | Lower-casing a character leaves no upper-case letter, keeps separators as they are, and fixes everything but A-Z. |
| Text.LowerLetters | backend/data_processing.py:10 | Each capital A-Z becomes the small letter at the same place in the alphabet. |
| Text.ToLowerFixpoint | backend/data_processing.py:10 | `.lower()` leaves a string unchanged iff it holds no capital A-Z. |
| Text.ToLowerIdempotent | backend/data_processing.py:10 | Lower-casing twice is lower-casing once. |
| Text.StartKept | backend/data_processing.py:10-14 | The first kept position at or after i: everything before it is dropped. |
| Text.EndKept | backend/data_processing.py:10-14 | The end of the kept part: everything after it is dropped. |
| Text.StripIsSlice | backend/data_processing.py:10-14 | `strip` returns the contiguous slice that starts and ends with a kept character; only dropped characters are cut off on either side. |
| Text.StripIdempotent | backend/data_processing.py:10-14 | Stripping twice is stripping once. |
| Text.StripNothingToStrip | backend/data_processing.py:10-14 | A string that starts and ends with a kept character is unchanged by `strip`. |
| Cells.Find | backend/data_processing.py:20-113 | The position of the first column with a label. It is the end iff no column has the label. |

## Left out

- Reading and writing CSV files (the `__main__` block, lines 122-126) is I/O and is not modelled.
- The report generator, the model trainer and the web application (`backend/generate_report.py`, `backend/train_model.py`, `backend/app.py`) are not part of this model. They are document formatting, foreign library calls with floating-point metrics, and HTTP plumbing.
- pandas dtype inference is replaced by one predicate: a column is numeric iff it holds no text. It decides both which columns are stripped (line 13) and which are imputed (line 117). A `bool` column, or an `object` column that holds no text, is typed differently by pandas.
- `.str.strip()` is applied only to `object` columns (line 13), so it never meets a numeric column. `.str.extract()` (lines 32-113) can: on a numerically typed column pandas raises `AttributeError`. The model instead takes every non-text cell to missing, as `.str.extract()` does per cell on an `object` column.
- Numbers are Dafny `real`, not `float64`. Rounding, overflow, `inf` and NaN arithmetic are not modelled.
- `pd.to_numeric` is modelled for optionally signed decimal literals. Exponents, `inf`/`nan` spellings, underscores and surrounding whitespace are left out.
- `.lower()` is modelled on ASCII letters only. `\d` is modelled as the ASCII digits, not every Unicode decimal digit.
- Repeated column labels are not modelled faithfully. When two columns share a label after renaming, `df[label]` returns a frame rather than a column, and `clean_data` raises: `.str` fails at line 14, `pd.to_numeric` raises `TypeError` at the coercion lines, and `df[col].dtype` raises `AttributeError` at line 117. The model instead reads and writes the first column with that label (`Cells.IndexOf`, `Pipeline.RuleAt`). This is a stand-in, so `Clean`, `Pipeline.CleanIsColumnwise` and `Frames.CleanData` can report success where the code raises.
- Whether `df[col].fillna(..., inplace=True)` writes back under copy-on-write is not modelled. The model performs the fill that line 115's comment describes.
- Properties.CleanYesNoNeverZero: the property is stated for a raw column that holds some text. A raw Yes/No column that pandas would type as numeric never meets the dictionary's keys, so it is not covered.
