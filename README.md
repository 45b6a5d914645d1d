# Alzheimer's-diagnosis prediction service: inference core

This project models, in Dafny, the inference core of a small Flask service
(`app.py`). The service loads a fitted missing-value imputer and a fitted
binary classifier at start-up. It accepts patient records typed into a form or
uploaded as a CSV or Excel file. For each record it returns the record with a
`diagnosis_probability` column added.

What is modelled:

- **Start-up** (`Artifacts`). The imputer and the classifier are loaded into a
  serving context. The feature schema comes from the classifier's fitted
  feature names, else from the imputer's. It falls back to the keys of the
  feature glossary when a file is missing or neither artifact carries names.
- **Data frames** (`Frames`). A pandas `DataFrame` is a `Frame` object with
  named columns and a row count. Its value is a `Table`. `df[name] = values`
  follows pandas: a frame whose index is empty takes its length from the first
  non-empty list assigned, and its other columns become all-missing. Otherwise
  a list of the wrong length raises. An existing column is replaced where it
  stands; a new one is appended.
- **Alignment** (`Alignment`). `predict_diagnosis` builds a frame whose columns
  are exactly the schema. A present column is coerced cell by cell, an absent
  column is all-missing, and raw columns outside the schema are dropped.
- **Scoring and assembly** (`Pipeline`). The not-ready guard comes first. Then
  the aligned frame goes to the imputer and the classifier, column 1 of the
  class probabilities is taken, and the probabilities are assigned onto a copy
  of the input.
- **Manual entry** (`ManualEntry`). One form field per feature becomes a
  one-row frame. A blank field, or one whose `strip().lower()` is `na`, is
  missing. The frame is coerced column by column and then scored.
- **Upload dispatch** (`Upload`). A case-insensitive suffix test on the file
  name picks CSV, Excel or "unsupported".

The imputer and the classifier are function-valued fields of the `Imputer` and
`Classifier` datatypes. What the pipeline assumes of them is stated as
`ImputerContract` (shape preserved, no missing cells) and `ClassifierContract`
(one row of two probabilities per input row, column 1 in [0, 1]). The numeric
grammar of `pd.to_numeric` is a parameter `parse: string -> Option<real>`.

Behaviour of the code that the model keeps, where a reader might expect
otherwise:

- When no schema feature is a column of the input, every assignment in the
  alignment loop is the scalar `nan`. The aligned frame then keeps zero rows.
  For an input with rows, the probability column therefore has the wrong
  length. With the imputer modelled as a total function, line 101 raises;
  a fitted imputer given a frame with no rows raises first, at line 96.
  Either way the request fails, and `Predict` returns `Err(LengthMismatch)`
  in exactly that case (`PredictFailsExactly`).
- When the input already has a `diagnosis_probability` column, the column is
  overwritten where it stands rather than appended last
  (`PredictOverwritesScores`).
- When an artifact is missing, `predict_diagnosis` returns an empty frame, not
  a distinct "not ready" error. The model returns `Ok(EmptyTable)`.

## Model

| member | source | states |
|---|---|---|
| Text.IsSpace | app.py:121 | the space, tab, newline and carriage return are whitespace for `strip()`; ASCII letters, digits and the dot are not |
| Text.TrimStart | app.py:121 | the leading part `strip()` removes is all whitespace, and what remains does not start with whitespace |
| Text.TrimEnd | app.py:121 | the trailing part `strip()` removes is all whitespace, and what remains does not end with whitespace |
| Text.Strip | app.py:121 | `strip()` gives a contiguous piece of the value with whitespace-only margins cut off on both sides |
| Text.LowerChar | app.py:121 | lowering leaves no ASCII capital; a capital moves to its small letter and every other character is kept |
| Text.Lower | app.py:154-156 | `lower()` keeps the length and lowers each character in place, leaving no ASCII capital |
| Text.LowerIsNa | app.py:121 | a text lowers to `na` exactly when it is `na`, `nA`, `Na` or `NA` |
| Text.IsNaToken | app.py:121 | a field value is the missing token exactly when its stripped text is `na`, `nA`, `Na` or `NA` |
| Text.NaTokenCases | app.py:121 | `strip().lower() == "na"` holds exactly when the trimmed value is the two letters n and a, each in either case |
| Text.SpacedUpperNaIsToken | app.py:121 | ` NA ` with surrounding spaces is the missing token |
| Text.NanIsNotToken | app.py:121 | `nan` is not the missing token and is kept for coercion |
| Text.EndsWith | app.py:154-156 | `endswith(suffix)` holds exactly when the suffix fits and each of its characters matches the last characters of the text |
| Text.LowerEndsWith | app.py:154-156 | lowering a name and testing its suffix is the same as the character-wise case-insensitive suffix test |
| Cells.Coerce | app.py:88 | coercion never fails and always yields a number or missing; a number or missing cell is kept as it is; text becomes missing exactly when it does not parse |
| Cells.CoerceAll | app.py:88 | a column is coerced cell by cell, with the same length |
| Cells.CoerceAllIsNumeric | app.py:88 | a coerced column holds no text |
| Cells.CoerceAllIdempotent | app.py:129 | coercing a coerced column changes nothing, so the manual path's double coercion (lines 129 and 88) equals a single one |
| Cells.CoerceAllKeepsNumeric | app.py:88 | a column of numbers and missing markers passes through coercion unchanged |
| Frames.ColumnOf | app.py:88 | `df[name]` has one cell per row and is the data stored under that name |
| Frames.Assign | app.py:101 | `df[name] = values` succeeds exactly when the frame has no rows or `values` has one cell per row; the result is well formed; an existing column is replaced in place and a new one appended last; other columns are kept, or become all-missing when an empty index is first set |
| Frames.Selected | app.py:94 | `df[names]` has exactly the named columns in the given order, each the frame's column of that name |
| Frames.SelectOwnColumns | app.py:94 | selecting a frame's own columns in their own order gives the same frame, so line 94 is a no-op after the loop |
| Frames.Frame.WithColumns | app.py:84 | `pd.DataFrame(columns=names)` has the named columns and no rows |
| Frames.Frame.Of | app.py:126 | a frame built from a value is well formed and holds exactly that value |
| Frames.Frame.Copy | app.py:100 | `copy()` is a new frame with the same value |
| Frames.Frame.Select | app.py:94 | selection returns a new frame holding `Selected` of the old value |
| Frames.Frame.Set | app.py:88 | the frame's new value is `Assign` of its old value, and it is unchanged when the assignment raises |
| Frames.Frame.SetScalar | app.py:90 | assigning a scalar never raises and fills the column with one copy per existing row |
| Artifacts.Load | app.py:56-73 | the imputer is kept even when the classifier file is missing; ready exactly when both files load; the schema is the classifier's names, else the imputer's, else the glossary keys, and always the glossary keys when not ready |
| Artifacts.DescriptionKeys | app.py:69-73 | the fallback schema `list(feature_descriptions.keys())` is the glossary's keys in written order, with no repeated name |
| Artifacts.GlossaryDistinct | app.py:20-54 | the keys written in the glossary literal are pairwise distinct (their fingerprints of length and a few characters already differ), so the dict keeps all 32 in written order |
| Artifacts.DictLiteralKeys | app.py:20-54 | the keys of a dict literal are distinct, are exactly the keys written, and are the keys in written order when none is repeated |
| Artifacts.LoadValid | app.py:56-73 | the context built at start-up has a duplicate-free schema and keeps the artifacts' contracts |
| Alignment.Aligned | app.py:84-94 | the aligned frame's columns are the schema, one column per feature, and it has either the input's rows or none |
| Alignment.AlignedShape | app.py:84-94 | the aligned frame is well formed, its columns are the schema in schema order, and every cell is a number or missing |
| Alignment.AlignedRows | app.py:84-90 | the aligned frame has the input's row count exactly when some schema feature is present or the input is empty, and zero rows when none is present |
| Alignment.AbsentFeatureAllMissing | app.py:89-90 | a schema feature absent from the input yields an all-missing column |
| Alignment.PresentFeatureCoerced | app.py:86-88 | a schema feature present in the input yields that column coerced, row for row |
| Alignment.ExtraColumnsDropped | app.py:85-88 | an input column whose name is not in the schema does not appear in the aligned frame |
| Alignment.AlignedIgnoresRawOrder | app.py:85-94 | two inputs holding the same named columns in any order align identically |
| Alignment.AlignedRoundTrip | app.py:84-94 | when every feature is present with numbers only, aligned row i is input row i's values rearranged into schema order, with nothing missing added |
| Alignment.AlignStep | app.py:85-90 | one turn of the loop never raises: assigning the next feature's coerced column, or the scalar `nan`, to the partly built frame gives the frame with that feature handled too |
| Alignment.Align | app.py:84-94 | the loop of column assignments followed by the selection produces exactly `Aligned` of the input, in a new frame |
| Pipeline.Scores | app.py:96-98 | one positive-class probability per aligned row, each in [0, 1] |
| Pipeline.ScoreColumn | app.py:101 | the probability column has one numeric cell per probability, in order, holding that probability |
| Pipeline.Predict | app.py:79-81 | with either artifact missing the result is the empty frame and nothing is scored; a successful result is a well-formed frame |
| Pipeline.PredictFailsExactly | app.py:84-101 | with both artifacts loaded the pipeline raises exactly when the input has rows but no schema feature |
| Pipeline.PredictAppendsScores | app.py:100-101 | for every input that has no `diagnosis_probability` column and on which `Predict` succeeds, with or without rows, the result has the input's row count and columns plus the probability column last; row i is input row i unchanged with its probability, taken from column 1, appended last |
| Pipeline.PredictOverwritesScores | app.py:100-101 | when `Predict` succeeds on an input that already has `diagnosis_probability`, with or without rows, the result keeps the input's columns; that column holds the new probabilities and every other column is unchanged |
| Pipeline.PredictDiagnosis | app.py:77-102 | the method returns a new frame equal to `Predict` of the input, or the error `Predict` gives |
| ManualEntry.FormGet | app.py:118 | `request.form.get(name)` has a value exactly when the field was submitted, and then it is the submitted text |
| ManualEntry.FieldValue | app.py:117-123 | a feature's cell is missing exactly when its field is absent, empty or an `na` token; otherwise it is the field's text, unchanged |
| ManualEntry.Record.Put | app.py:121-123 | `d[k] = v` keeps the dict well formed, maps `k` to `v`, keeps the insertion order and appends `k` only when it is new |
| ManualEntry.ManualInput | app.py:126-129 | the coerced manual frame has the schema's columns, one row (none when the schema is empty), and in each column the field's value coerced |
| ManualEntry.FormTable | app.py:126 | the manual frame before coercion has the schema's columns |
| ManualEntry.RecordTable | app.py:126 | `pd.DataFrame(d)` of the dict has the dict's keys, in insertion order, as its columns |
| ManualEntry.CoercedTable | app.py:128-129 | coercing every column keeps names and row count and coerces each column |
| ManualEntry.CollectManualData | app.py:116-123 | the dict has exactly the schema's features as keys, in schema order, each holding its field's value |
| ManualEntry.CoerceColumns | app.py:128-129 | the frame's new value is every old column coerced, in place |
| ManualEntry.SubmitManual | app.py:116-131 | the manual path returns what `Predict` gives for the coerced form frame |
| ManualEntry.ManualInputCells | app.py:116-129 | the manual frame has one row and the schema's columns; a blank or `na` field is missing; any other field is the number it parses to, or missing |
| ManualEntry.ManualAlignedUnchanged | app.py:85-94 | alignment passes the manual frame to the imputer unchanged |
| ManualEntry.ManualPredictSucceeds | app.py:125-131 | with both artifacts loaded and a non-empty schema that does not contain `diagnosis_probability`, the manual path never raises and returns one row: the schema's columns plus the probability |
| Upload.Classify | app.py:154-159 | a name is CSV exactly when it ends in `.csv` in any case, Excel exactly when it does not and ends in `.xls` or `.xlsx` in any case, and unsupported otherwise |
| Upload.ClassifyIgnoresCase | app.py:154-156 | upper- or lower-casing a name does not change its kind |
| Upload.ClassifyNotesTxt | app.py:158-159 | `notes.txt` is unsupported |
| Upload.ClassifyUpperCsv | app.py:154 | `DATA.CSV` is CSV |
| Upload.ClassifyUpperXlsx | app.py:156 | `a.XLSX` is Excel |

## Left out

- The Flask routing, the form and file reading, `render_template`, `to_html` and the error messages of the request handler (app.py lines 106-183), including the `results_df.empty` check: HTTP and UI plumbing.
- `joblib.load` and the internals of the fitted imputer and classifier: they are abstract functions whose assumed contracts are `ImputerContract` and `ClassifierContract`. The imputer is modelled as total; an imputer that raises (for instance on zero rows) is not modelled.
- The numeric grammar of `pd.to_numeric`: it is the parameter `parse`, assumed total and deterministic.
- Pipeline.Scores: does not round to four decimals (`np.round(..., 4)`, line 101), because the model keeps no floating-point arithmetic; probabilities are reals in [0, 1].
- Saving the upload, `read_csv`, `read_excel` and `os.remove` (lines 150-168): filesystem I/O. The staged file is not removed when parsing raises, so no cleanup property is claimed. Only the extension test is modelled.
- The glossary's description strings (lines 20-54): only its keys and their order matter, as the fallback schema.
- `print` logging and `app.run` (lines 63-73, 185-186).
- Text.LowerChar: maps only the ASCII capitals, where Python's `str.lower()` maps all of Unicode. The lowered text is compared only with ASCII literals (`na`, `.csv`, `.xls`, `.xlsx`), and no other character lowers to one of their characters.
- Frames.Assign: matches values by position. pandas aligns a Series by index at line 88, which is the same here because the aligned frame's index is either empty or the input's own index.
- Frames.Table: requires column names to be distinct. Frames from `read_csv` and from a dict have distinct names. That the fitted schema has distinct names is an assumption, stated in `ImputerContract` and `ClassifierContract`, since scikit-learn does not enforce it. pandas' behaviour on duplicate names is not modelled.
- Any exception other than the length mismatch of line 101 (an unreadable file, an artifact that raises) is not modelled.
