# Lab value unit converter — Dafny model

This project models the logic of a small lab-value unit converter (a
Streamlit application in `app.py`). It has three parts:

- **The conversion table.** It maps a lab name to a source unit, a target unit
  and a multiplier: a value in the source unit times the multiplier is the
  value in the target unit. The model takes the table as a parameter (`Table`)
  and proves its lemmas for any table that meets their hypotheses.
  `SeedTable` is the table the application ships with: Glucose, Cholesterol,
  Creatinine and Calcium.
- **The converter** (`Converter.Convert`). It makes a four-way decision:
  - An unknown lab fails with "Unknown lab".
  - A value in the source unit is multiplied and returned in the target unit.
  - A value in the target unit is divided and returned in the source unit.
  - Any other unit fails with "Unit mismatch".

  Converted values are rounded to two decimals. A failure returns no value,
  and the message sits in the slot that otherwise holds the unit.
- **The CSV batch step** (module `Batch`). It first checks that the uploaded
  table has the columns Lab, Value and Unit. If it does not, no row is
  converted and "CSV must have columns: Lab, Value, Unit" is reported.
  Otherwise the converter is applied to every row in order. The results are
  stored in place as the columns Converted_Value and Converted_Unit. A failed
  row gets a blank value and the message in Converted_Unit.

Modules:

- `rounding.dfy` (`Rounding`): `Round2`, rounding a real to the nearest
  hundredth. An exact half rounds up, toward +infinity.
- `converter.dfy` (`Converter`):
  - the table, the rules and the two conversion directions (`ToTarget`,
    `ToSource`) and `Convert`;
  - lemmas for each branch, for the units a success returns and for value
    round trips;
  - worked examples on the shipped table.
- `batch.dfy` (`Batch`):
  - cells and rows, and the per-row conversion;
  - `ConvertAll`, the pure description of the whole step;
  - the `DataFrame` class, whose `ConvertUpload` method updates the table in
    place and is proved to produce `ConvertAll` of the old rows.

Values are exact reals, not binary floating point. Under real arithmetic,
Creatinine 88.4 mg/dL converts to 88.4 × 88.4 = 7814.56 µmol/L, and
Glucose 5.0 mmol/L converts to 90.091, shown as 90.09 mg/dL.

Converting from the source unit and back lands within 0.01 of the start when
the multiplier is at least 1, as it is for every shipped lab. The reverse
direction (from the target unit and back) is only bounded by (1 + m) / 200.
For Creatinine that is more than a hundredth: 1.0 µmol/L becomes 0.01 mg/dL,
which converts back to 0.88 µmol/L (`BackThenForwardCanDrift`).

## Model

| member | source | states |
|---|---|---|
| `Rounding.Round2` | app.py:18-20 | the result is a whole number of hundredths and lies within half a hundredth of the input |
| `Rounding.Round2Nearest` | app.py:18-20 | no hundredth is closer to the input than the rounded value |
| `Rounding.Round2Exact` | app.py:18-20 | a value that already has at most two decimals is unchanged |
| `Rounding.Round2Idempotent` | app.py:18-20 | rounding a rounded value changes nothing |
| `Rounding.Round2Monotone` | app.py:18-20 | rounding preserves order |
| `Converter.ToTarget` | app.py:18 | source-to-target conversion is within half a hundredth of value × multiplier |
| `Converter.ToSource` | app.py:20 | target-to-source conversion is within half a hundredth of value ÷ multiplier |
| `Converter.Convert` | app.py:14-23 | a value comes back exactly when the lab is in the table and the unit is one of its two units, and it has two decimals; otherwise the unit slot holds "Unit mismatch" for a known lab and "Unknown lab" for an unknown one |
| `Converter.UnknownLabFails` | app.py:15-23 | a name that is not a key of the table gives (None, "Unknown lab") whatever the value and unit |
| `Converter.SourceUnitConvertsForward` | app.py:16-18 | a value in the source unit gives the rounded product, in the target unit |
| `Converter.TargetUnitConvertsBackward` | app.py:19-20 | a value in the target unit, when it is not also the source unit, gives the rounded quotient, in the source unit |
| `Converter.OtherUnitMismatches` | app.py:21-22 | a known lab with a unit that is neither of its units gives (None, "Unit mismatch") |
| `Converter.SuccessGivesOtherUnit` | app.py:16-20 | in a well-formed table a success returns the lab's other unit: it differs from the unit given, and the two together are the lab's two units |
| `Converter.UnitRoundTrip` | app.py:17-20 | feeding a success's unit back in for the same lab succeeds and returns the original unit, for any table |
| `Converter.ForwardThenBackWithinCent` | app.py:17-20 | source unit to target and back succeeds, returns the source unit, and lands within 0.01 of the start when the multiplier is at least 1 |
| `Converter.BackThenForwardWithinBound` | app.py:17-20 | target unit to source and back succeeds, returns the target unit, and lands within (1 + m) / 200 of the start |
| `Converter.RuleForwardThenBackWithinCent` | app.py:18-20 | for one rule with multiplier at least 1, ToSource after ToTarget is within 0.01 of the start |
| `Converter.RuleBackThenForwardWithinBound` | app.py:18-20 | for one rule with a positive multiplier, ToTarget after ToSource is within (1 + m) / 200 of the start |
| `Converter.SeedTableWellFormed` | app.py:5-11 | every shipped entry has two distinct units and a multiplier of at least 1 |
| `Converter.SeedForwardThenBackWithinCent` | app.py:5-20 | for every shipped lab, source unit to target and back stays within 0.01 |
| `Converter.GlucoseExample` | app.py:6-18 | Glucose 5.0 mmol/L gives (90.09, "mg/dL") |
| `Converter.CreatinineExample` | app.py:8-18 | Creatinine 88.4 mg/dL gives (7814.56, "µmol/L") |
| `Converter.UnknownLabExample` | app.py:15-23 | "NotALab" gives (None, "Unknown lab") |
| `Converter.MismatchExample` | app.py:6-22 | Glucose in µmol/L gives (None, "Unit mismatch") |
| `Converter.BackThenForwardCanDrift` | app.py:8-20 | Creatinine 1.0 µmol/L gives 0.01 mg/dL, which gives 0.88 µmol/L: the reverse round trip can miss by more than a hundredth |
| `Batch.ConvertRowSucceedsIff` | app.py:51 | a row converts exactly when its Lab and Unit cells are text naming a lab and one of its units; the result then equals the converter's, and a failure carries the matching message |
| `Batch.ResultCellsRoundTrip` | app.py:52 | the two stored cells (blank or number, and unit or message) read back as the original result |
| `Batch.OutputColumnsExtend` | app.py:52 | the output columns keep the input columns in order as a prefix and add exactly the two result columns |
| `Batch.ConvertAll` | app.py:50-52 | the output has as many rows as the input, and row k is input row k with its own conversion added |
| `Batch.ConvertAllRow` | app.py:51-52 | each output row keeps every original cell outside the two result columns, gains exactly those two, and they read back as that row's conversion |
| `Batch.DataFrame.constructor` | app.py:49 | a parsed table with distinct column names whose rows all have exactly those columns |
| `Batch.DataFrame.Apply` | app.py:51 | returns one result per row, in order, each the converter applied to that row, and changes nothing |
| `Batch.DataFrame.Assign` | app.py:52 | the table gets the output columns and every row gets its result cells, in place, and stays well formed |
| `Batch.DataFrame.ConvertUpload` | app.py:50-59 | with Lab, Value and Unit present, the new rows are ConvertAll of the old ones; otherwise the missing-columns message is returned and the table is unchanged |
| `Batch.MissingUnitColumnExample` | app.py:50-59 | a table with Lab and a text Value cell but no Unit column gets the missing-columns message |
| `Batch.TwoRowExample` | app.py:50-52 | a Glucose row gets (90.09, mg/dL) and a "Foo" row gets a blank value and "Unknown lab", in input order |

## Left out

- The Streamlit interface is not modelled: the title, the input-mode radio, the selectboxes, the number input, the button, the success and error displays and the table display (app.py:26-47, app.py:53). It is presentation only.
- CSV parsing, re-serialisation, UTF-8 encoding and the download button (app.py:49, app.py:56-57) are not modelled. They are I/O through pandas and Streamlit. A parsed table is modelled as a `DataFrame` of rows, each a map from column name to cell.
- Binary floating point is not modelled, and neither is the exact behaviour of Python's `round`, which rounds ties to even on binary values. The model uses exact reals, and `Round2` rounds ties up.
- `Batch.DataFrame.ConvertUpload` requires every Value cell to be a number when the three input columns are present and rows are converted, as in a numeric column. There a Value column that pandas reads as text makes the source raise a TypeError in the multiplication, and a blank Value cell becomes NaN, which the source passes through. Neither case is modelled. A table missing a required column is accepted whatever its Value cells hold.
- `Converter.Convert` requires a nonzero multiplier for the lab it looks up. With a zero multiplier the source raises ZeroDivisionError in the backward branch. No shipped entry has one.
- The batch members require a well-formed table (distinct units, positive multiplier), as the shipped table is.
- The `min_value=0.0` bound of the manual number input (app.py:35) is not modelled. Only the interface enforces it, so the model accepts any real value.
- A CSV with a header and no rows goes through pandas' special handling of `apply` on an empty frame. That case is not modelled: for zero rows, the model adds the two columns and converts nothing.
- Duplicate column names are not modelled. The parser renames duplicates, so the `DataFrame` invariant assumes distinct names.
