# Payments ETL, modelled in Dafny

This project models the ETL layer of a Malaysian digital-payments dashboard
(`etl.py`). Three extractors turn semi-structured spreadsheet sheets into
tidy tables:

- T1 (`clean_t1`) produces the e-payments-per-capita series.
- T2 (`clean_t2`) produces the payment-instrument volume/value table. A chain
  of content-scanning detectors locates it, and it is then reshaped from wide
  to long.
- T5 (`clean_t5`) produces the EFTPOS-terminal and ATM series per 1,000 people.

`run_etl` then derives two more tables from these: the per-year instrument
shares, and the reporting dataset joined on year.

A sheet is a rectangular grid of cells (`Sheet.Cell`: empty, number, text or
date). The model also covers the two cell conversions the code relies on:
`str(cell)` (`Sheet.CellText`) and `pd.to_numeric(…, errors="coerce")`
(`Sheet.ToNumeric`). Every exception that aborts a run is a
`Failure(EtlError)`:

- an `iloc` past the end;
- no "E-payments" row;
- no metric header row;
- no instrument;
- an empty T5 section.

Modules:

| file | module | models |
|---|---|---|
| `wrappers.dfy` | `Wrappers` | `Option`, `Result` |
| `strings.dfy` | `Strings` | Python `str` operations: `strip`, `lower`, `isdigit`, `in`, `startswith`, `split("__")[0]`, the `20\d{2}` search |
| `ordering.dfy` | `Ordering` | `sorted(set(…))` under a strict total order; Python string order |
| `sheet.dfy` | `Sheet` | cells, grids, `str()`, `to_numeric`, division, errors |
| `t1.dfy` | `T1` | `clean_t1` |
| `t2.dfy` | `T2` | `clean_t2` with its detector loops as methods |
| `t5.dfy` | `T5` | `clean_t5` with its label loops and section loops as methods |
| `aggregate.dfy` | `Aggregate` | shares and the two left joins of `run_etl` |
| `pipeline.dfy` | `Pipeline` | `run_etl` without file handling |

The loops of the source are `method`s with loop invariants:

- the metric header scan with its `break`;
- the `data_end` loop;
- the `wide` column loop;
- the `parts` loop;
- the two label passes;
- the section loops.

Each of them is proved equal to a specification function. The properties are
proved as lemmas about those functions.

The model keeps these behaviours of the code as they are:

- An empty `pos_rows` or `atm_rows` list leaves its frame without a `year`
  column, so `dropna(subset=['year'])` raises (etl.py:103-104). The model
  fails with `MissingYearColumn` (`T5.CleanT5Errors`).
- A T5 section reads from `start_col + 1` and never reads its own label
  column (etl.py:86; `T5.SectionColumns`, `T5.SpanSpec`).
- T1 years are not range-checked and not de-duplicated (etl.py:6;
  `T1.NumericYears`, `T1.AllNumericYears`).
- A T5 year taken from a date cell has no 2000..2099 bound (etl.py:90-91;
  `T5.ColumnYear`).
- A T2 column left of the first instrument label gets the label text
  "None", because `ffill` leaves it null and `str(None)` is "None"
  (etl.py:23, 41; `T2.ForwardFillSpec`, `T2.LabelText`).
- Zero instruments make `pd.concat([])` raise (etl.py:60;
  `T2.CleanT2Errors`).

Conventions:

- T1 and T2 grids are the DataFrame body, because `read_excel` consumes the
  header row. T2's header row (`df.columns`) is passed as `t2Header`.
- T5 is read with `header=None`, so its grid is indexed directly.

## Model

| member | source | states |
|---|---|---|
| T1.NumericYears | etl.py:6 | coercing and dropping never yields more years than there are cells (years are truncated to int, with no range check and no de-duplication) |
| T1.NumericYearsAppend | etl.py:6 | coercing and dropping works cell by cell, so it distributes over concatenation and keeps order |
| T1.NonNumericCellDropped | etl.py:6 | a cell that does not coerce to a number contributes no year |
| T1.AllNumericYears | etl.py:6 | when every cell is numeric, year k is the truncation of cell k |
| T1.LabelRowFrom | etl.py:7 | the label row is the first row whose stripped column-1 text starts with "E-payments"; none when no row does |
| T1.CleanT1Spec | etl.py:4-9 | fails exactly when row 1 or column 1 is missing or there is no label row; otherwise one record per year, record k pairing year k with the coerced cell of the first label row at column 3+k |
| T2.MetricRowFrom | etl.py:14-21 | the metric row is the first index below 12 whose lowercased texts have at least 2 cells containing "volume" and at least 2 containing "value"; IndexError when the frame ends first, RuntimeError when rows 0-11 hold none |
| T2.FindMetricRow | etl.py:14-21 | the scan loop with its early break computes exactly that result |
| T2.MetricRowIsWide | etl.py:17 | a metric row has at least two columns |
| T2.ForwardFillSpec | etl.py:22-23 | after forward-fill, a column carries the nearest present label at or left of it, and stays empty (later rendered "None") when there is none |
| T2.PeriodHeaderFrom | etl.py:26 | the period column is the first header containing "payment instruments" in any case, where an empty header is named "Unnamed: c"; none when no header does (the caller defaults to column 1) |
| T2.DataEnd | etl.py:27-30 | the data span ends at the first fully-empty row at or after the metric row + 1, or at the end of the frame |
| T2.FindDataEnd | etl.py:28-30 | the `while` loop stops at exactly that row |
| T2.Survivors | etl.py:32-36 | each survivor is one of the data rows with its stripped period text, its year is the first `20\d{2}` token of that text and lies in 2000..2099, and there are never more survivors than data rows |
| T2.SurvivorsAppend | etl.py:34-36 | the drop distributes over concatenation, so periods and data rows stay aligned and in order |
| T2.SurvivorsSnoc | etl.py:34-36 | one more data row at the end adds its own survivor, if any, at the end |
| T2.RowDropped | etl.py:34-36 | a row without a year token disappears and a row with one stays in place with its period and year |
| T2.BuildWide | etl.py:38-47 | the column loop builds exactly the fold of the named columns over the surviving rows |
| T2.WideKeys | etl.py:38-47 | `wide` has a column for exactly the names some column produced: a non-period column with a non-empty label and metric text "volume" or "value" |
| T2.WideLastWins | etl.py:47 | the values stored under a name are those of the last column producing that name |
| T2.InstrumentNamesSpec | etl.py:48 | the instruments are ascending in Python string order, duplicate-free, and exactly the prefixes before "__" of the `wide` column names |
| T2.InstrumentsFromColumns | etl.py:38-48 | an instrument is exactly the part before the first "__" of "digit-stripped trimmed label + __ + metric" for some qualifying column |
| T2.CleanLabelTrailingDigit | etl.py:45 | for any label text s and any character d that `isdigit` accepts in the model (see Strings.StripDigits under Left out), `s + d` cleans to the same instrument name as s; so "Card٣" cleans like "Card" |
| T2.OrdinaryLabelIsInstrument | etl.py:45-48 | a cleaned label with no "__" inside and no trailing "_" is itself an instrument |
| T2.KeyPrefixOfKey | etl.py:48 | `split("__")[0]` of "label__metric" gives the label back when the label holds no "__" and does not end in "_" |
| T2.BuildParts | etl.py:49-59 | the parts loop builds one frame per instrument, in instrument order |
| T2.LongTable | etl.py:49-60 | the concatenation has #instruments × #surviving rows records; record j belongs to instrument j / n and surviving row j % n, so period order is kept within each instrument; volume is the instrument's volume column, value its value column × 1,000,000, and avg_txn_value is value / volume (null on a zero or missing volume) |
| T2.LongTableAt | etl.py:49-60 | the same statement for a single position j < #instruments × #surviving rows |
| T2.FlattenLength | etl.py:60 | concatenating m frames of n rows gives m × n rows |
| T2.FlattenAt | etl.py:60 | in that concatenation, row k of frame i sits at position i × n + k |
| T2.FlattenAll | etl.py:60 | a property that holds of every row of every frame holds of every row of the concatenation |
| T2.CleanT2 | etl.py:11-60 | the extractor's loops compute exactly the specification `CleanT2Spec` |
| T2.Reshape | etl.py:22-60 | once the metric row is known, the reshaping steps compute exactly the specification `Reshaped` |
| T2.ReadLayout | etl.py:22-36 | the data-span loop and the cleaning steps compute exactly the layout `LayoutOf` |
| T2.CleanT2Errors | etl.py:14-60 | a failed metric scan decides the error; after it, the run fails exactly when no instrument is found (`pd.concat([])`); no other error arises |
| T2.CleanT2Years | etl.py:33-36 | every T2 record's year is the `20\d{2}` token of its period text and lies in 2000..2099 |
| T2.CleanT2Shape | etl.py:11-60 | a successful `clean_t2` result is the long table of its layout: #instruments × #surviving rows records, record j for instrument j / n and surviving row j % n, with that row's period and year, the instrument's volume, value × 1,000,000 and value / volume |
| T5.LastLabel | etl.py:67-74 | the first pass records, for each word, the last row-2 column whose stripped text is not blank, "nan" or "none" and whose lowercase contains "eftpos" / "atm"; none when no column qualifies |
| T5.FirstMention | etl.py:76-81 | the fallback pass keeps a found label and otherwise takes the first column whose lowercased text mentions the word |
| T5.MentionIsLabel | etl.py:68-80 | a cell mentioning "eftpos" / "atm" also passes the first pass's test |
| T5.FallbackAddsNothing | etl.py:65-81 | the fallback pass never changes the labels the first pass found, and finds none the first pass missed |
| T5.FindLabels | etl.py:65-81 | the two label loops compute exactly the first pass followed by the fallback |
| T5.SectionEnd | etl.py:84-85 | a section ends before the nearest label column to its right, or at ncols − 1 when none lies to its right |
| T5.SpanSpec | etl.py:84-86 | a section reads the columns start+1 up to that end: never a label column, always inside the sheet, ending at the next label column or the sheet edge |
| T5.ColumnYear | etl.py:87-96 | a date cell gives its own year, unbounded; a year read from any other cell's text lies in 2000..2099 |
| T5.SectionColumns | etl.py:86-102 | entry i of a section holds the year from row 3 and the cells of rows 5 and 7 of column start + 1 + i |
| T5.ReadSections | etl.py:82-102 | the section loops fill `pos_rows` / `atm_rows` with exactly the section entries, and raise IndexError when a section reads a column of a sheet with fewer than 8 rows |
| T5.AppendSpan | etl.py:86-102 | one section's inner loop appends the entries of its column span in order, or raises IndexError on a short sheet |
| T5.ReadsSomeItem | etl.py:83-86 | a section reads a column exactly when some `labels.items()` entry has a non-empty span |
| T5.LastPresent | etl.py:103-105 | the value kept for a year comes from the last entry of that year whose per-1000 cell is not null; none when there is no such entry |
| T5.GroupLastSpec | etl.py:103-107 | a collapsed section has ascending years, exactly the recovered years of its entries, each with the last non-null value of that year |
| T5.YearlessEntryDropped | etl.py:103 | an entry without a recoverable year changes no collapsed row |
| T5.MergeOuterSpec | etl.py:109 | the outer join has ascending, unique years, exactly the union of both sides' years, each side's value for the year, and null where a side lacks the year |
| T5.LookupGroupLast | etl.py:105-109 | looking a year up in a collapsed section gives that section's last non-null value for the year |
| T5.CleanT5 | etl.py:62-110 | the extractor's loops compute exactly the specification `CleanT5Spec` |
| T5.CleanT5Errors | etl.py:62-104 | a sheet with columns but no row 2 raises IndexError; the run fails with the missing-'year' KeyError exactly when a label was not found or its section is empty |
| T5.CleanT5Output | etl.py:103-110 | T5 years are ascending and unique, exactly the years recovered in either section, each with that section's last non-null per-1000 figure (null when the section lacks the year) |
| Aggregate.SharesKeys | etl.py:120-122 | share rows are in (year, instrument) order, one per key present in T2, with volume and value the null-skipping sums over that key |
| Aggregate.SharesSumToOne | etl.py:123-126 | each share row carries its year's totals; in a year with nonzero total volume (value) every volume (value) share is defined and they sum to 1; with a zero total none is defined |
| Aggregate.VolumeSharesSumToOne | etl.py:123-125 | in a year with nonzero total volume, the volume shares sum to 1 |
| Aggregate.ValueSharesSumToOne | etl.py:123-126 | in a year with nonzero total value, the value shares sum to 1 |
| Aggregate.MatchesOfUnique | etl.py:127-128 | over a side with unique years, a year matches at most one row, and one exactly when the year occurs |
| Aggregate.LeftJoinUnique | etl.py:127-128 | a left join on a side with unique years keeps the left table row for row, pairing each row with its year's match or null |
| Aggregate.DatasetRows | etl.py:127-128 | with unique T1 and T5 years the dataset has exactly T2's rows in order, each with its year's per-capita and infrastructure figures, null where a series lacks the year |
| Pipeline.RunEtl | etl.py:113-128 | the run computes exactly the composition of the three extractors, the shares and the dataset, failing with the first extractor's error |
| Pipeline.T5YearsUnique | etl.py:109 | T5's years are unique by construction |
| Pipeline.RunEtlDataset | etl.py:117-128 | in a finished run with unique T1 years, the dataset has one row per T2 record, in order, and every T2 year lies in 2000..2099 |
| Strings.YearToken | etl.py:33 | the `20\d{2}` search (also used at line 94) finds a token exactly when one occurs, takes the first occurrence, and its value lies in 2000..2099 |
| Strings.FindFrom | etl.py:48 | the first occurrence of a pattern at or after a position, or none when it does not occur |
| Strings.StripDigitsSpec | etl.py:45 | removing digits leaves no digit, never lengthens the text, and leaves digit-free text unchanged |
| Strings.StripDigitsAppend | etl.py:45 | removing digits works character by character: stripping a + b gives the stripped a followed by the stripped b |
| Strings.StripDigitsChar | etl.py:45 | a single character is removed exactly when it is a digit and is kept otherwise; with StripDigitsAppend, the result is the input's non-digit characters in order |
| Strings.StripKeepsContains | etl.py:68-77 | stripping keeps any contained word that has no blanks at its edges |
| Strings.LowerStripCommute | etl.py:68-77 | lowercasing and stripping commute |
| Ordering.SortedDistinctSpec | etl.py:48 | `sorted(set(xs))` is strictly ascending and holds exactly the elements of xs |
| Ordering.StrLtIsStrictTotalOrder | etl.py:48 | Python's string comparison is a strict total order |
| Sheet.Quotient | etl.py:58 | a quotient is defined exactly when both operands are present and the divisor is nonzero, and then it times the divisor gives the dividend (also used for the shares at lines 125-126) |

## Left out

- File I/O is not modelled: `pd.read_excel` (etl.py:5, 12, 63), `mkdir` and `to_csv` (etl.py:129-134), and the `__main__` entry (etl.py:136-138). Sheets are given grids and outputs are returned sequences.
- `dashboard.py` is not part of this model. It is Streamlit/Plotly rendering with no ETL logic.
- Floating point: the model uses exact `real` arithmetic, so rounding, NaN and inf do not appear. A division by zero is null (`Sheet.Quotient`), where pandas gives inf or NaN.
- Sheet.CellText: a non-integral number renders as its decimal expansion cut at 17 fraction digits, not as Python's shortest round-trip `repr`. A float column's integral values render without ".0", as openpyxl's integers do.
- Sheet.ToNumeric: text parsing covers blanks, a sign, digits and one decimal point. Exponents, "inf"/"nan" spellings, thousands separators and non-ASCII digits are not modelled, and such text coerces to null.
- Strings.Lower: only ASCII letters are lowercased. This is enough for the words the code tests ("volume", "value", "payment instruments", "eftpos", "atm", "nan", "none").
- Strings.YearToken: `\d` matches ASCII digits only. Python's regex would also accept other Unicode decimal digits.
- Strings.StripDigits: removes ASCII digits, the superscript and subscript digits, the circled digits 1-9, the fullwidth digits and the Arabic, Extended Arabic-Indic, Devanagari, Bengali and Thai digits. `str.isdigit` accepts every other Unicode digit as well, and a label keeps such a digit in the model.
- Sheet.Cell: a date keeps only its year, and its `str()` is modelled as midnight on 1 January of that year. Month and day are therefore lost wherever the code renders a whole cell with `str()` (etl.py:7, 16, 23-24, 32, 68, 77). In particular, T2's `period` text for a date cell 2021-06-30 is "2021-01-01 00:00:00" in the model and "2021-06-30 00:00:00" in the code (etl.py:32). The year is unaffected: T2 extracts the same first `20\d{2}` token from either text (etl.py:33), and T5 reads `.year` directly (etl.py:91).
- T5: the model reads the sections in the order EFTPOS, then ATM. The code reads them in dict-insertion order. The order cannot change the result: each section appends to its own list, and a short sheet raises the same IndexError either way.
- T5: `pos_total`/`atm_total` (row 5) are read into each entry but not aggregated. `clean_t5` drops them from its result (etl.py:109).
- T2: the output's `year` column is an integer in the model. After `to_numeric` (etl.py:33) pandas holds it as float64 when some row lacked a year token, and as int64 otherwise. Joins on year are unaffected.
- Aggregate.SharesSumToOne: treats a null volume as 0 in the sums, as pandas' `sum` does. It does not state that the per-year total equals the direct sum over T2's records of that year; it only states that the total is the sum of the year's group sums.
