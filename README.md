# Purchase order to printable labels, verified model

`purchase_to_printable.py` reads the tables of a purchase-order PDF. It keeps the tables whose header row names the three required columns: 货品名称 (item name), 规格 (specification) and 数量 (quantity). It then writes a PDF with one small label page per unit of each line item's quantity. Each page carries:

- the item name, cut to ten words;
- the specification, with any locale prefix before a full-width colon `：` dropped from each line;
- a fraction `i/N`;
- a serial `PREFIX-NN` from one counter that runs across every row and every table.

This project models that logic in Dafny and proves what it promises. One module covers each piece of the script:

- `Text` models the Python string primitives the script relies on:
  - `str.strip` with Python's whitespace set;
  - `str.split(sep)`, `str.split()` and `str.join`;
  - ASCII `isdigit` and `int`;
  - `str(n)` and `:02d` formatting.
- `Seqs` models order-preserving selection, the append-if loop.
- `SpecCleaning` models `extract_after_colon`.
- `NameSummary` models `summarize_text`.
- `Tables` models cells, rows and tables, and `find_target_tables`.
- `StartIdentifier` models one validation attempt of `get_user_input`.
- `FontSize` models the descent of `calculate_font_size_for_columns`. Text measurement is an abstract parameter.
- `Labels` models the label sequencing of `create_pdf_from_pdf`.

The loops of the script become methods with loop invariants, and the body of one data row becomes the method `EmitRow`. Each method is proved equal to a specification function:

- `ExtractAfterColon` equals `CleanSpec`;
- `FindTargetTables` equals `Qualifying`;
- `CalculateFontSize` equals `FittedSize`;
- `EmitUnits`, `EmitRow`, `EmitTable` and `BuildLabels` equal `UnitLabels`, `RowLabels`, `TableLabels` and `LabelsOf`.

The properties the script promises are then proved as lemmas about those functions.

Each label page (name, spec, fraction and serial paragraphs, then a page break) is one `Label` record. The record also holds the font size computed for that page.

Two details of the program that the model keeps:

- **Font size.** The size is fitted against the name, the cleaned spec and the stripped quantity cell (purchase_to_printable.py:217). The printed fraction text is not measured.
- **Column positions.** They are taken once, from the header of the first qualifying table (purchase_to_printable.py:165-167). The same positions are used for the rows of every qualifying table, whatever those tables' own headers say.

## Model

Several functions that model source code have no ensures of their own. Their behaviour is stated by the lemma rows about them:

- `NameSummary.SummarizeText` (purchase_to_printable.py:36-47) by `SummarizeTextSpec` and `SummarizeTextWords`;
- `StartIdentifier.ParseStartId` (purchase_to_printable.py:120-134) by `ParseStartIdAccepts` and `ParseFormatStartId`;
- `SpecCleaning.CleanLine` (purchase_to_printable.py:22-29) by `CleanLineAfterLastColon` and `CleanLineChars`;
- `Labels.RowItem` (purchase_to_printable.py:199-213) by `RowItemSpec`;
- `Labels.ParseQuantity` (purchase_to_printable.py:252-256) by `RowItemSpec` and `ParseQuantityString`;
- `Labels.Fraction` (purchase_to_printable.py:265) by `FractionParts` and `UnitLabelsContent`;
- `Labels.Serial` (purchase_to_printable.py:269) by `SerialInjective`, `RowLabelsSerials` and `LabelsOfSerials`.

| member | source | states |
|---|---|---|
| Text.StripIdempotent | purchase_to_printable.py:23 | stripping a stripped string changes nothing |
| Text.JoinSplit | purchase_to_printable.py:19-32 | `sep.join(s.split(sep)) == s` for every string |
| Text.SplitJoin | purchase_to_printable.py:19-32 | splitting a join of separator-free parts (at least one part) gives back the parts, so the line count is preserved |
| Text.LastPartAfterLastSeparator | purchase_to_printable.py:26-27 | when the separator occurs, `split(sep)[-1]` is the separator-free suffix after the last separator |
| Text.WordsJoin | purchase_to_printable.py:47 | the `split()` tokens of `' '.join(words)` are those words |
| Text.DecimalSpec | purchase_to_printable.py:265 | `str(n)` of a natural number is a digit string with no leading zero whose value is `n` |
| Text.TwoDigitsSpec | purchase_to_printable.py:269 | `{n:02d}` is a digit string of value `n`, exactly two characters when `n < 100` and the plain decimal when `n >= 100`: no wrap-around or truncation |
| Text.DigitsBound | purchase_to_printable.py:131-134 | a digit string of length `k` has a value below `10^k` |
| Text.ParseIntString | purchase_to_printable.py:254 | `int(str(n)) == n` for every integer `n` |
| Seqs.FilterConcat | purchase_to_printable.py:105-109 | selecting from a concatenation concatenates the selections, so the input order is kept |
| Seqs.FilterMembers | purchase_to_printable.py:105-109 | an element is selected exactly when it is in the input and passes the test |
| Seqs.FilterFirst | purchase_to_printable.py:105-111 | the first selected element is the first input element that passes the test |
| SpecCleaning.CleanLineAfterLastColon | purchase_to_printable.py:22-29 | a stripped line with a full-width colon becomes the stripped text after its last colon; a line without one becomes the stripped line |
| SpecCleaning.CleanLineChars | purchase_to_printable.py:22-29 | a cleaned line has no full-width colon, only characters from the line, and is its own `strip()` |
| SpecCleaning.CleanLinesFree | purchase_to_printable.py:22-29 | cleaned lines hold no colon, and no newline when the input lines held none |
| SpecCleaning.CleanSpecLines | purchase_to_printable.py:15-32 | a non-empty field gives as many output lines as input lines, and output line `i` is input line `i` cleaned |
| SpecCleaning.CleanSpecNoColon | purchase_to_printable.py:22-32 | no full-width colon appears anywhere in the result |
| SpecCleaning.CleanSpecIdempotent | purchase_to_printable.py:13-32 | cleaning a cleaned field returns it unchanged |
| SpecCleaning.ExtractAfterColon | purchase_to_printable.py:13-32 | the line loop computes `CleanSpec`: the empty string for empty input, else the cleaned lines joined by newlines |
| NameSummary.StrippedWordsOfWords | purchase_to_printable.py:40 | the filtering comprehension over `split()` tokens keeps every token unchanged |
| NameSummary.SummarizeTextSpec | purchase_to_printable.py:36-47 | empty gives empty; at most `max_words` words gives the text verbatim, spacing included; otherwise the first `max_words` words joined by single spaces |
| NameSummary.SummarizeTextWords | purchase_to_printable.py:40-47 | the summary's words are the first `min(n, max_words)` words of the text, so a truncated summary has exactly `max_words` words |
| Tables.CellText | purchase_to_printable.py:107 | a missing cell reads as `''`; a present cell reads as its `strip()`, which begins and ends with no whitespace |
| Tables.CellTexts | purchase_to_printable.py:107 | the normalised header has one entry per cell, entry `k` being cell `k` normalised |
| Tables.IndexOf | purchase_to_printable.py:165-167 | `headers.index(label)` is the position of the first occurrence of the label |
| Tables.FindTargetTables | purchase_to_printable.py:100-113 | the result is exactly the non-empty tables whose normalised header has all three labels, in input order; the headers are those of the first such table, or None when there is none |
| Tables.ConsiderTable | purchase_to_printable.py:106-111 | one iteration appends the table when it qualifies, and records its header only when none was recorded yet |
| StartIdentifier.ParseStartIdAccepts | purchase_to_printable.py:120-134 | an attempt is accepted if and only if it is four ASCII digits, `-`, two ASCII digits; the result is then the first four characters and the value of the last two, which is below 100 |
| StartIdentifier.ParseFormatStartId | purchase_to_printable.py:124-134 | writing a four-digit prefix and a start below 100 as `XXXX-YY` and validating it gives them back |
| FontSize.FittedSizeSpec | purchase_to_printable.py:49-69 | the descent's result is the first size counting down from the start that is above 8pt and at which all three texts measure within the width (a measuring error counts as not fitting); otherwise it is 8; a start at or below 8 is returned as it is |
| FontSize.CalculateFontSize | purchase_to_printable.py:49-69 | the while loop returns `FittedSize`: within `[8, start]` for a start above 8, fitting when above 8, and every larger tried size did not fit |
| Labels.MaxIndex | purchase_to_printable.py:199 | `max` of the three column positions: at least each of them, and equal to one of them |
| Labels.ColumnsOf | purchase_to_printable.py:165-167 | in a qualifying header, the three positions hold the three required labels |
| Labels.RowItemSpec | purchase_to_printable.py:198-256 | a row is used exactly when it reaches every required column and its stripped name and quantity are non-empty; the item's name is the first ten words of the name cell, its spec holds no `：`, its quantity text is the stripped cell, and its count is `int(quantity)` or 1 when that fails |
| Labels.ParseQuantityString | purchase_to_printable.py:252-256 | a quantity written as an integer counts that many units |
| Labels.IntStringNoSlash | purchase_to_printable.py:265 | `str(n)` never contains `/` |
| Labels.FractionParts | purchase_to_printable.py:265 | `f"{i}/{n}"` splits at `/` into `str(i)` and `str(n)`, which read back as `i` and `n` |
| Labels.UnitLabels | purchase_to_printable.py:259 | an item yields `max(quantity_num, 0)` labels, the length of `range(quantity_num)` |
| Labels.UnitLabelsContent | purchase_to_printable.py:259-266 | label `k` of an item carries its name, spec and font size, and its fraction reads `k+1` over the item's count |
| Labels.EmitUnits | purchase_to_printable.py:259-274 | the per-unit loop emits `UnitLabels` and advances the counter by exactly the number of labels emitted |
| Labels.EmitRow | purchase_to_printable.py:198-274 | one row emits `RowLabels`: nothing for a skipped row, otherwise its item's labels; the counter advances by the number emitted |
| Labels.EmitTable | purchase_to_printable.py:198-274 | a table's data rows emit `TableLabels`, each row numbered from where the previous row stopped |
| Labels.BuildLabels | purchase_to_printable.py:193-274 | the table loop emits `LabelsOf` the selected tables; the final counter is the start plus the number of labels |
| Labels.CreateLabels | purchase_to_printable.py:154-196 | no tables stops with `NoTables`; no qualifying table stops with `RequiredColumnsNotFound`; otherwise every qualifying table is labelled with the columns of the first one's header |
| Labels.NumberedConcat | purchase_to_printable.py:196-198 | a general fact about the numbering scheme `Numbered` that the rows and tables share: the labels of a concatenation are those of the first part, then those of the second part numbered from where the first stopped |
| Labels.NumberedConcatAll | purchase_to_printable.py:196-198 | a general fact about `Numbered`: `NumberedConcat` applied to the whole second part |
| Labels.NumberedPrefix | purchase_to_printable.py:196-198 | a general fact about `Numbered`: the labels of the first `n` elements depend only on those elements |
| Labels.HoldsConcat | purchase_to_printable.py:193-271 | a property of each label with its counter value holds over a concatenation when it holds over each part, numbered on |
| Labels.NumberedHolds | purchase_to_printable.py:193-271 | a per-element property of labels with their counter values lifts to the whole numbered sequence |
| Labels.LabelsOfHolds | purchase_to_printable.py:193-271 | a property proved for the labels of every row lifts to all labels of all tables |
| Labels.RowLabelsSerials | purchase_to_printable.py:269-271 | label `k` of a row, numbered from counter `c`, has serial `prefix-{c+k:02d}`; a skipped row has no labels |
| Labels.LabelsOfSerials | purchase_to_printable.py:193-271 | label `k` of the whole run has serial `prefix-{start+k:02d}`: the counter starts at the start number and rises by one per label across all rows and tables |
| Labels.SerialInjective | purchase_to_printable.py:269 | two serials with the same prefix are equal exactly when their counter values are |
| Labels.LabelsOfDistinctSerials | purchase_to_printable.py:193-271 | no two labels of a run share a serial |
| Labels.UnitLabelsFontSizes | purchase_to_printable.py:217 | every label of an item has a font size in `[8, 16]` |
| Labels.RowLabelsFontSizes | purchase_to_printable.py:217 | the same for a row's labels |
| Labels.LabelsOfFontSizes | purchase_to_printable.py:217 | every label of the run has a font size in `[8, 16]` |

## Left out

- PDF table extraction (purchase_to_printable.py:145-152) is a call into pdfplumber. The extracted tables are an input, a sequence of tables of rows of `Cell`, where a cell is `Empty` or a string.
- Rendering (purchase_to_printable.py:169-250, 261-281) is reportlab: page size, margins, paragraph styles and `doc.build`. Its geometry is floating point. A `Label` record stands for each page.
- The serial paragraph's bold style at 1.2 times the font size (purchase_to_printable.py:240-250) is styling only, so `Label.fontSize` holds the computed size.
- `stringWidth` is a foreign call returning floats. It is an abstract `Metrics.width`, where None means the call raised, compared against an abstract usable width.
- Font registration and path probing (`register_chinese_font`, purchase_to_printable.py:72-98) is file-system and library state. The chosen font is folded into `Metrics`.
- The prompting loop of `get_user_input` (`input`, `print`, retrying) and `main` are interactive I/O. `ParseStartId` models one attempt, with the printed message as the error.
- The `except` around each row (purchase_to_printable.py:276-278) is not modelled. An exception raised partway through a row could leave the counter and content partly advanced. Only library calls can raise there, and none of them is modelled.
- The outer `except` around the whole conversion (purchase_to_printable.py:284-286) is not modelled either, for the same reason.
- Python's `int()` also accepts surrounding whitespace, underscores between digits and non-ASCII digits. `str.isdigit()` also accepts non-ASCII digits. `ParseInt` accepts an optional `+` or `-` followed by ASCII digits, and `IsDigits` accepts ASCII digits only. The quantity text is already stripped, so surrounding whitespace never reaches `int()` here. From Python 3.11 on, `int()` also raises ValueError for a decimal string of more than 4300 digits, so such a quantity would count as 1; `ParseInt` has no length limit and returns its value.
- NameSummary.SummarizeText: `max_words` is a natural number. The Python slice semantics of a negative limit are not modelled, and the script always passes the default 10.
- The messages printed on the early returns (purchase_to_printable.py:154-162) are the `ConvertError` values.
