# GST invoice extraction, modelled in Dafny

This project models the data-extraction core of a small web service that turns GST
tax invoices (PDF) into spreadsheet rows. The service's `parse_invoice_data`
(`app/app.py`) does the following:

- takes the text of an invoice and the tables found on its pages;
- reads the invoice-level fields: invoice number, date, receiver's name and GSTIN, and the total;
- finds each table's header row and the column of each role (serial number, HSN/SAC code,
  quantity, taxable amount, discount, CGST, SGST, line amount);
- turns every data row that carries an HSN code into a line item;
- merges line items with the same HSN code, summing their amounts;
- lays out the rows handed to the spreadsheet writer.

The upload filter `allowed_file` is modelled as well.

Inputs are what the PDF libraries produce:

- A table is a `seq<seq<Option<string>>>`, where `None` is Python's `None`. Where the code
  converts a cell with `str`, such a cell reads as the text "None" (`Columns.Str`).
- The header fields arrive as what the service's regular expressions captured (`HeaderFields.Captures`).

Modules, one file each:

| file | module | models |
|---|---|---|
| `wrappers.dfy` | `Wrappers` | `Option` |
| `text.dfy` | `Text` | Python's `strip`, `lower`, `in` on strings, `replace(c, '')`, `str(n)`, all on ASCII |
| `upload.dfy` | `Upload` | `allowed_file` |
| `header.dfy` | `HeaderFields` | sanitising captured values, choosing the receiver's name and GSTIN |
| `columns.dfy` | `Columns` | header-row detection, `find_col_idx`, the tax-amount probe in the sub-header row, the legacy layout |
| `lineitems.dfy` | `LineItems` | the row loop: `get_val`, the rate-versus-amount substitution for tax cells, numeric-run extraction, HSN admission, serial numbers |
| `aggregation.dfy` | `Aggregation` | `parse_float` and the HSN-keyed aggregation |
| `composition.dfy` | `Composition` | the layout of the output rows |
| `invoice.dfy` | `Invoice` | `parse_invoice_data` end to end |

The loops of the source are methods, proved against specification functions:

- the header scan;
- the amount probe;
- the receiver-name loop;
- the row, table and document loops;
- the aggregation loops, over a `map` from HSN to bucket plus a first-seen order;
- the layout loop.

Each such function's properties are then proved as lemmas.

The tax-amount probe reads the row after the header whenever that row exists, whether or not it
looks like a sub-header (`app/app.py:216`). Separately, the row loop skips that row only when it
mentions "amt" or "%" (`app/app.py:252`).

## Model

| member | source | states |
|---|---|---|
| Upload.AllowedFile | app/app.py:29-30 | a file name is accepted exactly when it ends in ".pdf" in any letter case, i.e. the text after its last dot, lower-cased, is "pdf" |
| HeaderFields.Sanitize | app/app.py:125 | every character left is a word character, white space or one of `.,/-`; each such character keeps its number of occurrences; a string of only such characters is unchanged |
| HeaderFields.SanitizeConcat | app/app.py:125 | sanitising works character by character: sanitising a concatenation gives the concatenation of the sanitised parts, so the kept characters stay in their order |
| HeaderFields.CleanCapture | app/app.py:120-126 | a header field is present exactly when its pattern captured something; it then holds only kept characters, each kept character of the stripped capture as often as it occurs there; a capture without outer white space or dropped characters is kept as it is |
| HeaderFields.StripHonorific | app/app.py:144 | without a leading M/s, Mr., Mrs. or Dr. (any case) the name is unchanged; with one, the whole honorific is cut, the result is a suffix of what follows it and starts with a non-space, and what was cut after the honorific is white space |
| HeaderFields.ReceiverName | app/app.py:135-146 | a name is found exactly when some candidate line, stripped, is longer than two characters and mentions no stop word; it is the first such line, stripped, without its honorific |
| HeaderFields.PickReceiverName | app/app.py:136-146 | the loop that stops at the first acceptable line returns `ReceiverName` |
| HeaderFields.ReceiverGst | app/app.py:150-163 | the GSTIN after a "Bill To" label wins, stripped; otherwise the second GSTIN of the document when there are several, the only one when there is one, none when there are none |
| HeaderFields.HeaderOf | app/app.py:119-163 | the invoice number, date and total are present exactly when captured; the receiver's name is `ReceiverName` of the "Bill To" block, absent without one, and the GSTIN is `ReceiverGst` of the captured GSTINs |
| HeaderFields.ExtractHeader | app/app.py:119-163 | header extraction computes `HeaderOf` |
| Columns.RowMentionsSpec | app/app.py:182-184 | a row mentions a keyword exactly when the lower-cased text of one of its cells contains it |
| Columns.HeaderIndexSpec | app/app.py:181-191 | the header row is the least of the first ten rows that mentions "description" or "qty" or both "hsn" and "sac", or row 0 when none does |
| Columns.FindHeaderRow | app/app.py:181-191 | the scan loop returns `HeaderIndex` |
| Columns.FindColIdxSpec | app/app.py:196-200 | the least index whose cell is non-empty and, lower-cased, contains a keyword; None exactly when no cell does |
| Columns.AmountColumnSpec | app/app.py:219-236 | an amount column lies in [tax, tax+2], inside the sub-header row, mentions "amt" or "amount", and no smaller index in that range does; none exactly when no index in the range qualifies |
| Columns.ProbeAmountColumn | app/app.py:221-227 | the probe loop over offsets 0, 1, 2 returns `AmountColumn` |
| Columns.ColumnsForSpec | app/app.py:193-245 | without an HSN column the map is exactly the legacy layout with no amount columns; otherwise each role is `FindColIdx` of its keywords, and, when the header row has an HSN column, a tax role's amount column is the least of tax, tax+1, tax+2 whose cell in the row after the header mentions an amount, absent exactly when none does |
| Columns.ResolveColumns | app/app.py:193-245 | building the column map computes `ColumnsFor` |
| LineItems.GetVal | app/app.py:256-259 | the cell at the index when there is one in range, the empty string otherwise; never out of bounds |
| LineItems.FirstRunIsLeftmost | app/app.py:313-344 | the numeric run is empty exactly when the text has no digit or comma; otherwise it starts at the first digit or comma and consists of the maximal run of digits and commas from there, followed, exactly when a dot comes next, by that dot and the maximal run of digits after it |
| LineItems.FirstRunNumeric | app/app.py:313-344 | every numeric run is digits and commas, optionally followed by a dot and digits |
| LineItems.TaxValue | app/app.py:267-289 | unless the look-ahead happens, the tax cell is the one read from the amount column or, failing that, the tax column |
| LineItems.TaxValueLooksAhead | app/app.py:272-289 | when no amount column is set (or it is column 0), the cell read is a bare rate and a tax column exists, the tax cell becomes the first of the next two cells that starts with an amount with two decimals, or stays as read when neither does |
| LineItems.ReadTax | app/app.py:267-289 | the loop over offsets 1 and 2 computes `TaxValue` |
| LineItems.MakeItemFields | app/app.py:300-310 | every item has tax rate "18%" and the stripped HSN cell; its serial is the stripped serial cell, or, when that cell is empty, the decimal text of the number of items before it plus one |
| LineItems.BuildItem | app/app.py:261-344 | building an item from a row computes `MakeItem` |
| LineItems.EmittedRowsExact | app/app.py:247-299 | a row yields an item exactly when it lies below the header row, is not a sub-header row right after it, and its HSN cell, stripped and with newlines and spaces removed, holds two adjacent digits; the rows yielding items are listed in increasing order |
| LineItems.TableItemsFromRows | app/app.py:247-346 | the k-th item of a table is built from the k-th row that yields one, numbered after all items found before it |
| LineItems.ExtractTable | app/app.py:247-346 | the row loop computes `TableItems` |
| LineItems.ExtractTableOf | app/app.py:174-346 | an empty table yields no items; any other table yields the items of its rows under its header row and columns |
| LineItems.ExtractDocument | app/app.py:166-346 | the table loop appends each table's items, with serial numbers counted over the whole document |
| LineItems.DocumentItemsWellFormed | app/app.py:295-344 | every extracted item has tax rate "18%", a non-empty HSN and two adjacent digits in its HSN once stripped and with newlines and spaces removed, and its quantity, taxable amount, CGST, SGST and amount are each empty or a numeric run |
| Text.StripSpec | app/app.py:137 | `strip` removes exactly the leading and trailing white space and leaves a string without outer white space unchanged |
| Text.ContainsSpec | app/app.py:198 | the substring test `t in s` holds exactly when `t` occurs in `s` at some position |
| Text.ContainsAnySpec | app/app.py:198 | `any(k in s for k in keys)` holds exactly when some keyword of the list occurs in `s` |
| Text.RemoveCharKeepsOthers | app/app.py:374 | `replace(c, '')` keeps every other character as often as it occurred |
| Text.NatToStringRoundTrip | app/app.py:301 | the decimal text of a number reads back as that number |
| Aggregation.ParseFloatNat | app/app.py:372-376 | `parse_float` of the decimal text of n is n |
| Aggregation.ParseFloatPoint | app/app.py:372-376 | `parse_float` of "a.b" is a plus b divided by ten to the number of digits of b |
| Aggregation.FractionOfNat | app/app.py:372-376 | the digits after a decimal point, read as a fraction, are their integer value divided by ten to their number |
| Aggregation.FirstRunShape | app/app.py:313-344 | the numeric run of any text is, without its commas, digits with at most one dot |
| Aggregation.DigitsAndDotDecimal | app/app.py:372-376 | on digits with at most one dot, the strings `float` accepts are exactly those with a digit |
| Aggregation.NumericFieldParse | app/app.py:372-376 | `parse_float` reads a numeric field as a number exactly when the field has a digit, and as 0 when it has none |
| Aggregation.DocumentFieldsExact | app/app.py:313-384 | every summed column of every item extracted from a document is, without its commas, digits with at most one dot, and is read as a number exactly when it has a digit |
| Aggregation.HsnOrderExact | app/app.py:352-358 | an HSN gets a bucket exactly when it is non-empty and some item has it |
| Aggregation.HsnOrderDistinct | app/app.py:358 | no HSN gets two buckets |
| Aggregation.HsnOrderFirstSeen | app/app.py:352-370 | buckets are in the order their HSNs first occur among the items |
| Aggregation.Aggregate | app/app.py:351-399 | the loop over items with an in-place updated map, followed by the renumbering loop, computes `Aggregated` |
| Aggregation.AggregatedShape | app/app.py:351-399 | one merged item per bucket, numbered "1", "2", ... in first-seen order, with the tax rate of the first item with its HSN, and each column the sum over that HSN's items of the comma-stripped parsed value |
| Aggregation.AggregatedDistinct | app/app.py:388-399 | merged items have distinct HSNs and distinct serial numbers |
| Aggregation.AggregatedCovers | app/app.py:351-399 | every item with an HSN has its HSN on some merged item |
| Aggregation.AggregatedEmptyIff | app/app.py:351-388 | the merged list is empty exactly when no item has an HSN |
| Aggregation.TotalPermutation | app/app.py:378-384 | the sum of a column over the items of one HSN is the same for any order of the items |
| Aggregation.GroupingConserves | app/app.py:377-384 | the per-HSN sums of a column add up to its sum over all items with an HSN |
| Aggregation.AggregatedConserves | app/app.py:377-399 | summing a column over the merged items gives its sum over the items with an HSN |
| Composition.ItemRow | app/app.py:420-457 | an item row carries the item's columns unchanged, the given invoice-level columns and an empty total |
| Composition.TotalRow | app/app.py:460-475 | the closing row is blank except for the total invoice value, which is empty when none was found |
| Composition.Compose | app/app.py:419-475 | one row per item in order, then the closing row; the invoice-level columns are those of the header on row 0 and empty on every other row; every item row has an empty total |
| Invoice.ParseInvoiceData | app/app.py:99-475 | the output has one row per output item plus the closing row; row 0 carries the header's invoice number, date, receiver's name and GSTIN (empty when missing); no other row carries them; the last row carries only the total |
| Invoice.DocumentItemsHaveHsn | app/app.py:295-306 | every item extracted from a document has a non-empty HSN |
| Invoice.OutputMerged | app/app.py:386-417 | items that all have an HSN are written merged when there are any, and as the single placeholder item when there are none |
| Invoice.OutputSerials | app/app.py:388-417 | for items that all have an HSN, the written items are numbered "1", "2", ... in order |
| Invoice.OutputHsns | app/app.py:351-399 | for items that all have an HSN, the written items have distinct HSNs and every item's HSN is written |
| Invoice.AllHaveHsnTotal | app/app.py:377-384 | when every item has an HSN, a column's sum over the items with an HSN is its sum over all items |
| Invoice.DocumentOutputMerged | app/app.py:386-417 | a document with items is written merged (the branch that keeps unmerged items is never taken, because every extracted item has an HSN); a document without items is written as the single placeholder item |
| Invoice.DocumentOutputSerials | app/app.py:388-417 | the written items are numbered "1", "2", ... in order |
| Invoice.DocumentOutputHsns | app/app.py:351-399 | written items have distinct HSNs, and every extracted item's HSN is written |
| Invoice.DocumentOutputConserves | app/app.py:377-399 | every summed column of the written items totals the same as over all extracted items |

## Left out

- Web routes, upload handling, flash messages and downloads: web I/O.
- PDF text extraction, OCR and table extraction: foreign library calls. The tables are an input;
  when no PDF path is given, the table list is empty.
- The spreadsheet writer and its column renaming: library calls.
- The regular expressions that locate the header fields, the "Bill To" block and the GSTINs:
  what they capture is an input (`Captures`). The block after the label arrives already split
  into lines.
- The header values for tax rate, CGST, SGST and invoice value are sanitised, but the output
  never uses them.
- Floating point: amounts are exact reals. The two-decimal rendering of merged sums
  (`f"{x:.2f}"`) is not modelled; a merged sum is written as `Composition.Sum(x)`.
- Aggregation.TotalPermutation: the order independence of the per-HSN sums holds for exact
  sums. The source adds floats with `+=`, whose rounding can depend on the order of the items.
- Aggregation.ParseFloat: reads only digits with at most one dot, once commas are removed, and
  gives 0 for anything else. Python's `float` also accepts signs, exponents, surrounding white
  space, underscores, "inf" and "nan". `Aggregation.DocumentFieldsExact` shows that no such
  string reaches it.
- The item count kept in each bucket is modelled, but the output never uses it.
- The `try`/`except` around table processing and its `print`: the model has no failure path for
  it. A failure in the source would keep the items collected before it.
- The keyword tests on a whole row (`str(row).lower()`) are modelled cell by cell. They differ
  only for cells holding characters that Python's `repr` escapes, where the escape
  text itself could form a keyword.
- Character classes (`\w`, `\s`, `\d`) and lower-casing are modelled on ASCII; Unicode letters,
  digits and white space beyond ASCII are not.
- The substitution of a tax rate by a neighbouring amount also fires on a tax cell such as
  "9.00", which the rate pattern accepts. The model keeps this behaviour as the code has it.
