/**
 * Column roles of an extracted table: which row is the header row, which
 * column plays each role (serial number, HSN/SAC code, quantity, rate,
 * discount, CGST, SGST, amount), where the CGST/SGST amounts sit when a
 * sub-header splits those columns, and the fixed legacy layout used when no
 * HSN column can be named.
 */
module Columns {
  import opened Wrappers
  import opened Text

  /** A table cell as extracted from the PDF: text, or nothing (Python's None). */
  type Cell = Option<string>
  type Row = seq<Cell>
  type Table = seq<Row>

  /** Python's `str(cell)`: None renders as "None". */
  function Str(c: Cell): string {
    match c
    case None => "None"
    case Some(s) => s
  }

  /** Python's truth value of a cell: not None and not empty. */
  predicate Truthy(c: Cell) {
    c.Some? && c.value != ""
  }

  /** The lower-cased text of a cell as the keyword tests see it. */
  function CellText(c: Cell): string {
    Lower(Str(c))
  }

  /** Some cell of the row mentions `keyword` (the source's test on `str(row).lower()`). */
  predicate RowMentions(row: Row, keyword: string) {
    CellsMention(row, keyword, 0)
  }

  /** Some cell of the row at index `j` or later mentions `keyword`. */
  predicate CellsMention(row: Row, keyword: string, j: nat)
    decreases |row| - j
  {
    j < |row| && (Contains(CellText(row[j]), keyword) || CellsMention(row, keyword, j + 1))
  }

  lemma {:induction false} CellsMentionSpec(row: Row, keyword: string, j: nat)
    ensures CellsMention(row, keyword, j) <==> exists k :: j <= k < |row| && Contains(CellText(row[k]), keyword)
    decreases |row| - j
  {
    if j < |row| {
      CellsMentionSpec(row, keyword, j + 1);
    }
  }

  /** A row mentions a keyword exactly when one of its cells, lower-cased, contains it. */
  lemma RowMentionsSpec(row: Row, keyword: string)
    ensures RowMentions(row, keyword) <==> exists k :: 0 <= k < |row| && Contains(CellText(row[k]), keyword)
  {
    CellsMentionSpec(row, keyword, 0);
  }

  /** A row names the columns when it mentions "description" or "qty", or both "hsn" and "sac". */
  predicate IsHeaderRow(row: Row) {
    RowMentions(row, "description") || RowMentions(row, "qty")
    || (RowMentions(row, "hsn") && RowMentions(row, "sac"))
  }

  /** Only this many leading rows are searched for the header row. */
  const HeaderScanLimit: nat := 10

  function ScanEnd(table: Table): nat {
    if |table| < HeaderScanLimit then |table| else HeaderScanLimit
  }

  /** The first header row at or after `i` among the scanned rows. */
  function HeaderFrom(table: Table, i: nat): (r: Option<nat>)
    requires i <= ScanEnd(table)
    ensures r.Some? ==> i <= r.value < ScanEnd(table)
    decreases ScanEnd(table) - i
  {
    if i == ScanEnd(table) then None
    else if IsHeaderRow(table[i]) then Some(i)
    else HeaderFrom(table, i + 1)
  }

  /** A row `HeaderFrom` finds is a header row, and no earlier row from `i` is one. */
  lemma {:induction false} HeaderFromFound(table: Table, i: nat)
    requires i <= ScanEnd(table)
    requires HeaderFrom(table, i).Some?
    ensures IsHeaderRow(table[HeaderFrom(table, i).value])
    ensures forall j :: i <= j < HeaderFrom(table, i).value ==> !IsHeaderRow(table[j])
    decreases ScanEnd(table) - i
  {
    if !IsHeaderRow(table[i]) {
      HeaderFromFound(table, i + 1);
    }
  }

  /** `HeaderFrom` finds nothing only when no scanned row from `i` is a header row. */
  lemma {:induction false} HeaderFromNone(table: Table, i: nat)
    requires i <= ScanEnd(table)
    requires HeaderFrom(table, i).None?
    ensures forall j :: i <= j < ScanEnd(table) ==> !IsHeaderRow(table[j])
    decreases ScanEnd(table) - i
  {
    if i < ScanEnd(table) {
      HeaderFromNone(table, i + 1);
    }
  }

  /**
   * The header row index: the least index among the first ten rows whose row
   * is a header row, or 0 when none of them is.
   */
  function HeaderIndex(table: Table): (h: nat)
    requires |table| > 0
    ensures h < |table|
  {
    match HeaderFrom(table, 0)
    case Some(h) => h
    case None => 0
  }

  /**
   * The header row is the least of the first ten rows that is a header row,
   * or row 0 when none of them is.
   */
  lemma HeaderIndexSpec(table: Table)
    requires |table| > 0
    ensures var h := HeaderIndex(table);
      (h < HeaderScanLimit && IsHeaderRow(table[h]) && forall j :: 0 <= j < h ==> !IsHeaderRow(table[j]))
      || (h == 0 && forall j :: 0 <= j < |table| && j < HeaderScanLimit ==> !IsHeaderRow(table[j]))
  {
    if HeaderFrom(table, 0).Some? {
      HeaderFromFound(table, 0);
    } else {
      HeaderFromNone(table, 0);
    }
  }

  /** The scan of the first rows for the header row. */
  method FindHeaderRow(table: Table) returns (idx: nat)
    requires |table| > 0
    ensures idx == HeaderIndex(table)
  {
    var limit := if |table| < HeaderScanLimit then |table| else HeaderScanLimit;
    var i := 0;
    while i < limit
      invariant 0 <= i <= limit == ScanEnd(table)
      invariant HeaderFrom(table, i) == HeaderFrom(table, 0)
    {
      if IsHeaderRow(table[i]) {
        return i;
      }
      i := i + 1;
    }
    return 0;
  }

  /** A header cell is non-empty and, lower-cased, contains one of the keywords. */
  predicate ColumnMatches(cell: Cell, keywords: seq<string>) {
    Truthy(cell) && ContainsAny(Lower(cell.value), keywords)
  }

  function FindColFrom(headers: Row, keywords: seq<string>, i: nat): (r: Option<nat>)
    requires i <= |headers|
    ensures r.Some? ==> i <= r.value < |headers|
    decreases |headers| - i
  {
    if i == |headers| then None
    else if ColumnMatches(headers[i], keywords) then Some(i)
    else FindColFrom(headers, keywords, i + 1)
  }

  lemma {:induction false} FindColFromSpec(headers: Row, keywords: seq<string>, i: nat)
    requires i <= |headers|
    ensures var r := FindColFrom(headers, keywords, i);
      r.Some? ==> (ColumnMatches(headers[r.value], keywords)
        && forall j :: i <= j < r.value ==> !ColumnMatches(headers[j], keywords))
    ensures FindColFrom(headers, keywords, i).None? ==>
      forall j :: i <= j < |headers| ==> !ColumnMatches(headers[j], keywords)
    decreases |headers| - i
  {
    if i < |headers| && !ColumnMatches(headers[i], keywords) {
      FindColFromSpec(headers, keywords, i + 1);
    }
  }

  /**
   * `find_col_idx`: the least index whose header cell matches a keyword, or
   * None exactly when no cell matches.
   */
  function FindColIdx(headers: Row, keywords: seq<string>): (r: Option<nat>)
    ensures r.Some? ==> r.value < |headers|
  {
    FindColFrom(headers, keywords, 0)
  }

  /** `find_col_idx` returns the least matching index, and None exactly when no cell matches. */
  lemma FindColIdxSpec(headers: Row, keywords: seq<string>)
    ensures var r := FindColIdx(headers, keywords);
      r.Some? ==> (ColumnMatches(headers[r.value], keywords)
        && forall j :: 0 <= j < r.value ==> !ColumnMatches(headers[j], keywords))
    ensures FindColIdx(headers, keywords).None? <==>
      forall j :: 0 <= j < |headers| ==> !ColumnMatches(headers[j], keywords)
  {
    FindColFromSpec(headers, keywords, 0);
  }

  const SnoKeys: seq<string> := ["s.no", "serial", "sr.", "no."]
  const HsnKeys: seq<string> := ["hsn", "sac", "code"]
  const QtyKeys: seq<string> := ["qty", "quantity", "unit"]
  const RateKeys: seq<string> := ["rate", "taxable", "price"]
  const DiscountKeys: seq<string> := ["disc", "less"]
  const CgstKeys: seq<string> := ["cgst"]
  const SgstKeys: seq<string> := ["sgst"]
  const AmountKeys: seq<string> := ["amount", "total", "value"]

  /**
   * The column of each role; `cgstAmt`/`sgstAmt` are the tax-amount columns
   * found in a sub-header (keys absent from the source's map are None).
   */
  datatype ColumnMap = ColumnMap(
    sno: Option<nat>,
    hsn: Option<nat>,
    qty: Option<nat>,
    rate: Option<nat>,
    discount: Option<nat>,
    cgst: Option<nat>,
    sgst: Option<nat>,
    amount: Option<nat>,
    cgstAmt: Option<nat>,
    sgstAmt: Option<nat>)

  /** The fixed layout of the one legacy invoice family. */
  const LegacyMap: ColumnMap :=
    ColumnMap(Some(1), Some(3), Some(4), Some(5), Some(6), Some(10), Some(12), Some(13), None, None)

  /** The words that mark a tax-amount column in the sub-header row. */
  const AmountMarks: seq<string> := ["amt", "amount"]

  /** A cell mentions "amt" or "amount". */
  predicate MentionsAmount(c: Cell) {
    ContainsAny(CellText(c), AmountMarks)
  }

  /** The sub-header cell at `k` exists and, lower-cased, contains one of `marks`. */
  predicate ProbeHit(sub: Row, k: nat, marks: seq<string>) {
    k < |sub| && ContainsAny(CellText(sub[k]), marks)
  }

  /** The sub-header cell at `k` exists and mentions an amount. */
  predicate AmountProbeHit(sub: Row, k: nat) {
    ProbeHit(sub, k, AmountMarks)
  }

  /**
   * The tax-amount column next to a tax column at `base`: the least of
   * base, base+1, base+2 whose sub-header cell mentions an amount, if any.
   */
  function AmountColumn(sub: Row, base: nat): (r: Option<nat>)
    ensures r.Some? ==> base <= r.value <= base + 2
  {
    ProbeFrom(sub, base, 0, AmountMarks)
  }

  /** The probe from offset `off` on. */
  function ProbeFrom(sub: Row, base: nat, off: nat, marks: seq<string>): (r: Option<nat>)
    requires off <= 3
    ensures r.Some? ==> base + off <= r.value <= base + 2
    decreases 3 - off
  {
    if off == 3 then None
    else if ProbeHit(sub, base + off, marks) then Some(base + off)
    else ProbeFrom(sub, base, off + 1, marks)
  }

  lemma {:induction false} ProbeFromSpec(sub: Row, base: nat, off: nat, marks: seq<string>)
    requires off <= 3
    ensures var r := ProbeFrom(sub, base, off, marks);
      r.Some? ==> (ProbeHit(sub, r.value, marks)
        && forall k :: base + off <= k < r.value ==> !ProbeHit(sub, k, marks))
    ensures ProbeFrom(sub, base, off, marks).None? ==>
      forall k :: base + off <= k <= base + 2 ==> !ProbeHit(sub, k, marks)
    decreases 3 - off
  {
    if off < 3 && !ProbeHit(sub, base + off, marks) {
      ProbeFromSpec(sub, base, off + 1, marks);
    }
  }

  /**
   * An amount column lies in [base, base+2], mentions an amount, and no
   * smaller index in that range does; there is none exactly when no index
   * in the range qualifies.
   */
  lemma AmountColumnSpec(sub: Row, base: nat)
    ensures var r := AmountColumn(sub, base);
      r.Some? ==> (AmountProbeHit(sub, r.value)
        && forall k :: base <= k < r.value ==> !AmountProbeHit(sub, k))
    ensures AmountColumn(sub, base).None? <==>
      forall k :: base <= k <= base + 2 ==> !AmountProbeHit(sub, k)
  {
    ProbeFromSpec(sub, base, 0, AmountMarks);
  }

  /** The probe of offsets 0, 1, 2 from a tax column in the sub-header row. */
  method ProbeAmountColumn(sub: Row, base: nat) returns (r: Option<nat>)
    ensures r == AmountColumn(sub, base)
  {
    for offset := 0 to 3
      invariant ProbeFrom(sub, base, offset, AmountMarks) == ProbeFrom(sub, base, 0, AmountMarks)
    {
      var chk := base + offset;
      if chk < |sub| {
        if MentionsAmount(sub[chk]) {
          return Some(chk);
        }
      }
    }
    return None;
  }

  /** The row after the header exists and its cell at `k` mentions an amount. */
  predicate SubHeaderHit(table: Table, h: nat, k: nat) {
    h + 1 < |table| && AmountProbeHit(table[h + 1], k)
  }

  /** The amount column for a tax role, probed only when the role and a sub-header row exist. */
  function ProbeFor(table: Table, h: nat, tax: Option<nat>): Option<nat>
    requires h < |table|
  {
    if h + 1 < |table| && tax.Some? then AmountColumn(table[h + 1], tax.value) else None
  }

  /**
   * The column map of a table whose header row is `h`: the keyword match of
   * each role, the sub-header amount columns, and the legacy layout, which
   * replaces all of it, when no HSN column was found.
   */
  function ColumnsFor(table: Table, h: nat): ColumnMap
    requires h < |table|
  {
    var header := table[h];
    var hsn := FindColIdx(header, HsnKeys);
    if hsn.None? then LegacyMap
    else
      var cgst := FindColIdx(header, CgstKeys);
      var sgst := FindColIdx(header, SgstKeys);
      ColumnMap(FindColIdx(header, SnoKeys), hsn, FindColIdx(header, QtyKeys),
        FindColIdx(header, RateKeys), FindColIdx(header, DiscountKeys), cgst, sgst,
        FindColIdx(header, AmountKeys), ProbeFor(table, h, cgst), ProbeFor(table, h, sgst))
  }

  /**
   * Without an HSN column the map is the legacy layout; otherwise each role is
   * its keyword match, and a tax role's amount column is the least of the
   * three probed columns whose sub-header cell mentions an amount.
   */
  lemma ColumnsForSpec(table: Table, h: nat)
    requires h < |table|
    ensures var cm := ColumnsFor(table, h);
      FindColIdx(table[h], HsnKeys).None? ==> cm == LegacyMap
    ensures var cm := ColumnsFor(table, h);
      FindColIdx(table[h], HsnKeys).Some? ==>
      cm.hsn == FindColIdx(table[h], HsnKeys) && cm.sno == FindColIdx(table[h], SnoKeys)
      && cm.qty == FindColIdx(table[h], QtyKeys) && cm.rate == FindColIdx(table[h], RateKeys)
      && cm.discount == FindColIdx(table[h], DiscountKeys)
      && cm.cgst == FindColIdx(table[h], CgstKeys) && cm.sgst == FindColIdx(table[h], SgstKeys)
      && cm.amount == FindColIdx(table[h], AmountKeys)
    ensures var cm := ColumnsFor(table, h);
      cm.cgstAmt.Some? ==>
      cm.cgst.Some? && cm.cgst.value <= cm.cgstAmt.value <= cm.cgst.value + 2
      && SubHeaderHit(table, h, cm.cgstAmt.value)
      && forall k :: cm.cgst.value <= k < cm.cgstAmt.value ==> !SubHeaderHit(table, h, k)
    ensures var cm := ColumnsFor(table, h);
      cm.sgstAmt.Some? ==>
      cm.sgst.Some? && cm.sgst.value <= cm.sgstAmt.value <= cm.sgst.value + 2
      && SubHeaderHit(table, h, cm.sgstAmt.value)
      && forall k :: cm.sgst.value <= k < cm.sgstAmt.value ==> !SubHeaderHit(table, h, k)
    ensures var cm := ColumnsFor(table, h);
      FindColIdx(table[h], HsnKeys).Some? && cm.cgst.Some? && cm.cgstAmt.None? ==>
      forall k :: cm.cgst.value <= k <= cm.cgst.value + 2 ==> !SubHeaderHit(table, h, k)
    ensures var cm := ColumnsFor(table, h);
      FindColIdx(table[h], HsnKeys).Some? && cm.sgst.Some? && cm.sgstAmt.None? ==>
      forall k :: cm.sgst.value <= k <= cm.sgst.value + 2 ==> !SubHeaderHit(table, h, k)
  {
    var header := table[h];
    var cgst := FindColIdx(header, CgstKeys);
    var sgst := FindColIdx(header, SgstKeys);
    if h + 1 < |table| {
      if cgst.Some? {
        AmountColumnSpec(table[h + 1], cgst.value);
      }
      if sgst.Some? {
        AmountColumnSpec(table[h + 1], sgst.value);
      }
    }
  }

  /** Building the column map of one table, role by role. */
  method ResolveColumns(table: Table, h: nat) returns (cm: ColumnMap)
    requires h < |table|
    ensures cm == ColumnsFor(table, h)
  {
    var header := table[h];
    cm := ColumnMap(FindColIdx(header, SnoKeys), FindColIdx(header, HsnKeys),
      FindColIdx(header, QtyKeys), FindColIdx(header, RateKeys),
      FindColIdx(header, DiscountKeys), FindColIdx(header, CgstKeys),
      FindColIdx(header, SgstKeys), FindColIdx(header, AmountKeys), None, None);
    if h + 1 < |table| {
      var sub := table[h + 1];
      if cm.cgst.Some? {
        var found := ProbeAmountColumn(sub, cm.cgst.value);
        cm := cm.(cgstAmt := found);
      }
      if cm.sgst.Some? {
        var found := ProbeAmountColumn(sub, cm.sgst.value);
        cm := cm.(sgstAmt := found);
      }
    }
    if cm.hsn.None? {
      cm := LegacyMap;
    }
  }
}
