/**
 * Line items of an invoice: the rows of each extracted table below its header
 * row whose HSN/SAC cell holds a code, each turned into a record of text
 * fields. Numeric fields keep the first run of digits and commas (with an
 * optional decimal part) found in their cell; the CGST/SGST fields switch from
 * a rate to the amount beside it when the tax column held a bare rate.
 */
module LineItems {
  import opened Wrappers
  import opened Text
  import opened Columns

  /** One line item; every field is text, as extracted. */
  datatype LineItem = LineItem(
    sno: string,
    hsn: string,
    quantity: string,
    taxableAmount: string,
    discount: string,
    taxRate: string,
    cgst: string,
    sgst: string,
    invoiceValue: string)

  /** The tax rate every extracted item carries. */
  const DefaultTaxRate: string := "18%"

  /** `get_val`: the cell at a column index, or "" when there is no index or no such cell. */
  function GetVal(row: Row, idx: Option<nat>): (c: Cell)
    ensures idx.Some? && idx.value < |row| ==> c == row[idx.value]
    ensures idx.None? || idx.value >= |row| ==> c == Some("")
  {
    if idx.Some? && idx.value < |row| then row[idx.value] else Some("")
  }

  /** The character classes the extraction patterns repeat. */
  datatype CharClass = Digits | DigitsOrCommas | Spaces

  predicate InClass(c: char, cls: CharClass) {
    match cls
    case Digits => IsDigit(c)
    case DigitsOrCommas => IsDigit(c) || c == ','
    case Spaces => IsSpace(c)
  }

  /** End of the longest run of `cls` characters of `s` starting at `i`. */
  function RunEnd(s: string, i: nat, cls: CharClass): (j: nat)
    requires i <= |s|
    ensures i <= j <= |s|
    decreases |s| - i
  {
    if i < |s| && InClass(s[i], cls) then RunEnd(s, i + 1, cls) else i
  }

  lemma {:induction false} RunEndSpec(s: string, i: nat, cls: CharClass)
    requires i <= |s|
    ensures forall k :: i <= k < RunEnd(s, i, cls) ==> InClass(s[k], cls)
    ensures RunEnd(s, i, cls) < |s| ==> !InClass(s[RunEnd(s, i, cls)], cls)
    decreases |s| - i
  {
    if i < |s| && InClass(s[i], cls) {
      RunEndSpec(s, i + 1, cls);
    }
  }

  /** A run of `cls` characters from `i` that stops at `j` ends at `j`. */
  lemma {:induction false} RunEndAt(s: string, i: nat, j: nat, cls: CharClass)
    requires i <= j <= |s|
    requires forall k :: i <= k < j ==> InClass(s[k], cls)
    requires j == |s| || !InClass(s[j], cls)
    ensures RunEnd(s, i, cls) == j
    decreases j - i
  {
    if i < j {
      RunEndAt(s, i + 1, j, cls);
    }
  }

  /** `re.match(r'^\d+(\.\d+)?\s*%?$', t)`: `t` reads as a bare rate such as "9", "9%" or "2.5 %". */
  predicate LooksLikeRate(t: string) {
    var a := RunEnd(t, 0, Digits);
    a > 0
    && var b := if a + 1 < |t| && t[a] == '.' && IsDigit(t[a + 1]) then RunEnd(t, a + 1, Digits) else a;
       var c := RunEnd(t, b, Spaces);
       t[c..] == "" || t[c..] == "%" || t[c..] == "%\n"
  }

  /** `re.match(r'[\d,]+\.\d{2}', t)`: `t` starts with an amount with two decimals. */
  predicate StartsWithAmount(t: string) {
    var a := RunEnd(t, 0, DigitsOrCommas);
    a > 0 && a + 2 < |t| && t[a] == '.' && IsDigit(t[a + 1]) && IsDigit(t[a + 2])
  }

  /** Index of the first digit or comma of `s` at or after `i`, or |s|. */
  function RunStart(s: string, i: nat): (p: nat)
    requires i <= |s|
    ensures i <= p <= |s|
    decreases |s| - i
  {
    if i == |s| || InClass(s[i], DigitsOrCommas) then i else RunStart(s, i + 1)
  }

  lemma {:induction false} RunStartSpec(s: string, i: nat)
    requires i <= |s|
    ensures forall k :: i <= k < RunStart(s, i) ==> !InClass(s[k], DigitsOrCommas)
    ensures RunStart(s, i) < |s| ==> InClass(s[RunStart(s, i)], DigitsOrCommas)
    decreases |s| - i
  {
    if i < |s| && !InClass(s[i], DigitsOrCommas) {
      RunStartSpec(s, i + 1);
    }
  }

  /** `s[i..j]` is a run of `cls` characters that cannot be extended to the right. */
  predicate MaximalRun(s: string, i: nat, j: nat, cls: CharClass) {
    i <= j <= |s| && (forall k :: i <= k < j ==> InClass(s[k], cls)) && (j == |s| || !InClass(s[j], cls))
  }

  /**
   * `s[p..e]` is the numeric run starting at `p`: a non-empty maximal run of
   * digits and commas ending at some `a`, followed, exactly when `s[a]` is a
   * '.', by that dot and the maximal run of digits after it.
   */
  predicate NumericRunAt(s: string, p: nat, e: nat) {
    exists a :: p < a <= e && MaximalRun(s, p, a, DigitsOrCommas)
      && (if a < |s| && s[a] == '.' then MaximalRun(s, a + 1, e, Digits) else e == a)
  }

  /**
   * `re.search(r'([\d,]+\.?\d*)', s).group(1)`, or "" when nothing matches:
   * the leftmost, longest run of digits and commas, followed by a '.' and the
   * digits after it when a '.' comes next.
   */
  function FirstRun(s: string): string {
    var p := RunStart(s, 0);
    if p == |s| then "" else s[p..NumericRunEnd(s, p)]
  }

  /** Where the numeric run starting at `p` ends: after the digits and commas, and after '.' and its digits when a '.' follows them. */
  function NumericRunEnd(s: string, p: nat): (e: nat)
    requires p <= |s|
    ensures p <= e <= |s|
  {
    var a := RunEnd(s, p, DigitsOrCommas);
    if a < |s| && s[a] == '.' then RunEnd(s, a + 1, Digits) else a
  }

  lemma NumericRunEndSpec(s: string, p: nat)
    requires p < |s| && InClass(s[p], DigitsOrCommas)
    ensures p < NumericRunEnd(s, p) && NumericRunAt(s, p, NumericRunEnd(s, p))
  {
    var a := RunEnd(s, p, DigitsOrCommas);
    if a < |s| && s[a] == '.' {
      DottedRunAt(s, p, a, RunEnd(s, a + 1, Digits));
    } else {
      PlainRunAt(s, p, a);
    }
  }

  /**
   * The numeric run is empty exactly when `s` has no digit or comma;
   * otherwise it starts at the first digit or comma and is the numeric run
   * from there.
   */
  lemma FirstRunIsLeftmost(s: string)
    ensures FirstRun(s) == "" <==> forall k :: 0 <= k < |s| ==> !InClass(s[k], DigitsOrCommas)
    ensures FirstRun(s) != "" ==>
      var p := RunStart(s, 0);
      p < |s| && InClass(s[p], DigitsOrCommas) && (forall k :: 0 <= k < p ==> !InClass(s[k], DigitsOrCommas))
      && NumericRunAt(s, p, p + |FirstRun(s)|) && FirstRun(s) == s[p..p + |FirstRun(s)|]
  {
    RunStartSpec(s, 0);
    var p := RunStart(s, 0);
    if p < |s| {
      NumericRunEndSpec(s, p);
    }
  }

  lemma PlainRunAt(s: string, p: nat, a: nat)
    requires p < |s| && InClass(s[p], DigitsOrCommas)
    requires a == RunEnd(s, p, DigitsOrCommas) && !(a < |s| && s[a] == '.')
    ensures p < a && NumericRunAt(s, p, a)
  {
    RunEndSpec(s, p, DigitsOrCommas);
    assert MaximalRun(s, p, a, DigitsOrCommas);
  }

  lemma DottedRunAt(s: string, p: nat, a: nat, e: nat)
    requires p < |s| && InClass(s[p], DigitsOrCommas)
    requires a == RunEnd(s, p, DigitsOrCommas) && a < |s| && s[a] == '.'
    requires e == RunEnd(s, a + 1, Digits)
    ensures p < e && NumericRunAt(s, p, e)
  {
    RunEndSpec(s, p, DigitsOrCommas);
    RunEndSpec(s, a + 1, Digits);
    assert MaximalRun(s, p, a, DigitsOrCommas);
    assert MaximalRun(s, a + 1, e, Digits);
  }

  /** Digits and commas, then optionally a '.' and digits: the text of every numeric field. */
  predicate NumericText(t: string) {
    var a := RunEnd(t, 0, DigitsOrCommas);
    a == |t| || (t[a] == '.' && RunEnd(t, a + 1, Digits) == |t|)
  }

  /** The numeric run of any text has the numeric-field shape. */
  lemma FirstRunNumeric(s: string)
    ensures NumericText(FirstRun(s))
  {
    var p := RunStart(s, 0);
    if p < |s| {
      var a := RunEnd(s, p, DigitsOrCommas);
      var e := NumericRunEnd(s, p);
      RunEndSpec(s, p, DigitsOrCommas);
      if a < |s| && s[a] == '.' {
        RunEndSpec(s, a + 1, Digits);
        DottedNumeric(s[p..e], a - p);
      } else {
        PlainNumeric(s[p..a]);
      }
    }
  }

  lemma PlainNumeric(t: string)
    requires forall k :: 0 <= k < |t| ==> InClass(t[k], DigitsOrCommas)
    ensures NumericText(t)
  {
    RunEndAt(t, 0, |t|, DigitsOrCommas);
  }

  lemma DottedNumeric(t: string, m: nat)
    requires m < |t| && t[m] == '.'
    requires forall k :: 0 <= k < m ==> InClass(t[k], DigitsOrCommas)
    requires forall k :: m < k < |t| ==> InClass(t[k], Digits)
    ensures NumericText(t)
  {
    RunEndAt(t, 0, m, DigitsOrCommas);
    RunEndAt(t, m + 1, |t|, Digits);
  }

  /** A numeric field of an item: the numeric run of its stripped cell, "" for an empty cell. */
  function NumericField(c: Cell): string {
    if Truthy(c) then FirstRun(Strip(c.value)) else ""
  }

  lemma NumericFieldShape(c: Cell)
    ensures NumericText(NumericField(c))
  {
    if Truthy(c) {
      FirstRunNumeric(Strip(c.value));
    }
  }

  /** The HSN text with newlines and spaces removed. */
  function CleanHsn(s: string): string {
    RemoveChar(RemoveChar(s, '\n'), ' ')
  }

  /** The HSN cell test of a row: its cleaned text holds a run of at least two digits. */
  predicate AdmitsHsn(c: Cell) {
    var clean := CleanHsn(Strip(Str(c)));
    clean != "" && HasDigitPair(clean)
  }

  /** A tax-amount override index counts as absent when missing or 0 (`not col_map.get(...)`). */
  predicate OverrideUnset(o: Option<nat>) {
    o.None? || o.value == 0
  }

  /** The column a tax value is first read from: the override when present, else the tax column. */
  function TaxSource(override: Option<nat>, base: Option<nat>): Option<nat> {
    if override.Some? then override else base
  }

  /** The cell `off` columns to the right of column `base`. */
  function Ahead(row: Row, base: nat, off: nat): Cell {
    GetVal(row, Some(base + off))
  }

  predicate RateLike(c: Cell) {
    Truthy(c) && LooksLikeRate(Strip(c.value))
  }

  predicate AmountLike(c: Cell) {
    Truthy(c) && StartsWithAmount(Strip(c.value))
  }

  /** How many cells to the right of a tax column are searched for an amount. */
  const LookAheadCells: nat := 2

  /**
   * `v` is the first of the cells after column `base`, within the look-ahead,
   * that holds an amount, or `fallback` when none does.
   */
  predicate TakesFirstAmount(row: Row, base: nat, fallback: Cell, v: Cell) {
    (v == fallback && forall off :: 1 <= off <= LookAheadCells ==> !AmountLike(Ahead(row, base, off)))
    || exists off :: 1 <= off <= LookAheadCells && v == Ahead(row, base, off) && AmountLike(v)
         && forall o :: 1 <= o < off ==> !AmountLike(Ahead(row, base, o))
  }

  /** The look-ahead for an amount happens: no override, a bare rate read, and a tax column. */
  predicate LooksAhead(row: Row, override: Option<nat>, base: Option<nat>) {
    OverrideUnset(override) && RateLike(GetVal(row, TaxSource(override, base))) && base.Some?
  }

  /** The first amount among the look-ahead cells from offset `off` on, else `fallback`. */
  function AmountFrom(row: Row, base: nat, off: nat, fallback: Cell): Cell
    requires 1 <= off <= LookAheadCells + 1
    decreases LookAheadCells + 1 - off
  {
    if off > LookAheadCells then fallback
    else if AmountLike(Ahead(row, base, off)) then Ahead(row, base, off)
    else AmountFrom(row, base, off + 1, fallback)
  }

  /**
   * The cell a tax field is taken from: the cell read first, unless the
   * look-ahead happens, in which case the first amount found after the tax
   * column replaces it.
   */
  function TaxValue(row: Row, override: Option<nat>, base: Option<nat>): (v: Cell)
    ensures !LooksAhead(row, override, base) ==> v == GetVal(row, TaxSource(override, base))
  {
    var first := GetVal(row, TaxSource(override, base));
    if LooksAhead(row, override, base) then AmountFrom(row, base.value, 1, first) else first
  }

  lemma {:induction false} AmountFromFirst(row: Row, base: nat, off: nat, fallback: Cell)
    requires 1 <= off <= LookAheadCells + 1
    ensures var v := AmountFrom(row, base, off, fallback);
      (v == fallback && forall o :: off <= o <= LookAheadCells ==> !AmountLike(Ahead(row, base, o)))
      || exists o :: off <= o <= LookAheadCells && v == Ahead(row, base, o) && AmountLike(v)
           && forall p :: off <= p < o ==> !AmountLike(Ahead(row, base, p))
    decreases LookAheadCells + 1 - off
  {
    if off <= LookAheadCells && !AmountLike(Ahead(row, base, off)) {
      AmountFromFirst(row, base, off + 1, fallback);
      var v := AmountFrom(row, base, off, fallback);
      if exists o: nat :: off + 1 <= o <= LookAheadCells && v == Ahead(row, base, o) && AmountLike(v)
                     && forall p: nat :: off + 1 <= p < o ==> !AmountLike(Ahead(row, base, p)) {
        var o: nat :| off + 1 <= o <= LookAheadCells && v == Ahead(row, base, o) && AmountLike(v)
          && forall p: nat :: off + 1 <= p < o ==> !AmountLike(Ahead(row, base, p));
        forall p | off <= p < o
          ensures !AmountLike(Ahead(row, base, p))
        {
          assert p == off || off + 1 <= p;
        }
      } else {
        forall o | off <= o <= LookAheadCells
          ensures !AmountLike(Ahead(row, base, o))
        {
          assert o == off || off + 1 <= o;
        }
      }
    }
  }

  /**
   * When the look-ahead happens, the tax cell is the first amount among the
   * cells after the tax column, or the cell read first when none holds one.
   */
  lemma TaxValueLooksAhead(row: Row, override: Option<nat>, base: Option<nat>)
    requires LooksAhead(row, override, base)
    ensures TakesFirstAmount(row, base.value, GetVal(row, TaxSource(override, base)), TaxValue(row, override, base))
  {
    AmountFromFirst(row, base.value, 1, GetVal(row, TaxSource(override, base)));
  }

  /** Reading one tax field of a row, with the look-ahead over the next cells. */
  method ReadTax(row: Row, override: Option<nat>, base: Option<nat>) returns (v: Cell)
    ensures v == TaxValue(row, override, base)
  {
    v := GetVal(row, TaxSource(override, base));
    if OverrideUnset(override) && RateLike(v) && base.Some? {
      var first := v;
      for off := 1 to LookAheadCells + 1
        invariant v == first
        invariant AmountFrom(row, base.value, off, first) == AmountFrom(row, base.value, 1, first)
      {
        var next := Ahead(row, base.value, off);
        if AmountLike(next) {
          v := next;
          break;
        }
      }
    }
  }

  /**
   * The item built from an admitted row; `count` is the number of items the
   * document has produced before it.
   */
  function MakeItem(row: Row, cm: ColumnMap, count: nat): LineItem {
    var snoCell := GetVal(row, cm.sno);
    var discountCell := GetVal(row, cm.discount);
    LineItem(
      if Truthy(snoCell) then Strip(snoCell.value) else NatToString(count + 1),
      Strip(Str(GetVal(row, cm.hsn))),
      NumericField(GetVal(row, cm.qty)),
      NumericField(GetVal(row, cm.rate)),
      if Truthy(discountCell) then Strip(discountCell.value) else "",
      DefaultTaxRate,
      NumericField(TaxValue(row, cm.cgstAmt, cm.cgst)),
      NumericField(TaxValue(row, cm.sgstAmt, cm.sgst)),
      NumericField(GetVal(row, cm.amount)))
  }

  /**
   * An item carries the default rate and the stripped HSN cell; without a
   * serial cell it is numbered `count + 1`, and that number reads back as
   * `count + 1`.
   */
  lemma MakeItemFields(row: Row, cm: ColumnMap, count: nat)
    ensures MakeItem(row, cm, count).taxRate == DefaultTaxRate
    ensures MakeItem(row, cm, count).hsn == Strip(Str(GetVal(row, cm.hsn)))
    ensures Truthy(GetVal(row, cm.sno)) ==> MakeItem(row, cm, count).sno == Strip(GetVal(row, cm.sno).value)
    ensures !Truthy(GetVal(row, cm.sno)) ==>
      var sno := MakeItem(row, cm, count).sno;
      AllDigits(sno) && DigitsValue(sno) == count + 1
  {
    NatToStringRoundTrip(count + 1);
  }

  /** The row right after the header row mentions "amt" or "%": a sub-header. */
  predicate SubHeaderRow(row: Row) {
    RowMentions(row, "amt") || RowMentions(row, "%")
  }

  /** Row `r` of a table with header row `hdr` yields an item. */
  predicate Emits(table: Table, hdr: nat, cm: ColumnMap, r: nat)
    requires r < |table|
  {
    r > hdr && !(r == hdr + 1 && SubHeaderRow(table[r])) && AdmitsHsn(GetVal(table[r], cm.hsn))
  }

  /** For each row of a table, whether it yields an item. */
  function RowMask(table: Table, hdr: nat, cm: ColumnMap): (mask: seq<bool>)
    ensures |mask| == |table|
    ensures forall r :: 0 <= r < |table| ==> mask[r] == Emits(table, hdr, cm, r)
  {
    seq(|table|, r requires 0 <= r < |table| => Emits(table, hdr, cm, r))
  }

  /** The indices, in order, of the set entries among the first `n` of `mask`. */
  function Selected(mask: seq<bool>, n: nat): (rows: seq<nat>)
    requires n <= |mask|
    ensures forall k :: 0 <= k < |rows| ==> rows[k] < n
    decreases n
  {
    if n == 0 then []
    else
      var prev := Selected(mask, n - 1);
      if mask[n - 1] then prev + [n - 1] else prev
  }

  /** Exactly the set entries are selected. */
  lemma {:induction false} SelectedExact(mask: seq<bool>, n: nat)
    requires n <= |mask|
    ensures forall r: nat :: r in Selected(mask, n) <==> r < n && mask[r]
  {
    if n > 0 {
      SelectedExact(mask, n - 1);
    }
  }

  /** The selected indices come in increasing order. */
  lemma {:induction false} SelectedIncreasing(mask: seq<bool>, n: nat)
    requires n <= |mask|
    ensures forall k, l ::
      0 <= k < l < |Selected(mask, n)| ==> Selected(mask, n)[k] < Selected(mask, n)[l]
  {
    if n > 0 {
      SelectedIncreasing(mask, n - 1);
    }
  }

  /** The indices, in order, of the rows among the first `n` that yield an item. */
  function EmittedRows(table: Table, hdr: nat, cm: ColumnMap, n: nat): (rows: seq<nat>)
    requires n <= |table|
    ensures forall k :: 0 <= k < |rows| ==> rows[k] < n
  {
    Selected(RowMask(table, hdr, cm), n)
  }

  /**
   * The items of the rows among the first `n` whose mask entry is set, in
   * order; the item of a row is numbered after the `before` items that
   * precede the table and the items collected before it.
   */
  function MaskedItems(table: Table, mask: seq<bool>, cm: ColumnMap, before: nat, n: nat): seq<LineItem>
    requires n <= |table| == |mask|
    decreases n
  {
    if n == 0 then []
    else
      var prev := MaskedItems(table, mask, cm, before, n - 1);
      if mask[n - 1] then prev + [MakeItem(table[n - 1], cm, before + |prev|)] else prev
  }

  /** One item per selected row. */
  lemma {:induction false} MaskedItemsLength(table: Table, mask: seq<bool>, cm: ColumnMap, before: nat, n: nat)
    requires n <= |table| == |mask|
    ensures |MaskedItems(table, mask, cm, before, n)| == |Selected(mask, n)|
    decreases n
  {
    if n > 0 {
      MaskedItemsLength(table, mask, cm, before, n - 1);
    }
  }

  /** The `k`-th item of the first `n` rows is built from the `k`-th selected row. */
  lemma {:induction false} MaskedItemAt(table: Table, mask: seq<bool>, cm: ColumnMap, before: nat, n: nat, k: nat)
    requires n <= |table| == |mask|
    requires k < |Selected(mask, n)|
    ensures k < |MaskedItems(table, mask, cm, before, n)|
    ensures MaskedItems(table, mask, cm, before, n)[k] == MakeItem(table[Selected(mask, n)[k]], cm, before + k)
    decreases n
  {
    MaskedItemsLength(table, mask, cm, before, n);
    MaskedItemsLength(table, mask, cm, before, n - 1);
    if k < |Selected(mask, n - 1)| {
      MaskedItemAt(table, mask, cm, before, n - 1, k);
      MaskedItemsPrefix(table, mask, cm, before, n, k);
    } else {
      MaskedItemLast(table, mask, cm, before, n);
    }
  }

  /** Items already collected keep their place when a row is added. */
  lemma MaskedItemsPrefix(table: Table, mask: seq<bool>, cm: ColumnMap, before: nat, n: nat, k: nat)
    requires 0 < n <= |table| == |mask|
    requires k < |MaskedItems(table, mask, cm, before, n - 1)| && k < |Selected(mask, n - 1)|
    ensures k < |MaskedItems(table, mask, cm, before, n)| && k < |Selected(mask, n)|
    ensures MaskedItems(table, mask, cm, before, n)[k] == MaskedItems(table, mask, cm, before, n - 1)[k]
    ensures Selected(mask, n)[k] == Selected(mask, n - 1)[k]
  {
  }

  /** A selected last row adds its item at the end, numbered after the items before it. */
  lemma MaskedItemLast(table: Table, mask: seq<bool>, cm: ColumnMap, before: nat, n: nat)
    requires 0 < n <= |table| == |mask|
    requires |MaskedItems(table, mask, cm, before, n - 1)| == |Selected(mask, n - 1)| < |Selected(mask, n)|
    ensures Selected(mask, n)[|Selected(mask, n - 1)|] == n - 1
    ensures MaskedItems(table, mask, cm, before, n)[|Selected(mask, n - 1)|]
      == MakeItem(table[n - 1], cm, before + |Selected(mask, n - 1)|)
  {
  }

  /** Every collected item is well formed when every selected row is admitted. */
  lemma {:induction false} MaskedItemsWellFormed(table: Table, mask: seq<bool>, cm: ColumnMap, before: nat, n: nat)
    requires n <= |table| == |mask|
    requires forall r :: 0 <= r < |mask| && mask[r] ==> AdmitsHsn(GetVal(table[r], cm.hsn))
    ensures forall it :: it in MaskedItems(table, mask, cm, before, n) ==> WellFormedItem(it)
    decreases n
  {
    if n > 0 {
      MaskedItemsWellFormed(table, mask, cm, before, n - 1);
      MaskedItemsWellFormedStep(table, mask, cm, before, n);
    }
  }

  lemma MaskedItemsWellFormedStep(table: Table, mask: seq<bool>, cm: ColumnMap, before: nat, n: nat)
    requires 0 < n <= |table| == |mask|
    requires mask[n - 1] ==> AdmitsHsn(GetVal(table[n - 1], cm.hsn))
    requires forall it :: it in MaskedItems(table, mask, cm, before, n - 1) ==> WellFormedItem(it)
    ensures forall it :: it in MaskedItems(table, mask, cm, before, n) ==> WellFormedItem(it)
  {
    var prev := MaskedItems(table, mask, cm, before, n - 1);
    if mask[n - 1] {
      AdmittedItemWellFormed(table[n - 1], cm, before + |prev|);
      WellFormedAppend(prev, MakeItem(table[n - 1], cm, before + |prev|));
    }
  }

  lemma WellFormedAppend(items: seq<LineItem>, item: LineItem)
    requires forall it :: it in items ==> WellFormedItem(it)
    requires WellFormedItem(item)
    ensures forall it :: it in items + [item] ==> WellFormedItem(it)
  {
  }

  /** The items of the first `n` rows; `before` items precede the table in the document. */
  function TableItems(table: Table, hdr: nat, cm: ColumnMap, before: nat, n: nat): seq<LineItem>
    requires n <= |table|
  {
    MaskedItems(table, RowMask(table, hdr, cm), cm, before, n)
  }

  /** A table yields one item per admitted row, in row order. */
  lemma EmittedRowsExact(table: Table, hdr: nat, cm: ColumnMap)
    ensures forall r: nat ::
      r in EmittedRows(table, hdr, cm, |table|) <==> r < |table| && Emits(table, hdr, cm, r)
    ensures forall k, l ::
      0 <= k < l < |EmittedRows(table, hdr, cm, |table|)| ==>
        EmittedRows(table, hdr, cm, |table|)[k] < EmittedRows(table, hdr, cm, |table|)[l]
  {
    SelectedExact(RowMask(table, hdr, cm), |table|);
    SelectedIncreasing(RowMask(table, hdr, cm), |table|);
  }

  /**
   * The `k`-th item of a table is built from its `k`-th emitted row and
   * numbered as if `before + k` items came before it.
   */
  lemma TableItemsFromRows(table: Table, hdr: nat, cm: ColumnMap, before: nat)
    ensures |TableItems(table, hdr, cm, before, |table|)| == |EmittedRows(table, hdr, cm, |table|)|
    ensures forall k :: 0 <= k < |EmittedRows(table, hdr, cm, |table|)| ==>
      TableItems(table, hdr, cm, before, |table|)[k]
        == MakeItem(table[EmittedRows(table, hdr, cm, |table|)[k]], cm, before + k)
  {
    var mask := RowMask(table, hdr, cm);
    MaskedItemsLength(table, mask, cm, before, |table|);
    forall k | 0 <= k < |EmittedRows(table, hdr, cm, |table|)|
      ensures TableItems(table, hdr, cm, before, |table|)[k]
        == MakeItem(table[EmittedRows(table, hdr, cm, |table|)[k]], cm, before + k)
    {
      MaskedItemAt(table, mask, cm, before, |table|, k);
    }
  }

  /** Building the item of an admitted row: the tax cells are read, then each field is filled. */
  method BuildItem(row: Row, cm: ColumnMap, count: nat) returns (item: LineItem)
    ensures item == MakeItem(row, cm, count)
  {
    var cgstVal := ReadTax(row, cm.cgstAmt, cm.cgst);
    var sgstVal := ReadTax(row, cm.sgstAmt, cm.sgst);
    var snoVal := GetVal(row, cm.sno);
    var discountVal := GetVal(row, cm.discount);
    item := LineItem(
      if Truthy(snoVal) then Strip(snoVal.value) else NatToString(count + 1),
      Strip(Str(GetVal(row, cm.hsn))),
      NumericField(GetVal(row, cm.qty)),
      NumericField(GetVal(row, cm.rate)),
      if Truthy(discountVal) then Strip(discountVal.value) else "",
      DefaultTaxRate,
      NumericField(cgstVal),
      NumericField(sgstVal),
      NumericField(GetVal(row, cm.amount)));
  }

  /**
   * The loop over the rows of one table, collecting each admitted row's item;
   * `before` items were extracted from earlier tables.
   */
  method ExtractTable(table: Table, hdr: nat, cm: ColumnMap, before: nat)
    returns (items: seq<LineItem>)
    ensures items == TableItems(table, hdr, cm, before, |table|)
  {
    items := [];
    for i := 0 to |table|
      invariant items == TableItems(table, hdr, cm, before, i)
    {
      var row := table[i];
      if i <= hdr {
        assert !Emits(table, hdr, cm, i);
        assert TableItems(table, hdr, cm, before, i + 1) == TableItems(table, hdr, cm, before, i);
        continue;
      }
      if i == hdr + 1 && SubHeaderRow(row) {
        assert !Emits(table, hdr, cm, i);
        continue;
      }
      var clean := CleanHsn(Strip(Str(GetVal(row, cm.hsn))));
      if clean != "" && HasDigitPair(clean) {
        assert Emits(table, hdr, cm, i);
        var item := BuildItem(row, cm, before + |items|);
        assert item == MakeItem(table[i], cm, before + |TableItems(table, hdr, cm, before, i)|);
        items := items + [item];
      } else {
        assert !Emits(table, hdr, cm, i);
      }
    }
  }

  /** The items a non-empty table contributes once its header row and columns are resolved. */
  function TableItemsFor(table: Table, before: nat): seq<LineItem> {
    if |table| == 0 then []
    else
      var h := HeaderIndex(table);
      TableItems(table, h, ColumnsFor(table, h), before, |table|)
  }

  /** The items of the first `n` tables of a document, in order. */
  function DocumentItems(tables: seq<Table>, n: nat): seq<LineItem>
    requires n <= |tables|
    decreases n
  {
    if n == 0 then []
    else
      var prev := DocumentItems(tables, n - 1);
      prev + TableItemsFor(tables[n - 1], |prev|)
  }

  /** One table of the document: nothing from an empty table, otherwise its header, columns and rows. */
  method ExtractTableOf(table: Table, before: nat) returns (found: seq<LineItem>)
    ensures found == TableItemsFor(table, before)
  {
    if |table| == 0 {
      return [];
    }
    var hdr := FindHeaderRow(table);
    var cm := ResolveColumns(table, hdr);
    found := ExtractTable(table, hdr, cm, before);
  }

  /** The loop over all tables of all pages. */
  method ExtractDocument(tables: seq<Table>) returns (items: seq<LineItem>)
    ensures items == DocumentItems(tables, |tables|)
  {
    items := [];
    for t := 0 to |tables|
      invariant items == DocumentItems(tables, t)
    {
      var found := ExtractTableOf(tables[t], |items|);
      items := items + found;
    }
  }

  /**
   * What every extracted item satisfies: the default rate, an HSN with two
   * adjacent digits, and summed columns of the numeric-field shape.
   */
  predicate WellFormedItem(it: LineItem) {
    it.taxRate == DefaultTaxRate && HasDigitPair(CleanHsn(it.hsn))
    && NumericText(it.quantity) && NumericText(it.taxableAmount)
    && NumericText(it.cgst) && NumericText(it.sgst) && NumericText(it.invoiceValue)
  }

  /** The item of an admitted row is well formed. */
  lemma AdmittedItemWellFormed(row: Row, cm: ColumnMap, count: nat)
    requires AdmitsHsn(GetVal(row, cm.hsn))
    ensures WellFormedItem(MakeItem(row, cm, count))
  {
    NumericFieldShape(GetVal(row, cm.qty));
    NumericFieldShape(GetVal(row, cm.rate));
    NumericFieldShape(TaxValue(row, cm.cgstAmt, cm.cgst));
    NumericFieldShape(TaxValue(row, cm.sgstAmt, cm.sgst));
    NumericFieldShape(GetVal(row, cm.amount));
  }

  /** Every item of a table is well formed. */
  lemma TableItemsWellFormed(table: Table, hdr: nat, cm: ColumnMap, before: nat)
    ensures forall it :: it in TableItems(table, hdr, cm, before, |table|) ==> WellFormedItem(it)
  {
    MaskedItemsWellFormed(table, RowMask(table, hdr, cm), cm, before, |table|);
  }

  /** A well-formed item has a non-empty HSN. */
  lemma WellFormedHsnNonEmpty(it: LineItem)
    requires WellFormedItem(it)
    ensures it.hsn != ""
  {
    assert |CleanHsn(it.hsn)| <= |it.hsn|;
  }

  /**
   * Every item of a document carries the default tax rate, an HSN whose
   * cleaned text holds two adjacent digits (so it is never empty), and
   * summed columns of the numeric-field shape.
   */
  lemma {:induction false} DocumentItemsWellFormed(tables: seq<Table>, n: nat)
    requires n <= |tables|
    ensures forall it :: it in DocumentItems(tables, n) ==> WellFormedItem(it) && it.hsn != ""
  {
    if n > 0 {
      DocumentItemsWellFormed(tables, n - 1);
      var prev := DocumentItems(tables, n - 1);
      var table := tables[n - 1];
      var added := TableItemsFor(table, |prev|);
      if |table| > 0 {
        var h := HeaderIndex(table);
        TableItemsWellFormed(table, h, ColumnsFor(table, h), |prev|);
      }
      WellFormedConcat(prev, added);
    }
  }

  lemma WellFormedConcat(a: seq<LineItem>, b: seq<LineItem>)
    requires forall it :: it in a ==> WellFormedItem(it) && it.hsn != ""
    requires forall it :: it in b ==> WellFormedItem(it)
    ensures forall it :: it in a + b ==> WellFormedItem(it) && it.hsn != ""
  {
    forall it | it in b
      ensures it.hsn != ""
    {
      WellFormedHsnNonEmpty(it);
    }
  }

}
