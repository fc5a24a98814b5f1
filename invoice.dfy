/**
 * `parse_invoice_data` end to end: the invoice-level fields from the header
 * captures, the line items from the tables, their aggregation by HSN, and
 * the layout of the output rows.
 */
module Invoice {
  import opened Wrappers
  import opened Text
  import opened HeaderFields
  import opened Columns
  import opened LineItems
  import opened Aggregation
  import opened Composition

  function MergedViews(agg: seq<AggItem>): (vs: seq<ItemView>)
    ensures |vs| == |agg|
    ensures forall k :: 0 <= k < |agg| ==> vs[k] == MergedView(agg[k])
  {
    seq(|agg|, k requires 0 <= k < |agg| => MergedView(agg[k]))
  }

  function RawViews(items: seq<LineItem>): (vs: seq<ItemView>)
    ensures |vs| == |items|
    ensures forall k :: 0 <= k < |items| ==> vs[k] == RawView(items[k])
  {
    seq(|items|, k requires 0 <= k < |items| => RawView(items[k]))
  }

  /**
   * The items written out: the merged items when any item had an HSN, the
   * items as extracted when none had one, and the placeholder when there
   * were no items at all.
   */
  function OutputItems(items: seq<LineItem>): seq<ItemView> {
    if |items| == 0 then [Placeholder]
    else
      var agg := Aggregated(items);
      if |agg| > 0 then MergedViews(agg) else RawViews(items)
  }

  /** The items of a document's tables, as written out. */
  function DocumentOutput(tables: seq<Table>): seq<ItemView> {
    OutputItems(DocumentItems(tables, |tables|))
  }

  /**
   * `parse_invoice_data` on the captures of the document text and the
   * tables of its pages: one row per output item, the invoice-level fields
   * on the first row only, and a closing row with the total invoice value.
   */
  method ParseInvoiceData(caps: Captures, tables: seq<Table>) returns (rows: seq<OutputRow>)
    ensures |rows| == |DocumentOutput(tables)| + 1
    ensures forall i :: 0 <= i < |DocumentOutput(tables)| ==>
      ViewOf(rows[i]) == DocumentOutput(tables)[i] && rows[i].totalInvoiceValue == ""
    ensures InvoiceCellsOf(rows[0]) == HeaderCells(HeaderOf(caps))
    ensures forall i :: 0 < i < |rows| ==> InvoiceCellsOf(rows[i]) == NoInvoiceCells
    ensures ViewOf(rows[|rows| - 1]) == BlankView
    ensures rows[|rows| - 1].totalInvoiceValue == HeaderOf(caps).totalInvoiceValue.GetOr("")
  {
    var header := ExtractHeader(caps);
    var items := ExtractDocument(tables);
    var views: seq<ItemView> := [];
    if |items| > 0 {
      var agg := Aggregate(items);
      if |agg| > 0 {
        views := MergedViews(agg);
      } else {
        views := RawViews(items);
      }
    }
    if |views| == 0 {
      views := [Placeholder];
    }
    assert views == DocumentOutput(tables);
    rows := Compose(header, views);
  }

  /** Every item carries an HSN. */
  predicate AllHaveHsn(items: seq<LineItem>) {
    forall i :: 0 <= i < |items| ==> items[i].hsn != ""
  }

  /** Every item extracted from a document carries an HSN. */
  lemma DocumentItemsHaveHsn(tables: seq<Table>)
    ensures AllHaveHsn(DocumentItems(tables, |tables|))
  {
    var items := DocumentItems(tables, |tables|);
    DocumentItemsWellFormed(tables, |tables|);
    forall i | 0 <= i < |items|
      ensures items[i].hsn != ""
    {
      assert items[i] in items;
    }
  }

  /**
   * Items that all carry an HSN are written merged, and no items at all are
   * written as the single placeholder item.
   */
  lemma OutputMerged(items: seq<LineItem>)
    requires AllHaveHsn(items)
    ensures |items| > 0 ==> OutputItems(items) == MergedViews(Aggregated(items))
    ensures |items| == 0 ==> OutputItems(items) == [Placeholder]
  {
    if |items| > 0 {
      AggregatedEmptyIff(items);
    }
  }

  /** The output items are numbered "1", "2", ... in order. */
  lemma OutputSerials(items: seq<LineItem>)
    requires AllHaveHsn(items)
    ensures forall k :: 0 <= k < |OutputItems(items)| ==> OutputItems(items)[k].sno == NatToString(k + 1)
  {
    OutputMerged(items);
    if |items| == 0 {
      assert NatToString(1) == "1";
    } else {
      AggregatedShape(items);
    }
  }

  /** Output items have distinct HSNs, and every item's HSN is on some output item. */
  lemma OutputHsns(items: seq<LineItem>)
    requires AllHaveHsn(items)
    ensures forall j, k :: 0 <= j < k < |OutputItems(items)| ==> OutputItems(items)[j].hsn != OutputItems(items)[k].hsn
    ensures forall i :: 0 <= i < |items| ==>
      exists k :: 0 <= k < |OutputItems(items)| && OutputItems(items)[k].hsn == items[i].hsn
  {
    OutputMerged(items);
    if |items| > 0 {
      AggregatedDistinct(items);
      AggregatedCovers(items);
    }
  }

  /**
   * Items extracted from tables always carry an HSN, so a document with
   * items is always written merged: the branch that writes items unmerged
   * is never taken.
   */
  lemma DocumentOutputMerged(tables: seq<Table>)
    ensures var items := DocumentItems(tables, |tables|);
      |items| > 0 ==> DocumentOutput(tables) == MergedViews(Aggregated(items))
    ensures var items := DocumentItems(tables, |tables|);
      |items| == 0 ==> DocumentOutput(tables) == [Placeholder]
  {
    DocumentItemsHaveHsn(tables);
    OutputMerged(DocumentItems(tables, |tables|));
  }

  /** The output items of a document are numbered "1", "2", ... in order. */
  lemma DocumentOutputSerials(tables: seq<Table>)
    ensures forall k :: 0 <= k < |DocumentOutput(tables)| ==> DocumentOutput(tables)[k].sno == NatToString(k + 1)
  {
    DocumentItemsHaveHsn(tables);
    OutputSerials(DocumentItems(tables, |tables|));
  }

  /**
   * Each HSN of a document appears on exactly one output row: the merged
   * items have distinct HSNs, and every item of the document has its HSN
   * on some output item.
   */
  lemma DocumentOutputHsns(tables: seq<Table>)
    ensures var out := DocumentOutput(tables);
      forall j, k :: 0 <= j < k < |out| ==> out[j].hsn != out[k].hsn
    ensures var items := DocumentItems(tables, |tables|);
      forall i :: 0 <= i < |items| ==> exists k :: 0 <= k < |DocumentOutput(tables)| && DocumentOutput(tables)[k].hsn == items[i].hsn
  {
    DocumentItemsHaveHsn(tables);
    OutputHsns(DocumentItems(tables, |tables|));
  }

  /**
   * The merged output keeps every summed column's total: summing, say, the
   * CGST column of the written items gives the CGST of all extracted items.
   */
  lemma DocumentOutputConserves(tables: seq<Table>, f: Field)
    ensures var items := DocumentItems(tables, |tables|);
      AggTotal(Aggregated(items), f) == ItemsTotal(items, f, |items|)
  {
    var items := DocumentItems(tables, |tables|);
    DocumentItemsHaveHsn(tables);
    AggregatedConserves(items, f);
    AllHaveHsnTotal(items, f, |items|);
  }

  /** Column `f` summed over the first `n` items, whatever their HSN. */
  function ItemsTotal(items: seq<LineItem>, f: Field, n: nat): real
    requires n <= |items|
    decreases n
  {
    if n == 0 then 0.0 else ItemsTotal(items, f, n - 1) + ParseFloat(FieldOf(items[n - 1], f))
  }

  lemma {:induction false} AllHaveHsnTotal(items: seq<LineItem>, f: Field, n: nat)
    requires n <= |items|
    requires AllHaveHsn(items)
    ensures GrandTotal(items, f, n) == ItemsTotal(items, f, n)
    decreases n
  {
    if n > 0 {
      AllHaveHsnTotal(items, f, n - 1);
    }
  }
}
