/**
 * The rows handed to the spreadsheet writer: one row per item, the
 * invoice-level fields (number, date, receiver's name and GSTIN) on the
 * first row only, then one closing row carrying nothing but the invoice's
 * total value.
 */
module Composition {
  import opened Wrappers
  import opened HeaderFields
  import opened LineItems
  import opened Aggregation

  /** An item cell: text taken from the document, or a merged sum (written with two decimals). */
  datatype Value = Extracted(text: string) | Sum(amount: real)

  const Blank: Value := Extracted("")

  /** The item columns of an output row. */
  datatype ItemView = ItemView(
    sno: string,
    hsn: string,
    quantity: Value,
    taxableAmount: Value,
    taxRate: string,
    cgst: Value,
    sgst: Value,
    invoiceValue: Value)

  /** A merged item as it is written out. */
  function MergedView(a: AggItem): ItemView {
    ItemView(a.sno, a.hsn, Sum(a.quantity), Sum(a.taxableAmount), a.taxRate, Sum(a.cgst), Sum(a.sgst), Sum(a.invoiceValue))
  }

  /** An item written out unmerged; its discount is not written. */
  function RawView(it: LineItem): ItemView {
    ItemView(it.sno, it.hsn, Extracted(it.quantity), Extracted(it.taxableAmount), it.taxRate, Extracted(it.cgst), Extracted(it.sgst), Extracted(it.invoiceValue))
  }

  /** The single item written when a document yields none: serial "1", everything else empty. */
  const Placeholder: ItemView := ItemView("1", "", Blank, Blank, "", Blank, Blank, Blank)

  /** An item view with every column empty. */
  const BlankView: ItemView := ItemView("", "", Blank, Blank, "", Blank, Blank, Blank)

  /** The invoice-level columns of an output row. */
  datatype InvoiceCells = InvoiceCells(invoiceNo: string, date: string, receiverName: string, receiverGst: string)

  const NoInvoiceCells: InvoiceCells := InvoiceCells("", "", "", "")

  /** The invoice-level columns as the first row shows them; a missing field is written empty. */
  function HeaderCells(h: InvoiceHeader): InvoiceCells {
    InvoiceCells(h.invoiceNo.GetOr(""), h.date.GetOr(""), h.receiverName.GetOr(""), h.receiverGst.GetOr(""))
  }

  /** One output row, in the spreadsheet's column order. */
  datatype OutputRow = OutputRow(
    sno: string,
    invoiceNo: string,
    date: string,
    receiverName: string,
    receiverGst: string,
    hsn: string,
    quantity: Value,
    taxableAmount: Value,
    taxRate: string,
    cgst: Value,
    sgst: Value,
    invoiceValue: Value,
    totalInvoiceValue: string)

  function InvoiceCellsOf(r: OutputRow): InvoiceCells {
    InvoiceCells(r.invoiceNo, r.date, r.receiverName, r.receiverGst)
  }

  function ViewOf(r: OutputRow): ItemView {
    ItemView(r.sno, r.hsn, r.quantity, r.taxableAmount, r.taxRate, r.cgst, r.sgst, r.invoiceValue)
  }

  /** The row of one item, with the given invoice-level columns and an empty total. */
  function ItemRow(c: InvoiceCells, v: ItemView): (r: OutputRow)
    ensures ViewOf(r) == v && InvoiceCellsOf(r) == c && r.totalInvoiceValue == ""
  {
    OutputRow(v.sno, c.invoiceNo, c.date, c.receiverName, c.receiverGst,
      v.hsn, v.quantity, v.taxableAmount, v.taxRate, v.cgst, v.sgst, v.invoiceValue, "")
  }

  /** The closing row: only the invoice's total value, empty when it was not found. */
  function TotalRow(h: InvoiceHeader): (r: OutputRow)
    ensures ViewOf(r) == BlankView && InvoiceCellsOf(r) == NoInvoiceCells
    ensures r.totalInvoiceValue == h.totalInvoiceValue.GetOr("")
  {
    OutputRow("", "", "", "", "", "", Blank, Blank, "", Blank, Blank, Blank, h.totalInvoiceValue.GetOr(""))
  }

  /**
   * The layout loop: each item in order becomes a row, the first carrying
   * the invoice-level fields and the others leaving them empty; a closing
   * row carries the total.
   */
  method Compose(h: InvoiceHeader, views: seq<ItemView>) returns (rows: seq<OutputRow>)
    ensures |rows| == |views| + 1
    ensures forall i :: 0 <= i < |views| ==> ViewOf(rows[i]) == views[i] && rows[i].totalInvoiceValue == ""
    ensures |views| > 0 ==> InvoiceCellsOf(rows[0]) == HeaderCells(h)
    ensures forall i :: 0 < i < |rows| ==> InvoiceCellsOf(rows[i]) == NoInvoiceCells
    ensures ViewOf(rows[|views|]) == BlankView
    ensures rows[|views|].totalInvoiceValue == h.totalInvoiceValue.GetOr("")
  {
    rows := [];
    for i := 0 to |views|
      invariant |rows| == i
      invariant forall j :: 0 <= j < i ==> ViewOf(rows[j]) == views[j] && rows[j].totalInvoiceValue == ""
      invariant i > 0 ==> InvoiceCellsOf(rows[0]) == HeaderCells(h)
      invariant forall j :: 0 < j < i ==> InvoiceCellsOf(rows[j]) == NoInvoiceCells
    {
      var cells := if i == 0 then HeaderCells(h) else NoInvoiceCells;
      rows := rows + [ItemRow(cells, views[i])];
    }
    rows := rows + [TotalRow(h)];
  }
}
