/**
 * Invoice-level fields. The regular expressions that locate each field in the
 * document text are not modelled: what they capture is the input (`Captures`),
 * and this module models what the extractor does with the captures —
 * stripping and sanitising each value, choosing the receiver's name among the
 * lines after a "Bill To" label, and choosing the receiver's GSTIN.
 */
module HeaderFields {
  import opened Wrappers
  import opened Text

  /** What the header regular expressions captured in the document text. */
  datatype Captures = Captures(
    invoiceNo: Option<string>,
    date: Option<string>,
    taxRate: Option<string>,
    cgst: Option<string>,
    sgst: Option<string>,
    invoiceValue: Option<string>,
    totalInvoiceValue: Option<string>,
    // lines of the block after a "Bill To"/"Receiver" label, when one was found
    nameBlock: Option<seq<string>>,
    // the GSTIN found within 500 characters after a "Bill To" label, if any
    billToGst: Option<string>,
    // every GSTIN-shaped token of the document, in order
    allGsts: seq<string>)

  /** The invoice-level fields; `None` is a key missing from the source's dictionary. */
  datatype InvoiceHeader = InvoiceHeader(
    invoiceNo: Option<string>,
    date: Option<string>,
    receiverName: Option<string>,
    receiverGst: Option<string>,
    taxRate: Option<string>,
    cgst: Option<string>,
    sgst: Option<string>,
    invoiceValue: Option<string>,
    totalInvoiceValue: Option<string>)

  /** Characters the sanitiser keeps: `\w`, `\s` and `.,/-` (ASCII). */
  predicate Kept(c: char) {
    ('a' <= c <= 'z') || ('A' <= c <= 'Z') || IsDigit(c) || c == '_' || IsSpace(c)
    || c == '.' || c == ',' || c == '/' || c == '-'
  }

  /** `re.sub(r'[^\w\s.,/-]', '', s)`: drops every character that is not kept. */
  function Sanitize(s: string): (r: string)
    ensures forall k :: 0 <= k < |r| ==> Kept(r[k])
    ensures forall c :: Kept(c) ==> multiset(r)[c] == multiset(s)[c]
    ensures (forall k :: 0 <= k < |s| ==> Kept(s[k])) ==> r == s
    decreases |s|
  {
    if s == [] then []
    else
      assert s == [s[0]] + s[1..];
      (if Kept(s[0]) then [s[0]] else []) + Sanitize(s[1..])
  }

  /**
   * Sanitising works character by character: the result for a concatenation
   * is the concatenation of the results, so the kept characters stay in order.
   */
  lemma {:induction false} SanitizeConcat(x: string, y: string)
    ensures Sanitize(x + y) == Sanitize(x) + Sanitize(y)
    decreases |x|
  {
    if x == [] {
      assert x + y == y;
    } else {
      assert (x + y)[0] == x[0];
      assert (x + y)[1..] == x[1..] + y;
      SanitizeConcat(x[1..], y);
    }
  }

  /**
   * A captured header value after `.strip()` and sanitising: it keeps every
   * kept character of the stripped capture as often as it occurs there, and
   * a capture without outer white space or dropped characters is unchanged.
   */
  function CleanCapture(c: Option<string>): (r: Option<string>)
    ensures r.Some? <==> c.Some?
    ensures r.Some? ==> forall k :: 0 <= k < |r.value| ==> Kept(r.value[k])
    ensures r.Some? ==> forall ch :: Kept(ch) ==> multiset(r.value)[ch] == multiset(Strip(c.value))[ch]
    ensures c.Some? && Strip(c.value) == c.value && (forall k :: 0 <= k < |c.value| ==> Kept(c.value[k])) ==> r == c
  {
    match c
    case None => None
    case Some(v) => Some(Sanitize(Strip(v)))
  }

  /** Lines that mention one of these are labels, not the receiver's name. */
  const StopWords: seq<string> :=
    ["gstin", "invoice", "date", "ship to", "shipment", "place of supply", "terms"]

  /** A stripped candidate line is taken as the receiver's name. */
  predicate AcceptableName(clean: string) {
    |clean| > 2 && !ContainsAny(Lower(clean), StopWords)
  }

  /** A candidate line passes the checks once stripped. */
  predicate AcceptableLine(line: string) {
    AcceptableName(Strip(line))
  }

  /** Length of the honorific `^(?:M/s|Mr\.|Mrs\.|Dr\.)` at the head of `s` (any case), or 0. */
  function HonorificLength(s: string): (n: nat)
    ensures n <= |s|
    ensures n > 0 ==> n == 3 || n == 4
  {
    var l := Lower(s);
    if StartsWith(l, "m/s") then 3
    else if StartsWith(l, "mr.") then 3
    else if StartsWith(l, "mrs.") then 4
    else if StartsWith(l, "dr.") then 3
    else 0
  }

  /** `re.sub(r'^(?:M/s|Mr\.|Mrs\.|Dr\.)\s*', '', s, flags=re.IGNORECASE)`. */
  function StripHonorific(s: string): (r: string)
    ensures HonorificLength(s) == 0 ==> r == s
    ensures HonorificLength(s) > 0 ==>
      |r| <= |s| - HonorificLength(s) && r == s[|s| - |r|..] && (r == [] || !IsSpace(r[0]))
      && forall k :: HonorificLength(s) <= k < |s| - |r| ==> IsSpace(s[k])
  {
    var n := HonorificLength(s);
    if n == 0 then s else TrimLeft(s[n..])
  }

  /** Index of the first acceptable line at or after `i`. */
  function FirstAcceptableFrom(lines: seq<string>, i: nat): (r: Option<nat>)
    requires i <= |lines|
    ensures r.Some? ==>
      i <= r.value < |lines| && AcceptableLine(lines[r.value])
      && forall j :: i <= j < r.value ==> !AcceptableLine(lines[j])
    ensures r.None? ==> forall j :: i <= j < |lines| ==> !AcceptableLine(lines[j])
    decreases |lines| - i
  {
    if i == |lines| then None
    else if AcceptableLine(lines[i]) then Some(i)
    else FirstAcceptableFrom(lines, i + 1)
  }

  /** The receiver's name: the first acceptable stripped line, without its honorific. */
  function ReceiverName(lines: seq<string>): (r: Option<string>)
    ensures r.Some? <==> exists i :: 0 <= i < |lines| && AcceptableLine(lines[i])
    ensures r.Some? ==>
      exists i :: 0 <= i < |lines| && AcceptableLine(lines[i])
        && (forall j :: 0 <= j < i ==> !AcceptableLine(lines[j]))
        && r.value == StripHonorific(Strip(lines[i]))
  {
    match FirstAcceptableFrom(lines, 0)
    case None => None
    case Some(k) => Some(StripHonorific(Strip(lines[k])))
  }

  /** The loop over the candidate lines, stopping at the first acceptable one. */
  method PickReceiverName(lines: seq<string>) returns (name: Option<string>)
    ensures name == ReceiverName(lines)
  {
    name := None;
    var i := 0;
    while i < |lines|
      invariant 0 <= i <= |lines|
      invariant FirstAcceptableFrom(lines, i) == FirstAcceptableFrom(lines, 0)
    {
      var clean := Strip(lines[i]);
      if AcceptableName(clean) {
        name := Some(StripHonorific(clean));
        break;
      }
      i := i + 1;
    }
  }

  /**
   * The receiver's GSTIN: the one after a "Bill To" label when found; otherwise
   * the second GSTIN of the document when there are several, the only one when
   * there is one, and none when there is none.
   */
  function ReceiverGst(billTo: Option<string>, all: seq<string>): (r: Option<string>)
    ensures r.None? <==> billTo.None? && |all| == 0
    ensures billTo.Some? ==> r == Some(Strip(billTo.value))
    ensures billTo.None? && |all| > 0 ==> r == Some(all[if |all| > 1 then 1 else 0])
  {
    match billTo
    case Some(g) => Some(Strip(g))
    case None =>
      if |all| > 0 then
        if |all| > 1 then Some(all[1]) else Some(all[0])
      else None
  }

  /** The header the extractor builds from the captures. */
  function HeaderOf(c: Captures): (h: InvoiceHeader)
    ensures h.receiverName.Some? ==> c.nameBlock.Some?
    ensures h.invoiceNo.Some? <==> c.invoiceNo.Some?
    ensures h.date.Some? <==> c.date.Some?
    ensures h.totalInvoiceValue.Some? <==> c.totalInvoiceValue.Some?
    ensures h.receiverName == (if c.nameBlock.Some? then ReceiverName(c.nameBlock.value) else None)
    ensures h.receiverGst == ReceiverGst(c.billToGst, c.allGsts)
  {
    InvoiceHeader(
      CleanCapture(c.invoiceNo),
      CleanCapture(c.date),
      match c.nameBlock case None => None case Some(lines) => ReceiverName(lines),
      ReceiverGst(c.billToGst, c.allGsts),
      CleanCapture(c.taxRate),
      CleanCapture(c.cgst),
      CleanCapture(c.sgst),
      CleanCapture(c.invoiceValue),
      CleanCapture(c.totalInvoiceValue))
  }

  /** Header extraction: the captured fields, then the receiver's name and GSTIN. */
  method ExtractHeader(c: Captures) returns (h: InvoiceHeader)
    ensures h == HeaderOf(c)
  {
    var name: Option<string> := None;
    if c.nameBlock.Some? {
      name := PickReceiverName(c.nameBlock.value);
    }
    h := InvoiceHeader(
      CleanCapture(c.invoiceNo),
      CleanCapture(c.date),
      name,
      ReceiverGst(c.billToGst, c.allGsts),
      CleanCapture(c.taxRate),
      CleanCapture(c.cgst),
      CleanCapture(c.sgst),
      CleanCapture(c.invoiceValue),
      CleanCapture(c.totalInvoiceValue));
  }
}
