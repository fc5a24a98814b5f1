/**
 * Aggregation of line items by HSN/SAC code. Items with the same code are
 * merged into one: the numeric columns are summed, the serial number and
 * tax rate of the first such item are kept, and the merged items are listed
 * in the order their codes were first seen and renumbered 1, 2, 3, ...
 */
module Aggregation {
  import opened Wrappers
  import opened Text
  import opened Columns
  import opened LineItems

  // ---------------------------------------------------------------------------
  // Number parsing
  // ---------------------------------------------------------------------------

  /** `str(v).replace(',', '')`. */
  function RemoveCommas(s: string): string {
    RemoveChar(s, ',')
  }

  /**
   * The decimal strings Python's `float` accepts among strings of digits and
   * at most one '.': digits, optionally a '.' and more digits, with at least
   * one digit in all ("5", "5.", ".5", "5.25"; not "" or ".").
   */
  predicate IsDecimal(t: string) {
    var a := RunEnd(t, 0, Digits);
    (a == |t| && a > 0)
    || (a < |t| && t[a] == '.' && RunEnd(t, a + 1, Digits) == |t| && |t| > 1)
  }

  /**
   * Strings of digits with at most one '.': the shape of every extracted
   * numeric field once its commas are gone.
   */
  predicate DigitsAndDot(t: string) {
    var a := RunEnd(t, 0, Digits);
    a == |t| || (t[a] == '.' && RunEnd(t, a + 1, Digits) == |t|)
  }

  /** The exact value of a decimal string. */
  function DecimalValue(t: string): real
    requires IsDecimal(t)
  {
    var a := RunEnd(t, 0, Digits);
    RunEndSpec(t, 0, Digits);
    if a == |t| then DigitsValue(t) as real
    else
      RunEndSpec(t, a + 1, Digits);
      var frac := t[a + 1..];
      DigitsValue(t[..a]) as real + FractionValue(frac)
  }

  /** The value of the digits after a decimal point: "25" stands for 0.25. */
  function FractionValue(frac: string): real
    requires AllDigits(frac)
    decreases |frac|
  {
    if frac == [] then 0.0 else (DigitValue(frac[0]) as real + FractionValue(frac[1..])) / 10.0
  }

  /**
   * `parse_float`: the value of the string once its commas are removed, or
   * 0.0 when that is not a number. Exact real arithmetic stands for floats.
   */
  function ParseFloat(s: string): real {
    var t := RemoveCommas(s);
    if IsDecimal(t) then DecimalValue(t) else 0.0
  }

  /** Reading back the decimal text of a natural number gives the number. */
  lemma ParseFloatNat(n: nat)
    ensures ParseFloat(NatToString(n)) == n as real
  {
    var s := NatToString(n);
    RemoveCharAbsent(s, ',');
    AllDigitsRun(s);
    NatToStringRoundTrip(n);
  }

  function Pow10(n: nat): (r: nat)
    ensures r > 0
  {
    if n == 0 then 1 else 10 * Pow10(n - 1)
  }

  /**
   * `parse_float` of a number written with a decimal point, "a.b": the
   * integer part plus the digits after the point read as an integer and
   * scaled down by ten to the number of those digits.
   */
  lemma ParseFloatPoint(a: nat, b: nat)
    ensures var frac := NatToString(b);
      ParseFloat(NatToString(a) + "." + frac) == a as real + b as real / Pow10(|frac|) as real
  {
    var y := NatToString(b);
    ParseFloatPointValue(a, y);
    FractionOfNat(b);
  }

  /** The digits of `b`, read as a fraction, are `b` scaled down by ten to their number. */
  lemma FractionOfNat(b: nat)
    ensures var y := NatToString(b);
      FractionValue(y) == b as real / Pow10(|y|) as real
  {
    NatToStringRoundTrip(b);
    FractionOfDigits(NatToString(b), b);
  }

  lemma FractionOfDigits(y: string, b: nat)
    requires AllDigits(y) && DigitsValue(y) == b
    ensures FractionValue(y) == b as real / Pow10(|y|) as real
  {
    FractionShifted(y);
    ShiftProduct(FractionValue(y), |y|);
    FractionQuotient(FractionValue(y), DigitsValue(y), b, Pow10(|y|));
  }

  lemma ParseFloatPointValue(a: nat, y: string)
    requires AllDigits(y)
    ensures ParseFloat(NatToString(a) + "." + y) == a as real + FractionValue(y)
  {
    var x := NatToString(a);
    var t := x + "." + y;
    assert ',' !in t by {
      assert forall k :: 0 <= k < |t| ==> t[k] == '.' || IsDigit(t[k]);
    }
    RemoveCharAbsent(t, ',');
    PointRunEnds(x, y);
    assert t[..|x|] == x;
    assert t[|x| + 1..] == y;
    NatToStringRoundTrip(a);
  }

  lemma FractionQuotient(q: real, m: nat, n: nat, d: nat)
    requires d > 0 && q * d as real == m as real && m == n
    ensures q == n as real / d as real
  {
  }

  /** The runs of `x + "." + y` for digit strings `x` and `y`: digits up to the point, digits after it. */
  lemma PointRunEnds(x: string, y: string)
    requires AllDigits(x) && AllDigits(y)
    ensures RunEnd(x + "." + y, 0, Digits) == |x|
    ensures RunEnd(x + "." + y, |x| + 1, Digits) == |x + "." + y|
  {
    var t := x + "." + y;
    assert forall k :: 0 <= k < |x| ==> t[k] == x[k];
    RunEndAt(t, 0, |x|, Digits);
    assert forall k :: |x| < k < |t| ==> t[k] == y[k - |x| - 1];
    RunEndAt(t, |x| + 1, |t|, Digits);
  }

  /** `q` with its decimal point moved `n` places to the right. */
  function Shift(q: real, n: nat): real
  {
    if n == 0 then q else 10.0 * Shift(q, n - 1)
  }

  /** Moving the point of a digit fraction past all its digits gives their integer value. */
  lemma {:induction false} FractionShifted(frac: string)
    requires AllDigits(frac)
    ensures Shift(FractionValue(frac), |frac|) == DigitsValue(frac) as real
    decreases |frac|
  {
    if frac != [] {
      var rest := frac[1..];
      var v := DigitValue(frac[0]);
      var n := |rest|;
      FractionShifted(rest);
      DigitsValueFront(frac);
      ShiftTen(FractionValue(frac), n);
      assert 10.0 * FractionValue(frac) == v as real + FractionValue(rest);
      ShiftAdd(v as real, FractionValue(rest), n);
      ShiftNat(v, n);
    }
  }

  lemma {:induction false} ShiftTen(q: real, n: nat)
    ensures Shift(q, n + 1) == Shift(10.0 * q, n)
  {
    if n > 0 {
      ShiftTen(q, n - 1);
    }
  }

  lemma {:induction false} ShiftAdd(x: real, y: real, n: nat)
    ensures Shift(x + y, n) == Shift(x, n) + Shift(y, n)
  {
    if n > 0 {
      ShiftAdd(x, y, n - 1);
    }
  }

  lemma ShiftNat(v: nat, n: nat)
    ensures Shift(v as real, n) == (v * Pow10(n)) as real
  {
    ShiftProduct(v as real, n);
    CastProduct(v, Pow10(n));
  }

  lemma CastProduct(x: nat, y: nat)
    ensures (x * y) as real == x as real * y as real
  {
  }

  /** Moving the point `n` places is multiplying by ten to the `n`. */
  lemma {:induction false} ShiftProduct(q: real, n: nat)
    ensures Shift(q, n) == q * Pow10(n) as real
  {
    if n > 0 {
      ShiftProduct(q, n - 1);
      TenTimes(q, Pow10(n - 1), Pow10(n));
    }
  }

  lemma TenTimes(q: real, p: nat, scaled: nat)
    requires scaled == 10 * p
    ensures 10.0 * (q * p as real) == q * scaled as real
  {
    assert scaled as real == 10.0 * p as real;
  }

  /** Digit strings read from the front: the first digit counts ten to the number of digits after it. */
  lemma {:induction false} DigitsValueFront(s: string)
    requires AllDigits(s) && |s| > 0
    ensures DigitsValue(s) == DigitValue(s[0]) * Pow10(|s| - 1) + DigitsValue(s[1..])
    decreases |s|
  {
    if |s| > 1 {
      var init := s[..|s| - 1];
      DigitsValueFront(init);
      assert init[1..] == s[1..][..|s| - 2];
      var d := DigitValue(s[|s| - 1]);
      assert DigitsValue(s) == DigitsValue(init) * 10 + d;
      assert DigitsValue(s[1..]) == DigitsValue(init[1..]) * 10 + d;
      FrontStep(DigitValue(s[0]), Pow10(|s| - 2), DigitsValue(init[1..]), d);
    } else {
      assert s[..|s| - 1] == [];
      assert s[1..] == [];
    }
  }

  lemma FrontStep(v: nat, p: nat, m: nat, d: nat)
    ensures (v * p + m) * 10 + d == v * (10 * p) + (m * 10 + d)
  {
  }

  lemma {:induction false} RemoveCharAbsent(s: string, c: char)
    requires c !in s
    ensures RemoveChar(s, c) == s
    decreases |s|
  {
    if s != [] {
      assert c !in s[1..];
      RemoveCharAbsent(s[1..], c);
    }
  }

  lemma AllDigitsRun(s: string)
    requires AllDigits(s)
    ensures RunEnd(s, 0, Digits) == |s|
  {
    RunEndAt(s, 0, |s|, Digits);
  }

  lemma {:induction false} RemoveCharConcat(x: string, y: string, c: char)
    ensures RemoveChar(x + y, c) == RemoveChar(x, c) + RemoveChar(y, c)
    decreases |x|
  {
    if x == [] {
      assert x + y == y;
    } else {
      assert (x + y)[0] == x[0];
      assert (x + y)[1..] == x[1..] + y;
      RemoveCharConcat(x[1..], y, c);
    }
  }

  /** Removing commas from digits and commas leaves only digits. */
  lemma {:induction false} RemoveCommasOfRun(x: string)
    requires forall k :: 0 <= k < |x| ==> InClass(x[k], DigitsOrCommas)
    ensures AllDigits(RemoveCommas(x))
    decreases |x|
  {
    if x != [] {
      RemoveCommasOfRun(x[1..]);
    }
  }

  /** A numeric field has, without its commas, the digits-and-dot shape. */
  lemma NumericTextShape(t: string)
    requires NumericText(t)
    ensures DigitsAndDot(RemoveCommas(t))
  {
    var a := RunEnd(t, 0, DigitsOrCommas);
    assert t[0..|t|] == t;
    if a == |t| {
      PlainRunShape(t, 0, a);
    } else {
      DottedRunShape(t, 0, a, |t|);
    }
  }

  /** The numeric run of any text has, without its commas, the digits-and-dot shape. */
  lemma FirstRunShape(s: string)
    ensures DigitsAndDot(RemoveCommas(FirstRun(s)))
  {
    FirstRunNumeric(s);
    NumericTextShape(FirstRun(s));
  }

  predicate HasDigit(t: string) {
    exists k :: 0 <= k < |t| && IsDigit(t[k])
  }

  /**
   * On digits with at most one '.', `IsDecimal` (what Python's `float`
   * accepts) holds exactly when there is a digit: "" and "." are the only
   * strings of that shape it refuses.
   */
  lemma DigitsAndDotDecimal(t: string)
    requires DigitsAndDot(t)
    ensures IsDecimal(t) <==> HasDigit(t)
  {
    var a := RunEnd(t, 0, Digits);
    RunEndSpec(t, 0, Digits);
    if a < |t| {
      RunEndSpec(t, a + 1, Digits);
      if |t| > 1 {
        if a > 0 {
          assert IsDigit(t[0]);
        } else {
          assert IsDigit(t[1]);
        }
      } else {
        assert t[0] == '.';
      }
    } else if a > 0 {
      assert IsDigit(t[0]);
    }
  }

  /** Removing commas keeps the digits. */
  lemma RemoveCommasHasDigit(t: string)
    ensures HasDigit(RemoveCommas(t)) <==> HasDigit(t)
  {
    var r := RemoveCommas(t);
    RemoveCharKeepsOthers(t, ',');
    if HasDigit(t) {
      var k :| 0 <= k < |t| && IsDigit(t[k]);
      assert multiset(r)[t[k]] == multiset(t)[t[k]] > 0;
      assert t[k] in r;
      var j :| 0 <= j < |r| && r[j] == t[k];
      assert IsDigit(r[j]);
    }
    if HasDigit(r) {
      var j :| 0 <= j < |r| && IsDigit(r[j]);
      assert multiset(t)[r[j]] == multiset(r)[r[j]] > 0;
      assert r[j] in t;
      var k :| 0 <= k < |t| && t[k] == r[j];
      assert IsDigit(t[k]);
    }
  }

  /**
   * `parse_float` is exact on a numeric field: the field reads as a number
   * exactly when it has a digit, and as 0 when it has none.
   */
  lemma NumericFieldParse(t: string)
    requires NumericText(t)
    ensures IsDecimal(RemoveCommas(t)) <==> HasDigit(t)
    ensures !HasDigit(t) ==> ParseFloat(t) == 0.0
  {
    NumericTextShape(t);
    DigitsAndDotDecimal(RemoveCommas(t));
    RemoveCommasHasDigit(t);
  }

  lemma PlainRunShape(s: string, p: nat, a: nat)
    requires p <= |s| && a == RunEnd(s, p, DigitsOrCommas)
    ensures DigitsAndDot(RemoveCommas(s[p..a]))
  {
    RunDigits(s, p, DigitsOrCommas);
    RemoveCommasOfRun(s[p..a]);
    AllDigitsRun(RemoveCommas(s[p..a]));
  }

  lemma DottedRunShape(s: string, p: nat, a: nat, e: nat)
    requires p <= |s| && a == RunEnd(s, p, DigitsOrCommas)
    requires a < |s| && s[a] == '.' && e == RunEnd(s, a + 1, Digits)
    ensures DigitsAndDot(RemoveCommas(s[p..e]))
  {
    RunDigits(s, p, DigitsOrCommas);
    RemoveCommasOfRun(s[p..a]);
    RunDigits(s, a + 1, Digits);
    assert s[p..e] == s[p..a] + (['.'] + s[a + 1..e]);
    DotJoin(s[p..a], s[a + 1..e]);
  }

  /** The run of `cls` characters starting at `i`, as a string, has only such characters. */
  lemma RunDigits(s: string, i: nat, cls: CharClass)
    requires i <= |s|
    ensures forall k :: 0 <= k < |s[i..RunEnd(s, i, cls)]| ==> InClass(s[i..RunEnd(s, i, cls)][k], cls)
  {
    RunEndSpec(s, i, cls);
  }

  lemma DotJoin(head: string, frac: string)
    requires AllDigits(RemoveCommas(head))
    requires forall k :: 0 <= k < |frac| ==> InClass(frac[k], Digits)
    ensures DigitsAndDot(RemoveCommas(head + (['.'] + frac)))
  {
    assert AllDigits(frac);
    RemoveCommasDot(head, frac);
    DigitsDotDigits(RemoveCommas(head), frac);
  }

  lemma RemoveCommasDot(head: string, frac: string)
    requires AllDigits(frac)
    ensures RemoveCommas(head + (['.'] + frac)) == RemoveCommas(head) + ['.'] + frac
  {
    RemoveCharAbsent(frac, ',');
    RemoveCharConcat(['.'], frac, ',');
    RemoveCharConcat(head, ['.'] + frac, ',');
    assert RemoveCommas(head) + (['.'] + frac) == RemoveCommas(head) + ['.'] + frac;
  }

  lemma DigitsDotDigits(x: string, y: string)
    requires AllDigits(x) && AllDigits(y)
    ensures DigitsAndDot(x + ['.'] + y)
  {
    var t := x + ['.'] + y;
    assert forall k :: 0 <= k < |x| ==> t[k] == x[k];
    RunEndAt(t, 0, |x|, Digits);
    assert forall k :: |x| < k < |t| ==> t[k] == y[k - |x| - 1];
    RunEndAt(t, |x| + 1, |t|, Digits);
  }

  // ---------------------------------------------------------------------------
  // Grouping by HSN
  // ---------------------------------------------------------------------------

  /** The summed columns of an item. */
  datatype Field = Quantity | TaxableAmount | Cgst | Sgst | InvoiceValue

  function FieldOf(it: LineItem, f: Field): string {
    match f
    case Quantity => it.quantity
    case TaxableAmount => it.taxableAmount
    case Cgst => it.cgst
    case Sgst => it.sgst
    case InvoiceValue => it.invoiceValue
  }

  /**
   * Every summed column of every item extracted from a document is a numeric
   * field, so `parse_float` reads it as a number exactly when it has a digit
   * and as 0 otherwise: none of the strings `float` would read differently
   * from `ParseFloat` (signs, exponents, "inf", "nan") reaches it.
   */
  lemma DocumentFieldsExact(tables: seq<Table>, f: Field)
    ensures forall it :: it in DocumentItems(tables, |tables|) ==>
      DigitsAndDot(RemoveCommas(FieldOf(it, f)))
      && (IsDecimal(RemoveCommas(FieldOf(it, f))) <==> HasDigit(FieldOf(it, f)))
  {
    DocumentItemsWellFormed(tables, |tables|);
    forall it | it in DocumentItems(tables, |tables|)
      ensures DigitsAndDot(RemoveCommas(FieldOf(it, f)))
      ensures IsDecimal(RemoveCommas(FieldOf(it, f))) <==> HasDigit(FieldOf(it, f))
    {
      assert NumericText(FieldOf(it, f));
      NumericTextShape(FieldOf(it, f));
      NumericFieldParse(FieldOf(it, f));
    }
  }

  /** The non-empty HSNs of the first `n` items, each once, in the order first seen. */
  function HsnOrder(items: seq<LineItem>, n: nat): seq<string>
    requires n <= |items|
    decreases n
  {
    if n == 0 then []
    else
      var prev := HsnOrder(items, n - 1);
      var h := items[n - 1].hsn;
      if h != "" && h !in prev then prev + [h] else prev
  }

  /** Index of the first of the first `n` items with HSN `h`. */
  function FirstIndex(items: seq<LineItem>, h: string, n: nat): (r: Option<nat>)
    requires n <= |items|
    ensures r.Some? ==> r.value < n && items[r.value].hsn == h
    decreases n
  {
    if n == 0 then None
    else
      var prev := FirstIndex(items, h, n - 1);
      if prev.None? && items[n - 1].hsn == h then Some(n - 1) else prev
  }

  lemma {:induction false} FirstIndexSpec(items: seq<LineItem>, h: string, n: nat)
    requires n <= |items|
    ensures FirstIndex(items, h, n).None? <==> forall j :: 0 <= j < n ==> items[j].hsn != h
    ensures FirstIndex(items, h, n).Some? ==>
      forall j :: 0 <= j < FirstIndex(items, h, n).value ==> items[j].hsn != h
    decreases n
  {
    if n > 0 {
      FirstIndexSpec(items, h, n - 1);
    }
  }

  /** The sum of column `f` over the first `n` items with HSN `h`. */
  function Total(items: seq<LineItem>, h: string, f: Field, n: nat): real
    requires n <= |items|
    decreases n
  {
    if n == 0 then 0.0
    else Total(items, h, f, n - 1) + (if items[n - 1].hsn == h then ParseFloat(FieldOf(items[n - 1], f)) else 0.0)
  }

  /** How many of the first `n` items have HSN `h`. */
  function Count(items: seq<LineItem>, h: string, n: nat): nat
    requires n <= |items|
    decreases n
  {
    if n == 0 then 0
    else Count(items, h, n - 1) + (if items[n - 1].hsn == h then 1 else 0)
  }

  /** What is accumulated for one HSN. */
  datatype Bucket = Bucket(
    sno: string,
    taxRate: string,
    quantity: real,
    taxableAmount: real,
    cgst: real,
    sgst: real,
    invoiceValue: real,
    count: nat)

  /** A new bucket, opened by the first item with its HSN. */
  function Fresh(it: LineItem): Bucket {
    Bucket(it.sno, it.taxRate, 0.0, 0.0, 0.0, 0.0, 0.0, 0)
  }

  /** A bucket after adding one more item. */
  function Absorb(b: Bucket, it: LineItem): Bucket {
    Bucket(b.sno, b.taxRate,
      b.quantity + ParseFloat(it.quantity),
      b.taxableAmount + ParseFloat(it.taxableAmount),
      b.cgst + ParseFloat(it.cgst),
      b.sgst + ParseFloat(it.sgst),
      b.invoiceValue + ParseFloat(it.invoiceValue),
      b.count + 1)
  }

  /** The sum a bucket holds for column `f`. */
  function BucketTotal(b: Bucket, f: Field): real {
    match f
    case Quantity => b.quantity
    case TaxableAmount => b.taxableAmount
    case Cgst => b.cgst
    case Sgst => b.sgst
    case InvoiceValue => b.invoiceValue
  }

  /**
   * The bucket of HSN `h` after the first `n` items: serial number and tax
   * rate of the first item with that HSN, column sums, and the item count.
   */
  function BucketOf(items: seq<LineItem>, h: string, n: nat): Bucket
    requires n <= |items|
  {
    var first := FirstIndex(items, h, n);
    Bucket(
      if first.Some? then items[first.value].sno else "",
      if first.Some? then items[first.value].taxRate else "",
      Total(items, h, Quantity, n),
      Total(items, h, TaxableAmount, n),
      Total(items, h, Cgst, n),
      Total(items, h, Sgst, n),
      Total(items, h, InvoiceValue, n),
      Count(items, h, n))
  }

  /** Sums and count are zero for an HSN not yet seen. */
  lemma {:induction false} UnseenIsEmpty(items: seq<LineItem>, h: string, n: nat)
    requires n <= |items|
    requires FirstIndex(items, h, n).None?
    ensures BucketOf(items, h, n) == Bucket("", "", 0.0, 0.0, 0.0, 0.0, 0.0, 0)
    decreases n
  {
    if n > 0 {
      UnseenIsEmpty(items, h, n - 1);
    }
  }

  /** How the bucket of `h` changes with item `n`. */
  lemma BucketStep(items: seq<LineItem>, h: string, n: nat)
    requires n < |items|
    ensures items[n].hsn != h ==> BucketOf(items, h, n + 1) == BucketOf(items, h, n)
    ensures items[n].hsn == h && FirstIndex(items, h, n).None? ==>
      BucketOf(items, h, n + 1) == Absorb(Fresh(items[n]), items[n])
    ensures items[n].hsn == h && FirstIndex(items, h, n).Some? ==>
      BucketOf(items, h, n + 1) == Absorb(BucketOf(items, h, n), items[n])
  {
    if items[n].hsn == h && FirstIndex(items, h, n).None? {
      UnseenIsEmpty(items, h, n);
    }
  }

  /** An HSN is listed exactly when it is non-empty and some item has it. */
  lemma {:induction false} HsnOrderExact(items: seq<LineItem>, n: nat)
    requires n <= |items|
    ensures forall h :: h in HsnOrder(items, n) <==> h != "" && FirstIndex(items, h, n).Some?
    decreases n
  {
    if n > 0 {
      HsnOrderExact(items, n - 1);
      var prev := HsnOrder(items, n - 1);
      forall h
        ensures h in HsnOrder(items, n) <==> h != "" && FirstIndex(items, h, n).Some?
      {
        if h != items[n - 1].hsn {
          assert FirstIndex(items, h, n) == FirstIndex(items, h, n - 1);
        }
      }
    }
  }

  /** One HSN is listed exactly when it is non-empty and some item has it. */
  lemma HsnOrderMember(items: seq<LineItem>, n: nat, h: string)
    requires n <= |items|
    ensures h in HsnOrder(items, n) <==> h != "" && FirstIndex(items, h, n).Some?
  {
    HsnOrderExact(items, n);
  }

  predicate Distinct(keys: seq<string>) {
    forall j, k :: 0 <= j < k < |keys| ==> keys[j] != keys[k]
  }

  /** No HSN is listed twice. */
  lemma {:induction false} HsnOrderDistinct(items: seq<LineItem>, n: nat)
    requires n <= |items|
    ensures Distinct(HsnOrder(items, n))
    decreases n
  {
    if n > 0 {
      HsnOrderDistinct(items, n - 1);
      var prev := HsnOrder(items, n - 1);
      var order := HsnOrder(items, n);
      if order != prev {
        forall j, k | 0 <= j < k < |order|
          ensures order[j] != order[k]
        {
          if k == |prev| {
            assert order[j] == prev[j];
          } else {
            assert order[j] == prev[j] && order[k] == prev[k];
          }
        }
      }
    }
  }

  /** HSN `a` first occurs among the first `n` items before HSN `b` does. */
  predicate SeenBefore(items: seq<LineItem>, a: string, b: string, n: nat)
    requires n <= |items|
  {
    var fa := FirstIndex(items, a, n);
    var fb := FirstIndex(items, b, n);
    fa.Some? && fb.Some? && fa.value < fb.value
  }

  /** HSNs are listed in the order of their first occurrence. */
  lemma {:induction false} HsnOrderFirstSeen(items: seq<LineItem>, n: nat)
    requires n <= |items|
    ensures forall j, k :: 0 <= j < k < |HsnOrder(items, n)| ==>
      SeenBefore(items, HsnOrder(items, n)[j], HsnOrder(items, n)[k], n)
    decreases n
  {
    if n > 0 {
      HsnOrderFirstSeen(items, n - 1);
      var prev := HsnOrder(items, n - 1);
      var order := HsnOrder(items, n);
      var h := items[n - 1].hsn;
      forall j, k | 0 <= j < k < |order|
        ensures SeenBefore(items, order[j], order[k], n)
      {
        assert order[j] == prev[j];
        HsnOrderMember(items, n - 1, prev[j]);
        assert FirstIndex(items, order[j], n) == FirstIndex(items, prev[j], n - 1);
        if k < |prev| {
          assert order[k] == prev[k];
          HsnOrderMember(items, n - 1, prev[k]);
          assert FirstIndex(items, order[k], n) == FirstIndex(items, prev[k], n - 1);
          assert SeenBefore(items, prev[j], prev[k], n - 1);
        } else {
          assert order[k] == h && h !in prev;
          HsnOrderMember(items, n - 1, h);
          assert FirstIndex(items, order[k], n) == Some(n - 1);
        }
      }
    } else {
      assert |HsnOrder(items, n)| == 0;
    }
  }

  // ---------------------------------------------------------------------------
  // The aggregated items
  // ---------------------------------------------------------------------------

  /** One merged item; the sums are kept exact (the source prints them with two decimals). */
  datatype AggItem = AggItem(
    sno: string,
    hsn: string,
    quantity: real,
    taxableAmount: real,
    taxRate: string,
    cgst: real,
    sgst: real,
    invoiceValue: real)

  /** The `k`-th merged item (0-based), for HSN `h` with bucket `b`. */
  function Finish(k: nat, h: string, b: Bucket): AggItem {
    AggItem(NatToString(k + 1), h, b.quantity, b.taxableAmount, b.taxRate, b.cgst, b.sgst, b.invoiceValue)
  }

  /** The first `k` merged items for the HSNs in `order`. */
  function AggPrefix(items: seq<LineItem>, order: seq<string>, k: nat): seq<AggItem>
    requires k <= |order|
    decreases k
  {
    if k == 0 then []
    else AggPrefix(items, order, k - 1) + [Finish(k - 1, order[k - 1], BucketOf(items, order[k - 1], |items|))]
  }

  /** The merged items of a list of items. */
  function Aggregated(items: seq<LineItem>): seq<AggItem> {
    var order := HsnOrder(items, |items|);
    AggPrefix(items, order, |order|)
  }

  lemma {:induction false} AggPrefixAt(items: seq<LineItem>, order: seq<string>, k: nat, j: nat)
    requires k <= |order|
    requires j < k
    ensures |AggPrefix(items, order, k)| == k
    ensures AggPrefix(items, order, k)[j] == Finish(j, order[j], BucketOf(items, order[j], |items|))
    decreases k
  {
    if j < k - 1 {
      AggPrefixAt(items, order, k - 1, j);
    } else {
      AggPrefixLength(items, order, k - 1);
    }
  }

  lemma {:induction false} AggPrefixLength(items: seq<LineItem>, order: seq<string>, k: nat)
    requires k <= |order|
    ensures |AggPrefix(items, order, k)| == k
    decreases k
  {
    if k > 0 {
      AggPrefixLength(items, order, k - 1);
    }
  }

  /** `buckets` and `order` hold what the first `i` items contribute. */
  ghost predicate Accumulated(items: seq<LineItem>, i: nat, buckets: map<string, Bucket>, order: seq<string>)
    requires i <= |items|
  {
    order == HsnOrder(items, i)
    && (forall h :: h in buckets <==> h in order)
    && (forall h :: h in buckets ==> buckets[h] == BucketOf(items, h, i))
  }

  /** Item `i` leaves every bucket but its own HSN's as it was. */
  lemma OthersUnchanged(items: seq<LineItem>, i: nat, buckets: map<string, Bucket>, order: seq<string>)
    requires i < |items|
    requires Accumulated(items, i, buckets, order)
    ensures forall g :: g in buckets && g != items[i].hsn ==> buckets[g] == BucketOf(items, g, i + 1)
  {
    forall g | g in buckets && g != items[i].hsn
      ensures buckets[g] == BucketOf(items, g, i + 1)
    {
      BucketStep(items, g, i);
    }
  }

  /** An item without an HSN changes nothing. */
  lemma SkipStep(items: seq<LineItem>, i: nat, buckets: map<string, Bucket>, order: seq<string>)
    requires i < |items| && items[i].hsn == ""
    requires Accumulated(items, i, buckets, order)
    ensures Accumulated(items, i + 1, buckets, order)
  {
    HsnOrderMember(items, i, "");
    OthersUnchanged(items, i, buckets, order);
  }

  /**
   * Setting the bucket of item `i`'s HSN to its bucket over the first `i + 1`
   * items, with `newOrder` the order after item `i`, accumulates item `i`.
   */
  lemma SetBucket(items: seq<LineItem>, i: nat, buckets: map<string, Bucket>, order: seq<string>,
                  newOrder: seq<string>, b: Bucket)
    requires i < |items|
    requires Accumulated(items, i, buckets, order)
    requires newOrder == HsnOrder(items, i + 1)
    requires forall g :: g in newOrder <==> g in order || g == items[i].hsn
    requires b == BucketOf(items, items[i].hsn, i + 1)
    ensures Accumulated(items, i + 1, buckets[items[i].hsn := b], newOrder)
  {
    OthersUnchanged(items, i, buckets, order);
  }

  /** An item whose HSN already has a bucket is added to that bucket. */
  lemma AbsorbExisting(items: seq<LineItem>, i: nat, buckets: map<string, Bucket>, order: seq<string>)
    requires i < |items| && items[i].hsn in buckets
    requires Accumulated(items, i, buckets, order)
    ensures var h := items[i].hsn;
      Accumulated(items, i + 1, buckets[h := Absorb(buckets[h], items[i])], order)
  {
    var h := items[i].hsn;
    HsnOrderMember(items, i, h);
    BucketStep(items, h, i);
    SetBucket(items, i, buckets, order, order, Absorb(buckets[h], items[i]));
  }

  /** An item with a new HSN opens a bucket holding just that item, listed last. */
  lemma AbsorbNew(items: seq<LineItem>, i: nat, buckets: map<string, Bucket>, order: seq<string>)
    requires i < |items| && items[i].hsn != "" && items[i].hsn !in buckets
    requires Accumulated(items, i, buckets, order)
    ensures var h := items[i].hsn;
      Accumulated(items, i + 1, buckets[h := Absorb(Fresh(items[i]), items[i])], order + [h])
  {
    var h := items[i].hsn;
    HsnOrderMember(items, i, h);
    BucketStep(items, h, i);
    assert HsnOrder(items, i + 1) == order + [h];
    SetBucket(items, i, buckets, order, order + [h], Absorb(Fresh(items[i]), items[i]));
  }

  /**
   * The aggregation loops: one pass accumulating a bucket per HSN in a map
   * while recording the order HSNs were first seen, then one pass building
   * the renumbered list.
   */
  method Aggregate(items: seq<LineItem>) returns (out: seq<AggItem>)
    ensures out == Aggregated(items)
  {
    var buckets: map<string, Bucket> := map[];
    var order: seq<string> := [];
    for i := 0 to |items|
      invariant Accumulated(items, i, buckets, order)
    {
      var it := items[i];
      var h := it.hsn;
      if h == "" {
        SkipStep(items, i, buckets, order);
        continue;
      }
      if h !in buckets {
        // the bucket opens at zero and takes this item's values at once
        AbsorbNew(items, i, buckets, order);
        buckets := buckets[h := Absorb(Fresh(it), it)];
        order := order + [h];
      } else {
        AbsorbExisting(items, i, buckets, order);
        buckets := buckets[h := Absorb(buckets[h], it)];
      }
    }
    out := [];
    for k := 0 to |order|
      invariant out == AggPrefix(items, order, k)
    {
      var h := order[k];
      var b := buckets[h];
      out := out + [Finish(k, h, b)];
    }
  }

  /**
   * The shape of the merged list: one entry per distinct non-empty HSN, in
   * first-seen order, numbered "1", "2", ..., each carrying the serial
   * number and tax rate of the first item with its HSN and the column sums
   * over all items with it.
   */
  lemma AggregatedShape(items: seq<LineItem>)
    ensures |Aggregated(items)| == |HsnOrder(items, |items|)|
    ensures forall k :: 0 <= k < |Aggregated(items)| ==>
      var a := Aggregated(items)[k];
      var h := HsnOrder(items, |items|)[k];
      var first := FirstIndex(items, h, |items|);
      a.sno == NatToString(k + 1) && a.hsn == h && h != ""
      && first.Some? && items[first.value].hsn == h
      && a.taxRate == items[first.value].taxRate
      && a.quantity == Total(items, h, Quantity, |items|)
      && a.taxableAmount == Total(items, h, TaxableAmount, |items|)
      && a.cgst == Total(items, h, Cgst, |items|)
      && a.sgst == Total(items, h, Sgst, |items|)
      && a.invoiceValue == Total(items, h, InvoiceValue, |items|)
  {
    var order := HsnOrder(items, |items|);
    AggPrefixLength(items, order, |order|);
    HsnOrderExact(items, |items|);
    forall k | 0 <= k < |order|
      ensures var a := Aggregated(items)[k];
        var h := order[k];
        var first := FirstIndex(items, h, |items|);
        a.sno == NatToString(k + 1) && a.hsn == h && h != ""
        && first.Some? && items[first.value].hsn == h
        && a.taxRate == items[first.value].taxRate
        && a.quantity == Total(items, h, Quantity, |items|)
        && a.taxableAmount == Total(items, h, TaxableAmount, |items|)
        && a.cgst == Total(items, h, Cgst, |items|)
        && a.sgst == Total(items, h, Sgst, |items|)
        && a.invoiceValue == Total(items, h, InvoiceValue, |items|)
    {
      AggPrefixAt(items, order, |order|, k);
      assert order[k] in order;
    }
  }

  /** Merged items have distinct HSNs and distinct serial numbers. */
  lemma AggregatedDistinct(items: seq<LineItem>)
    ensures forall j, k :: 0 <= j < k < |Aggregated(items)| ==>
      Aggregated(items)[j].hsn != Aggregated(items)[k].hsn
      && Aggregated(items)[j].sno != Aggregated(items)[k].sno
  {
    AggregatedShape(items);
    HsnOrderDistinct(items, |items|);
    forall j, k | 0 <= j < k < |Aggregated(items)|
      ensures Aggregated(items)[j].sno != Aggregated(items)[k].sno
    {
      NatToStringInjective(j + 1, k + 1);
    }
  }

  /** Every item with an HSN has its HSN on some merged item. */
  lemma AggregatedCovers(items: seq<LineItem>)
    ensures forall i :: 0 <= i < |items| && items[i].hsn != "" ==>
      exists k :: 0 <= k < |Aggregated(items)| && Aggregated(items)[k].hsn == items[i].hsn
  {
    forall i | 0 <= i < |items| && items[i].hsn != ""
      ensures exists k :: 0 <= k < |Aggregated(items)| && Aggregated(items)[k].hsn == items[i].hsn
    {
      AggregatedCover(items, i);
    }
  }

  lemma AggregatedCover(items: seq<LineItem>, i: nat)
    requires i < |items| && items[i].hsn != ""
    ensures exists k :: 0 <= k < |Aggregated(items)| && Aggregated(items)[k].hsn == items[i].hsn
  {
    var h := items[i].hsn;
    var order := HsnOrder(items, |items|);
    FirstIndexSpec(items, h, |items|);
    HsnOrderMember(items, |items|, h);
    var k :| 0 <= k < |order| && order[k] == h;
    AggPrefixAt(items, order, |order|, k);
    assert Aggregated(items)[k].hsn == h;
  }

  /** The merged list is empty exactly when no item has an HSN. */
  lemma AggregatedEmptyIff(items: seq<LineItem>)
    ensures |Aggregated(items)| == 0 <==> forall i :: 0 <= i < |items| ==> items[i].hsn == ""
  {
    AggregatedShape(items);
    HsnOrderExact(items, |items|);
    var order := HsnOrder(items, |items|);
    if |order| == 0 {
      forall i | 0 <= i < |items|
        ensures items[i].hsn == ""
      {
        FirstIndexSpec(items, items[i].hsn, |items|);
        assert items[i].hsn !in order;
      }
    } else {
      assert order[0] in order;
      var first := FirstIndex(items, order[0], |items|);
      assert items[first.value].hsn != "";
    }
  }

  // ---------------------------------------------------------------------------
  // Conservation of the column totals
  // ---------------------------------------------------------------------------

  /** Column `f` summed over the first `n` items that have an HSN. */
  function GrandTotal(items: seq<LineItem>, f: Field, n: nat): real
    requires n <= |items|
    decreases n
  {
    if n == 0 then 0.0
    else GrandTotal(items, f, n - 1) + (if items[n - 1].hsn != "" then ParseFloat(FieldOf(items[n - 1], f)) else 0.0)
  }

  /** Column `f` summed per HSN over the HSNs in `keys`. */
  function KeyTotal(items: seq<LineItem>, keys: seq<string>, f: Field, n: nat): real
    requires n <= |items|
    decreases |keys|
  {
    if keys == [] then 0.0
    else KeyTotal(items, keys[..|keys| - 1], f, n) + Total(items, keys[|keys| - 1], f, n)
  }

  /** Adding item `n - 1` raises the per-HSN sum over distinct keys by its value exactly when its HSN is a key. */
  lemma {:induction false} KeyTotalStep(items: seq<LineItem>, keys: seq<string>, f: Field, n: nat)
    requires 0 < n <= |items|
    requires Distinct(keys)
    ensures KeyTotal(items, keys, f, n)
      == KeyTotal(items, keys, f, n - 1) + (if items[n - 1].hsn in keys then ParseFloat(FieldOf(items[n - 1], f)) else 0.0)
    decreases |keys|
  {
    if keys != [] {
      var init := keys[..|keys| - 1];
      var last := keys[|keys| - 1];
      assert Distinct(init);
      KeyTotalStep(items, init, f, n);
      assert keys == init + [last];
      assert last !in init;
    }
  }

  lemma KeyTotalAppend(items: seq<LineItem>, keys: seq<string>, h: string, f: Field, n: nat)
    requires n <= |items|
    ensures KeyTotal(items, keys + [h], f, n) == KeyTotal(items, keys, f, n) + Total(items, h, f, n)
  {
    assert (keys + [h])[..|keys|] == keys;
  }

  /** Grouping loses nothing: the per-HSN sums add up to the column total over all items with an HSN. */
  lemma {:induction false} GroupingConserves(items: seq<LineItem>, f: Field, n: nat)
    requires n <= |items|
    ensures KeyTotal(items, HsnOrder(items, n), f, n) == GrandTotal(items, f, n)
    decreases n
  {
    if n > 0 {
      GroupingConserves(items, f, n - 1);
      var prev := HsnOrder(items, n - 1);
      var h := items[n - 1].hsn;
      if h != "" && h !in prev {
        GroupingNewKey(items, f, n);
      } else {
        GroupingKnownKey(items, f, n);
      }
    }
  }

  /** Item `n - 1`, whose HSN is empty or already listed, keeps the sums in step. */
  lemma GroupingKnownKey(items: seq<LineItem>, f: Field, n: nat)
    requires 0 < n <= |items|
    requires items[n - 1].hsn == "" || items[n - 1].hsn in HsnOrder(items, n - 1)
    requires KeyTotal(items, HsnOrder(items, n - 1), f, n - 1) == GrandTotal(items, f, n - 1)
    ensures KeyTotal(items, HsnOrder(items, n), f, n) == GrandTotal(items, f, n)
  {
    OrderKnownKey(items, f, n);
    assert HsnOrder(items, n) == HsnOrder(items, n - 1);
  }

  lemma OrderKnownKey(items: seq<LineItem>, f: Field, n: nat)
    requires 0 < n <= |items|
    requires items[n - 1].hsn == "" || items[n - 1].hsn in HsnOrder(items, n - 1)
    ensures KeyTotal(items, HsnOrder(items, n - 1), f, n) - KeyTotal(items, HsnOrder(items, n - 1), f, n - 1)
      == GrandTotal(items, f, n) - GrandTotal(items, f, n - 1)
  {
    HsnOrderDistinct(items, n - 1);
    HsnOrderMember(items, n - 1, "");
    KeyTotalKnown(items, HsnOrder(items, n - 1), f, n);
  }

  /** Item `n - 1`, with a new HSN, opens a key whose sum is its own value. */
  lemma GroupingNewKey(items: seq<LineItem>, f: Field, n: nat)
    requires 0 < n <= |items|
    requires items[n - 1].hsn != "" && items[n - 1].hsn !in HsnOrder(items, n - 1)
    requires KeyTotal(items, HsnOrder(items, n - 1), f, n - 1) == GrandTotal(items, f, n - 1)
    ensures KeyTotal(items, HsnOrder(items, n), f, n) == GrandTotal(items, f, n)
  {
    OrderNewKey(items, f, n);
    assert HsnOrder(items, n) == HsnOrder(items, n - 1) + [items[n - 1].hsn];
  }

  lemma OrderNewKey(items: seq<LineItem>, f: Field, n: nat)
    requires 0 < n <= |items|
    requires items[n - 1].hsn != "" && items[n - 1].hsn !in HsnOrder(items, n - 1)
    ensures KeyTotal(items, HsnOrder(items, n - 1) + [items[n - 1].hsn], f, n) - KeyTotal(items, HsnOrder(items, n - 1), f, n - 1)
      == GrandTotal(items, f, n) - GrandTotal(items, f, n - 1)
  {
    HsnOrderDistinct(items, n - 1);
    HsnOrderMember(items, n - 1, items[n - 1].hsn);
    KeyTotalNew(items, HsnOrder(items, n - 1), f, n);
  }

  /** Over distinct keys, item `n - 1` with an empty or listed HSN adds its value exactly when it has an HSN. */
  lemma KeyTotalKnown(items: seq<LineItem>, keys: seq<string>, f: Field, n: nat)
    requires 0 < n <= |items|
    requires Distinct(keys) && "" !in keys
    requires items[n - 1].hsn == "" || items[n - 1].hsn in keys
    ensures KeyTotal(items, keys, f, n) - KeyTotal(items, keys, f, n - 1)
      == GrandTotal(items, f, n) - GrandTotal(items, f, n - 1)
  {
    KeyTotalStep(items, keys, f, n);
  }

  /** Item `n - 1`, the first with its HSN, appended as a new key adds exactly its value. */
  lemma KeyTotalNew(items: seq<LineItem>, keys: seq<string>, f: Field, n: nat)
    requires 0 < n <= |items|
    requires Distinct(keys)
    requires items[n - 1].hsn != "" && items[n - 1].hsn !in keys
    requires FirstIndex(items, items[n - 1].hsn, n - 1).None?
    ensures KeyTotal(items, keys + [items[n - 1].hsn], f, n) - KeyTotal(items, keys, f, n - 1)
      == GrandTotal(items, f, n) - GrandTotal(items, f, n - 1)
  {
    var h := items[n - 1].hsn;
    KeyTotalStep(items, keys, f, n);
    KeyTotalAppend(items, keys, h, f, n);
    TotalUnseen(items, h, f, n - 1);
  }

  lemma TotalUnseen(items: seq<LineItem>, h: string, f: Field, n: nat)
    requires n <= |items|
    requires FirstIndex(items, h, n).None?
    ensures Total(items, h, f, n) == 0.0
  {
    UnseenIsEmpty(items, h, n);
    assert Total(items, h, f, n) == BucketTotal(BucketOf(items, h, n), f);
  }

  /** The value of column `f` in a merged item. */
  function AggField(a: AggItem, f: Field): real {
    match f
    case Quantity => a.quantity
    case TaxableAmount => a.taxableAmount
    case Cgst => a.cgst
    case Sgst => a.sgst
    case InvoiceValue => a.invoiceValue
  }

  /** Column `f` summed over merged items. */
  function AggTotal(agg: seq<AggItem>, f: Field): real
    decreases |agg|
  {
    if agg == [] then 0.0 else AggTotal(agg[..|agg| - 1], f) + AggField(agg[|agg| - 1], f)
  }

  lemma {:induction false} AggPrefixTotal(items: seq<LineItem>, order: seq<string>, f: Field, k: nat)
    requires k <= |order|
    ensures AggTotal(AggPrefix(items, order, k), f) == KeyTotal(items, order[..k], f, |items|)
    decreases k
  {
    if k > 0 {
      AggPrefixTotal(items, order, f, k - 1);
      var prefix := AggPrefix(items, order, k);
      assert prefix[..|prefix| - 1] == AggPrefix(items, order, k - 1);
      assert order[..k][..k - 1] == order[..k - 1];
    }
  }

  /**
   * The merged list carries, in every summed column, the same total as the
   * items with an HSN it was built from.
   */
  lemma AggregatedConserves(items: seq<LineItem>, f: Field)
    ensures AggTotal(Aggregated(items), f) == GrandTotal(items, f, |items|)
  {
    var order := HsnOrder(items, |items|);
    AggPrefixTotal(items, order, f, |order|);
    assert order[..|order|] == order;
    GroupingConserves(items, f, |items|);
  }

  // ---------------------------------------------------------------------------
  // Order independence
  // ---------------------------------------------------------------------------

  lemma {:induction false} TotalPrefix(xs: seq<LineItem>, ys: seq<LineItem>, h: string, f: Field, k: nat)
    requires k <= |xs|
    ensures Total(xs + ys, h, f, k) == Total(xs, h, f, k)
    decreases k
  {
    if k > 0 {
      assert (xs + ys)[k - 1] == xs[k - 1];
      TotalPrefix(xs, ys, h, f, k - 1);
    }
  }

  lemma {:induction false} TotalAppend(xs: seq<LineItem>, ys: seq<LineItem>, h: string, f: Field, m: nat)
    requires m <= |ys|
    ensures Total(xs + ys, h, f, |xs| + m) == Total(xs, h, f, |xs|) + Total(ys, h, f, m)
    decreases m
  {
    if m == 0 {
      TotalPrefix(xs, ys, h, f, |xs|);
    } else {
      TotalAppend(xs, ys, h, f, m - 1);
      assert (xs + ys)[|xs| + m - 1] == ys[m - 1];
    }
  }

  /** The sum of a column for an HSN over two lists one after the other is the sum of the two sums. */
  lemma TotalConcat(xs: seq<LineItem>, ys: seq<LineItem>, h: string, f: Field)
    ensures Total(xs + ys, h, f, |xs + ys|) == Total(xs, h, f, |xs|) + Total(ys, h, f, |ys|)
  {
    TotalAppend(xs, ys, h, f, |ys|);
  }

  /**
   * The per-HSN sums do not depend on the order of the items: any
   * rearrangement of the same items gives the same sum for every HSN and
   * column (in exact arithmetic).
   */
  lemma {:induction false} TotalPermutation(xs: seq<LineItem>, ys: seq<LineItem>, h: string, f: Field)
    requires multiset(xs) == multiset(ys)
    ensures Total(xs, h, f, |xs|) == Total(ys, h, f, |ys|)
    decreases |xs|
  {
    if xs == [] {
      assert |ys| == |multiset(ys)| == 0;
    } else {
      var n := |xs| - 1;
      assert xs[n] in multiset(ys);
      var i :| 0 <= i < |ys| && ys[i] == xs[n];
      PermutationRest(xs, ys, i);
      TotalPermutation(xs[..n], ys[..i] + ys[i + 1..], h, f);
      PermutationStep(xs, ys, i, h, f);
    }
  }

  /** Taking the last item out of one list and the same item out of the other leaves equal multisets. */
  lemma PermutationRest(xs: seq<LineItem>, ys: seq<LineItem>, i: nat)
    requires multiset(xs) == multiset(ys) && |xs| > 0
    requires i < |ys| && ys[i] == xs[|xs| - 1]
    ensures multiset(xs[..|xs| - 1]) == multiset(ys[..i] + ys[i + 1..])
  {
    var n := |xs| - 1;
    assert xs[..n] + xs[n + 1..] == xs[..n];
    RemoveAtMultiset(xs, n);
    RemoveAtMultiset(ys, i);
    MultisetCancel(multiset(xs[..n]), multiset(ys[..i] + ys[i + 1..]), xs[n]);
  }

  lemma PermutationStep(xs: seq<LineItem>, ys: seq<LineItem>, i: nat, h: string, f: Field)
    requires |xs| > 0 && i < |ys| && ys[i] == xs[|xs| - 1] && |ys| == |xs|
    requires Total(xs[..|xs| - 1], h, f, |xs| - 1) == Total(ys[..i] + ys[i + 1..], h, f, |ys| - 1)
    ensures Total(xs, h, f, |xs|) == Total(ys, h, f, |ys|)
  {
    var n := |xs| - 1;
    assert xs[..n] + xs[n + 1..] == xs[..n];
    TotalRemoveAt(xs, n, h, f);
    TotalRemoveAt(ys, i, h, f);
  }

  lemma RemoveAtMultiset(xs: seq<LineItem>, i: nat)
    requires i < |xs|
    ensures multiset(xs) == multiset(xs[..i] + xs[i + 1..]) + multiset{xs[i]}
  {
    assert xs == xs[..i] + [xs[i]] + xs[i + 1..];
  }

  lemma MultisetCancel(a: multiset<LineItem>, b: multiset<LineItem>, x: LineItem)
    requires a + multiset{x} == b + multiset{x}
    ensures a == b
  {
    assert a == (a + multiset{x}) - multiset{x};
    assert b == (b + multiset{x}) - multiset{x};
  }

  /** Taking one item out of the list takes its share out of the sum. */
  lemma TotalRemoveAt(xs: seq<LineItem>, i: nat, h: string, f: Field)
    requires i < |xs|
    ensures Total(xs, h, f, |xs|) == Total(xs[..i] + xs[i + 1..], h, f, |xs| - 1) + Total([xs[i]], h, f, 1)
  {
    assert xs == (xs[..i] + [xs[i]]) + xs[i + 1..];
    TotalConcat(xs[..i] + [xs[i]], xs[i + 1..], h, f);
    TotalConcat(xs[..i], [xs[i]], h, f);
    TotalConcat(xs[..i], xs[i + 1..], h, f);
  }
}
