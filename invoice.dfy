/**
 * The invoice arithmetic of `InvoiceCalculator`: the subtotal before tax,
 * the total tax and the grand total of a list of line items, and the check
 * that picks out the items whose tax rate lies outside [0, 1].
 *
 * The calculator keeps the item list it is built with and never changes it,
 * so each of its methods is a function of that list.
 */
module Invoice {
  import opened Results
  import opened Sums

  /**
   * One line of the invoice. A line's `tax_rate` key may be absent: the
   * total-tax computation then raises `KeyError`, and the validity check
   * reads the rate as 0.
   */
  datatype LineItem = LineItem(description: string, quantity: int, unitPrice: real, taxRate: Option<real>)

  /** The exception a dictionary lookup of a missing key raises. */
  datatype Error = KeyError(key: string)

  /** The price of a line before tax: quantity times unit price. */
  function Amount(item: LineItem): real
  {
    item.quantity as real * item.unitPrice
  }

  /** The tax of a line whose rate is present. */
  function LineTax(item: LineItem): real
  {
    Amount(item) * item.taxRate.GetOr(0.0)
  }

  /** The price of a line with its tax included. */
  function LineGross(item: LineItem): real
  {
    Amount(item) * (1.0 + item.taxRate.GetOr(0.0))
  }

  /** Some line has no tax rate. */
  predicate MissingRate(items: seq<LineItem>)
  {
    exists i :: 0 <= i < |items| && items[i].taxRate.None?
  }

  // ---------------------------------------------------------------------------
  // subtotal, total_tax, grand_total
  // ---------------------------------------------------------------------------

  /** `subtotal`: the amounts of the lines added up from the left, starting at 0. */
  function Subtotal(items: seq<LineItem>): (r: real)
    ensures r == SumOf(items, Amount)
  {
    SumLeftIsSumOf(0.0, items, Amount);
    SumLeft(0.0, items, Amount)
  }

  /**
   * The running total of `total_tax`: starting from `acc`, add each line's
   * tax from left to right, and stop with `KeyError` at the first line that
   * has no tax rate.
   */
  function TaxFrom(acc: real, items: seq<LineItem>): Result<real, Error>
    decreases |items|
  {
    if items == [] then Success(acc)
    else
      match items[0].taxRate
      case None => Failure(KeyError("tax_rate"))
      case Some(rate) => TaxFrom(acc + Amount(items[0]) * rate, items[1..])
  }

  /** The running total fails exactly when a rate is missing, and otherwise adds up the line taxes. */
  lemma {:induction false} TaxFromSum(acc: real, items: seq<LineItem>)
    ensures TaxFrom(acc, items).Failure? <==> MissingRate(items)
    ensures TaxFrom(acc, items).Failure? ==> TaxFrom(acc, items).error == KeyError("tax_rate")
    ensures TaxFrom(acc, items).Success? ==> TaxFrom(acc, items).value == acc + SumOf(items, LineTax)
    decreases |items|
  {
    if items != [] {
      var rest := items[1..];
      if items[0].taxRate.Some? {
        TaxFromSum(acc + Amount(items[0]) * items[0].taxRate.value, rest);
        if MissingRate(items) {
          var i :| 0 <= i < |items| && items[i].taxRate.None?;
          assert rest[i - 1].taxRate.None?;
        }
        if MissingRate(rest) {
          var i :| 0 <= i < |rest| && rest[i].taxRate.None?;
          assert items[i + 1].taxRate.None?;
        }
      }
    }
  }

  /**
   * `total_tax`: fails with `KeyError` on the key `tax_rate` exactly when
   * some line has no rate; otherwise it is the sum of quantity times unit
   * price times rate over the lines.
   */
  function TotalTax(items: seq<LineItem>): (r: Result<real, Error>)
    ensures r.Failure? <==> MissingRate(items)
    ensures r.Failure? ==> r.error == KeyError("tax_rate")
    ensures r.Success? ==> r.value == SumOf(items, LineTax)
  {
    TaxFromSum(0.0, items);
    TaxFrom(0.0, items)
  }

  /** Each line's gross price is its amount plus its tax. */
  lemma GrossIsAmountPlusTax(items: seq<LineItem>)
    ensures forall i :: 0 <= i < |items| ==> LineGross(items[i]) == Amount(items[i]) + LineTax(items[i])
  {
    forall i | 0 <= i < |items|
      ensures LineGross(items[i]) == Amount(items[i]) + LineTax(items[i])
    {
      var a, t := Amount(items[i]), items[i].taxRate.GetOr(0.0);
      assert a * (1.0 + t) == a + a * t;
    }
  }

  /**
   * `grand_total`: the subtotal plus the total tax. It fails exactly when
   * `total_tax` does, and otherwise it is the sum over the lines of their
   * price with tax included.
   */
  function GrandTotal(items: seq<LineItem>): (r: Result<real, Error>)
    ensures r.Failure? <==> MissingRate(items)
    ensures r.Failure? ==> r.error == KeyError("tax_rate")
    ensures r.Success? ==> r.value == SumOf(items, LineGross)
  {
    GrossIsAmountPlusTax(items);
    SumOfAdd(items, Amount, LineTax, LineGross);
    match TotalTax(items)
    case Success(tax) => Success(Subtotal(items) + tax)
    case Failure(e) => Failure(e)
  }

  // ---------------------------------------------------------------------------
  // Properties of the totals
  // ---------------------------------------------------------------------------

  /** Appending a line adds exactly its amount to the subtotal. */
  lemma SubtotalAppend(items: seq<LineItem>, x: LineItem)
    ensures Subtotal(items + [x]) == Subtotal(items) + Amount(x)
  {
    SumOfConcat(items, [x], Amount);
    assert SumOf([x], Amount) == Amount(x) + SumOf([x][1..], Amount);
  }

  /**
   * Appending a line with a rate adds exactly its tax to the total tax;
   * appending a line without one makes the total tax fail.
   */
  lemma TotalTaxAppend(items: seq<LineItem>, x: LineItem)
    ensures TotalTax(items + [x]).Success? <==> TotalTax(items).Success? && x.taxRate.Some?
    ensures TotalTax(items + [x]).Success? ==>
      TotalTax(items + [x]).value == TotalTax(items).value + Amount(x) * x.taxRate.value
  {
    var all := items + [x];
    assert forall i :: 0 <= i < |items| ==> all[i] == items[i];
    assert all[|items|] == x;
    if MissingRate(items) {
      var i :| 0 <= i < |items| && items[i].taxRate.None?;
      assert all[i].taxRate.None?;
    }
    SumOfConcat(items, [x], LineTax);
    assert SumOf([x], LineTax) == LineTax(x) + SumOf([x][1..], LineTax);
  }

  /** Some line of `a` lacks a rate exactly when some line of its rearrangement `b` does. */
  lemma MissingRatePermutation(a: seq<LineItem>, b: seq<LineItem>)
    requires multiset(a) == multiset(b)
    ensures MissingRate(a) <==> MissingRate(b)
  {
    if MissingRate(a) {
      var i :| 0 <= i < |a| && a[i].taxRate.None?;
      assert a[i] in multiset(b);
      var j :| 0 <= j < |b| && b[j] == a[i];
    }
    if MissingRate(b) {
      var j :| 0 <= j < |b| && b[j].taxRate.None?;
      assert b[j] in multiset(a);
      var i :| 0 <= i < |a| && a[i] == b[j];
    }
  }

  /** Reordering the lines changes none of the totals, nor whether they fail. */
  lemma TotalsPermutation(a: seq<LineItem>, b: seq<LineItem>)
    requires multiset(a) == multiset(b)
    ensures Subtotal(a) == Subtotal(b)
    ensures TotalTax(a) == TotalTax(b)
    ensures GrandTotal(a) == GrandTotal(b)
  {
    SumOfPermutation(a, b, Amount);
    SumOfPermutation(a, b, LineTax);
    SumOfPermutation(a, b, LineGross);
    MissingRatePermutation(a, b);
  }

  /** Every line has a rate between 0 and 1 inclusive. */
  predicate RatesInRange(items: seq<LineItem>)
  {
    forall i :: 0 <= i < |items| ==> items[i].taxRate.Some? && 0.0 <= items[i].taxRate.value <= 1.0
  }

  /**
   * With non-negative quantities and prices and every rate in [0, 1], the tax
   * is at most the subtotal, and the grand total lies between the subtotal
   * and twice the subtotal.
   */
  lemma TotalsBounds(items: seq<LineItem>)
    requires forall i :: 0 <= i < |items| ==> items[i].quantity >= 0 && items[i].unitPrice >= 0.0
    requires RatesInRange(items)
    ensures TotalTax(items).Success? && GrandTotal(items).Success?
    ensures 0.0 <= TotalTax(items).value <= Subtotal(items)
    ensures Subtotal(items) <= GrandTotal(items).value <= 2.0 * Subtotal(items)
  {
    forall i | 0 <= i < |items|
      ensures 0.0 <= LineTax(items[i]) <= Amount(items[i])
    {
      var a, t := Amount(items[i]), items[i].taxRate.value;
      assert LineTax(items[i]) == a * t;
      assert a >= 0.0;
      assert 0.0 <= a * t <= a * 1.0;
    }
    SumOfNonNegative(items, LineTax);
    SumOfMonotone(items, LineTax, Amount);
  }

  // ---------------------------------------------------------------------------
  // The tax-rate check of test_validate_items
  // ---------------------------------------------------------------------------

  /** A rate, read as 0 when absent, lies below 0 or above 1. */
  predicate InvalidRate(item: LineItem)
  {
    item.taxRate.GetOr(0.0) < 0.0 || item.taxRate.GetOr(0.0) > 1.0
  }

  /**
   * The lines with an invalid rate, in their order on the invoice: exactly
   * the lines with an invalid rate, so it is empty exactly when every rate,
   * with an absent one read as 0, lies in [0, 1].
   */
  function InvalidTaxRates(items: seq<LineItem>): (r: seq<LineItem>)
    ensures forall x :: x in r <==> x in items && InvalidRate(x)
    ensures |r| <= |items|
    ensures r == [] <==> forall i :: 0 <= i < |items| ==> !InvalidRate(items[i])
  {
    if items == [] then []
    else (if InvalidRate(items[0]) then [items[0]] else []) + InvalidTaxRates(items[1..])
  }

  /** Checking two parts of an invoice one after the other lists the invalid lines of each in turn. */
  lemma {:induction false} InvalidTaxRatesConcat(a: seq<LineItem>, b: seq<LineItem>)
    ensures InvalidTaxRates(a + b) == InvalidTaxRates(a) + InvalidTaxRates(b)
  {
    if a == [] {
      assert a + b == b;
    } else {
      assert (a + b)[1..] == a[1..] + b;
      InvalidTaxRatesConcat(a[1..], b);
    }
  }

  // ---------------------------------------------------------------------------
  // The invoices of the unit tests
  // ---------------------------------------------------------------------------

  const Laptop := LineItem("Laptop", 2, 3000.0, Some(0.19))
  const Mouse := LineItem("Mouse", 5, 100.0, Some(0.19))

  /** The Laptop and Mouse invoice: subtotal 6500, tax 1235, grand total 7735, no invalid rate. */
  lemma LaptopMouseInvoice()
    ensures Subtotal([Laptop, Mouse]) == 6500.0
    ensures TotalTax([Laptop, Mouse]) == Success(1235.0)
    ensures GrandTotal([Laptop, Mouse]) == Success(7735.0)
    ensures InvalidTaxRates([Laptop, Mouse]) == []
  {
    var items := [Laptop, Mouse];
    assert SumOf(items, Amount) == Amount(Laptop) + SumOf([Mouse], Amount);
    assert SumOf([Mouse], Amount) == Amount(Mouse) + SumOf([], Amount);
    assert SumOf(items, LineTax) == LineTax(Laptop) + SumOf([Mouse], LineTax);
    assert SumOf([Mouse], LineTax) == LineTax(Mouse) + SumOf([], LineTax);
  }

  /**
   * The invoice of the rounding test: subtotal 0.5, tax 0.027 and grand total
   * 0.527, each exact over the reals.
   */
  lemma SmallAmountsInvoice()
    ensures var items := [LineItem("Item1", 1, 0.1, Some(0.07)), LineItem("Item2", 2, 0.2, Some(0.05))];
      && Subtotal(items) == 0.5
      && TotalTax(items) == Success(0.027)
      && GrandTotal(items) == Success(0.527)
  {
    var first, second := LineItem("Item1", 1, 0.1, Some(0.07)), LineItem("Item2", 2, 0.2, Some(0.05));
    var items := [first, second];
    assert SumOf(items, Amount) == Amount(first) + SumOf([second], Amount);
    assert SumOf([second], Amount) == Amount(second) + SumOf([], Amount);
    assert SumOf(items, LineTax) == LineTax(first) + SumOf([second], LineTax);
    assert SumOf([second], LineTax) == LineTax(second) + SumOf([], LineTax);
  }

  /** An out-of-range rate is reported and a missing rate is not. */
  lemma InvalidRateReported()
    ensures var cable := LineItem("Cable", 1, 10.0, Some(1.5));
      InvalidTaxRates([cable, LineItem("Gift", 1, 0.0, None), Mouse]) == [cable]
  {
    var cable := LineItem("Cable", 1, 10.0, Some(1.5));
    var gift := LineItem("Gift", 1, 0.0, None);
    assert [cable, gift, Mouse][1..] == [gift, Mouse];
    assert [gift, Mouse][1..] == [Mouse];
  }
}
