/**
 * The `BillCalculator` of calculate.php: from the posted form fields to a
 * record of invoice totals. Posted values arrive here already coerced
 * (quantity as `intval` leaves it, prices and rates as `floatval` leaves
 * them); `None` stands for a field that was not posted. Money is an exact
 * `real`, so PHP's floating-point rounding is not modelled.
 */
module BillCalculator {
  import opened Wrappers
  import opened HtmlEscape

  /** One posted item row, `items[i][name|quantity|price]`. */
  datatype RawItem = RawItem(name: Option<string>, quantity: Option<int>, price: Option<real>)

  /** The posted form. */
  datatype PostData = PostData(
    customerName: Option<string>,
    date: Option<string>,
    taxRate: Option<real>,
    discount: Option<real>,
    items: Option<seq<RawItem>>)

  /** A kept line item; `name` is already HTML-escaped. */
  datatype Item = Item(name: string, quantity: int, price: real, total: real)

  /** The calculator's state once its constructor has run. */
  datatype Bill = Bill(
    customerName: string,
    date: string,
    taxRate: real,
    discountRate: real,
    items: seq<Item>,
    subtotal: real,
    taxAmount: real,
    discountAmount: real,
    total: real)

  const DefaultCustomerName: string := "Customer"

  /** A row is kept when its name is present and not PHP-empty and both quantity and price were posted. */
  predicate IsKept(raw: RawItem) {
    && raw.name.Some? && !IsPhpEmpty(raw.name.value)
    && raw.quantity.Some?
    && raw.price.Some?
  }

  function ToItem(raw: RawItem): Item
    requires IsKept(raw)
  {
    Item(Escape(raw.name.value), raw.quantity.value, raw.price.value,
         raw.quantity.value as real * raw.price.value)
  }

  /**
   * A line item as the constructor builds it: its total is its own quantity
   * times its own price, and its name is non-empty in PHP's sense and safe to
   * place in HTML.
   */
  predicate WellFormedItem(it: Item) {
    && it.total == it.quantity as real * it.price
    && !IsPhpEmpty(it.name)
    && IsHtmlSafe(it.name)
  }

  predicate AllWellFormed(items: seq<Item>) {
    forall k :: 0 <= k < |items| ==> WellFormedItem(items[k])
  }

  /** Every kept row becomes a well-formed line item. */
  lemma ToItemWellFormed(raw: RawItem)
    requires IsKept(raw)
    ensures WellFormedItem(ToItem(raw))
    ensures ToItem(raw).quantity == raw.quantity.value && ToItem(raw).price == raw.price.value
  {
    EscapeIsHtmlSafe(raw.name.value);
    EscapePreservesPhpEmpty(raw.name.value);
  }

  /** The kept rows, in input order, turned into line items. */
  function KeptItems(raws: seq<RawItem>): (r: seq<Item>)
    ensures |r| <= |raws|
    decreases |raws|
  {
    if |raws| == 0 then []
    else
      var last := raws[|raws| - 1];
      var prefix := KeptItems(raws[..|raws| - 1]);
      if IsKept(last) then prefix + [ToItem(last)]
      else prefix
  }

  /** Appending one row appends its line item exactly when the row is kept. */
  lemma KeptItemsSnoc(raws: seq<RawItem>, raw: RawItem)
    ensures KeptItems(raws + [raw]) == KeptItems(raws) + (if IsKept(raw) then [ToItem(raw)] else [])
  {
    assert (raws + [raw])[..|raws|] == raws;
  }

  /** Every kept item carries quantity times price as its total, and a displayable name. */
  lemma {:induction false} KeptItemsWellFormed(raws: seq<RawItem>)
    ensures AllWellFormed(KeptItems(raws))
    decreases |raws|
  {
    if |raws| > 0 {
      var n := |raws| - 1;
      var init, x := raws[..n], raws[n];
      var pre := KeptItems(init);
      KeptItemsWellFormed(init);
      assert raws == init + [x];
      KeptItemsSnoc(init, x);
      if IsKept(x) {
        var it := ToItem(x);
        ToItemWellFormed(x);
        var r := pre + [it];
        assert KeptItems(raws) == r;
        forall k | 0 <= k < |r|
          ensures WellFormedItem(r[k])
        {
          if k < |pre| {
            assert r[k] == pre[k];
          } else {
            assert r[k] == it;
          }
        }
      } else {
        assert KeptItems(raws) == pre;
      }
    }
  }

  /** The sum of the line totals, accumulated left to right as the constructor does. */
  function SumTotals(items: seq<Item>): real
    decreases |items|
  {
    if |items| == 0 then 0.0 else SumTotals(items[..|items| - 1]) + items[|items| - 1].total
  }

  lemma SumTotalsSnoc(items: seq<Item>, item: Item)
    ensures SumTotals(items + [item]) == SumTotals(items) + item.total
  {
    assert (items + [item])[..|items|] == items;
  }

  /** The constructor's invariant: what every constructed bill satisfies. */
  predicate Valid(b: Bill) {
    && AllWellFormed(b.items)
    && IsHtmlSafe(b.customerName)
    && b.subtotal == SumTotals(b.items)
    && b.taxAmount == b.subtotal * b.taxRate / 100.0
    && b.discountAmount == b.subtotal * b.discountRate / 100.0
    && b.total == b.subtotal + b.taxAmount - b.discountAmount
  }

  /**
   * The constructor as one expression. `today` is what `date('Y-m-d')`
   * would return.
   */
  function NewBill(post: PostData, today: string): (b: Bill)
    ensures post.items.None? ==> b.items == []
    ensures post.items.Some? ==> |b.items| <= |post.items.value|
  {
    var customerName := post.customerName.GetOr(DefaultCustomerName);
    // With no `items` field nothing is processed: the same as an empty list of rows.
    var items := KeptItems(post.items.GetOr([]));
    var subtotal := SumTotals(items);
    var taxRate := post.taxRate.GetOr(0.0);
    var discountRate := post.discount.GetOr(0.0);
    var taxAmount := subtotal * taxRate / 100.0;
    var discountAmount := subtotal * discountRate / 100.0;
    Bill(Escape(customerName), post.date.GetOr(today), taxRate, discountRate, items,
         subtotal, taxAmount, discountAmount, subtotal + taxAmount - discountAmount)
  }

  /** The constructor establishes the invariant of every bill. */
  lemma NewBillIsValid(post: PostData, today: string)
    ensures Valid(NewBill(post, today))
  {
    EscapeIsHtmlSafe(post.customerName.GetOr(DefaultCustomerName));
    KeptItemsWellFormed(post.items.GetOr([]));
  }

  /**
   * The body of the constructor's item loop for the row at position `i`:
   * a kept row is appended as a line item and its line total added to the
   * running subtotal; any other row is skipped.
   */
  method ProcessRow(raws: seq<RawItem>, i: nat, items: seq<Item>, subtotal: real)
    returns (items': seq<Item>, subtotal': real)
    requires i < |raws|
    requires items == KeptItems(raws[..i]) && subtotal == SumTotals(items)
    ensures items' == KeptItems(raws[..i + 1]) && subtotal' == SumTotals(items')
    ensures subtotal' == subtotal + RowContribution(raws[i])
  {
    var raw := raws[i];
    assert raws[..i + 1] == raws[..i] + [raw];
    KeptItemsSnoc(raws[..i], raw);
    if IsKept(raw) {
      var item := ToItem(raw);
      SumTotalsSnoc(items, item);
      items', subtotal' := items + [item], subtotal + item.total;
    } else {
      items', subtotal' := items, subtotal;
    }
  }

  /**
   * The constructor's item loop: one pass over the posted rows in order,
   * accumulating the kept items and the subtotal.
   */
  method ProcessItems(raws: seq<RawItem>) returns (items: seq<Item>, subtotal: real)
    ensures items == KeptItems(raws)
    ensures subtotal == SumTotals(items)
  {
    items, subtotal := [], 0.0;
    var i := 0;
    while i < |raws|
      invariant 0 <= i <= |raws|
      invariant items == KeptItems(raws[..i])
      invariant subtotal == SumTotals(items)
    {
      items, subtotal := ProcessRow(raws, i, items, subtotal);
      i := i + 1;
    }
    assert raws[..|raws|] == raws;
  }

  /** The constructor statement by statement; it agrees with `NewBill`. */
  method Construct(post: PostData, today: string) returns (b: Bill)
    ensures b == NewBill(post, today)
  {
    var customerName := Escape(post.customerName.GetOr(DefaultCustomerName));
    var date := post.date.GetOr(today);
    var taxRate := post.taxRate.GetOr(0.0);
    var discountRate := post.discount.GetOr(0.0);
    var items: seq<Item> := [];
    var subtotal: real := 0.0;
    if post.items.Some? {
      items, subtotal := ProcessItems(post.items.value);
    }
    assert items == KeptItems(post.items.GetOr([])) && subtotal == SumTotals(items);
    var taxAmount := subtotal * taxRate / 100.0;
    var discountAmount := subtotal * discountRate / 100.0;
    var total := subtotal + taxAmount - discountAmount;
    b := Bill(customerName, date, taxRate, discountRate, items, subtotal, taxAmount, discountAmount, total);
  }

  /**
   * `getTotal`. On a constructed bill the grand total is subtotal plus tax
   * minus discount, that is the subtotal scaled by one plus the tax rate
   * minus the discount rate, in percent.
   */
  function GetTotal(b: Bill): (r: real)
    ensures Valid(b) ==> r == b.subtotal + b.taxAmount - b.discountAmount
    ensures Valid(b) ==> r == b.subtotal * (100.0 + b.taxRate - b.discountRate) / 100.0
  {
    var s, t, d := b.subtotal, b.taxRate, b.discountRate;
    assert s * t / 100.0 - s * d / 100.0 == s * (t - d) / 100.0;
    b.total
  }

  /** `getCustomerName`: on a constructed bill, the escaped customer name, safe to place in HTML. */
  function GetCustomerName(b: Bill): (r: string)
    ensures Valid(b) ==> IsHtmlSafe(r)
  {
    b.customerName
  }

  // ---------------------------------------------------------------------
  // Which rows are kept, and in what order
  // ---------------------------------------------------------------------

  /** Positions of the kept rows in the posted list, in increasing order. */
  function KeptIndices(raws: seq<RawItem>): seq<nat>
    decreases |raws|
  {
    if |raws| == 0 then []
    else KeptIndices(raws[..|raws| - 1]) + (if IsKept(raws[|raws| - 1]) then [|raws| - 1] else [])
  }

  lemma KeptIndicesSnoc(raws: seq<RawItem>, raw: RawItem)
    ensures KeptIndices(raws + [raw]) == KeptIndices(raws) + (if IsKept(raw) then [|raws|] else [])
  {
    assert (raws + [raw])[..|raws|] == raws;
  }

  /**
   * The kept positions: each is a valid position of a row that passes the
   * keep test, they increase strictly, and every row that passes the test is
   * among them.
   */
  lemma {:induction false} KeptIndicesExact(raws: seq<RawItem>)
    ensures forall k :: 0 <= k < |KeptIndices(raws)| ==>
      KeptIndices(raws)[k] < |raws| && IsKept(raws[KeptIndices(raws)[k]])
    ensures forall k, l :: 0 <= k < l < |KeptIndices(raws)| ==> KeptIndices(raws)[k] < KeptIndices(raws)[l]
    ensures forall i :: 0 <= i < |raws| ==> (IsKept(raws[i]) <==> i in KeptIndices(raws))
    decreases |raws|
  {
    if |raws| > 0 {
      var n := |raws| - 1;
      var init, x := raws[..n], raws[n];
      KeptIndicesExact(init);
      assert raws == init + [x];
      KeptIndicesSnoc(init, x);
      var idx := KeptIndices(init);
      var r := KeptIndices(raws);
      assert forall i :: 0 <= i < n ==> raws[i] == init[i];
      if IsKept(x) {
        assert r == idx + [n];
        forall k | 0 <= k < |r|
          ensures r[k] < |raws| && IsKept(raws[r[k]])
        {
          if k < |idx| { assert r[k] == idx[k]; }
        }
        forall k, l | 0 <= k < l < |r|
          ensures r[k] < r[l]
        {
          if l < |idx| { assert r[k] == idx[k] && r[l] == idx[l]; }
          else { assert r[k] == idx[k] && r[l] == n; }
        }
        forall i | 0 <= i < |raws|
          ensures IsKept(raws[i]) <==> i in r
        {
          if i < n {
            assert IsKept(init[i]) <==> i in idx;
            assert i in idx <==> i in r;
          }
        }
      } else {
        assert r == idx;
        forall i | 0 <= i < |raws|
          ensures IsKept(raws[i]) <==> i in r
        {
          if i < n {
            assert IsKept(init[i]) <==> i in idx;
          }
        }
      }
    }
  }

  /** Item k is built from the posted row at the k-th kept position. */
  lemma {:induction false} KeptItemsFollowIndices(raws: seq<RawItem>)
    ensures |KeptIndices(raws)| == |KeptItems(raws)|
    ensures forall k :: 0 <= k < |KeptIndices(raws)| ==>
      KeptIndices(raws)[k] < |raws| && IsKept(raws[KeptIndices(raws)[k]])
      && KeptItems(raws)[k] == ToItem(raws[KeptIndices(raws)[k]])
    decreases |raws|
  {
    KeptIndicesExact(raws);
    if |raws| > 0 {
      var n := |raws| - 1;
      var init, x := raws[..n], raws[n];
      KeptItemsFollowIndices(init);
      assert raws == init + [x];
      KeptIndicesSnoc(init, x);
      KeptItemsSnoc(init, x);
      var idx, pre := KeptIndices(init), KeptItems(init);
      var r, items := KeptIndices(raws), KeptItems(raws);
      forall k | 0 <= k < |r|
        ensures items[k] == ToItem(raws[r[k]])
      {
        if k < |idx| {
          assert r[k] == idx[k] && items[k] == pre[k];
          assert raws[idx[k]] == init[idx[k]];
        }
      }
    }
  }

  /**
   * The item list is exactly the kept rows, in input order: item k comes from
   * posted row `KeptIndices(raws)[k]`, those positions increase strictly, and
   * a posted row is among them if and only if it passes the keep test.
   */
  lemma {:induction false} KeptItemsAreKeptRowsInOrder(raws: seq<RawItem>)
    ensures |KeptIndices(raws)| == |KeptItems(raws)|
    ensures forall k :: 0 <= k < |KeptIndices(raws)| ==>
      KeptIndices(raws)[k] < |raws| && IsKept(raws[KeptIndices(raws)[k]])
      && KeptItems(raws)[k] == ToItem(raws[KeptIndices(raws)[k]])
    ensures forall k, l :: 0 <= k < l < |KeptIndices(raws)| ==> KeptIndices(raws)[k] < KeptIndices(raws)[l]
    ensures forall i :: 0 <= i < |raws| ==> (IsKept(raws[i]) <==> i in KeptIndices(raws))
  {
    KeptIndicesExact(raws);
    KeptItemsFollowIndices(raws);
  }

  /** There are as many items as posted rows exactly when every row is kept. */
  lemma {:induction false} KeptItemsAllKept(raws: seq<RawItem>)
    ensures |KeptItems(raws)| == |raws| <==> forall i :: 0 <= i < |raws| ==> IsKept(raws[i])
    decreases |raws|
  {
    if |raws| > 0 {
      var n := |raws| - 1;
      var init, x := raws[..n], raws[n];
      KeptItemsAllKept(init);
      assert raws == init + [x];
      KeptItemsSnoc(init, x);
      assert |KeptItems(raws)| == |KeptItems(init)| + (if IsKept(x) then 1 else 0);
      assert forall i :: 0 <= i < n ==> raws[i] == init[i];
    }
  }

  /** Processing the rows in two batches gives the same items as one pass. */
  lemma {:induction false} KeptItemsAppend(a: seq<RawItem>, b: seq<RawItem>)
    ensures KeptItems(a + b) == KeptItems(a) + KeptItems(b)
    decreases |b|
  {
    if |b| == 0 {
      assert a + b == a;
    } else {
      var n := |b| - 1;
      var init, x := b[..n], b[n];
      var tail := if IsKept(x) then [ToItem(x)] else [];
      assert a + b == (a + init) + [x];
      assert b == init + [x];
      calc {
        KeptItems(a + b);
        { KeptItemsSnoc(a + init, x); }
        KeptItems(a + init) + tail;
        { KeptItemsAppend(a, init); }
        (KeptItems(a) + KeptItems(init)) + tail;
        KeptItems(a) + (KeptItems(init) + tail);
        { KeptItemsSnoc(init, x); }
        KeptItems(a) + KeptItems(b);
      }
    }
  }

  lemma {:induction false} SumTotalsAppend(a: seq<Item>, b: seq<Item>)
    ensures SumTotals(a + b) == SumTotals(a) + SumTotals(b)
    decreases |b|
  {
    if |b| == 0 {
      assert a + b == a;
    } else {
      var n := |b| - 1;
      SumTotalsAppend(a, b[..n]);
      assert (a + b)[..|a + b| - 1] == a + b[..n];
      assert (a + b)[|a + b| - 1] == b[n];
    }
  }

  // ---------------------------------------------------------------------
  // The subtotal
  // ---------------------------------------------------------------------

  /** What one posted row adds to the subtotal: quantity times price if it is kept, nothing otherwise. */
  function RowContribution(raw: RawItem): real {
    if IsKept(raw) then raw.quantity.value as real * raw.price.value else 0.0
  }

  /** Reference subtotal read straight off the posted rows, summed from the front. */
  function SumOfKeptRows(raws: seq<RawItem>): real
    decreases |raws|
  {
    if |raws| == 0 then 0.0 else RowContribution(raws[0]) + SumOfKeptRows(raws[1..])
  }

  lemma SumOfOneRow(raw: RawItem)
    ensures SumTotals(KeptItems([raw])) == RowContribution(raw)
  {
    KeptItemsSnoc([], raw);
    assert [] + [raw] == [raw];
    if IsKept(raw) {
      SumTotalsSnoc([], ToItem(raw));
      assert [] + [ToItem(raw)] == [ToItem(raw)];
    }
  }

  /** The accumulated subtotal is the sum of quantity times price over the kept rows and nothing else. */
  lemma {:induction false} SubtotalIsSumOfKeptRows(raws: seq<RawItem>)
    ensures SumTotals(KeptItems(raws)) == SumOfKeptRows(raws)
    decreases |raws|
  {
    if |raws| > 0 {
      var x, tail := raws[0], raws[1..];
      assert raws == [x] + tail;
      calc {
        SumTotals(KeptItems(raws));
        { KeptItemsAppend([x], tail); }
        SumTotals(KeptItems([x]) + KeptItems(tail));
        { SumTotalsAppend(KeptItems([x]), KeptItems(tail)); }
        SumTotals(KeptItems([x])) + SumTotals(KeptItems(tail));
        { SumOfOneRow(x); SubtotalIsSumOfKeptRows(tail); }
        RowContribution(x) + SumOfKeptRows(tail);
      }
    }
  }

  lemma {:induction false} SumOfKeptRowsNonNegative(raws: seq<RawItem>)
    requires forall i :: 0 <= i < |raws| && IsKept(raws[i]) ==>
      raws[i].quantity.value >= 0 && raws[i].price.value >= 0.0
    ensures SumOfKeptRows(raws) >= 0.0
    decreases |raws|
  {
    if |raws| > 0 {
      assert forall i :: 0 <= i < |raws| - 1 ==> raws[1..][i] == raws[i + 1];
      SumOfKeptRowsNonNegative(raws[1..]);
      if IsKept(raws[0]) {
        var q, p := raws[0].quantity.value as real, raws[0].price.value;
        assert q >= 0.0 && p >= 0.0;
        assert q * p >= 0.0;
      }
    }
  }

  /** With no negative quantity or price among the kept rows, the subtotal is not negative. */
  lemma {:induction false} SubtotalNonNegative(raws: seq<RawItem>)
    requires forall i :: 0 <= i < |raws| && IsKept(raws[i]) ==>
      raws[i].quantity.value >= 0 && raws[i].price.value >= 0.0
    ensures SumTotals(KeptItems(raws)) >= 0.0
  {
    SumOfKeptRowsNonNegative(raws);
    SubtotalIsSumOfKeptRows(raws);
  }

  // ---------------------------------------------------------------------
  // Totals and defaults of a constructed bill
  // ---------------------------------------------------------------------

  /** No `items` field, or no kept row, means a zero subtotal, zero tax, zero discount and zero total. */
  lemma NoItemsMeansZeroTotal(post: PostData, today: string)
    requires post.items.None? || KeptItems(post.items.value) == []
    ensures NewBill(post, today).items == []
    ensures NewBill(post, today).subtotal == 0.0
    ensures NewBill(post, today).taxAmount == 0.0
    ensures NewBill(post, today).discountAmount == 0.0
    ensures GetTotal(NewBill(post, today)) == 0.0
  {
  }

  /** A rate that is zero, or not posted at all, contributes nothing to the total. */
  lemma ZeroRatesLeaveSubtotal(post: PostData, today: string)
    ensures post.taxRate.GetOr(0.0) == 0.0 ==> NewBill(post, today).taxAmount == 0.0
    ensures post.discount.GetOr(0.0) == 0.0 ==> NewBill(post, today).discountAmount == 0.0
    ensures post.taxRate.GetOr(0.0) == 0.0 && post.discount.GetOr(0.0) == 0.0 ==>
      GetTotal(NewBill(post, today)) == NewBill(post, today).subtotal
  {
  }

  /**
   * Defaults apply only to fields that were not posted: the customer becomes
   * "Customer", the date becomes today, the rates become 0. A customer name
   * posted as the empty string stays empty.
   */
  lemma Defaults(post: PostData, today: string)
    ensures post.customerName.None? ==> GetCustomerName(NewBill(post, today)) == "Customer"
    ensures post.customerName == Some("") ==> GetCustomerName(NewBill(post, today)) == ""
    ensures post.date.None? ==> NewBill(post, today).date == today
    ensures post.date.Some? ==> NewBill(post, today).date == post.date.value
    ensures post.taxRate.None? ==> NewBill(post, today).taxRate == 0.0
    ensures post.discount.None? ==> NewBill(post, today).discountRate == 0.0
    ensures post.taxRate.Some? ==> NewBill(post, today).taxRate == post.taxRate.value
    ensures post.discount.Some? ==> NewBill(post, today).discountRate == post.discount.value
  {
    var d := DefaultCustomerName;
    assert forall i :: 0 <= i < |d| ==> !IsSpecial(d[i]);
    PlainTextUnchanged(d);
  }

  /** A posted customer name comes back escaped, and decoding it recovers what was posted. */
  lemma CustomerNameRoundTrip(post: PostData, today: string)
    requires post.customerName.Some?
    ensures GetCustomerName(NewBill(post, today)) == Escape(post.customerName.value)
    ensures Unescape(GetCustomerName(NewBill(post, today))) == post.customerName.value
  {
    UnescapeEscape(post.customerName.value);
  }

  /** The two rows of the worked example are both kept and add up to 70. */
  lemma WorkedExampleItems(raws: seq<RawItem>)
    requires raws == [RawItem(Some("Pen"), Some(2), Some(10.0)), RawItem(Some("Book"), Some(1), Some(50.0))]
    ensures KeptItems(raws) == [ToItem(raws[0]), ToItem(raws[1])]
    ensures SumTotals(KeptItems(raws)) == 70.0
  {
    var pen, book := raws[0], raws[1];
    var penItem, bookItem := ToItem(pen), ToItem(book);
    assert raws == ([] + [pen]) + [book];
    KeptItemsSnoc([], pen);
    KeptItemsSnoc([pen], book);
    SumTotalsSnoc([], penItem);
    SumTotalsSnoc([penItem], bookItem);
    assert [penItem, bookItem] == ([] + [penItem]) + [bookItem];
  }

  /**
   * The worked example: a pen at 2 x 10.00 and a book at 1 x 50.00, GST 5%
   * and discount 10%, give subtotal 70.00, tax 3.50, discount 7.00 and total 66.50.
   */
  lemma WorkedExample(post: PostData, today: string)
    requires post.taxRate == Some(5.0) && post.discount == Some(10.0)
    requires post.items == Some([RawItem(Some("Pen"), Some(2), Some(10.0)),
                                 RawItem(Some("Book"), Some(1), Some(50.0))])
    ensures var b := NewBill(post, today);
      && |b.items| == 2
      && b.items[0].name == "Pen" && b.items[0].quantity == 2 && b.items[0].total == 20.0
      && b.items[1].name == "Book" && b.items[1].quantity == 1 && b.items[1].total == 50.0
      && b.subtotal == 70.0 && b.taxAmount == 3.5 && b.discountAmount == 7.0
      && GetTotal(b) == 66.5
  {
    var raws := post.items.value;
    WorkedExampleItems(raws);
    var pen, book := raws[0].name.value, raws[1].name.value;
    assert forall i :: 0 <= i < |pen| ==> !IsSpecial(pen[i]);
    assert forall i :: 0 <= i < |book| ==> !IsSpecial(book[i]);
    PlainTextUnchanged(pen);
    PlainTextUnchanged(book);
  }
}
