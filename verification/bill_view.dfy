/**
 * The structure of `generateBillHTML`: the invoice as a list of rows rather
 * than markup. Styling, literal text and `number_format` rounding are not
 * modelled; amounts are the exact values of the bill.
 */
module BillView {
  import opened Wrappers
  import opened HtmlEscape
  import opened BillCalculator

  /** One table row per line item. */
  datatype ItemRow = ItemRow(name: string, quantity: int, price: real, total: real)

  /** The rows of the summary box. */
  datatype SummaryRow =
    | SubtotalRow(amount: real)
    | GstRow(rate: real, amount: real)
    | DiscountRow(rate: real, amount: real)
    | TotalRow(amount: real)

  /** The header (customer and date), the item table and the summary box. */
  datatype Invoice = Invoice(customer: string, date: string, rows: seq<ItemRow>, summary: seq<SummaryRow>)

  function RowOf(it: Item): ItemRow {
    ItemRow(it.name, it.quantity, it.price, it.total)
  }

  function ItemRows(items: seq<Item>): seq<ItemRow> {
    seq(|items|, k requires 0 <= k < |items| => RowOf(items[k]))
  }

  /** The summary box: Subtotal, then GST and Discount when their rates are positive, then TOTAL. */
  function SummaryRows(b: Bill): (s: seq<SummaryRow>)
    ensures 2 <= |s| <= 4
    ensures s[0] == SubtotalRow(b.subtotal) && s[|s| - 1] == TotalRow(b.total)
  {
    [SubtotalRow(b.subtotal)]
    + (if b.taxRate > 0.0 then [GstRow(b.taxRate, b.taxAmount)] else [])
    + (if b.discountRate > 0.0 then [DiscountRow(b.discountRate, b.discountAmount)] else [])
    + [TotalRow(b.total)]
  }

  /**
   * `generateBillHTML`, row by row. On a constructed bill the header's
   * customer is HTML-safe and every item row shows quantity × price as its
   * total.
   */
  function GenerateBill(b: Bill): (inv: Invoice)
    ensures |inv.rows| == |b.items|
    ensures Valid(b) ==> IsHtmlSafe(inv.customer)
    ensures Valid(b) ==> forall k :: 0 <= k < |inv.rows| ==>
      inv.rows[k].total == inv.rows[k].quantity as real * inv.rows[k].price
  {
    Invoice(b.customerName, b.date, ItemRows(b.items), SummaryRows(b))
  }

  predicate HasGst(summary: seq<SummaryRow>) {
    exists j :: 0 <= j < |summary| && summary[j].GstRow?
  }

  predicate HasDiscount(summary: seq<SummaryRow>) {
    exists j :: 0 <= j < |summary| && summary[j].DiscountRow?
  }

  /**
   * The shape of the summary box: the Subtotal row first and the TOTAL row
   * last, each exactly once; a GST row if and only if the tax rate is
   * positive and a Discount row if and only if the discount rate is
   * positive, GST before Discount; nothing else.
   */
  lemma SummaryShape(b: Bill)
    ensures var s := SummaryRows(b);
      && |s| == 2 + (if b.taxRate > 0.0 then 1 else 0) + (if b.discountRate > 0.0 then 1 else 0)
      && s[0] == SubtotalRow(b.subtotal)
      && s[|s| - 1] == TotalRow(b.total)
      && (forall j :: 0 <= j < |s| && s[j].SubtotalRow? ==> j == 0)
      && (forall j :: 0 <= j < |s| && s[j].TotalRow? ==> j == |s| - 1)
      && (HasGst(s) <==> b.taxRate > 0.0)
      && (HasDiscount(s) <==> b.discountRate > 0.0)
      && (forall i, j :: 0 <= i < |s| && 0 <= j < |s| && s[i].GstRow? && s[j].DiscountRow? ==> i < j)
  {
    var s := SummaryRows(b);
    if b.taxRate > 0.0 {
      assert s[1].GstRow?;
    }
    if b.discountRate > 0.0 {
      assert s[|s| - 2].DiscountRow?;
    }
  }

  /** The GST and Discount rows carry the bill's own rate and amount. */
  lemma SummaryAmounts(b: Bill)
    ensures forall j :: 0 <= j < |SummaryRows(b)| && SummaryRows(b)[j].GstRow? ==>
      SummaryRows(b)[j] == GstRow(b.taxRate, b.taxAmount)
    ensures forall j :: 0 <= j < |SummaryRows(b)| && SummaryRows(b)[j].DiscountRow? ==>
      SummaryRows(b)[j] == DiscountRow(b.discountRate, b.discountAmount)
  {
  }

  /** The TOTAL row shows exactly what `getTotal` returns. */
  lemma TotalRowIsGetTotal(b: Bill)
    ensures SummaryRows(b)[|SummaryRows(b)| - 1] == TotalRow(GetTotal(b))
  {
  }

  /** What a reader of the summary box computes: subtotal, plus GST, minus discount. */
  function DisplayedNet(summary: seq<SummaryRow>): real
    decreases |summary|
  {
    if |summary| == 0 then 0.0
    else
      var here := match summary[0]
        case SubtotalRow(a) => a
        case GstRow(_, a) => a
        case DiscountRow(_, a) => -a
        case TotalRow(_) => 0.0;
      here + DisplayedNet(summary[1..])
  }

  /**
   * What the summary box adds up to: the subtotal, plus the tax amount when
   * the GST row is shown, minus the discount amount when the Discount row is
   * shown.
   */
  lemma DisplayedSummary(b: Bill)
    ensures DisplayedNet(SummaryRows(b)) ==
      b.subtotal + (if b.taxRate > 0.0 then b.taxAmount else 0.0)
                 - (if b.discountRate > 0.0 then b.discountAmount else 0.0)
  {
    var s := SummaryRows(b);
    var gst := if b.taxRate > 0.0 then [GstRow(b.taxRate, b.taxAmount)] else [];
    var disc := if b.discountRate > 0.0 then [DiscountRow(b.discountRate, b.discountAmount)] else [];
    var tail := disc + [TotalRow(b.total)];
    assert s == [SubtotalRow(b.subtotal)] + (gst + tail);
    assert DisplayedNet([TotalRow(b.total)]) == 0.0;
    if b.discountRate > 0.0 {
      assert tail[1..] == [TotalRow(b.total)];
      assert DisplayedNet(tail) == -b.discountAmount;
    } else {
      assert tail == [TotalRow(b.total)];
    }
    if b.taxRate > 0.0 {
      assert (gst + tail)[1..] == tail;
      assert DisplayedNet(gst + tail) == b.taxAmount + DisplayedNet(tail);
    } else {
      assert gst + tail == tail;
    }
    assert s[1..] == gst + tail;
  }

  /**
   * With rates that are not negative the summary box adds up: the rows shown
   * above TOTAL give the TOTAL. A zero rate hides its row, and its amount is
   * zero then.
   */
  lemma SummaryAddsUp(b: Bill)
    requires Valid(b)
    requires b.taxRate >= 0.0 && b.discountRate >= 0.0
    ensures DisplayedNet(SummaryRows(b)) == GetTotal(b)
  {
    DisplayedSummary(b);
    if b.taxRate == 0.0 {
      assert b.taxAmount == 0.0;
    }
    if b.discountRate == 0.0 {
      assert b.discountAmount == 0.0;
    }
  }

  /**
   * A negative rate is accepted but hides its row. The summary box then adds
   * up exactly when the hidden amount is zero: when the subtotal is zero, or,
   * with both rates negative, when the two rates are equal.
   */
  lemma SummaryAddsUpIff(b: Bill)
    requires Valid(b)
    ensures b.taxRate < 0.0 && b.discountRate >= 0.0 ==>
      (DisplayedNet(SummaryRows(b)) == GetTotal(b) <==> b.subtotal == 0.0)
    ensures b.taxRate >= 0.0 && b.discountRate < 0.0 ==>
      (DisplayedNet(SummaryRows(b)) == GetTotal(b) <==> b.subtotal == 0.0)
    ensures b.taxRate < 0.0 && b.discountRate < 0.0 ==>
      (DisplayedNet(SummaryRows(b)) == GetTotal(b) <==> b.subtotal == 0.0 || b.taxRate == b.discountRate)
  {
    DisplayedSummary(b);
    var st, t, d := b.subtotal, b.taxRate, b.discountRate;
    if t == 0.0 {
      assert b.taxAmount == 0.0;
    }
    if d == 0.0 {
      assert b.discountAmount == 0.0;
    }
    if st != 0.0 && t < 0.0 {
      assert st * t != 0.0;
    }
    if st != 0.0 && d < 0.0 {
      assert st * d != 0.0;
    }
    if t < 0.0 && d < 0.0 {
      assert DisplayedNet(SummaryRows(b)) == st;
      assert GetTotal(b) - st == st * (t - d) / 100.0;
      if st != 0.0 && t != d {
        assert st * (t - d) != 0.0;
      }
    }
  }

  /**
   * A negative tax rate is accepted but hides the GST row, so the rows shown
   * no longer add up to the TOTAL: one item at 100 with a tax rate of -10
   * and no discount shows Subtotal 100 and TOTAL 90.
   */
  lemma NegativeTaxRateHidesGst(post: PostData, today: string)
    requires post.taxRate == Some(-10.0) && post.discount.None?
    requires post.items == Some([RawItem(Some("Lamp"), Some(1), Some(100.0))])
    ensures SummaryRows(NewBill(post, today)) == [SubtotalRow(100.0), TotalRow(90.0)]
    ensures DisplayedNet(SummaryRows(NewBill(post, today))) != GetTotal(NewBill(post, today))
  {
    var lamp := RawItem(Some("Lamp"), Some(1), Some(100.0));
    var it := ToItem(lamp);
    assert it.total == 100.0;
    KeptItemsSnoc([], lamp);
    assert [] + [lamp] == [lamp];
    SumTotalsSnoc([], it);
    assert [] + [it] == [it];
    var b := NewBill(post, today);
    assert b.items == [it];
    assert b.subtotal == 100.0;
    assert b.total == 90.0;
    var s := [SubtotalRow(100.0), TotalRow(90.0)];
    assert s[1..] == [TotalRow(90.0)];
    assert DisplayedNet(s) == 100.0;
  }

  /**
   * End to end: the item table has one row per kept posted row, in input
   * order, each showing the escaped name, the quantity, the price and
   * quantity times price.
   */
  lemma InvoiceRowsAreKeptRows(post: PostData, today: string)
    requires post.items.Some?
    ensures var inv := GenerateBill(NewBill(post, today));
      var raws := post.items.value;
      var idx := KeptIndices(raws);
      && |inv.rows| == |idx| <= |raws|
      && (forall k :: 0 <= k < |idx| ==>
            idx[k] < |raws| && IsKept(raws[idx[k]])
            && inv.rows[k] == ItemRow(Escape(raws[idx[k]].name.value), raws[idx[k]].quantity.value,
                 raws[idx[k]].price.value, raws[idx[k]].quantity.value as real * raws[idx[k]].price.value))
      && (forall k, l :: 0 <= k < l < |idx| ==> idx[k] < idx[l])
      && (forall i :: 0 <= i < |raws| ==> (IsKept(raws[i]) <==> i in idx))
  {
    KeptItemsAreKeptRowsInOrder(post.items.value);
  }

  /** The customer line is always safe HTML, while the date is shown verbatim as posted. */
  lemma HeaderEscaping(post: PostData, today: string)
    ensures IsHtmlSafe(GenerateBill(NewBill(post, today)).customer)
    ensures post.date.Some? ==> GenerateBill(NewBill(post, today)).date == post.date.value
  {
    NewBillIsValid(post, today);
  }

  /** Concretely, a posted date holding markup reaches the page unescaped. */
  lemma DateIsNotEscaped(post: PostData, today: string)
    requires post.date == Some("<b>")
    ensures !IsHtmlSafe(GenerateBill(NewBill(post, today)).date)
  {
    var d := GenerateBill(NewBill(post, today)).date;
    assert d == "<b>";
    assert d[0] == '<';
  }
}
