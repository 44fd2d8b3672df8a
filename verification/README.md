# Bill calculator — a Dafny model

This project models the `BillCalculator` class of `calculate.php`, the
invoice computation behind a small PHP billing form. It covers two things:

- **The constructor.** It takes the posted form fields and builds the bill.
  It keeps only the item rows that have a non-empty name and both a
  quantity and a price. Each kept row gets a line total of quantity × price.
  The line totals are summed in input order into the subtotal. GST and the
  discount are percentages of the subtotal, and the grand total is subtotal
  + GST − discount. Missing fields get defaults: the customer becomes
  `Customer`, the date becomes today, and both rates become 0.
- **The row structure of `generateBillHTML`.** The invoice is modelled as a
  list of rows, not as markup: one row per kept item, then the summary box.
  The summary box has a Subtotal row, a GST row only when the tax rate is
  positive, a Discount row only when the discount rate is positive, and
  the TOTAL row.

The accessors `getTotal` and `getCustomerName` are modelled too.

Modules:

- `Wrappers` (`wrappers.dfy`): `Option` for a posted field. `None` means the
  field is absent. `GetOr` is PHP's `??`.
- `HtmlEscape` (`html_escape.dfy`): `htmlspecialchars` with its default
  flags since PHP 8.1. That means `&`, `<`, `>`, `"` and `'` become
  `&amp;`, `&lt;`, `&gt;`, `&quot;` and `&#039;`. The module also has a
  decoder that inverts it, and PHP's `empty` test on strings.
- `BillCalculator` (`bill_calculator.dfy`): the posted form (`PostData`,
  `RawItem`), the kept `Item`, the constructed `Bill`, and the constructor.
  The constructor appears twice:
  - as one expression, `NewBill`;
  - statement by statement, as `Construct`, `ProcessItems` (the `foreach`)
    and `ProcessRow` (its body).
  `Construct` is proved equal to `NewBill`. `Valid` is the invariant that
  every constructed bill satisfies.
- `BillView` (`bill_view.dfy`): the invoice as `ItemRow`s and
  `SummaryRow`s.

Values enter the model already coerced. A quantity is the integer that
`intval` produced. A price or rate is the number that `floatval` produced.
Money is an exact `real`.

Two details of the code are easy to miss, and the model follows the code:

- An item whose name is `"0"` is dropped as well, because PHP's `empty`
  treats `"0"` as empty.
- The `Customer` default applies only when `customer_name` is absent. A
  customer name posted as the empty string stays empty (`Defaults`).

Two behaviours of the code are proved as stated:

- The posted date is shown without escaping, unlike every other piece of
  user text (`DateIsNotEscaped`).
- A negative tax rate is accepted, but it hides the GST row, and a negative
  discount rate hides the Discount row in the same way. The TOTAL still
  includes the hidden amount, so the rows shown add up to the TOTAL only when
  the subtotal is zero, or, with both rates negative, when the two rates are
  equal (`SummaryAddsUpIff`; a concrete case is `NegativeTaxRateHidesGst`).
  With rates that are not negative they always add up (`SummaryAddsUp`).

## Model

| member | source | states |
|---|---|---|
| Wrappers.Option.GetOr | calculate.php:18-21 | `??`: a posted field gives its own value, an absent one the default; `Defaults` states this for the date and both rates, and for an absent customer; `CustomerNameRoundTrip` for a posted customer |
| HtmlEscape.EscapeChar | calculate.php:18 | one of the five special characters becomes a reference starting with `&` of at least four characters; every other character is copied as itself |
| HtmlEscape.Escape | calculate.php:32 | `htmlspecialchars` never shortens its input; `EscapeConcat` and `EscapeOneChar` fix its output, and `UnescapeEscape`, `EscapeIsHtmlSafe`, `EscapeIdentity` and `EscapeLength` are its guarantees |
| HtmlEscape.EscapeConcat | calculate.php:18 | the escaping of a concatenation is the concatenation of the escapings, so text is escaped character by character |
| HtmlEscape.EscapeOneChar | calculate.php:32 | `&`, `<`, `>`, `"` and `'` become `&amp;`, `&lt;`, `&gt;`, `&quot;` and `&#039;`; every other character stays itself |
| HtmlEscape.IsPhpEmpty | calculate.php:26 | PHP's `empty` on a posted string holds for `""` and `"0"` only; its interaction with escaping is `EscapePreservesPhpEmpty` |
| HtmlEscape.EscapeIsHtmlSafe | calculate.php:32 | escaped text never contains a raw `<`, `>`, `"` or `'` |
| HtmlEscape.UnescapeEscape | calculate.php:18 | escaping loses nothing: decoding the five references gives back the original text |
| HtmlEscape.EscapeIdentity | calculate.php:18 | text comes through escaping unchanged if and only if it contains none of the five special characters |
| HtmlEscape.EscapeLength | calculate.php:32 | escaping lengthens text by at least three characters per special character it contains |
| HtmlEscape.EscapePreservesPhpEmpty | calculate.php:26-32 | an escaped name is PHP-empty exactly when the posted name was, so escaping after the `empty` test cannot produce an empty name |
| BillCalculator.IsKept | calculate.php:26 | the keep test `!empty(name) && isset(quantity) && isset(price)`; `KeptIndicesExact` proves a row is kept if and only if it holds |
| BillCalculator.ToItem | calculate.php:27-36 | a kept row's line item; `ToItemWellFormed` states its quantity, price, total = quantity × price and its non-empty HTML-safe name |
| BillCalculator.SumTotals | calculate.php:38 | the `+=` accumulation of line totals; `SumTotalsAppend` and `SubtotalIsSumOfKeptRows` relate it to an independent sum over the posted rows |
| BillCalculator.NewBill | calculate.php:17-51 | the constructor: with no `items` field the bill has no items, otherwise at most one item per posted row; `NewBillIsValid`, `KeptItemsAreKeptRowsInOrder`, `Defaults` and `CustomerNameRoundTrip` fix the rest of its result |
| BillCalculator.KeptItems | calculate.php:24-36 | the constructor's item list never has more entries than there were posted rows |
| BillCalculator.ToItemWellFormed | calculate.php:27-36 | a kept row's item has the posted quantity and price, a total of quantity × price, and a name that is non-empty and HTML-safe |
| BillCalculator.KeptItemsWellFormed | calculate.php:26-36 | every item in the list has total = quantity × price and a non-empty, HTML-safe name |
| BillCalculator.KeptIndicesExact | calculate.php:25-26 | the kept positions are valid, strictly increasing, and a posted row is among them if and only if its name is present and not `""` or `"0"` and its quantity and price are both present |
| BillCalculator.KeptItemsFollowIndices | calculate.php:25-36 | item k is built from the posted row at the k-th kept position |
| BillCalculator.KeptItemsAreKeptRowsInOrder | calculate.php:24-36 | the item list is exactly the kept rows, in input order, each turned into its line item; every other row is dropped |
| BillCalculator.KeptItemsAllKept | calculate.php:26 | there are as many items as posted rows if and only if every posted row passes the keep test |
| BillCalculator.KeptItemsAppend | calculate.php:25-39 | processing the rows in two batches gives the same items as one pass |
| BillCalculator.SumTotalsAppend | calculate.php:38 | the running sum of line totals over two lists is the sum of their sums |
| BillCalculator.SubtotalIsSumOfKeptRows | calculate.php:29-38 | the accumulated subtotal equals quantity × price summed over the kept posted rows, computed independently from the front |
| BillCalculator.SubtotalNonNegative | calculate.php:29-38 | if no kept row has a negative quantity or price, the subtotal is not negative |
| BillCalculator.NewBillIsValid | calculate.php:17-51 | every constructed bill satisfies the invariant: well-formed items, an HTML-safe customer name, subtotal = sum of line totals, tax = subtotal × rate / 100, discount = subtotal × rate / 100, total = subtotal + tax − discount |
| BillCalculator.ProcessRow | calculate.php:26-39 | one pass of the loop body extends the item list by the row's item exactly when the row is kept, and adds the row's quantity × price to the subtotal, or nothing for a dropped row |
| BillCalculator.ProcessItems | calculate.php:24-41 | the `foreach` over the posted rows produces exactly the kept items and their summed line totals |
| BillCalculator.Construct | calculate.php:17-51 | the statement-by-statement constructor, with its `isset` check on `items`, builds the same bill as `NewBill` |
| BillCalculator.GetTotal | calculate.php:118-120 | on a constructed bill, `getTotal` returns subtotal + tax − discount, which is the subtotal × (100 + tax rate − discount rate) / 100 |
| BillCalculator.GetCustomerName | calculate.php:122-124 | on a constructed bill, `getCustomerName` returns text that is safe to place in HTML |
| BillCalculator.NoItemsMeansZeroTotal | calculate.php:8-50 | with no `items` field, or no kept row, the item list is empty and the subtotal, tax, discount and total are all 0 |
| BillCalculator.ZeroRatesLeaveSubtotal | calculate.php:43-50 | a zero or absent tax rate gives zero tax, a zero or absent discount rate gives zero discount, and with both the total equals the subtotal |
| BillCalculator.Defaults | calculate.php:18-21 | absent customer becomes `Customer`, absent date becomes today, absent rates become 0; a customer posted as `""` stays `""`; a posted date and a posted tax or discount rate are kept as posted |
| BillCalculator.CustomerNameRoundTrip | calculate.php:18 | a posted customer name is stored as its escaping, and decoding the stored name gives back exactly the posted one |
| BillCalculator.WorkedExample | calculate.php:17-51 | Pen 2 × 10 and Book 1 × 50 with GST 5% and discount 10% give items totalling 20 and 50, subtotal 70, tax 3.5, discount 7 and total 66.5 |
| BillView.ItemRows | calculate.php:74-81 | one table row per line item, in order, showing its name, quantity, price and total; `InvoiceRowsAreKeptRows` states this end to end from the posted rows |
| BillView.SummaryRows | calculate.php:88-110 | the summary box has two to four rows, Subtotal first and TOTAL last; `SummaryShape` states the rest |
| BillView.GenerateBill | calculate.php:53-116 | the invoice has one item row per bill item; on a constructed bill its customer header is HTML-safe and each row's total is that row's quantity × price |
| BillView.InvoiceRowsAreKeptRows | calculate.php:74-81 | the item table has one row per kept posted row, in input order, showing the escaped name, the quantity, the price and quantity × price |
| BillView.SummaryShape | calculate.php:88-110 | the summary has Subtotal first and TOTAL last, each exactly once; a GST row if and only if the tax rate is positive; a Discount row if and only if the discount rate is positive; GST before Discount; nothing else |
| BillView.SummaryAmounts | calculate.php:93-105 | a GST or Discount row shows the bill's own rate and amount |
| BillView.TotalRowIsGetTotal | calculate.php:107-110 | for every bill, the TOTAL row shows exactly what `getTotal` returns |
| BillView.DisplayedSummary | calculate.php:88-110 | for every bill, the displayed rows add up to the subtotal, plus the tax only when GST is shown, minus the discount only when Discount is shown |
| BillView.SummaryAddsUpIff | calculate.php:44-110 | with a negative tax or discount rate the hidden row's amount still counts in the TOTAL, so the displayed rows add up exactly when the subtotal is zero, or, with both rates negative, when the rates are equal |
| BillView.SummaryAddsUp | calculate.php:88-110 | with rates that are not negative, Subtotal + GST − Discount as displayed equals the TOTAL |
| BillView.NegativeTaxRateHidesGst | calculate.php:93-98 | one item at 100 with tax rate −10 shows only Subtotal 100 and TOTAL 90, so the displayed rows do not add up |
| BillView.HeaderEscaping | calculate.php:57-58 | the customer line is always HTML-safe; the date line shows the posted date verbatim |
| BillView.DateIsNotEscaped | calculate.php:19 | a posted date containing `<` reaches the invoice unescaped |

## Left out

- The HTML/CSS page template and the client-side counter animation (calculate.php:139-354). They are presentation and a browser timer.
- The request-method check and the redirect (calculate.php:128-138). These are HTTP plumbing. The model starts from the posted fields.
- `intval` and `floatval`. Quantities arrive as the integer and prices and rates as the number these produce. A field that is posted but not numeric is therefore a present field with value 0, which the model takes as given.
- `number_format(x, 2)` and IEEE floating point. Amounts are exact reals, so rounding to cents and float error are not modelled.
- Literal markup, labels and styling. Rows are abstract; the GST and Discount labels' percentage is the row's `rate` field.
- `date('Y-m-d')` is a clock read. It becomes the parameter `today`.
- `htmlspecialchars` follows PHP 8.1 and later. Earlier PHP versions leave `'` unescaped by default. Invalid UTF-8 substitution does not apply to `seq<char>` text.
- Input that is not a string where one is expected. The model's fields are already strings and numbers, so it does not cover:
  - a `customer_name` or item `name` posted as an array, which makes `htmlspecialchars` throw a `TypeError` and ends the request;
  - a quantity, price, `tax_rate` or `discount` posted as an array, which `intval`/`floatval` silently turn into 0 or 1;
  - an `items` value that is not an array, for which `foreach` warns and processes nothing.
  A row that is itself not an array fails the keep test without a warning; the model expresses it as `RawItem(None, None, None)`, which is dropped.
- GetCustomerName: its contract states only that the result is HTML-safe. The exact stored name is stated by `CustomerNameRoundTrip` (the escaping of a posted name) and `Defaults` (`Customer` when absent).
