/**
 * The customer's window (`CashierPanel`): the "My Bag" table with its `+`
 * and `-` buttons, "Add to Bag", and "Finish Order", which appends the
 * order to the sales, transactions, `orders.csv` and `order_items.csv`
 * files and empties the bag.
 *
 * Prices and line totals are whole cents; the quantity is a Java `int`.
 * The files are not written here: `FinishOrder` returns the lines it would
 * append, and the clock is the `now` parameter.
 */
module Cashier {
  import opened Wrappers
  import opened JavaText
  import opened Csv
  import opened Money
  import opened Dates
  import opened TopSellers
  import opened SalesBuckets

  /** A row of the bag table: item, unit price in cents, quantity. */
  datatype BagRow = BagRow(item: string, price: int, qty: int)

  /** No item is listed twice. */
  ghost predicate UniqueItems(rows: seq<BagRow>) {
    forall i, j :: 0 <= i < j < |rows| ==> rows[i].item != rows[j].item
  }

  /** Every quantity is a positive `int`. */
  ghost predicate PositiveQuantities(rows: seq<BagRow>) {
    forall i :: 0 <= i < |rows| ==> 1 <= rows[i].qty <= MaxInt32
  }

  /** The first row holding `item`, as `addToBag` scans for it. */
  function FindItem(rows: seq<BagRow>, item: string): (r: Option<nat>)
    ensures r.Some? ==> r.value < |rows| && rows[r.value].item == item
    ensures r.Some? ==> forall k :: 0 <= k < r.value ==> rows[k].item != item
    ensures r.None? ==> forall k :: 0 <= k < |rows| ==> rows[k].item != item
  {
    if rows == [] then None
    else if rows[0].item == item then Some(0)
    else match FindItem(rows[1..], item)
      case None => None
      case Some(i) => Some(i + 1)
  }

  /** How many of `item` the bag holds: 0 when it is not listed. */
  function QtyOf(rows: seq<BagRow>, item: string): int {
    match FindItem(rows, item)
    case None => 0
    case Some(i) => rows[i].qty
  }

  /** `setValueAt(qty + 1, row, 2)` on an `int` quantity. */
  function Bump(r: BagRow): BagRow {
    r.(qty := Wrap32(r.qty + 1))
  }

  /** The bag after `addToBag(item, price)`. */
  function AddedToBag(rows: seq<BagRow>, item: string, price: int): seq<BagRow> {
    match FindItem(rows, item)
    case Some(i) => rows[i := Bump(rows[i])]
    case None => rows + [BagRow(item, price, 1)]
  }

  /** The bag after `+` with `row` selected (-1: nothing selected). */
  function Plussed(rows: seq<BagRow>, row: int): seq<BagRow>
    requires row == -1 || 0 <= row < |rows|
  {
    if row == -1 then rows else rows[row := Bump(rows[row])]
  }

  /** The bag after `-` with `row` selected: one fewer, and the row goes when its quantity is 1 or less. */
  function Minussed(rows: seq<BagRow>, row: int): seq<BagRow>
    requires row == -1 || 0 <= row < |rows|
  {
    if row == -1 then rows
    else if rows[row].qty > 1 then rows[row := rows[row].(qty := rows[row].qty - 1)]
    else rows[..row] + rows[row + 1..]
  }

  // ---------------------------------------------------------------- finishing an order

  /** `price * qty`. */
  function LineTotal(r: BagRow): int {
    r.price * r.qty
  }

  /** The sum of the line totals. */
  function BagTotal(rows: seq<BagRow>): int {
    if rows == [] then 0 else BagTotal(rows[..|rows| - 1]) + LineTotal(rows[|rows| - 1])
  }

  /** `item x qty - lineTotal` and a newline. */
  function ReceiptLine(r: BagRow): string {
    r.item + " x" + IntToString(r.qty) + " - " + FormatCents(LineTotal(r)) + "\n"
  }

  /** `head` followed by the receipt line of every row. */
  function Receipt(head: string, rows: seq<BagRow>): string {
    if rows == [] then head else Receipt(head, rows[..|rows| - 1]) + ReceiptLine(rows[|rows| - 1])
  }

  /** The `order_items.csv` line of one row. */
  function ItemLine(stamp: string, r: BagRow): string {
    ItemRow(stamp, r.item, IntToString(r.qty), FormatCents(LineTotal(r)))
  }

  /** The `order_items.csv` lines of the rows, in bag order. */
  function ItemLines(stamp: string, rows: seq<BagRow>): (r: seq<string>)
    ensures |r| == |rows|
  {
    if rows == [] then [] else ItemLines(stamp, rows[..|rows| - 1]) + [ItemLine(stamp, rows[|rows| - 1])]
  }

  /**
   * What "Finish Order" appends: the legacy sales line `customer,total`,
   * the receipt (written to the transactions file), the `orders.csv` line
   * and the `order_items.csv` lines.
   */
  datatype OrderRecord = OrderRecord(salesLine: string, receipt: string, orderLine: string, itemLines: seq<string>)

  function RecordOf(rows: seq<BagRow>, customer: string, stamp: string): OrderRecord {
    var total := BagTotal(rows);
    OrderRecord(
      customer + "," + FormatCents(total),
      Receipt("Receipt for " + customer + "\n", rows) + "TOTAL: " + FormatCents(total) + "\n",
      OrderRow(stamp, customer, FormatCents(total)),
      ItemLines(stamp, rows))
  }

  lemma BagStep(rows: seq<BagRow>, i: nat, head: string)
    requires i < |rows|
    ensures BagTotal(rows[..i + 1]) == BagTotal(rows[..i]) + LineTotal(rows[i])
    ensures Receipt(head, rows[..i + 1]) == Receipt(head, rows[..i]) + ReceiptLine(rows[i])
    ensures forall stamp :: ItemLines(stamp, rows[..i + 1]) == ItemLines(stamp, rows[..i]) + [ItemLine(stamp, rows[i])]
  {
    assert rows[..i + 1][..i] == rows[..i];
  }

  /** One `order_items.csv` line per bag row, in bag order. */
  lemma {:induction false} ItemLinesAt(stamp: string, rows: seq<BagRow>, i: nat)
    requires i < |rows|
    ensures ItemLines(stamp, rows)[i] == ItemLine(stamp, rows[i])
  {
    var init := rows[..|rows| - 1];
    if i < |init| {
      ItemLinesAt(stamp, init, i);
      var a := ItemLines(stamp, init);
      assert ItemLines(stamp, rows) == a + [ItemLine(stamp, rows[|rows| - 1])];
      assert (a + [ItemLine(stamp, rows[|rows| - 1])])[i] == a[i];
    }
  }

  // ---------------------------------------------------------------- finding rows

  lemma FindFirst(rows: seq<BagRow>, item: string, i: nat)
    requires i < |rows| && rows[i].item == item
    requires forall k :: 0 <= k < i ==> rows[k].item != item
    ensures FindItem(rows, item) == Some(i)
  {
  }

  /** In a bag without repeated items, the row holding an item is the one found. */
  lemma FindUnique(rows: seq<BagRow>, item: string, i: nat)
    requires UniqueItems(rows) && i < |rows| && rows[i].item == item
    ensures FindItem(rows, item) == Some(i)
    ensures QtyOf(rows, item) == rows[i].qty
  {
    FindFirst(rows, item, i);
  }

  /** An item on no row has quantity 0. */
  lemma QtyAbsent(rows: seq<BagRow>, item: string)
    requires forall k :: 0 <= k < |rows| ==> rows[k].item != item
    ensures QtyOf(rows, item) == 0
  {
  }

  /** Rows listing the same items in the same order are searched alike. */
  lemma {:induction false} FindSameItems(a: seq<BagRow>, b: seq<BagRow>, item: string)
    requires |a| == |b| && forall k :: 0 <= k < |a| ==> a[k].item == b[k].item
    ensures FindItem(a, item) == FindItem(b, item)
  {
    if a != [] && a[0].item != item {
      FindSameItems(a[1..], b[1..], item);
    }
  }

  /** The quantity of `item` in a bag with one more row at the end. */
  lemma QtyOfSnoc(rows: seq<BagRow>, item: string)
    requires rows != [] && UniqueItems(rows)
    ensures QtyOf(rows, item) ==
      QtyOf(rows[..|rows| - 1], item) + if rows[|rows| - 1].item == item then rows[|rows| - 1].qty else 0
  {
    var init, n := rows[..|rows| - 1], |rows| - 1;
    if rows[n].item == item {
      FindUnique(rows, item, n);
      forall k | 0 <= k < n ensures init[k].item != item {
        assert init[k] == rows[k];
      }
      QtyAbsent(init, item);
    } else {
      match FindItem(init, item)
      case None =>
        forall k | 0 <= k < |rows| ensures rows[k].item != item {
          if k < n { assert rows[k] == init[k]; }
        }
        QtyAbsent(rows, item);
      case Some(i) =>
        FindUnique(rows, item, i);
    }
  }

  // ---------------------------------------------------------------- what the bag operations keep

  /**
   * "Add to Bag" on a bag without repeats: a listed item gets one more (and
   * keeps its first price), a new item gets a row of its own at the end with
   * quantity 1; no other item's quantity moves and the bag stays without
   * repeats and with positive quantities.
   */
  lemma AddToBagEffect(rows: seq<BagRow>, item: string, price: int)
    requires UniqueItems(rows) && PositiveQuantities(rows)
    requires QtyOf(rows, item) < MaxInt32
    ensures var r := AddedToBag(rows, item, price);
      && UniqueItems(r) && PositiveQuantities(r)
      && QtyOf(r, item) == QtyOf(rows, item) + 1
      && (forall x :: x != item ==> QtyOf(r, x) == QtyOf(rows, x))
      && (forall k :: 0 <= k < |rows| && rows[k].item != item ==> r[k] == rows[k])
      && (FindItem(rows, item).Some? ==> |r| == |rows| && r[FindItem(rows, item).value].price == rows[FindItem(rows, item).value].price)
      && (FindItem(rows, item).None? ==> r == rows + [BagRow(item, price, 1)])
  {
    match FindItem(rows, item)
    case Some(i) => AddExisting(rows, item, price, i);
    case None => AddNew(rows, item, price);
  }

  lemma AddExisting(rows: seq<BagRow>, item: string, price: int, i: nat)
    requires UniqueItems(rows) && PositiveQuantities(rows)
    requires FindItem(rows, item) == Some(i) && rows[i].qty < MaxInt32
    ensures var r := AddedToBag(rows, item, price);
      && r == rows[i := rows[i].(qty := rows[i].qty + 1)]
      && UniqueItems(r) && PositiveQuantities(r)
      && QtyOf(r, item) == QtyOf(rows, item) + 1
      && (forall x :: x != item ==> QtyOf(r, x) == QtyOf(rows, x))
  {
    var r := AddedToBag(rows, item, price);
    assert r == rows[i := rows[i].(qty := rows[i].qty + 1)];
    FindSameItems(r, rows, item);
    forall x | x != item ensures QtyOf(r, x) == QtyOf(rows, x) {
      FindSameItems(r, rows, x);
    }
  }

  lemma AddNew(rows: seq<BagRow>, item: string, price: int)
    requires UniqueItems(rows) && PositiveQuantities(rows)
    requires FindItem(rows, item).None?
    ensures var r := AddedToBag(rows, item, price);
      && r == rows + [BagRow(item, price, 1)]
      && UniqueItems(r) && PositiveQuantities(r)
      && QtyOf(r, item) == 1
      && (forall x :: x != item ==> QtyOf(r, x) == QtyOf(rows, x))
  {
    var r := AddedToBag(rows, item, price);
    assert r[|rows|].item == item;
    FindUnique(r, item, |rows|);
    assert r[..|r| - 1] == rows;
    forall x | x != item ensures QtyOf(r, x) == QtyOf(rows, x) {
      QtyOfSnoc(r, x);
    }
  }

  /** The `+` button: nothing without a selection, otherwise one more of the selected item only. */
  lemma PlusEffect(rows: seq<BagRow>, row: int)
    requires UniqueItems(rows) && PositiveQuantities(rows)
    requires row == -1 || (0 <= row < |rows| && rows[row].qty < MaxInt32)
    ensures row == -1 ==> Plussed(rows, row) == rows
    ensures var r := Plussed(rows, row);
      && UniqueItems(r) && PositiveQuantities(r) && |r| == |rows|
      && (forall k :: 0 <= k < |rows| && k != row ==> r[k] == rows[k])
      && (row != -1 ==> QtyOf(r, rows[row].item) == rows[row].qty + 1)
      && (row != -1 ==> forall x :: x != rows[row].item ==> QtyOf(r, x) == QtyOf(rows, x))
  {
    if row != -1 {
      var r := Plussed(rows, row);
      FindUnique(r, rows[row].item, row);
      forall x | x != rows[row].item ensures QtyOf(r, x) == QtyOf(rows, x) {
        FindSameItems(r, rows, x);
      }
    }
  }

  /**
   * The `-` button: nothing without a selection, otherwise one fewer of the
   * selected item, whose row is gone exactly when its quantity was 1; no
   * other item's quantity moves and the remaining rows keep their order.
   */
  lemma MinusEffect(rows: seq<BagRow>, row: int)
    requires UniqueItems(rows) && PositiveQuantities(rows)
    requires row == -1 || 0 <= row < |rows|
    ensures row == -1 ==> Minussed(rows, row) == rows
    ensures var r := Minussed(rows, row);
      && UniqueItems(r) && PositiveQuantities(r)
      && (row != -1 ==> QtyOf(r, rows[row].item) == rows[row].qty - 1)
      && (row != -1 ==> (FindItem(r, rows[row].item).Some? <==> rows[row].qty > 1))
      && (row != -1 ==> forall x :: x != rows[row].item ==> QtyOf(r, x) == QtyOf(rows, x))
    ensures var r := Minussed(rows, row);
      row != -1 && rows[row].qty > 1 ==>
        && |r| == |rows| && r[row] == rows[row].(qty := rows[row].qty - 1)
        && forall k :: 0 <= k < |rows| && k != row ==> r[k] == rows[k]
    ensures var r := Minussed(rows, row);
      row != -1 && rows[row].qty <= 1 ==>
        && |r| == |rows| - 1
        && (forall k :: 0 <= k < row ==> r[k] == rows[k])
        && (forall k :: row <= k < |r| ==> r[k] == rows[k + 1])
  {
    if row != -1 {
      var r := Minussed(rows, row);
      var item := rows[row].item;
      if rows[row].qty > 1 {
        FindUnique(r, item, row);
        forall x | x != item ensures QtyOf(r, x) == QtyOf(rows, x) {
          FindSameItems(r, rows, x);
        }
      } else {
        RemoveRow(rows, row);
      }
    }
  }

  /** Removing a row of a bag without repeats takes its item out and leaves every other count. */
  lemma RemoveRow(rows: seq<BagRow>, row: nat)
    requires UniqueItems(rows) && PositiveQuantities(rows) && row < |rows|
    ensures var r := rows[..row] + rows[row + 1..];
      && UniqueItems(r) && PositiveQuantities(r)
      && FindItem(r, rows[row].item).None?
      && |r| == |rows| - 1
      && (forall k :: 0 <= k < row ==> r[k] == rows[k])
      && (forall k :: row <= k < |r| ==> r[k] == rows[k + 1])
      && forall x :: x != rows[row].item ==> QtyOf(r, x) == QtyOf(rows, x)
  {
    var r := rows[..row] + rows[row + 1..];
    var item := rows[row].item;
    assert forall k :: 0 <= k < row ==> r[k] == rows[k];
    assert forall k :: row <= k < |r| ==> r[k] == rows[k + 1];
    assert UniqueItems(r);
    forall x | x != item ensures QtyOf(r, x) == QtyOf(rows, x) {
      match FindItem(rows, x)
      case None =>
        QtyAbsent(r, x);
      case Some(i) =>
        if i < row {
          assert r[i] == rows[i];
          FindUnique(r, x, i);
        } else {
          assert i != row && r[i - 1] == rows[i];
          FindUnique(r, x, i - 1);
        }
    }
  }

  // ---------------------------------------------------------------- reading the files back

  lemma DigitsPlain(s: string)
    requires AllDigits(s)
    ensures Plain(s)
  {
    forall k | 0 <= k < |s| ensures s[k] != Quote && s[k] != Comma {
      assert IsDigit(s[k]);
    }
  }

  lemma IntTextPlain(n: int)
    ensures Plain(IntToString(n))
    ensures Plain(Format02(n))
  {
    NatToStringDigits(if n < 0 then -n else n);
    DigitsPlain(NatToString(if n < 0 then -n else n));
  }

  /** The amounts `%.2f` writes hold neither a comma nor a quote. */
  lemma CentsTextPlain(cents: int)
    ensures Plain(FormatCents(cents))
  {
    var a: nat := if cents < 0 then -cents else cents;
    NatToStringDigits(a / 100);
    DigitsPlain(NatToString(a / 100));
    IntTextPlain(a % 100);
  }

  lemma YearTextPlain(y: int)
    ensures Plain(YearText(y))
  {
    if -1000 < y < 1000 {
      var a: nat := if y < 0 then -y else y;
      NatToStringDigits(a + 10000);
      var d := NatToString(a + 10000);
      assert AllDigits(d[1..]) by {
        forall k | 0 <= k < |d[1..]| ensures IsDigit(d[1..][k]) {
          assert d[1..][k] == d[k + 1];
        }
      }
      DigitsPlain(d[1..]);
    } else if y > 9999 {
      NatToStringDigits(y);
      DigitsPlain(NatToString(y));
    } else {
      IntTextPlain(y);
    }
  }

  lemma FractionTextPlain(nano: nat)
    ensures Plain(FractionText(nano))
  {
    if nano != 0 {
      NatToStringDigits(nano);
      var p := Pad9(nano);
      assert AllDigits(p);
      var z := StripZeros(p);
      assert AllDigits(z) by {
        forall k | 0 <= k < |z| ensures IsDigit(z[k]) {
          assert z[k] == p[k];
        }
      }
      DigitsPlain(z);
    }
  }

  /** The `ISO_LOCAL_DATE_TIME` stamp holds neither a comma nor a quote. */
  lemma StampPlain(t: LocalDateTime)
    requires t.nano >= 0
    ensures Plain(DateTimeText(t))
  {
    YearTextPlain(t.date.year);
    IntTextPlain(t.date.month);
    IntTextPlain(t.date.day);
    IntTextPlain(t.hour);
    IntTextPlain(t.minute);
    IntTextPlain(t.second);
    FractionTextPlain(t.nano);
  }

  /**
   * The `orders.csv` line of a finished order, read back by the chart: the
   * stamp, the customer as `unescape` returns it (the name itself unless it
   * is wrapped in quotes; a throw for the lone quote), and the bag total.
   */
  lemma OrderLineReadBack(rows: seq<BagRow>, customer: string, now: LocalDateTime)
    requires ValidDateTime(now)
    ensures var o := ReadOrderLine(RecordOf(rows, customer, DateTimeText(now)).orderLine);
      && (o.Crash? <==> customer == [Quote])
      && (o.Order? ==> o.stamp == DateTimeText(now) && o.cents == BagTotal(rows) && Unescape(customer) == Some(o.customer))
      && (!QuoteWrapped(customer) ==> o == Order(DateTimeText(now), customer, BagTotal(rows)))
  {
    var stamp, total := DateTimeText(now), BagTotal(rows);
    var line := RecordOf(rows, customer, stamp).orderLine;
    assert line == OrderRow(stamp, customer, FormatCents(total));
    StampPlain(now);
    CentsTextPlain(total);
    ParseFormatCents(total, 0);
    OrderRowRoundTrip(stamp, customer, FormatCents(total));
    var o := ReadOrderLine(line);
    assert o == match Unescape(customer) case None => OrderOutcome.Crash case Some(c) => Order(stamp, c, total);
  }

  /** The chart files an order written at `now` under the period of `now`. */
  lemma StampPeriod(now: LocalDateTime, view: View, weekOf: WeekRule, fallback: LocalDateTime)
    requires ValidDateTime(now) && 0 <= now.date.year <= 9999
    ensures PeriodRule(view, weekOf, fallback)(DateTimeText(now)) == BucketKey(now, view, weekOf)
  {
    ParseDateTimeText(now);
  }

  /** The four fields of an `order_items.csv` line, as parsing returns them. */
  lemma ItemLineFields(stamp: string, r: BagRow)
    requires Plain(stamp)
    ensures ParseLine(ItemLine(stamp, r)) == [stamp, r.item, IntToString(r.qty), FormatCents(LineTotal(r))]
  {
    IntTextPlain(r.qty);
    CentsTextPlain(LineTotal(r));
    ItemRowRoundTrip(stamp, r.item, IntToString(r.qty), FormatCents(LineTotal(r)));
  }

  /**
   * An `order_items.csv` line read back by the top-sellers table: the item as
   * `unescape` returns it, and the row's quantity.
   */
  lemma ItemLineReadBack(stamp: string, r: BagRow)
    requires Plain(stamp) && IsInt32(r.qty)
    ensures var o := ReadItemLine(ItemLine(stamp, r));
      && (o.Crash? <==> r.item == [Quote])
      && (o.Sold? ==> o.qty == r.qty && Unescape(r.item) == Some(o.item))
      && (!QuoteWrapped(r.item) ==> o == Sold(r.item, r.qty))
  {
    ItemLineFields(stamp, r);
    ParseIntSafeOfIntToString(r.qty, 0);
    var o := ReadItemLine(ItemLine(stamp, r));
    assert o == match Unescape(r.item) case None => LineOutcome.Crash case Some(item) => LineOutcome.Sold(item, r.qty);
  }

  /** The fourth field of an `order_items.csv` line reads back as the line total. */
  lemma ItemLineAmount(stamp: string, r: BagRow)
    requires Plain(stamp)
    ensures var p := ParseLine(ItemLine(stamp, r));
      |p| == 4 && ParseCentsSafe(p[3], 0) == LineTotal(r)
  {
    ItemLineFields(stamp, r);
    ParseFormatCents(LineTotal(r), 0);
  }

  lemma OutcomesSnoc(lines: seq<string>, l: string)
    ensures Outcomes(lines + [l]) == Outcomes(lines) + [ReadItemLine(l)]
  {
    assert (lines + [l])[..|lines|] == lines;
  }

  lemma QtySumSnoc(os: seq<LineOutcome>, o: LineOutcome, x: string)
    ensures QtySum(os + [o], x) == QtySum(os, x) + if o.Sold? && o.item == x then o.qty else 0
  {
    assert (os + [o])[..|os|] == os;
  }

  /** The last item line adds the last row's quantity to its item's sum. */
  lemma ItemLinesSumSnoc(stamp: string, rows: seq<BagRow>, x: string)
    requires Plain(stamp) && rows != [] && !QuoteWrapped(rows[|rows| - 1].item) && IsInt32(rows[|rows| - 1].qty)
    ensures var last := rows[|rows| - 1];
      QtySum(Outcomes(ItemLines(stamp, rows)), x) ==
        QtySum(Outcomes(ItemLines(stamp, rows[..|rows| - 1])), x) + if last.item == x then last.qty else 0
  {
    var init, last := rows[..|rows| - 1], rows[|rows| - 1];
    var front := ItemLines(stamp, init);
    assert ItemLines(stamp, rows) == front + [ItemLine(stamp, last)];
    OutcomesSnoc(front, ItemLine(stamp, last));
    ItemLineReadBack(stamp, last);
    QtySumSnoc(Outcomes(front), Sold(last.item, last.qty), x);
  }

  /** Dropping the last row keeps the bag invariants and the quote-free names. */
  lemma InitRows(rows: seq<BagRow>)
    requires rows != [] && UniqueItems(rows) && PositiveQuantities(rows)
    requires forall k :: 0 <= k < |rows| ==> !QuoteWrapped(rows[k].item)
    ensures var init := rows[..|rows| - 1];
      UniqueItems(init) && PositiveQuantities(init) && forall k :: 0 <= k < |init| ==> !QuoteWrapped(init[k].item)
  {
    var init := rows[..|rows| - 1];
    assert forall k :: 0 <= k < |init| ==> init[k] == rows[k];
  }

  /**
   * Over the item lines of one order, the top-sellers reading counts each
   * item exactly as many times as the bag held it.
   */
  lemma {:induction false} OrderItemsCount(stamp: string, rows: seq<BagRow>, x: string)
    requires Plain(stamp) && UniqueItems(rows) && PositiveQuantities(rows)
    requires forall k :: 0 <= k < |rows| ==> !QuoteWrapped(rows[k].item)
    ensures QtySum(Outcomes(ItemLines(stamp, rows)), x) == QtyOf(rows, x)
  {
    if rows != [] {
      assert 1 <= rows[|rows| - 1].qty <= MaxInt32;
      ItemLinesSumSnoc(stamp, rows, x);
      InitRows(rows);
      OrderItemsCount(stamp, rows[..|rows| - 1], x);
      QtyOfSnoc(rows, x);
    }
  }

  // ---------------------------------------------------------------- the bag table

  class Bag {
    var rows: seq<BagRow>

    ghost predicate Valid()
      reads this
    {
      UniqueItems(rows) && PositiveQuantities(rows)
    }

    constructor ()
      ensures rows == [] && Valid()
    {
      rows := [];
    }

    /** `addToBag(item, price)`: one more of an item already listed, else a new row with quantity 1. */
    method AddToBag(item: string, price: int)
      modifies this
      ensures rows == AddedToBag(old(rows), item, price)
      ensures old(Valid()) && QtyOf(old(rows), item) < MaxInt32 ==> Valid()
    {
      if Valid() && QtyOf(rows, item) < MaxInt32 {
        AddToBagEffect(rows, item, price);
      }
      var i := 0;
      while i < |rows|
        invariant 0 <= i <= |rows|
        invariant rows == old(rows)
        invariant forall k :: 0 <= k < i ==> rows[k].item != item
      {
        if rows[i].item == item {
          FindFirst(rows, item, i);
          var qty := rows[i].qty;
          rows := rows[i := rows[i].(qty := Wrap32(qty + 1))];
          return;
        }
        i := i + 1;
      }
      rows := rows + [BagRow(item, price, 1)];
    }

    /** The `+` button; `row` is the selected row, -1 when there is none. */
    method Plus(row: int)
      requires row == -1 || 0 <= row < |rows|
      modifies this
      ensures rows == Plussed(old(rows), row)
      ensures old(Valid()) && (row == -1 || old(rows)[row].qty < MaxInt32) ==> Valid()
    {
      if Valid() && (row == -1 || rows[row].qty < MaxInt32) {
        PlusEffect(rows, row);
      }
      if row != -1 {
        var qty := rows[row].qty;
        rows := rows[row := rows[row].(qty := Wrap32(qty + 1))];
      }
    }

    /** The `-` button: one fewer, and the row is removed instead when its quantity is not above 1. */
    method Minus(row: int)
      requires row == -1 || 0 <= row < |rows|
      modifies this
      ensures rows == Minussed(old(rows), row)
      ensures old(Valid()) ==> Valid()
    {
      if Valid() {
        MinusEffect(rows, row);
      }
      if row != -1 {
        var qty := rows[row].qty;
        if qty > 1 {
          rows := rows[row := rows[row].(qty := qty - 1)];
        } else {
          rows := rows[..row] + rows[row + 1..];
        }
      }
    }

    /**
     * `finishOrder()`: nothing on an empty bag; otherwise total the rows,
     * build the receipt and the file lines stamped `now`, and clear the bag.
     */
    method FinishOrder(customer: string, now: LocalDateTime) returns (record: Option<OrderRecord>)
      requires ValidDateTime(now)
      modifies this
      ensures old(rows) == [] ==> record.None? && rows == old(rows)
      ensures old(rows) != [] ==> record == Some(RecordOf(old(rows), customer, DateTimeText(now))) && rows == []
      ensures old(Valid()) ==> Valid()
    {
      if |rows| == 0 {
        return None;
      }
      var items := rows;
      var total := 0;
      var receipt := "Receipt for " + customer + "\n";
      ghost var head := receipt;
      var i := 0;
      while i < |items|
        invariant 0 <= i <= |items|
        invariant total == BagTotal(items[..i])
        invariant receipt == Receipt(head, items[..i])
      {
        BagStep(items, i, head);
        var lineTotal := items[i].price * items[i].qty;
        total := total + lineTotal;
        receipt := receipt + ReceiptLine(items[i]);
        i := i + 1;
      }
      assert items[..i] == items;
      receipt := receipt + "TOTAL: " + FormatCents(total) + "\n";
      var salesLine := customer + "," + FormatCents(total);
      var stamp := DateTimeText(now);
      var orderLine := OrderRow(stamp, customer, FormatCents(total));
      var itemLines: seq<string> := [];
      i := 0;
      while i < |items|
        invariant 0 <= i <= |items|
        invariant itemLines == ItemLines(stamp, items[..i])
      {
        BagStep(items, i, head);
        itemLines := itemLines + [ItemLine(stamp, items[i])];
        i := i + 1;
      }
      record := Some(OrderRecord(salesLine, receipt, orderLine, itemLines));
      rows := [];
    }
  }
}
