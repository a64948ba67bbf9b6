/**
 * The "Order History" tab of the settings dialog: `loadOrderHistory` lists
 * the date-time and total of every `orders.csv` line of the logged-in
 * customer, and "View Items" (`showOrderItems`) lists the `order_items.csv`
 * lines carrying the selected date-time.
 *
 * Both readers unescape a field that parsing has already unescaped. For the
 * lone-quote field `"` Java's `substring(1, 0)` throws an unchecked exception
 * that the `catch (IOException)` does not stop: the history table keeps the
 * rows added before that line, and the items dialog is never shown.
 */
module OrderHistory {
  import opened Wrappers
  import opened JavaText
  import opened Csv
  import opened Money
  import opened Dates
  import opened Cashier

  /** A row of the history table: the `datetime` and `total` fields as read. */
  datatype HistoryRow = HistoryRow(datetime: string, total: string)

  /** The history table and whether the reading stopped at a throw. */
  datatype History = History(rows: seq<HistoryRow>, failed: bool)

  /** What reading one more line does to the history of `username`. */
  function HistoryLine(h: History, line: string, username: string): History {
    var p := ParseLine(line);
    if h.failed || |p| < 3 then h
    else match Unescape(p[1])
      case None => h.(failed := true)
      case Some(customer) => if customer == username then h.(rows := h.rows + [HistoryRow(p[0], p[2])]) else h
  }

  /** The history table of `username` after reading `lines`. */
  function HistoryOf(lines: seq<string>, username: string): History {
    if lines == [] then History([], false)
    else HistoryLine(HistoryOf(lines[..|lines| - 1], username), lines[|lines| - 1], username)
  }

  lemma HistoryStep(lines: seq<string>, i: nat, username: string)
    requires i < |lines|
    ensures HistoryOf(lines[..i + 1], username) == HistoryLine(HistoryOf(lines[..i], username), lines[i], username)
  {
    assert lines[..i + 1][..i] == lines[..i];
  }

  /** Once the reading has thrown, later lines change nothing. */
  lemma {:induction false} FailureSticks(lines: seq<string>, i: nat, username: string)
    requires i <= |lines| && HistoryOf(lines[..i], username).failed
    ensures HistoryOf(lines, username) == HistoryOf(lines[..i], username)
    decreases |lines| - i
  {
    if i < |lines| {
      HistoryStep(lines, i, username);
      FailureSticks(lines, i + 1, username);
    } else {
      assert lines[..i] == lines;
    }
  }

  /** A line that parses into at least three fields, the second being the lone quote. */
  predicate ThrowsInHistory(line: string) {
    var p := ParseLine(line);
    |p| >= 3 && p[1] == [Quote]
  }

  /** The reading throws exactly when some line's customer field is the lone quote. */
  lemma {:induction false} HistoryFails(lines: seq<string>, username: string)
    ensures HistoryOf(lines, username).failed <==> exists i :: 0 <= i < |lines| && ThrowsInHistory(lines[i])
  {
    if lines != [] {
      var init := lines[..|lines| - 1];
      HistoryFails(init, username);
      assert forall i :: 0 <= i < |init| ==> init[i] == lines[i];
      if exists i :: 0 <= i < |lines| && ThrowsInHistory(lines[i]) {
        var i :| 0 <= i < |lines| && ThrowsInHistory(lines[i]);
        if i < |init| {
          assert ThrowsInHistory(init[i]);
        }
      }
    }
  }

  /**
   * Every row of the history comes from a line of `username`: its first and
   * third fields, on a line whose unescaped customer field is the name.
   */
  lemma {:induction false} HistoryRowsAreOwn(lines: seq<string>, username: string, k: nat)
    requires k < |HistoryOf(lines, username).rows|
    ensures exists i :: (0 <= i < |lines| && |ParseLine(lines[i])| >= 3
      && Unescape(ParseLine(lines[i])[1]) == Some(username)
      && HistoryOf(lines, username).rows[k] == HistoryRow(ParseLine(lines[i])[0], ParseLine(lines[i])[2]))
  {
    var init := lines[..|lines| - 1];
    var h := HistoryOf(init, username);
    if k < |h.rows| {
      HistoryRowsAreOwn(init, username, k);
      var i :| 0 <= i < |init| && |ParseLine(init[i])| >= 3
        && Unescape(ParseLine(init[i])[1]) == Some(username)
        && h.rows[k] == HistoryRow(ParseLine(init[i])[0], ParseLine(init[i])[2]);
      assert init[i] == lines[i];
    } else {
      var i := |lines| - 1;
      assert |ParseLine(lines[i])| >= 3;
    }
  }

  /**
   * `loadOrderHistory(model, username)`: `rows` is the table afterwards,
   * `failed` tells whether a line threw.
   */
  method LoadOrderHistory(lines: seq<string>, username: string) returns (rows: seq<HistoryRow>, failed: bool)
    ensures History(rows, failed) == HistoryOf(lines, username)
  {
    rows, failed := [], false;
    var i := 0;
    while i < |lines|
      invariant 0 <= i <= |lines|
      invariant HistoryOf(lines[..i], username) == History(rows, false)
    {
      HistoryStep(lines, i, username);
      var p := ParseCsvLine(lines[i]);
      if |p| >= 3 {
        var customer := Unescape(p[1]);
        if customer.None? {
          failed := true;
          FailureSticks(lines, i + 1, username);
          return;
        }
        if customer.value == username {
          rows := rows + [HistoryRow(p[0], p[2])];
        }
      }
      i := i + 1;
    }
    assert lines[..i] == lines;
  }

  /**
   * After "Finish Order" the customer's history gains the order as its last
   * row, stamped and totalled as written; nobody else's history changes.
   */
  lemma FinishedOrderInHistory(lines: seq<string>, bag: seq<BagRow>, customer: string, now: LocalDateTime, username: string)
    requires ValidDateTime(now) && !QuoteWrapped(customer)
    ensures var line := RecordOf(bag, customer, DateTimeText(now)).orderLine;
      var before := HistoryOf(lines, username);
      HistoryOf(lines + [line], username) ==
        if before.failed || username != customer then before
        else History(before.rows + [HistoryRow(DateTimeText(now), FormatCents(BagTotal(bag)))], false)
  {
    var stamp := DateTimeText(now);
    var line := RecordOf(bag, customer, stamp).orderLine;
    StampPlain(now);
    CentsTextPlain(BagTotal(bag));
    OrderRowRoundTrip(stamp, customer, FormatCents(BagTotal(bag)));
    assert (lines + [line])[..|lines|] == lines;
  }

  // ---------------------------------------------------------------- the items of one order

  /** A row of the "Items for ..." dialog: item, quantity and line total as read. */
  datatype ItemView = ItemView(item: string, qty: string, lineTotal: string)

  /** What reading one more line does to the items of the order stamped `datetime`; None after a throw. */
  function ItemsLine(items: Option<seq<ItemView>>, line: string, datetime: string): Option<seq<ItemView>> {
    var p := ParseLine(line);
    if items.None? || |p| < 4 || p[0] != datetime then items
    else match Unescape(p[1])
      case None => None
      case Some(item) => Some(items.value + [ItemView(item, p[2], p[3])])
  }

  /** The dialog's rows after reading `lines`, or None when a line of that order throws. */
  function ItemsOf(lines: seq<string>, datetime: string): Option<seq<ItemView>> {
    if lines == [] then Some([])
    else ItemsLine(ItemsOf(lines[..|lines| - 1], datetime), lines[|lines| - 1], datetime)
  }

  lemma ItemsStep(lines: seq<string>, i: nat, datetime: string)
    requires i < |lines|
    ensures ItemsOf(lines[..i + 1], datetime) == ItemsLine(ItemsOf(lines[..i], datetime), lines[i], datetime)
  {
    assert lines[..i + 1][..i] == lines[..i];
  }

  lemma {:induction false} ItemsFailureSticks(lines: seq<string>, i: nat, datetime: string)
    requires i <= |lines| && ItemsOf(lines[..i], datetime).None?
    ensures ItemsOf(lines, datetime).None?
    decreases |lines| - i
  {
    if i < |lines| {
      ItemsStep(lines, i, datetime);
      ItemsFailureSticks(lines, i + 1, datetime);
    } else {
      assert lines[..i] == lines;
    }
  }

  /** `showOrderItems(datetime)`: the dialog's rows, or None when it throws before showing. */
  method ShowOrderItems(lines: seq<string>, datetime: string) returns (items: Option<seq<ItemView>>)
    ensures items == ItemsOf(lines, datetime)
  {
    var rows: seq<ItemView> := [];
    var i := 0;
    while i < |lines|
      invariant 0 <= i <= |lines|
      invariant ItemsOf(lines[..i], datetime) == Some(rows)
    {
      ItemsStep(lines, i, datetime);
      var p := ParseCsvLine(lines[i]);
      if |p| >= 4 && p[0] == datetime {
        var item := Unescape(p[1]);
        if item.None? {
          ItemsFailureSticks(lines, i + 1, datetime);
          return None;
        }
        rows := rows + [ItemView(item.value, p[2], p[3])];
      }
      i := i + 1;
    }
    assert lines[..i] == lines;
    return Some(rows);
  }

  /** How the dialog shows one bag row that was written with the order. */
  function ViewOf(r: BagRow): ItemView {
    ItemView(r.item, IntToString(r.qty), FormatCents(LineTotal(r)))
  }

  function ViewsOf(bag: seq<BagRow>): (r: seq<ItemView>)
    ensures |r| == |bag|
  {
    if bag == [] then [] else ViewsOf(bag[..|bag| - 1]) + [ViewOf(bag[|bag| - 1])]
  }

  /** The dialog reads a written bag row back as that row. */
  lemma ItemLineView(items: seq<ItemView>, stamp: string, r: BagRow)
    requires Plain(stamp) && !QuoteWrapped(r.item)
    ensures ItemsLine(Some(items), ItemLine(stamp, r), stamp) == Some(items + [ViewOf(r)])
  {
    ItemLineFields(stamp, r);
  }

  /** Reading one more written bag row adds its view, unless the reading has already thrown. */
  lemma ItemsAppendOne(front: seq<string>, stamp: string, r: BagRow)
    requires Plain(stamp) && !QuoteWrapped(r.item)
    ensures ItemsOf(front + [ItemLine(stamp, r)], stamp) ==
      match ItemsOf(front, stamp) case None => None case Some(items) => Some(items + [ViewOf(r)])
  {
    var all := front + [ItemLine(stamp, r)];
    assert all[..|all| - 1] == front;
    if ItemsOf(front, stamp).Some? {
      ItemLineView(ItemsOf(front, stamp).value, stamp, r);
    }
  }

  lemma AppendViews(items: seq<ItemView>, bag: seq<BagRow>)
    requires bag != []
    ensures items + ViewsOf(bag[..|bag| - 1]) + [ViewOf(bag[|bag| - 1])] == items + ViewsOf(bag)
  {
    var a, b := ViewsOf(bag[..|bag| - 1]), [ViewOf(bag[|bag| - 1])];
    assert ViewsOf(bag) == a + b;
    assert items + a + b == items + (a + b);
  }

  /**
   * "View Items" on a finished order lists the bag it was finished with, in
   * bag order, after whatever lines already carried that stamp.
   */
  lemma {:induction false} FinishedOrderItems(lines: seq<string>, bag: seq<BagRow>, stamp: string)
    requires Plain(stamp)
    requires forall k :: 0 <= k < |bag| ==> !QuoteWrapped(bag[k].item)
    ensures ItemsOf(lines + ItemLines(stamp, bag), stamp) ==
      match ItemsOf(lines, stamp) case None => None case Some(items) => Some(items + ViewsOf(bag))
  {
    if bag != [] {
      var init, last := bag[..|bag| - 1], bag[|bag| - 1];
      var front := lines + ItemLines(stamp, init);
      assert lines + ItemLines(stamp, bag) == front + [ItemLine(stamp, last)];
      assert forall k :: 0 <= k < |init| ==> init[k] == bag[k];
      FinishedOrderItems(lines, init, stamp);
      ItemsAppendOne(front, stamp, last);
      if ItemsOf(lines, stamp).Some? {
        AppendViews(ItemsOf(lines, stamp).value, bag);
      }
    } else {
      assert lines + ItemLines(stamp, bag) == lines;
      if ItemsOf(lines, stamp).Some? {
        assert ItemsOf(lines, stamp).value + ViewsOf(bag) == ItemsOf(lines, stamp).value;
      }
    }
  }
}
