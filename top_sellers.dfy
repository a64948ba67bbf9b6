/**
 * The "Top Selling Items" table of the analytics panel.
 *
 * Each line of `order_items.csv` (`datetime,item,qty,line_total`) with at
 * least four fields adds its quantity to its item's count, with Java `int`
 * arithmetic; the ten largest counts are listed, largest first. A line whose
 * item field is a lone quote makes `unescape` throw, which ends the refresh
 * and leaves the table as it was: that outcome is `None`.
 */
module TopSellers {
  import opened Wrappers
  import opened JavaText
  import opened Csv
  import opened Assoc

  /** What one line contributes: nothing, a sale, or the exception. */
  datatype LineOutcome = Skip | Sold(item: string, qty: int) | Crash

  function ReadItemLine(line: string): LineOutcome {
    var p := ParseLine(line);
    if |p| < 4 then Skip
    else match Unescape(p[1])
      case None => Crash
      case Some(item) => Sold(item, ParseIntSafe(p[2], 0))
  }

  /** The outcome of every line, in file order. */
  function Outcomes(lines: seq<string>): (r: seq<LineOutcome>)
    ensures |r| == |lines|
  {
    if lines == [] then []
    else Outcomes(lines[..|lines| - 1]) + [ReadItemLine(lines[|lines| - 1])]
  }

  lemma {:induction false} OutcomeAt(lines: seq<string>, i: nat)
    requires i < |lines|
    ensures Outcomes(lines)[i] == ReadItemLine(lines[i])
  {
    var init := lines[..|lines| - 1];
    var a, b := Outcomes(init), [ReadItemLine(lines[|lines| - 1])];
    assert Outcomes(lines) == a + b;
    if i < |init| {
      OutcomeAt(init, i);
      assert init[i] == lines[i];
      assert (a + b)[i] == a[i];
    } else {
      assert (a + b)[i] == b[0];
    }
  }

  /** Reading one more line appends its outcome. */
  lemma OutcomesNext(lines: seq<string>, i: nat)
    requires i < |lines|
    ensures Outcomes(lines[..i + 1]) == Outcomes(lines[..i]) + [ReadItemLine(lines[i])]
  {
    assert lines[..i + 1][..i] == lines[..i];
  }

  /** `counts.put(item, counts.getOrDefault(item, 0) + qty)` for one line's outcome. */
  function Count(c: Entries<int>, o: LineOutcome): Option<Entries<int>> {
    match o
    case Skip => Some(c)
    case Crash => None
    case Sold(item, q) => Some(Put(c, item, Wrap32(GetOrDefault(c, item, 0) + q)))
  }

  /** The `counts` map after a run of outcomes, keys in first-sale order, or None after a throw. */
  function Tally(os: seq<LineOutcome>): Option<Entries<int>> {
    if os == [] then Some([])
    else match Tally(os[..|os| - 1])
      case None => None
      case Some(c) => Count(c, os[|os| - 1])
  }

  /** The `counts` map after reading `lines`. */
  function ItemCounts(lines: seq<string>): Option<Entries<int>> {
    Tally(Outcomes(lines))
  }

  /** The exact (unbounded) quantity of `item` sold over a run of outcomes. */
  function QtySum(os: seq<LineOutcome>, item: string): int {
    if os == [] then 0
    else
      var o := os[|os| - 1];
      QtySum(os[..|os| - 1], item) + (if o.Sold? && o.item == item then o.qty else 0)
  }

  /** Some outcome is a sale of `item`. */
  ghost predicate Listed(os: seq<LineOutcome>, item: string) {
    exists i :: 0 <= i < |os| && os[i].Sold? && os[i].item == item
  }

  lemma ListedSnoc(os: seq<LineOutcome>, item: string)
    requires os != []
    ensures Listed(os, item) <==>
      Listed(os[..|os| - 1], item) || (os[|os| - 1].Sold? && os[|os| - 1].item == item)
  {
    var init := os[..|os| - 1];
    if Listed(os, item) {
      var i :| 0 <= i < |os| && os[i].Sold? && os[i].item == item;
      if i < |init| {
        assert init[i] == os[i];
      }
    }
    if Listed(init, item) {
      var i :| 0 <= i < |init| && init[i].Sold? && init[i].item == item;
      assert os[i] == init[i];
    }
  }

  /** The refresh throws exactly when some line has a lone-quote item field. */
  lemma {:induction false} TallyFails(os: seq<LineOutcome>)
    ensures Tally(os).None? <==> exists i :: 0 <= i < |os| && os[i].Crash?
  {
    if os != [] {
      var init := os[..|os| - 1];
      TallyFails(init);
      if exists i :: 0 <= i < |init| && init[i].Crash? {
        var i :| 0 <= i < |init| && init[i].Crash?;
        assert os[i] == init[i];
      }
      if exists i :: 0 <= i < |os| && os[i].Crash? {
        var i :| 0 <= i < |os| && os[i].Crash?;
        if i < |init| {
          assert init[i] == os[i];
        }
      }
    }
  }

  lemma CountsFail(lines: seq<string>)
    ensures ItemCounts(lines).None? <==> exists i :: 0 <= i < |lines| && ReadItemLine(lines[i]).Crash?
  {
    var os := Outcomes(lines);
    TallyFails(os);
    if exists i :: 0 <= i < |os| && os[i].Crash? {
      var i :| 0 <= i < |os| && os[i].Crash?;
      OutcomeAt(lines, i);
      assert ReadItemLine(lines[i]).Crash?;
    }
    if exists i :: 0 <= i < |lines| && ReadItemLine(lines[i]).Crash? {
      var i :| 0 <= i < |lines| && ReadItemLine(lines[i]).Crash?;
      OutcomeAt(lines, i);
      assert os[i].Crash?;
    }
  }

  /** Accumulating `q` into the wrapped count of `k`, seen from any key `item`. */
  lemma WrappedPutGet(c: Entries<int>, k: string, q: int, item: string, before: int, after: int)
    requires GetOrDefault(c, item, 0) == Wrap32(before)
    requires item == k ==> after == before + q
    requires item != k ==> after == before
    ensures GetOrDefault(Put(c, k, Wrap32(GetOrDefault(c, k, 0) + q)), item, 0) == Wrap32(after)
  {
    PutGet(c, k, Wrap32(GetOrDefault(c, k, 0) + q), item);
    if item == k {
      Wrap32AddAbsorb(before, q);
    }
  }

  lemma QtySumLast(os: seq<LineOutcome>, k: string, q: int, item: string)
    requires os != [] && os[|os| - 1] == Sold(k, q)
    ensures QtySum(os, item) == QtySum(os[..|os| - 1], item) + if item == k then q else 0
  {
  }

  /** One sale of `k` keeps the count of `item` equal to its wrapped total. */
  lemma CountSaleAt(c: Entries<int>, os: seq<LineOutcome>, k: string, q: int, item: string)
    requires os != [] && os[|os| - 1] == Sold(k, q)
    requires GetOrDefault(c, item, 0) == Wrap32(QtySum(os[..|os| - 1], item))
    ensures GetOrDefault(Put(c, k, Wrap32(GetOrDefault(c, k, 0) + q)), item, 0) == Wrap32(QtySum(os, item))
  {
    QtySumLast(os, k, q, item);
    WrappedPutGet(c, k, q, item, QtySum(os[..|os| - 1], item), QtySum(os, item));
  }

  /** One sale keeps every count equal to the wrapped total, and the keys distinct. */
  lemma CountSaleStep(c: Entries<int>, os: seq<LineOutcome>, k: string, q: int)
    requires os != [] && os[|os| - 1] == Sold(k, q)
    requires DistinctKeys(c)
    requires forall item :: GetOrDefault(c, item, 0) == Wrap32(QtySum(os[..|os| - 1], item))
    ensures DistinctKeys(Put(c, k, Wrap32(GetOrDefault(c, k, 0) + q)))
    ensures forall item ::
      GetOrDefault(Put(c, k, Wrap32(GetOrDefault(c, k, 0) + q)), item, 0) == Wrap32(QtySum(os, item))
  {
    PutKeepsDistinct(c, k, Wrap32(GetOrDefault(c, k, 0) + q));
    forall item
      ensures GetOrDefault(Put(c, k, Wrap32(GetOrDefault(c, k, 0) + q)), item, 0) == Wrap32(QtySum(os, item))
    {
      CountSaleAt(c, os, k, q, item);
    }
  }

  /** A line that is not a sale changes neither the counts nor the totals. */
  lemma CountSkipStep(c: Entries<int>, os: seq<LineOutcome>)
    requires os != [] && os[|os| - 1].Skip?
    requires forall item :: GetOrDefault(c, item, 0) == Wrap32(QtySum(os[..|os| - 1], item))
    ensures forall item :: GetOrDefault(c, item, 0) == Wrap32(QtySum(os, item))
  {
    forall item ensures GetOrDefault(c, item, 0) == Wrap32(QtySum(os, item)) {
      assert QtySum(os, item) == QtySum(os[..|os| - 1], item);
    }
  }

  /** Each count is the 32-bit wrap of the item's true total, and no item is counted twice. */
  lemma {:induction false} TallyCounts(os: seq<LineOutcome>)
    requires Tally(os).Some?
    ensures DistinctKeys(Tally(os).value)
    ensures forall item :: GetOrDefault(Tally(os).value, item, 0) == Wrap32(QtySum(os, item))
  {
    if os != [] {
      var init := os[..|os| - 1];
      var o := os[|os| - 1];
      TallyCounts(init);
      var c := Tally(init).value;
      assert Tally(os) == Count(c, o);
      if o.Sold? {
        CountSaleStep(c, os, o.item, o.qty);
      } else {
        CountSkipStep(c, os);
      }
    }
  }

  /** The items counted are exactly the items sold. */
  lemma {:induction false} TallyKeys(os: seq<LineOutcome>)
    requires Tally(os).Some?
    ensures forall item :: HasKey(Tally(os).value, item) <==> Listed(os, item)
  {
    if os != [] {
      var init := os[..|os| - 1];
      var o := os[|os| - 1];
      TallyKeys(init);
      var c := Tally(init).value;
      assert Tally(os) == Count(c, o);
      forall item ensures HasKey(Tally(os).value, item) <==> Listed(os, item) {
        ListedSnoc(os, item);
        if o.Sold? {
          PutHasKey(c, o.item, Wrap32(GetOrDefault(c, o.item, 0) + o.qty), item);
        }
      }
    }
  }

  /** One more outcome: the tally is the count of it. */
  lemma TallySnoc(os: seq<LineOutcome>, o: LineOutcome)
    ensures Tally(os + [o]) == match Tally(os) case None => None case Some(c) => Count(c, o)
  {
    assert (os + [o])[..|os|] == os;
  }

  /** Reading one more line counts its outcome. */
  lemma ItemCountsNext(lines: seq<string>, i: nat, c: Entries<int>)
    requires i < |lines| && ItemCounts(lines[..i]) == Some(c)
    ensures ItemCounts(lines[..i + 1]) == Count(c, ReadItemLine(lines[i]))
  {
    OutcomesNext(lines, i);
    TallySnoc(Outcomes(lines[..i]), ReadItemLine(lines[i]));
  }

  /** A line whose item field is a lone quote makes the whole refresh throw. */
  lemma CrashAt(lines: seq<string>, i: nat)
    requires i < |lines| && ReadItemLine(lines[i]).Crash?
    ensures ItemCounts(lines).None?
  {
    CountsFail(lines);
  }

  /**
   * `refreshTopSellers()`: read every line into `counts`, stopping at an
   * exception, then keep the ten largest counts.
   */
  method RefreshTopSellers(lines: seq<string>) returns (top: Option<Entries<int>>)
    ensures ItemCounts(lines).None? ==> top.None?
    ensures ItemCounts(lines).Some? ==> top == Some(TopN(ItemCounts(lines).value, 10))
  {
    var counts: Entries<int> := [];
    var i := 0;
    while i < |lines|
      invariant 0 <= i <= |lines|
      invariant ItemCounts(lines[..i]) == Some(counts)
    {
      var next := ReadSale(lines[i], counts);
      if next.None? {
        CrashAt(lines, i);
        return None;
      }
      ItemCountsNext(lines, i, counts);
      counts := next.value;
      i := i + 1;
    }
    assert lines[..|lines|] == lines;
    top := Some(TopN(counts, 10));
  }

  /** One pass of the reading loop: the line adds its sale to `counts`, or throws. */
  method ReadSale(line: string, counts: Entries<int>) returns (next: Option<Entries<int>>)
    ensures next == Count(counts, ReadItemLine(line))
  {
    var p := ParseCsvLine(line);
    if |p| >= 4 {
      var item := Unescape(p[1]);
      if item.None? {
        return None;
      }
      var qty := ParseIntSafe(p[2], 0);
      next := Some(Put(counts, item.value, Wrap32(GetOrDefault(counts, item.value, 0) + qty)));
    } else {
      next := Some(counts);
    }
  }

  /**
   * What the table shows: at most ten distinct items, largest count first,
   * nothing left out selling more than anything shown, and each count the
   * 32-bit wrap of the item's total quantity.
   */
  lemma TopSellersMeaning(lines: seq<string>)
    requires ItemCounts(lines).Some?
    ensures var c := ItemCounts(lines).value;
      var os := Outcomes(lines);
      && IsTopN(c, 10, TopN(c, 10))
      && DistinctKeys(TopN(c, 10))
      && forall e :: e in TopN(c, 10) ==> e.1 == Wrap32(QtySum(os, e.0)) && Listed(os, e.0)
  {
    var c := ItemCounts(lines).value;
    TallyCounts(Outcomes(lines));
    TallyKeys(Outcomes(lines));
    TopNIsTopN(c, 10);
    TopNDistinct(c, 10, TopN(c, 10));
    forall e | e in TopN(c, 10) ensures e.1 == Wrap32(QtySum(Outcomes(lines), e.0)) && Listed(Outcomes(lines), e.0) {
      assert e in multiset(TopN(c, 10));
      assert e in c;
      MemberGet(c, e);
    }
  }
}
