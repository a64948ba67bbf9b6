/**
 * The first half of the "Sales" chart refresh: reading `orders.csv`
 * (`datetime,customer,total`) into `bucketsCustomer`, a map from period
 * label to a map from customer to that customer's total in the period.
 *
 * A line with at least three fields is an order; its timestamp falls back
 * to the current time when it does not parse and its total to 0. A line
 * whose customer field is a lone quote makes `unescape` throw, which ends
 * the refresh and leaves the chart as it was: that outcome is `None`.
 */
module SalesBuckets {
  import opened Wrappers
  import opened Csv
  import opened Money
  import opened Assoc
  import opened Dates

  /** label -> (customer -> cents), both in first-seen order. */
  type Buckets = Entries<Entries<int>>

  /**
   * The period label of an order's timestamp field:
   * `bucketKey(parseDateSafe(field), view)`. The loop and its lemmas take it
   * as a parameter; `PeriodRule` is the program's.
   */
  type KeyRule = string -> string

  function PeriodRule(view: View, weekOf: WeekRule, now: LocalDateTime): KeyRule {
    field => BucketKey(ParseDateSafe(field, now), view, weekOf)
  }

  /** What one line of `orders.csv` contributes: the raw timestamp field, the customer and the cents. */
  datatype OrderOutcome = Skip | Order(stamp: string, customer: string, cents: int) | Crash

  function ReadOrderLine(line: string): OrderOutcome {
    var p := ParseLine(line);
    if |p| < 3 then Skip
    else match Unescape(p[1])
      case None => Crash
      case Some(customer) => Order(p[0], customer, ParseCentsSafe(p[2], 0))
  }

  /** The outcome of every line, in file order. */
  function OrderOutcomes(lines: seq<string>): (r: seq<OrderOutcome>)
    ensures |r| == |lines|
  {
    if lines == [] then []
    else OrderOutcomes(lines[..|lines| - 1]) + [ReadOrderLine(lines[|lines| - 1])]
  }

  /**
   * `bucketsCustomer.putIfAbsent(key, new LinkedHashMap<>())`, then
   * `perCust.put(customer, perCust.getOrDefault(customer, 0.0) + total)` on
   * the map stored under `key`.
   */
  function AddOrder(b: Buckets, period: string, customer: string, cents: int): Buckets {
    var b1 := PutIfAbsent(b, period, []);
    var per := GetOrDefault(b1, period, []);
    Put(b1, period, Put(per, customer, GetOrDefault(per, customer, 0) + cents))
  }

  function Record(b: Buckets, o: OrderOutcome, keyOf: KeyRule): Option<Buckets> {
    match o
    case Skip => Some(b)
    case Crash => None
    case Order(stamp, customer, cents) => Some(AddOrder(b, keyOf(stamp), customer, cents))
  }

  /** `bucketsCustomer` after a run of outcomes, or None after a throw. */
  function Gather(os: seq<OrderOutcome>, keyOf: KeyRule): Option<Buckets> {
    if os == [] then Some([])
    else match Gather(os[..|os| - 1], keyOf)
      case None => None
      case Some(b) => Record(b, os[|os| - 1], keyOf)
  }

  /** `bucketsCustomer` after reading `lines`. */
  function BucketsOf(lines: seq<string>, keyOf: KeyRule): Option<Buckets> {
    Gather(OrderOutcomes(lines), keyOf)
  }

  // ---------------------------------------------------------------- the reference totals

  /** The cents of the orders of `customer` in `period`. */
  function OrderSum(os: seq<OrderOutcome>, keyOf: KeyRule, period: string, customer: string): int {
    if os == [] then 0
    else
      var o := os[|os| - 1];
      OrderSum(os[..|os| - 1], keyOf, period, customer) +
        (if o.Order? && keyOf(o.stamp) == period && o.customer == customer then o.cents else 0)
  }

  /** The cents of all the orders. */
  function AllOrders(os: seq<OrderOutcome>): int {
    if os == [] then 0
    else
      var o := os[|os| - 1];
      AllOrders(os[..|os| - 1]) + (if o.Order? then o.cents else 0)
  }

  /** Some order falls in `period`. */
  ghost predicate HasPeriod(os: seq<OrderOutcome>, keyOf: KeyRule, period: string) {
    exists i :: 0 <= i < |os| && os[i].Order? && keyOf(os[i].stamp) == period
  }

  /** The sum of every customer's total in every bucket. */
  function BucketsTotal(b: Buckets): int {
    if b == [] then 0 else SumValues(b[0].1) + BucketsTotal(b[1..])
  }

  // ---------------------------------------------------------------- one order

  /** The map stored under `period` after one more order. */
  lemma AddOrderBucket(b: Buckets, period: string, customer: string, cents: int)
    ensures var per := GetOrDefault(b, period, []);
      Get(AddOrder(b, period, customer, cents), period) ==
        Some(Put(per, customer, GetOrDefault(per, customer, 0) + cents))
  {
    var b1 := PutIfAbsent(b, period, []);
    PutIfAbsentGet(b, period, [], period);
    GetHasKey(b, period);
    var per := GetOrDefault(b1, period, []);
    PutGet(b1, period, Put(per, customer, GetOrDefault(per, customer, 0) + cents), period);
  }

  /** Every other bucket is left as it was. */
  lemma AddOrderOther(b: Buckets, period: string, customer: string, cents: int, k: string)
    requires k != period
    ensures Get(AddOrder(b, period, customer, cents), k) == Get(b, k)
  {
    var b1 := PutIfAbsent(b, period, []);
    PutIfAbsentGet(b, period, [], k);
    var per := GetOrDefault(b1, period, []);
    PutGet(b1, period, Put(per, customer, GetOrDefault(per, customer, 0) + cents), k);
  }

  /** One order adds its cents to the amount of its customer in its period and to nothing else. */
  lemma AddOrderAmount(b: Buckets, period: string, customer: string, cents: int, k: string, c: string)
    ensures GetOrDefault(GetOrDefault(AddOrder(b, period, customer, cents), k, []), c, 0) ==
      GetOrDefault(GetOrDefault(b, k, []), c, 0) + (if k == period && c == customer then cents else 0)
  {
    if k == period {
      AddOrderBucket(b, period, customer, cents);
      var per := GetOrDefault(b, period, []);
      PutGet(per, customer, GetOrDefault(per, customer, 0) + cents, c);
    } else {
      AddOrderOther(b, period, customer, cents, k);
    }
  }

  /** One order adds a bucket for its period if there was none, and no other. */
  lemma AddOrderKeys(b: Buckets, period: string, customer: string, cents: int, k: string)
    ensures HasKey(AddOrder(b, period, customer, cents), k) <==> k == period || HasKey(b, k)
  {
    var b1 := PutIfAbsent(b, period, []);
    var per := GetOrDefault(b1, period, []);
    PutHasKey(b1, period, Put(per, customer, GetOrDefault(per, customer, 0) + cents), k);
    if !HasKey(b, period) {
      PutHasKey(b, period, [], k);
    }
  }

  lemma AddOrderDistinct(b: Buckets, period: string, customer: string, cents: int)
    requires DistinctKeys(b)
    ensures DistinctKeys(AddOrder(b, period, customer, cents))
  {
    var b1 := PutIfAbsent(b, period, []);
    if !HasKey(b, period) {
      PutKeepsDistinct(b, period, []);
    }
    var per := GetOrDefault(b1, period, []);
    PutKeepsDistinct(b1, period, Put(per, customer, GetOrDefault(per, customer, 0) + cents));
  }

  lemma BucketsTotalPutHead(b: Buckets, k: string, v: Entries<int>)
    requires b != [] && b[0].0 == k
    ensures BucketsTotal(Put(b, k, v)) == BucketsTotal(b) - SumValues(b[0].1) + SumValues(v)
  {
    var r := Put(b, k, v);
    assert r == [(k, v)] + b[1..];
    assert r[1..] == b[1..];
  }

  lemma BucketsTotalPutTail(b: Buckets, k: string, v: Entries<int>)
    requires b != [] && b[0].0 != k
    ensures BucketsTotal(Put(b, k, v)) == SumValues(b[0].1) + BucketsTotal(Put(b[1..], k, v))
  {
    var r := Put(b, k, v);
    assert r == [b[0]] + Put(b[1..], k, v);
    assert r[0] == b[0] && r[1..] == Put(b[1..], k, v);
  }

  /** `put(k, v)` replaces the bucket stored under `k` (empty when absent) by `v` in the total. */
  lemma {:induction false} BucketsTotalPut(b: Buckets, k: string, v: Entries<int>)
    ensures BucketsTotal(Put(b, k, v)) == BucketsTotal(b) - SumValues(GetOrDefault(b, k, [])) + SumValues(v)
  {
    if b == [] {
      assert Put(b, k, v) == [(k, v)];
      assert Put(b, k, v)[1..] == [];
    } else if b[0].0 == k {
      BucketsTotalPutHead(b, k, v);
    } else {
      BucketsTotalPutTail(b, k, v);
      BucketsTotalPut(b[1..], k, v);
    }
  }

  /** One order adds exactly its cents to the total of all buckets. */
  lemma AddOrderTotal(b: Buckets, period: string, customer: string, cents: int)
    ensures BucketsTotal(AddOrder(b, period, customer, cents)) == BucketsTotal(b) + cents
  {
    var b1 := PutIfAbsent(b, period, []);
    if !HasKey(b, period) {
      BucketsTotalPut(b, period, []);
      GetHasKey(b, period);
    }
    assert BucketsTotal(b1) == BucketsTotal(b);
    var per := GetOrDefault(b1, period, []);
    BucketsTotalPut(b1, period, Put(per, customer, GetOrDefault(per, customer, 0) + cents));
    SumAccumulate(per, customer, cents);
  }

  // ---------------------------------------------------------------- all the orders

  lemma OrderSumLast(os: seq<OrderOutcome>, keyOf: KeyRule, period: string, customer: string)
    requires os != []
    ensures var o := os[|os| - 1];
      OrderSum(os, keyOf, period, customer) == OrderSum(os[..|os| - 1], keyOf, period, customer) +
        (if o.Order? && keyOf(o.stamp) == period && o.customer == customer then o.cents else 0)
  {
  }

  /**
   * The amount charted for `customer` in `period` is the sum of that
   * customer's orders in that period: nothing lost, nothing counted twice.
   */
  lemma {:induction false} GatherAmounts(os: seq<OrderOutcome>, keyOf: KeyRule)
    requires Gather(os, keyOf).Some?
    ensures forall k, c :: GetOrDefault(GetOrDefault(Gather(os, keyOf).value, k, []), c, 0) == OrderSum(os, keyOf, k, c)
  {
    if os != [] {
      var init := os[..|os| - 1];
      var o := os[|os| - 1];
      GatherAmounts(init, keyOf);
      var b := Gather(init, keyOf).value;
      assert Gather(os, keyOf) == Record(b, o, keyOf);
      forall k, c ensures GetOrDefault(GetOrDefault(Gather(os, keyOf).value, k, []), c, 0) == OrderSum(os, keyOf, k, c) {
        OrderSumLast(os, keyOf, k, c);
        if o.Order? {
          AddOrderAmount(b, keyOf(o.stamp), o.customer, o.cents, k, c);
        }
      }
    }
  }

  /** The total of all buckets is the total of all orders. */
  lemma {:induction false} GatherTotal(os: seq<OrderOutcome>, keyOf: KeyRule)
    requires Gather(os, keyOf).Some?
    ensures BucketsTotal(Gather(os, keyOf).value) == AllOrders(os)
  {
    if os != [] {
      var init := os[..|os| - 1];
      var o := os[|os| - 1];
      GatherTotal(init, keyOf);
      var b := Gather(init, keyOf).value;
      assert Gather(os, keyOf) == Record(b, o, keyOf);
      if o.Order? {
        AddOrderTotal(b, keyOf(o.stamp), o.customer, o.cents);
      }
    }
  }

  lemma HasPeriodSnoc(os: seq<OrderOutcome>, keyOf: KeyRule, period: string)
    requires os != []
    ensures HasPeriod(os, keyOf, period) <==>
      HasPeriod(os[..|os| - 1], keyOf, period) || (os[|os| - 1].Order? && keyOf(os[|os| - 1].stamp) == period)
  {
    var init := os[..|os| - 1];
    if HasPeriod(os, keyOf, period) {
      var i :| 0 <= i < |os| && os[i].Order? && keyOf(os[i].stamp) == period;
      if i < |init| {
        assert init[i] == os[i];
      }
    }
    if HasPeriod(init, keyOf, period) {
      var i :| 0 <= i < |init| && init[i].Order? && keyOf(init[i].stamp) == period;
      assert os[i] == init[i];
    }
  }

  /** There is a bucket for a period exactly when some order falls in it, and only one. */
  lemma {:induction false} GatherKeys(os: seq<OrderOutcome>, keyOf: KeyRule)
    requires Gather(os, keyOf).Some?
    ensures DistinctKeys(Gather(os, keyOf).value)
    ensures forall k :: HasKey(Gather(os, keyOf).value, k) <==> HasPeriod(os, keyOf, k)
  {
    if os != [] {
      var init := os[..|os| - 1];
      var o := os[|os| - 1];
      GatherKeys(init, keyOf);
      var b := Gather(init, keyOf).value;
      assert Gather(os, keyOf) == Record(b, o, keyOf);
      if o.Order? {
        AddOrderDistinct(b, keyOf(o.stamp), o.customer, o.cents);
      }
      forall k ensures HasKey(Gather(os, keyOf).value, k) <==> HasPeriod(os, keyOf, k) {
        HasPeriodSnoc(os, keyOf, k);
        if o.Order? {
          AddOrderKeys(b, keyOf(o.stamp), o.customer, o.cents, k);
        }
      }
    }
  }

  /** The refresh throws exactly when some line has a lone-quote customer field. */
  lemma {:induction false} GatherFails(os: seq<OrderOutcome>, keyOf: KeyRule)
    ensures Gather(os, keyOf).None? <==> exists i :: 0 <= i < |os| && os[i].Crash?
  {
    if os != [] {
      var init := os[..|os| - 1];
      GatherFails(init, keyOf);
      if exists i :: 0 <= i < |init| && init[i].Crash? {
        var i :| 0 <= i < |init| && init[i].Crash?;
        assert os[i] == init[i];
      }
      if exists i :: 0 <= i < |os| && os[i].Crash? {
        var i :| 0 <= i < |os| && os[i].Crash?;
        if i < |init| {
          assert init[i] == os[i];
        }
      }
    }
  }

  /** Within each bucket every customer appears once. */
  ghost predicate InnerDistinct(b: Buckets) {
    forall e :: e in b ==> DistinctKeys(e.1)
  }

  lemma BucketDistinct(b: Buckets, k: string)
    requires InnerDistinct(b)
    ensures DistinctKeys(GetOrDefault(b, k, []))
  {
    if Get(b, k).Some? {
      GetMember(b, k);
    }
  }

  lemma PutInner(b: Buckets, k: string, v: Entries<int>)
    requires InnerDistinct(b) && DistinctKeys(v)
    ensures InnerDistinct(Put(b, k, v))
  {
    forall e | e in Put(b, k, v) ensures DistinctKeys(e.1) {
      PutEntries(b, k, v, e);
    }
  }

  lemma AddOrderInner(b: Buckets, period: string, customer: string, cents: int)
    requires InnerDistinct(b)
    ensures InnerDistinct(AddOrder(b, period, customer, cents))
  {
    var b1 := PutIfAbsent(b, period, []);
    if !HasKey(b, period) {
      PutInner(b, period, []);
    }
    var per := GetOrDefault(b1, period, []);
    BucketDistinct(b1, period);
    PutKeepsDistinct(per, customer, GetOrDefault(per, customer, 0) + cents);
    PutInner(b1, period, Put(per, customer, GetOrDefault(per, customer, 0) + cents));
  }

  /** No customer is listed twice in a period. */
  lemma {:induction false} GatherInner(os: seq<OrderOutcome>, keyOf: KeyRule)
    requires Gather(os, keyOf).Some?
    ensures InnerDistinct(Gather(os, keyOf).value)
  {
    if os != [] {
      var init := os[..|os| - 1];
      var o := os[|os| - 1];
      GatherInner(init, keyOf);
      var b := Gather(init, keyOf).value;
      assert Gather(os, keyOf) == Record(b, o, keyOf);
      if o.Order? {
        AddOrderInner(b, keyOf(o.stamp), o.customer, o.cents);
      }
    }
  }

  // ---------------------------------------------------------------- the reading loop

  lemma {:induction false} OrderOutcomeAt(lines: seq<string>, i: nat)
    requires i < |lines|
    ensures OrderOutcomes(lines)[i] == ReadOrderLine(lines[i])
  {
    var init := lines[..|lines| - 1];
    var a, b := OrderOutcomes(init), [ReadOrderLine(lines[|lines| - 1])];
    assert OrderOutcomes(lines) == a + b;
    if i < |init| {
      OrderOutcomeAt(init, i);
      assert init[i] == lines[i];
      assert (a + b)[i] == a[i];
    } else {
      assert (a + b)[i] == b[0];
    }
  }

  /** Reading one more line records its outcome. */
  lemma BucketsNext(lines: seq<string>, keyOf: KeyRule, i: nat, b: Buckets)
    requires i < |lines| && BucketsOf(lines[..i], keyOf) == Some(b)
    ensures BucketsOf(lines[..i + 1], keyOf) == Record(b, ReadOrderLine(lines[i]), keyOf)
  {
    assert lines[..i + 1][..i] == lines[..i];
    var os := OrderOutcomes(lines[..i + 1]);
    assert os[..|os| - 1] == OrderOutcomes(lines[..i]);
  }

  lemma ReadOrder(line: string, p: seq<string>, customer: string)
    requires p == ParseLine(line) && |p| >= 3 && Unescape(p[1]) == Some(customer)
    ensures ReadOrderLine(line) == Order(p[0], customer, ParseCentsSafe(p[2], 0))
  {
  }

  /** A line with a lone-quote customer field makes the whole refresh throw. */
  lemma CrashOrder(lines: seq<string>, keyOf: KeyRule, i: nat, p: seq<string>)
    requires i < |lines| && p == ParseLine(lines[i]) && |p| >= 3 && Unescape(p[1]).None?
    ensures BucketsOf(lines, keyOf).None?
  {
    var os := OrderOutcomes(lines);
    OrderOutcomeAt(lines, i);
    assert os[i].Crash?;
    GatherFails(os, keyOf);
  }

  /** A line with fewer than three fields changes nothing. */
  lemma ShortOrderLine(lines: seq<string>, keyOf: KeyRule, i: nat, b: Buckets, p: seq<string>)
    requires i < |lines| && BucketsOf(lines[..i], keyOf) == Some(b)
    requires p == ParseLine(lines[i]) && |p| < 3
    ensures BucketsOf(lines[..i + 1], keyOf) == Some(b)
  {
    BucketsNext(lines, keyOf, i, b);
  }

  /**
   * An order line adds its total to its customer in its period, by
   * put-if-absent on the bucket, a get, a put into the inner map and a put back.
   */
  lemma OrderLine(lines: seq<string>, keyOf: KeyRule, i: nat, b: Buckets, p: seq<string>, customer: string)
    requires i < |lines| && BucketsOf(lines[..i], keyOf) == Some(b)
    requires p == ParseLine(lines[i]) && |p| >= 3 && Unescape(p[1]) == Some(customer)
    ensures BucketsOf(lines[..i + 1], keyOf) == Some(AddOrder(b, keyOf(p[0]), customer, ParseCentsSafe(p[2], 0)))
  {
    BucketsNext(lines, keyOf, i, b);
    ReadOrder(lines[i], p, customer);
  }

  /** The four map calls that add one order to `bucketsCustomer`. */
  method AddOrderTo(b: Buckets, key: string, customer: string, total: int) returns (b': Buckets)
    ensures b' == AddOrder(b, key, customer, total)
  {
    var b1 := PutIfAbsent(b, key, []);
    var perCust := GetOrDefault(b1, key, []);
    var perCust' := Put(perCust, customer, GetOrDefault(perCust, customer, 0) + total);
    b' := Put(b1, key, perCust');
  }

  /**
   * The reading loop of `refreshChartAndSummary()`: `bucketsCustomer` after
   * every line, or None when a line throws. `keyOf(p[0])` stands for
   * `bucketKey(parseDateSafe(p[0]), view)`.
   */
  method GatherBuckets(lines: seq<string>, keyOf: KeyRule) returns (buckets: Option<Buckets>)
    ensures buckets == BucketsOf(lines, keyOf)
  {
    var b: Buckets := [];
    var i := 0;
    while i < |lines|
      invariant 0 <= i <= |lines|
      invariant BucketsOf(lines[..i], keyOf) == Some(b)
    {
      var p := ParseCsvLine(lines[i]);
      if |p| >= 3 {
        var customer := Unescape(p[1]);
        if customer.None? {
          CrashOrder(lines, keyOf, i, p);
          return None;
        }
        var total := ParseCentsSafe(p[2], 0);
        var key := keyOf(p[0]);
        OrderLine(lines, keyOf, i, b, p, customer.value);
        b := AddOrderTo(b, key, customer.value, total);
      } else {
        ShortOrderLine(lines, keyOf, i, b, p);
      }
      i := i + 1;
    }
    assert lines[..|lines|] == lines;
    buckets := Some(b);
  }
}
