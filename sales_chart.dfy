/**
 * The second half of the "Sales" chart refresh: from `bucketsCustomer` to
 * the chart's labels and series and the summary table.
 *
 * The labels are the bucket keys sorted by `sortKey`; each label's TOTAL is
 * the sum of its bucket; every customer's overall total ranks the
 * customers, of whom the first `MAX_CUSTOMERS` get a series; the `TOTAL`
 * series is put last. Amounts are whole cents.
 */
module SalesChart {
  import opened Wrappers
  import opened JavaText
  import opened Assoc
  import opened Dates
  import opened SalesBuckets

  /** The sort key of a label; `SortRuleOf(view)` is `sortKey(label, view)`. */
  type SortRule = string -> string

  function SortRuleOf(view: View): SortRule {
    l => SortKey(l, view)
  }

  // ---------------------------------------------------------------- sorting the labels

  /** Put `x` before the first label whose key is not smaller than its own. */
  function InsertLabel(x: string, s: seq<string>, key: SortRule): (r: seq<string>)
    ensures multiset(r) == multiset(s) + multiset{x}
  {
    if s == [] || LexLe(key(x), key(s[0])) then [x] + s
    else
      assert s == [s[0]] + s[1..];
      [s[0]] + InsertLabel(x, s[1..], key)
  }

  /**
   * `labels.sort(Comparator.comparing(a -> sortKey(a, view)))`: a stable
   * sort by `String.compareTo` on the keys.
   */
  function SortLabels(s: seq<string>, key: SortRule): (r: seq<string>)
    ensures multiset(r) == multiset(s)
  {
    if s == [] then []
    else
      assert s == [s[0]] + s[1..];
      InsertLabel(s[0], SortLabels(s[1..], key), key)
  }

  ghost predicate SortedBy(s: seq<string>, key: SortRule) {
    forall i, j :: 0 <= i < j < |s| ==> LexLe(key(s[i]), key(s[j]))
  }

  ghost predicate KeysFrom(s: seq<string>, lo: string, key: SortRule) {
    forall i :: 0 <= i < |s| ==> LexLe(lo, key(s[i]))
  }

  lemma {:induction false} InsertLabelFrom(x: string, s: seq<string>, lo: string, key: SortRule)
    requires KeysFrom(s, lo, key) && LexLe(lo, key(x))
    ensures KeysFrom(InsertLabel(x, s, key), lo, key)
  {
    if !(s == [] || LexLe(key(x), key(s[0]))) {
      InsertLabelFrom(x, s[1..], lo, key);
      var t := InsertLabel(x, s[1..], key);
      var r := [s[0]] + t;
      forall i | 0 <= i < |r| ensures LexLe(lo, key(r[i])) {
        if i > 0 {
          assert r[i] == t[i - 1];
        }
      }
    }
  }

  lemma {:induction false} InsertLabelSorted(x: string, s: seq<string>, key: SortRule)
    requires SortedBy(s, key)
    ensures SortedBy(InsertLabel(x, s, key), key)
  {
    if s == [] || LexLe(key(x), key(s[0])) {
      var r := [x] + s;
      forall i, j | 0 <= i < j < |r| ensures LexLe(key(r[i]), key(r[j])) {
        assert r[j] == s[j - 1];
        if i > 0 {
          assert r[i] == s[i - 1];
        } else if j > 1 {
          LexLeTransitive(key(x), key(s[0]), key(s[j - 1]));
        }
      }
    } else {
      LexLeTotal(key(x), key(s[0]));
      InsertLabelSorted(x, s[1..], key);
      assert KeysFrom(s[1..], key(s[0]), key) by {
        forall i | 0 <= i < |s[1..]| ensures LexLe(key(s[0]), key(s[1..][i])) {
          assert s[1..][i] == s[i + 1];
        }
      }
      InsertLabelFrom(x, s[1..], key(s[0]), key);
      var t := InsertLabel(x, s[1..], key);
      var r := [s[0]] + t;
      forall i, j | 0 <= i < j < |r| ensures LexLe(key(r[i]), key(r[j])) {
        assert r[j] == t[j - 1];
        if i > 0 {
          assert r[i] == t[i - 1];
        }
      }
    }
  }

  /** The sorted labels are in order of their keys. */
  lemma {:induction false} SortLabelsSorted(s: seq<string>, key: SortRule)
    ensures SortedBy(SortLabels(s, key), key)
  {
    if s != [] {
      SortLabelsSorted(s[1..], key);
      InsertLabelSorted(s[0], SortLabels(s[1..], key), key);
    }
  }

  /**
   * Labels sorted by `sortKey` are in calendar order: a label placed before
   * another names an earlier or the same period, whenever both come from
   * dates with four-digit years (and, weekly, four-digit week years and
   * two-digit weeks).
   */
  lemma LabelsChronological(view: View, weekOf: WeekRule, labels: seq<string>, i: nat, j: nat,
                            a: LocalDateTime, b: LocalDateTime)
    requires SortedBy(labels, SortRuleOf(view)) && i < j < |labels|
    requires FourDigitPeriod(view, weekOf, a) && FourDigitPeriod(view, weekOf, b)
    requires labels[i] == BucketKey(a, view, weekOf) && labels[j] == BucketKey(b, view, weekOf)
    ensures PeriodLe(view, weekOf, a.date, b.date)
  {
    SortKeyChronological(view, weekOf, a, b);
  }

  /** No label twice. */
  ghost predicate Distinct(s: seq<string>) {
    forall i, j :: 0 <= i < j < |s| ==> s[i] != s[j]
  }

  lemma {:induction false} DistinctCount(s: seq<string>, x: string)
    requires Distinct(s)
    ensures multiset(s)[x] <= 1
  {
    if s != [] {
      assert s == [s[0]] + s[1..];
      DistinctTail(s);
      DistinctCount(s[1..], x);
    }
  }

  /** Reordering keeps a list free of repeats. */
  lemma PermutationDistinct(s: seq<string>, t: seq<string>)
    requires multiset(s) == multiset(t) && Distinct(t)
    ensures Distinct(s)
  {
    forall i, j | 0 <= i < j < |s| ensures s[i] != s[j] {
      if s[i] == s[j] {
        TwiceInMultiset(s, i, j);
        DistinctCount(t, s[i]);
      }
    }
  }

  // ---------------------------------------------------------------- sums over labels

  /** `bucketsCustomer.get(label)`. */
  function Bucket(b: Buckets, l: string): Entries<int> {
    GetOrDefault(b, l, [])
  }

  /** The sum of the buckets of `labels`. */
  function LabelSum(b: Buckets, labels: seq<string>): int {
    if labels == [] then 0 else SumValues(Bucket(b, labels[0])) + LabelSum(b, labels[1..])
  }

  lemma {:induction false} LabelSumInsert(b: Buckets, x: string, s: seq<string>, key: SortRule)
    ensures LabelSum(b, InsertLabel(x, s, key)) == SumValues(Bucket(b, x)) + LabelSum(b, s)
  {
    if s == [] || LexLe(key(x), key(s[0])) {
      assert ([x] + s)[1..] == s;
    } else {
      LabelSumInsert(b, x, s[1..], key);
      var r := InsertLabel(x, s, key);
      assert r[0] == s[0] && r[1..] == InsertLabel(x, s[1..], key);
    }
  }

  /** Sorting the labels does not change what they add up to. */
  lemma {:induction false} LabelSumSort(b: Buckets, s: seq<string>, key: SortRule)
    ensures LabelSum(b, SortLabels(s, key)) == LabelSum(b, s)
  {
    if s != [] {
      LabelSumSort(b, s[1..], key);
      LabelSumInsert(b, s[0], SortLabels(s[1..], key), key);
    }
  }

  lemma {:induction false} LabelSumTail(b: Buckets, s: seq<string>)
    requires b != [] && forall i :: 0 <= i < |s| ==> s[i] != b[0].0
    ensures LabelSum(b, s) == LabelSum(b[1..], s)
  {
    if s != [] {
      LabelSumTail(b, s[1..]);
    }
  }

  /** Over every key of `b`, once each, the buckets add up to the total of `b`. */
  lemma {:induction false} LabelSumKeys(b: Buckets)
    requires DistinctKeys(b)
    ensures LabelSum(b, Keys(b)) == BucketsTotal(b)
  {
    if b != [] {
      ConsDistinctTail(b);
      LabelSumKeys(b[1..]);
      assert Keys(b)[1..] == Keys(b[1..]);
      LabelSumTail(b, Keys(b[1..]));
    }
  }

  // ---------------------------------------------------------------- totals per period and per customer

  /** `grandTotalsByLabel.put(label, sum)` for each label in turn, starting from `g`. */
  function GrandFrom(g: Entries<int>, b: Buckets, labels: seq<string>): Entries<int>
    decreases |labels|
  {
    if labels == [] then g
    else GrandFrom(Put(g, labels[0], SumValues(Bucket(b, labels[0]))), b, labels[1..])
  }

  /** `totalsPerCustomer.put(c, totalsPerCustomer.getOrDefault(c, 0.0) + v)` for each entry in turn. */
  function AddAll(t: Entries<int>, es: Entries<int>): Entries<int>
    decreases |es|
  {
    if es == [] then t
    else AddAll(Put(t, es[0].0, GetOrDefault(t, es[0].0, 0) + es[0].1), es[1..])
  }

  /** `AddAll` of the bucket of each label in turn, starting from `t`. */
  function CustomerFrom(t: Entries<int>, b: Buckets, labels: seq<string>): Entries<int>
    decreases |labels|
  {
    if labels == [] then t
    else CustomerFrom(AddAll(t, Bucket(b, labels[0])), b, labels[1..])
  }

  /** One entry of the inner totals loop. */
  lemma EntryStep(t: Entries<int>, es: Entries<int>, j: nat)
    requires j < |es|
    ensures AddAll(t, es[j..]) == AddAll(Put(t, es[j].0, GetOrDefault(t, es[j].0, 0) + es[j].1), es[j + 1..])
    ensures SumValues(es[j..]) == es[j].1 + SumValues(es[j + 1..])
  {
    assert es[j..][0] == es[j] && es[j..][1..] == es[j + 1..];
  }

  /** One label of the outer totals loop. */
  lemma LabelStep(g: Entries<int>, t: Entries<int>, b: Buckets, labels: seq<string>, i: nat)
    requires i < |labels|
    ensures GrandFrom(g, b, labels[i..]) ==
      GrandFrom(Put(g, labels[i], SumValues(Bucket(b, labels[i]))), b, labels[i + 1..])
    ensures CustomerFrom(t, b, labels[i..]) == CustomerFrom(AddAll(t, Bucket(b, labels[i])), b, labels[i + 1..])
  {
    assert labels[i..][0] == labels[i] && labels[i..][1..] == labels[i + 1..];
  }

  /**
   * The totals loop of `refreshChartAndSummary()`: for every label, the sum
   * of its bucket goes into `grandTotalsByLabel` and each of its amounts is
   * added to that customer's entry in `totalsPerCustomer`.
   */
  method Totals(b: Buckets, labels: seq<string>) returns (grand: Entries<int>, perCustomer: Entries<int>)
    ensures grand == GrandFrom([], b, labels)
    ensures perCustomer == CustomerFrom([], b, labels)
  {
    grand, perCustomer := [], [];
    var i := 0;
    assert labels[0..] == labels;
    while i < |labels|
      invariant 0 <= i <= |labels|
      invariant GrandFrom(grand, b, labels[i..]) == GrandFrom([], b, labels)
      invariant CustomerFrom(perCustomer, b, labels[i..]) == CustomerFrom([], b, labels)
    {
      var es := Bucket(b, labels[i]);
      var sum := 0;
      ghost var start := perCustomer;
      var j := 0;
      assert es[0..] == es;
      while j < |es|
        invariant 0 <= j <= |es|
        invariant sum + SumValues(es[j..]) == SumValues(es)
        invariant AddAll(perCustomer, es[j..]) == AddAll(start, es)
      {
        EntryStep(perCustomer, es, j);
        sum := sum + es[j].1;
        perCustomer := Put(perCustomer, es[j].0, GetOrDefault(perCustomer, es[j].0, 0) + es[j].1);
        j := j + 1;
      }
      assert es[j..] == [];
      LabelStep(grand, start, b, labels, i);
      grand := Put(grand, labels[i], sum);
      i := i + 1;
    }
    assert labels[i..] == [];
  }

  /** `grandTotalsByLabel.get(label)` is the sum of that label's bucket; other keys are as in `g`. */
  lemma {:induction false} GrandFromGet(g: Entries<int>, b: Buckets, labels: seq<string>, l: string)
    ensures Get(GrandFrom(g, b, labels), l) == if l in labels then Some(SumValues(Bucket(b, l))) else Get(g, l)
    decreases |labels|
  {
    if labels != [] {
      var g' := Put(g, labels[0], SumValues(Bucket(b, labels[0])));
      GrandFromGet(g', b, labels[1..], l);
      PutGet(g, labels[0], SumValues(Bucket(b, labels[0])), l);
      assert labels == [labels[0]] + labels[1..];
    }
  }

  /** The sum of the values stored under `c`, counting every entry. */
  function KeySum(es: Entries<int>, c: string): int {
    if es == [] then 0 else (if es[0].0 == c then es[0].1 else 0) + KeySum(es[1..], c)
  }

  lemma {:induction false} AddAllGet(t: Entries<int>, es: Entries<int>, c: string)
    ensures GetOrDefault(AddAll(t, es), c, 0) == GetOrDefault(t, c, 0) + KeySum(es, c)
    decreases |es|
  {
    if es != [] {
      var t' := Put(t, es[0].0, GetOrDefault(t, es[0].0, 0) + es[0].1);
      AddAllGet(t', es[1..], c);
      PutGet(t, es[0].0, GetOrDefault(t, es[0].0, 0) + es[0].1, c);
    }
  }

  lemma {:induction false} AddAllSum(t: Entries<int>, es: Entries<int>)
    ensures SumValues(AddAll(t, es)) == SumValues(t) + SumValues(es)
    decreases |es|
  {
    if es != [] {
      var t' := Put(t, es[0].0, GetOrDefault(t, es[0].0, 0) + es[0].1);
      AddAllSum(t', es[1..]);
      SumAccumulate(t, es[0].0, es[0].1);
    }
  }

  lemma {:induction false} AddAllDistinct(t: Entries<int>, es: Entries<int>)
    requires DistinctKeys(t)
    ensures DistinctKeys(AddAll(t, es))
    decreases |es|
  {
    if es != [] {
      var t' := Put(t, es[0].0, GetOrDefault(t, es[0].0, 0) + es[0].1);
      PutKeepsDistinct(t, es[0].0, GetOrDefault(t, es[0].0, 0) + es[0].1);
      AddAllDistinct(t', es[1..]);
    }
  }

  lemma {:induction false} KeySumAbsent(es: Entries<int>, c: string)
    requires !HasKey(es, c)
    ensures KeySum(es, c) == 0
  {
    if es != [] {
      KeySumAbsent(es[1..], c);
    }
  }

  /** With distinct keys, summing by key is looking the key up. */
  lemma {:induction false} KeySumDistinct(es: Entries<int>, c: string)
    requires DistinctKeys(es)
    ensures KeySum(es, c) == GetOrDefault(es, c, 0)
  {
    if es != [] {
      ConsDistinctTail(es);
      if es[0].0 == c {
        HasKeyIndex(es[1..], c);
        KeySumAbsent(es[1..], c);
      } else {
        KeySumDistinct(es[1..], c);
      }
    }
  }

  /** `bucketsCustomer.get(label).getOrDefault(c, 0.0)` for each label: 0 where `c` bought nothing. */
  function Column(b: Buckets, labels: seq<string>, c: string): (r: seq<int>)
    ensures |r| == |labels|
    ensures forall i :: 0 <= i < |labels| ==> r[i] == GetOrDefault(Bucket(b, labels[i]), c, 0)
  {
    if labels == [] then [] else [GetOrDefault(Bucket(b, labels[0]), c, 0)] + Column(b, labels[1..], c)
  }

  function Total(s: seq<int>): int {
    if s == [] then 0 else s[0] + Total(s[1..])
  }

  /** A customer's overall total is the sum of the amounts charted for them. */
  lemma {:induction false} CustomerFromGet(t: Entries<int>, b: Buckets, labels: seq<string>, c: string)
    requires InnerDistinct(b)
    ensures GetOrDefault(CustomerFrom(t, b, labels), c, 0) == GetOrDefault(t, c, 0) + Total(Column(b, labels, c))
    decreases |labels|
  {
    if labels != [] {
      var es := Bucket(b, labels[0]);
      AddAllGet(t, es, c);
      BucketDistinct(b, labels[0]);
      KeySumDistinct(es, c);
      CustomerFromGet(AddAll(t, es), b, labels[1..], c);
      assert Column(b, labels, c)[1..] == Column(b, labels[1..], c);
    }
  }

  /** The customers' overall totals add up to the sum of the buckets. */
  lemma {:induction false} CustomerFromSum(t: Entries<int>, b: Buckets, labels: seq<string>)
    ensures SumValues(CustomerFrom(t, b, labels)) == SumValues(t) + LabelSum(b, labels)
    decreases |labels|
  {
    if labels != [] {
      AddAllSum(t, Bucket(b, labels[0]));
      CustomerFromSum(AddAll(t, Bucket(b, labels[0])), b, labels[1..]);
    }
  }

  lemma {:induction false} CustomerFromDistinct(t: Entries<int>, b: Buckets, labels: seq<string>)
    requires DistinctKeys(t)
    ensures DistinctKeys(CustomerFrom(t, b, labels))
    decreases |labels|
  {
    if labels != [] {
      AddAllDistinct(t, Bucket(b, labels[0]));
      CustomerFromDistinct(AddAll(t, Bucket(b, labels[0])), b, labels[1..]);
    }
  }

  /** `labels.stream().map(grandTotalsByLabel::get)`. */
  function TotalColumn(grand: Entries<int>, labels: seq<string>): (r: seq<int>)
    ensures |r| == |labels|
    ensures forall i :: 0 <= i < |labels| ==> r[i] == GetOrDefault(grand, labels[i], 0)
  {
    if labels == [] then [] else [GetOrDefault(grand, labels[0], 0)] + TotalColumn(grand, labels[1..])
  }

  lemma {:induction false} TotalOfSums(b: Buckets, labels: seq<string>, col: seq<int>)
    requires |col| == |labels| && forall i :: 0 <= i < |labels| ==> col[i] == SumValues(Bucket(b, labels[i]))
    ensures Total(col) == LabelSum(b, labels)
  {
    if labels != [] {
      TotalOfSums(b, labels[1..], col[1..]);
    }
  }

  /**
   * Each period's TOTAL is the sum of its customers' amounts, and the TOTAL
   * values add up to the sum of the buckets.
   */
  lemma TotalColumnSums(b: Buckets, labels: seq<string>)
    ensures var col := TotalColumn(GrandFrom([], b, labels), labels);
      (forall i :: 0 <= i < |labels| ==> col[i] == SumValues(Bucket(b, labels[i]))) &&
      Total(col) == LabelSum(b, labels)
  {
    var col := TotalColumn(GrandFrom([], b, labels), labels);
    forall i | 0 <= i < |labels| ensures col[i] == SumValues(Bucket(b, labels[i])) {
      GrandFromGet([], b, labels, labels[i]);
    }
    TotalOfSums(b, labels, col);
  }

  // ---------------------------------------------------------------- the charted customers

  /** `MAX_CUSTOMERS`. */
  const MaxCustomers: nat := 6

  /** `totalsPerCustomer` sorted by total, largest first, `limit(MAX_CUSTOMERS)`, keys only. */
  function TopCustomers(perCustomer: Entries<int>): seq<string> {
    Keys(TopN(perCustomer, MaxCustomers))
  }

  /**
   * At most six customers, each once, each with a total, largest total
   * first, and nobody left out has a larger total than anybody shown.
   */
  lemma TopCustomersRanked(perCustomer: Entries<int>)
    requires DistinctKeys(perCustomer)
    ensures var top := TopCustomers(perCustomer);
      && |top| == Min(MaxCustomers, |perCustomer|)
      && Distinct(top)
      && (forall i :: 0 <= i < |top| ==> HasKey(perCustomer, top[i]))
      && (forall i, j :: 0 <= i < j < |top| ==>
            GetOrDefault(perCustomer, top[i], 0) >= GetOrDefault(perCustomer, top[j], 0))
      && (forall c, i :: HasKey(perCustomer, c) && c !in top && 0 <= i < |top| ==>
            GetOrDefault(perCustomer, c, 0) <= GetOrDefault(perCustomer, top[i], 0))
  {
    var r := TopN(perCustomer, MaxCustomers);
    var top := TopCustomers(perCustomer);
    TopNIsTopN(perCustomer, MaxCustomers);
    TopNDistinct(perCustomer, MaxCustomers, r);
    forall i | 0 <= i < |r| ensures Get(perCustomer, r[i].0) == Some(r[i].1) && HasKey(perCustomer, r[i].0) {
      assert r[i] in multiset(perCustomer);
      MemberGet(perCustomer, r[i]);
    }
    forall c, i | HasKey(perCustomer, c) && c !in top && 0 <= i < |top|
      ensures GetOrDefault(perCustomer, c, 0) <= GetOrDefault(perCustomer, top[i], 0)
    {
      LeftOutNoLarger(perCustomer, r, c, i);
    }
  }

  lemma LeftOutNoLarger(perCustomer: Entries<int>, r: Entries<int>, c: string, i: nat)
    requires IsTopN(perCustomer, MaxCustomers, r)
    requires HasKey(perCustomer, c) && c !in Keys(r) && i < |r|
    ensures GetOrDefault(perCustomer, c, 0) <= r[i].1
  {
    GetHasKey(perCustomer, c);
    GetMember(perCustomer, c);
    var e := (c, Get(perCustomer, c).value);
    forall k | 0 <= k < |r| ensures r[k] != e {
      assert Keys(r)[k] == r[k].0;
    }
    assert r[i] in r;
  }

  // ---------------------------------------------------------------- the series

  /** `series.put(cust, vals)` for each top customer in turn, starting from `s`. */
  function SeriesFrom(s: Entries<seq<int>>, b: Buckets, labels: seq<string>, top: seq<string>): Entries<seq<int>>
    decreases |top|
  {
    if top == [] then s
    else SeriesFrom(Put(s, top[0], Column(b, labels, top[0])), b, labels, top[1..])
  }

  /** The chart's series: one per top customer, then `series.put("TOTAL", totalVals)`. */
  function SeriesOf(b: Buckets, labels: seq<string>, top: seq<string>, totalVals: seq<int>): Entries<seq<int>> {
    Put(SeriesFrom([], b, labels, top), "TOTAL", totalVals)
  }

  /** The series loop of `refreshChartAndSummary()`. */
  method BuildSeries(b: Buckets, labels: seq<string>, top: seq<string>, totalVals: seq<int>)
    returns (series: Entries<seq<int>>)
    ensures series == SeriesOf(b, labels, top, totalVals)
  {
    series := [];
    var k := 0;
    assert top[0..] == top;
    while k < |top|
      invariant 0 <= k <= |top|
      invariant SeriesFrom(series, b, labels, top[k..]) == SeriesFrom([], b, labels, top)
    {
      var cust := top[k];
      var vals: seq<int> := [];
      var i := 0;
      while i < |labels|
        invariant 0 <= i <= |labels|
        invariant |vals| == i
        invariant forall m :: 0 <= m < i ==> vals[m] == GetOrDefault(Bucket(b, labels[m]), cust, 0)
      {
        vals := vals + [GetOrDefault(Bucket(b, labels[i]), cust, 0)];
        i := i + 1;
      }
      assert vals == Column(b, labels, cust);
      assert top[k..][0] == cust && top[k..][1..] == top[k + 1..];
      series := Put(series, cust, vals);
      k := k + 1;
    }
    assert top[k..] == [];
    series := Put(series, "TOTAL", totalVals);
  }

  lemma {:induction false} SeriesFromGet(s: Entries<seq<int>>, b: Buckets, labels: seq<string>, top: seq<string>, c: string)
    ensures Get(SeriesFrom(s, b, labels, top), c) == if c in top then Some(Column(b, labels, c)) else Get(s, c)
    decreases |top|
  {
    if top != [] {
      var s' := Put(s, top[0], Column(b, labels, top[0]));
      SeriesFromGet(s', b, labels, top[1..], c);
      PutGet(s, top[0], Column(b, labels, top[0]), c);
      assert top == [top[0]] + top[1..];
    }
  }

  lemma DistinctTail(s: seq<string>)
    requires s != [] && Distinct(s)
    ensures Distinct(s[1..]) && s[0] !in s[1..]
  {
    forall i, j | 0 <= i < j < |s[1..]| ensures s[1..][i] != s[1..][j] {
      assert s[1..][i] == s[i + 1] && s[1..][j] == s[j + 1];
    }
    forall i | 0 <= i < |s[1..]| ensures s[1..][i] != s[0] {
      assert s[1..][i] == s[i + 1];
    }
  }

  lemma PutKeepsAbsent<V>(a: Entries<V>, k: string, v: V, rest: seq<string>)
    requires k !in rest && forall i :: 0 <= i < |rest| ==> !HasKey(a, rest[i])
    ensures forall i :: 0 <= i < |rest| ==> !HasKey(Put(a, k, v), rest[i])
  {
    forall i | 0 <= i < |rest| ensures !HasKey(Put(a, k, v), rest[i]) {
      PutHasKey(a, k, v, rest[i]);
    }
  }

  lemma AppendHead(a: seq<string>, s: seq<string>)
    requires s != []
    ensures (a + [s[0]]) + s[1..] == a + s
  {
  }

  lemma {:induction false} SeriesFromKeys(s: Entries<seq<int>>, b: Buckets, labels: seq<string>, top: seq<string>)
    requires Distinct(top) && forall i :: 0 <= i < |top| ==> !HasKey(s, top[i])
    ensures Keys(SeriesFrom(s, b, labels, top)) == Keys(s) + top
    decreases |top|
  {
    if top != [] {
      var col := Column(b, labels, top[0]);
      var s' := Put(s, top[0], col);
      KeysPut(s, top[0], col);
      DistinctTail(top);
      PutKeepsAbsent(s, top[0], col, top[1..]);
      SeriesFromKeys(s', b, labels, top[1..]);
      AppendHead(Keys(s), top);
    }
  }

  /**
   * What `series.get(name)` finds: the TOTAL values under `TOTAL` (also when
   * a top customer is called `TOTAL`), a top customer's amount in every
   * period, 0 where they bought nothing, and nothing for anybody else.
   */
  lemma SeriesGet(b: Buckets, labels: seq<string>, top: seq<string>, totalVals: seq<int>, name: string)
    ensures Get(SeriesOf(b, labels, top, totalVals), name) ==
      if name == "TOTAL" then Some(totalVals)
      else if name in top then Some(Column(b, labels, name))
      else None
  {
    PutGet(SeriesFrom([], b, labels, top), "TOTAL", totalVals, name);
    SeriesFromGet([], b, labels, top, name);
  }

  /**
   * The series come in the order of the top customers, with `TOTAL` last,
   * unless a top customer is called `TOTAL`: then `TOTAL` keeps that
   * customer's place.
   */
  lemma SeriesKeys(b: Buckets, labels: seq<string>, top: seq<string>, totalVals: seq<int>)
    requires Distinct(top)
    ensures Keys(SeriesOf(b, labels, top, totalVals)) == if "TOTAL" in top then top else top + ["TOTAL"]
  {
    var s := SeriesFrom([], b, labels, top);
    SeriesFromKeys([], b, labels, top);
    assert Keys(s) == top;
    KeysPut(s, "TOTAL", totalVals);
    KeysHasKey(s, "TOTAL");
  }

  // ---------------------------------------------------------------- the summary table

  /** One row of the summary table: the period, its TOTAL, and each top customer's amount. */
  datatype SummaryRow = SummaryRow(period: string, total: int, amounts: seq<int>)

  /** `series.get(cust).get(i)`. */
  function SeriesValue(series: Entries<seq<int>>, name: string, i: nat): int {
    var v := GetOrDefault(series, name, []);
    if i < |v| then v[i] else 0
  }

  /** The amounts of row `i`, one per top customer. */
  function Amounts(series: Entries<seq<int>>, top: seq<string>, i: nat): (r: seq<int>)
    ensures |r| == |top|
    ensures forall k :: 0 <= k < |top| ==> r[k] == SeriesValue(series, top[k], i)
  {
    if top == [] then [] else [SeriesValue(series, top[0], i)] + Amounts(series, top[1..], i)
  }

  function RowAt(labels: seq<string>, top: seq<string>, series: Entries<seq<int>>, totalVals: seq<int>, i: nat): SummaryRow
    requires i < |labels| == |totalVals|
  {
    SummaryRow(labels[i], totalVals[i], Amounts(series, top, i))
  }

  /** The summary loop of `refreshChartAndSummary()`: one row per label. */
  method BuildSummary(labels: seq<string>, top: seq<string>, series: Entries<seq<int>>, totalVals: seq<int>)
    returns (rows: seq<SummaryRow>)
    requires |totalVals| == |labels|
    ensures |rows| == |labels|
    ensures forall i :: 0 <= i < |labels| ==> rows[i] == RowAt(labels, top, series, totalVals, i)
  {
    rows := [];
    var i := 0;
    while i < |labels|
      invariant 0 <= i <= |labels|
      invariant |rows| == i
      invariant forall m :: 0 <= m < i ==> rows[m] == RowAt(labels, top, series, totalVals, m)
    {
      var amounts: seq<int> := [];
      var k := 0;
      while k < |top|
        invariant 0 <= k <= |top|
        invariant |amounts| == k
        invariant forall m :: 0 <= m < k ==> amounts[m] == SeriesValue(series, top[m], i)
      {
        amounts := amounts + [SeriesValue(series, top[k], i)];
        k := k + 1;
      }
      assert amounts == Amounts(series, top, i);
      rows := rows + [SummaryRow(labels[i], totalVals[i], amounts)];
      i := i + 1;
    }
  }

  // ---------------------------------------------------------------- the whole refresh

  datatype Chart = Chart(title: string, labels: seq<string>, series: Entries<seq<int>>,
                         columns: seq<string>, rows: seq<SummaryRow>)

  function ViewName(view: View): string {
    match view
    case Daily => "Daily"
    case Weekly => "Weekly"
    case Monthly => "Monthly"
  }

  function SummaryRows(labels: seq<string>, top: seq<string>, series: Entries<seq<int>>, totalVals: seq<int>)
    : seq<SummaryRow>
    requires |totalVals| == |labels|
  {
    seq(|labels|, i requires 0 <= i < |labels| => RowAt(labels, top, series, totalVals, i))
  }

  /** The chart and table drawn from `bucketsCustomer`. */
  function ChartOf(b: Buckets, view: View): Chart {
    var labels := SortLabels(Keys(b), SortRuleOf(view));
    var top := TopCustomers(CustomerFrom([], b, labels));
    var totalVals := TotalColumn(GrandFrom([], b, labels), labels);
    var series := SeriesOf(b, labels, top, totalVals);
    Chart("Sales (" + ViewName(view) + ")", labels, series, ["Period", "TOTAL"] + top,
          SummaryRows(labels, top, series, totalVals))
  }

  /** The chart of `orders.csv`, or None when reading it throws. */
  function ChartOfLines(lines: seq<string>, view: View, weekOf: WeekRule, now: LocalDateTime): Option<Chart> {
    match BucketsOf(lines, PeriodRule(view, weekOf, now))
    case None => None
    case Some(b) => Some(ChartOf(b, view))
  }

  /**
   * `refreshChartAndSummary()`: read the orders, sort the labels, total
   * them, pick the customers, build the series and the table.
   */
  method RefreshChart(lines: seq<string>, view: View, weekOf: WeekRule, now: LocalDateTime)
    returns (chart: Option<Chart>)
    ensures chart == ChartOfLines(lines, view, weekOf, now)
  {
    var buckets := GatherBuckets(lines, PeriodRule(view, weekOf, now));
    if buckets.None? {
      return None;
    }
    var b := buckets.value;
    var labels := SortLabels(Keys(b), SortRuleOf(view));
    var grand, perCustomer := Totals(b, labels);
    var top := TopCustomers(perCustomer);
    var totalVals := TotalColumn(grand, labels);
    var series := BuildSeries(b, labels, top, totalVals);
    var rows := BuildSummary(labels, top, series, totalVals);
    assert rows == SummaryRows(labels, top, series, totalVals);
    chart := Some(Chart("Sales (" + ViewName(view) + ")", labels, series, ["Period", "TOTAL"] + top, rows));
  }

  // ---------------------------------------------------------------- what the chart shows

  /**
   * The labels are the periods that have an order, each once, in `sortKey`
   * order.
   */
  lemma ChartLabels(os: seq<OrderOutcome>, keyOf: KeyRule, view: View)
    requires Gather(os, keyOf).Some?
    ensures var labels := ChartOf(Gather(os, keyOf).value, view).labels;
      && Distinct(labels)
      && SortedBy(labels, SortRuleOf(view))
      && forall l :: l in labels <==> HasPeriod(os, keyOf, l)
  {
    var b := Gather(os, keyOf).value;
    var labels := SortLabels(Keys(b), SortRuleOf(view));
    GatherKeys(os, keyOf);
    PermutationDistinct(labels, Keys(b));
    SortLabelsSorted(Keys(b), SortRuleOf(view));
    forall l ensures l in labels <==> HasPeriod(os, keyOf, l) {
      assert l in labels <==> l in multiset(Keys(b));
      KeysHasKey(b, l);
    }
  }

  /**
   * The `TOTAL` series holds each period's sum over its customers, and the
   * TOTAL values add up to the totals of all order lines.
   */
  lemma ChartTotals(os: seq<OrderOutcome>, keyOf: KeyRule, view: View)
    requires Gather(os, keyOf).Some?
    ensures var b := Gather(os, keyOf).value;
      var ch := ChartOf(b, view);
      Get(ch.series, "TOTAL").Some? &&
      var totalVals := Get(ch.series, "TOTAL").value;
      && |totalVals| == |ch.labels|
      && (forall i :: 0 <= i < |ch.labels| ==> totalVals[i] == SumValues(Bucket(b, ch.labels[i])))
      && Total(totalVals) == AllOrders(os)
  {
    var b := Gather(os, keyOf).value;
    var labels := SortLabels(Keys(b), SortRuleOf(view));
    var top := TopCustomers(CustomerFrom([], b, labels));
    var totalVals := TotalColumn(GrandFrom([], b, labels), labels);
    SeriesGet(b, labels, top, totalVals, "TOTAL");
    TotalColumnSums(b, labels);
    LabelSumSort(b, Keys(b), SortRuleOf(view));
    GatherKeys(os, keyOf);
    LabelSumKeys(b);
    GatherTotal(os, keyOf);
  }

  /**
   * A charted customer's series holds, for every period, the sum of that
   * customer's orders in the period; every series has one value per label.
   */
  lemma ChartAmounts(os: seq<OrderOutcome>, keyOf: KeyRule, view: View, name: string)
    requires Gather(os, keyOf).Some?
    ensures var ch := ChartOf(Gather(os, keyOf).value, view);
      && (Get(ch.series, name).Some? ==> |Get(ch.series, name).value| == |ch.labels|)
      && (name != "TOTAL" && name in ch.columns[2..] ==>
            Get(ch.series, name).Some? &&
            forall i :: 0 <= i < |ch.labels| ==>
              Get(ch.series, name).value[i] == OrderSum(os, keyOf, ch.labels[i], name))
  {
    var b := Gather(os, keyOf).value;
    var labels := SortLabels(Keys(b), SortRuleOf(view));
    var top := TopCustomers(CustomerFrom([], b, labels));
    var totalVals := TotalColumn(GrandFrom([], b, labels), labels);
    SeriesGet(b, labels, top, totalVals, name);
    assert (["Period", "TOTAL"] + top)[2..] == top;
    GatherAmounts(os, keyOf);
  }

  /**
   * The charted customers: at most six, each once, in the order of their
   * totals, largest first; nobody left out has a larger total than anybody
   * charted; each total is the sum of the customer's charted amounts, and
   * all the totals add up to the totals of all order lines.
   */
  lemma ChartCustomers(os: seq<OrderOutcome>, keyOf: KeyRule, view: View)
    requires Gather(os, keyOf).Some?
    ensures var b := Gather(os, keyOf).value;
      var ch := ChartOf(b, view);
      var perCustomer := CustomerFrom([], b, ch.labels);
      var top := ch.columns[2..];
      && |top| <= MaxCustomers
      && Distinct(top)
      && (forall i, j :: 0 <= i < j < |top| ==>
            GetOrDefault(perCustomer, top[i], 0) >= GetOrDefault(perCustomer, top[j], 0))
      && (forall c, i :: HasKey(perCustomer, c) && c !in top && 0 <= i < |top| ==>
            GetOrDefault(perCustomer, c, 0) <= GetOrDefault(perCustomer, top[i], 0))
      && (forall c :: GetOrDefault(perCustomer, c, 0) == Total(Column(b, ch.labels, c)))
      && SumValues(perCustomer) == AllOrders(os)
  {
    var b := Gather(os, keyOf).value;
    var labels := SortLabels(Keys(b), SortRuleOf(view));
    var perCustomer := CustomerFrom([], b, labels);
    var top := TopCustomers(perCustomer);
    assert (["Period", "TOTAL"] + top)[2..] == top;
    CustomerFromDistinct([], b, labels);
    TopCustomersRanked(perCustomer);
    GatherInner(os, keyOf);
    forall c ensures GetOrDefault(perCustomer, c, 0) == Total(Column(b, labels, c)) {
      CustomerFromGet([], b, labels, c);
    }
    CustomerFromSum([], b, labels);
    LabelSumSort(b, Keys(b), SortRuleOf(view));
    GatherKeys(os, keyOf);
    LabelSumKeys(b);
    GatherTotal(os, keyOf);
  }

  /** A summary cell reads the customer's series, which is the TOTAL series for a customer called `TOTAL`. */
  lemma RowAmount(b: Buckets, labels: seq<string>, top: seq<string>, totalVals: seq<int>, i: nat, k: nat)
    requires i < |labels| == |totalVals| && k < |top|
    ensures SeriesValue(SeriesOf(b, labels, top, totalVals), top[k], i) ==
      if top[k] == "TOTAL" then totalVals[i] else GetOrDefault(Bucket(b, labels[i]), top[k], 0)
  {
    SeriesGet(b, labels, top, totalVals, top[k]);
  }

  /**
   * Row `i` of the summary table shows the `i`-th period, its TOTAL and, per
   * top customer, that customer's amount in the period; a customer called
   * `TOTAL` shows the period's TOTAL.
   */
  lemma ChartRows(b: Buckets, view: View, i: nat, k: nat)
    requires i < |ChartOf(b, view).labels|
    ensures var ch := ChartOf(b, view);
      var top := ch.columns[2..];
      && |ch.rows| == |ch.labels|
      && ch.rows[i].period == ch.labels[i]
      && ch.rows[i].total == SumValues(Bucket(b, ch.labels[i]))
      && |ch.rows[i].amounts| == |top|
      && (k < |top| ==>
            ch.rows[i].amounts[k] ==
              (if top[k] == "TOTAL" then SumValues(Bucket(b, ch.labels[i]))
               else GetOrDefault(Bucket(b, ch.labels[i]), top[k], 0)))
  {
    var labels := SortLabels(Keys(b), SortRuleOf(view));
    var top := TopCustomers(CustomerFrom([], b, labels));
    var totalVals := TotalColumn(GrandFrom([], b, labels), labels);
    var series := SeriesOf(b, labels, top, totalVals);
    var ch := ChartOf(b, view);
    assert ch.labels == labels && ch.columns[2..] == top;
    assert ch.rows == SummaryRows(labels, top, series, totalVals);
    assert ch.rows[i] == RowAt(labels, top, series, totalVals, i);
    TotalColumnSums(b, labels);
    if k < |top| {
      RowAmount(b, labels, top, totalVals, i, k);
    }
  }
}
