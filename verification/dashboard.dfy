/** Client-side aggregation on the metrics dashboard: decision buckets for the
    internal and customer decisions, the comparison chart rows, the monthly
    pass/fail trend of final inspections, and the list-to-chart mappings. */
module Dashboard {
  import opened Wrappers
  import Text
  import Sequences

  // ---------------------------------------------------------------- decisions

  /** One row of a decision breakdown: the decision value (possibly missing) and its count. */
  datatype DecisionRow = DecisionRow(value: Option<string>, count: nat)

  datatype Buckets = Buckets(accepted: nat, rejected: nat, other: nat)

  function Total(rows: seq<DecisionRow>): nat
    decreases |rows|
  {
    if |rows| == 0 then 0 else Total(rows[..|rows| - 1]) + rows[|rows| - 1].count
  }

  /** The summed count of the rows whose value is exactly `v`. */
  function CountOf(rows: seq<DecisionRow>, v: string): nat
    decreases |rows|
  {
    if |rows| == 0 then 0
    else CountOf(rows[..|rows| - 1], v) + (if rows[|rows| - 1].value == Some(v) then rows[|rows| - 1].count else 0)
  }

  /** The summed count of the rows whose value is neither "Accepted" nor "Rejected", missing included. */
  function CountOther(rows: seq<DecisionRow>): nat
    decreases |rows|
  {
    if |rows| == 0 then 0
    else
      var last := rows[|rows| - 1];
      CountOther(rows[..|rows| - 1])
        + (if last.value != Some("Accepted") && last.value != Some("Rejected") then last.count else 0)
  }

  /** The three buckets partition the rows' counts. */
  lemma {:induction false} BucketsPartition(rows: seq<DecisionRow>)
    ensures CountOf(rows, "Accepted") + CountOf(rows, "Rejected") + CountOther(rows) == Total(rows)
    decreases |rows|
  {
    if |rows| > 0 {
      BucketsPartition(rows[..|rows| - 1]);
    }
  }

  /** Buckets a decision breakdown; a missing breakdown gives three zeros. */
  method ProcessDecisions(decisions: Option<seq<DecisionRow>>) returns (b: Buckets)
    ensures decisions.None? ==> b == Buckets(0, 0, 0)
    ensures decisions.Some? ==>
      && b.accepted == CountOf(decisions.value, "Accepted")
      && b.rejected == CountOf(decisions.value, "Rejected")
      && b.other == CountOther(decisions.value)
      && b.accepted + b.rejected + b.other == Total(decisions.value)
  {
    b := Buckets(0, 0, 0);
    if decisions.None? {
      return;
    }
    var rows := decisions.value;
    var i := 0;
    while i < |rows|
      invariant 0 <= i <= |rows|
      invariant b.accepted == CountOf(rows[..i], "Accepted")
      invariant b.rejected == CountOf(rows[..i], "Rejected")
      invariant b.other == CountOther(rows[..i])
    {
      assert rows[..i + 1][..i] == rows[..i];
      var d := rows[i];
      if d.value == Some("Accepted") {
        b := b.(accepted := b.accepted + d.count);
      } else if d.value == Some("Rejected") {
        b := b.(rejected := b.rejected + d.count);
      } else {
        b := b.(other := b.other + d.count);
      }
      i := i + 1;
    }
    assert rows[..|rows|] == rows;
    BucketsPartition(rows);
  }

  /** One bar group of the decision comparison chart. */
  datatype ComparisonRow = ComparisonRow(name: string, internal: nat, customer: nat)

  function Comparison(internal: Buckets, customer: Buckets): (rows: seq<ComparisonRow>)
    ensures |rows| == 3
    ensures rows[0] == ComparisonRow("Accepted", internal.accepted, customer.accepted)
    ensures rows[1] == ComparisonRow("Rejected", internal.rejected, customer.rejected)
    ensures rows[2] == ComparisonRow("Other", internal.other, customer.other)
  {
    [ComparisonRow("Accepted", internal.accepted, customer.accepted),
     ComparisonRow("Rejected", internal.rejected, customer.rejected),
     ComparisonRow("Other", internal.other, customer.other)]
  }

  /** Each column of the comparison chart adds up to the total count of its breakdown. */
  method ComparisonColumnsSum(internal: seq<DecisionRow>, customer: seq<DecisionRow>) returns (rows: seq<ComparisonRow>)
    ensures |rows| == 3
    ensures rows[0].name == "Accepted" && rows[1].name == "Rejected" && rows[2].name == "Other"
    ensures rows[0].internal == CountOf(internal, "Accepted") && rows[0].customer == CountOf(customer, "Accepted")
    ensures rows[1].internal == CountOf(internal, "Rejected") && rows[1].customer == CountOf(customer, "Rejected")
    ensures rows[2].internal == CountOther(internal) && rows[2].customer == CountOther(customer)
    ensures rows[0].internal + rows[1].internal + rows[2].internal == Total(internal)
    ensures rows[0].customer + rows[1].customer + rows[2].customer == Total(customer)
  {
    var bi := ProcessDecisions(Some(internal));
    var bc := ProcessDecisions(Some(customer));
    rows := Comparison(bi, bc);
  }

  // ---------------------------------------------------------------- trend

  /** One entry of a monthly series: a month key and its count. */
  datatype Point<K> = Point(key: K, count: nat)

  /** One row of the merged trend. */
  datatype TrendRow<K> = TrendRow(key: K, pass: nat, fail: nat)

  /** The keys occurring in a series. */
  function KeySet<K>(items: seq<Point<K>>): (ks: set<K>)
    ensures forall i :: 0 <= i < |items| ==> items[i].key in ks
    decreases |items|
  {
    assert forall i :: 0 < i < |items| ==> items[1..][i - 1] == items[i];
    if |items| == 0 then {} else {items[0].key} + KeySet(items[1..])
  }

  lemma {:induction false} KeySetMembers<K>(items: seq<Point<K>>, k: K)
    ensures k in KeySet(items) <==> exists i :: 0 <= i < |items| && items[i].key == k
    decreases |items|
  {
    if |items| > 0 {
      KeySetMembers(items[1..], k);
      if exists i :: 0 <= i < |items| && items[i].key == k {
        var i :| 0 <= i < |items| && items[i].key == k;
        if i > 0 {
          assert items[1..][i - 1].key == k;
        }
      }
      if exists i :: 0 <= i < |items[1..]| && items[1..][i].key == k {
        var i :| 0 <= i < |items[1..]| && items[1..][i].key == k;
        assert items[i + 1].key == k;
      }
    }
  }

  /** The series as a map: each entry is overridden by any later entry with the same key. */
  function SeriesMap<K(==)>(items: seq<Point<K>>): (m: map<K, nat>)
    ensures m.Keys == KeySet(items)
    ensures forall i :: 0 <= i < |items| && items[i].key !in KeySet(items[i + 1..])
              ==> m[items[i].key] == items[i].count
    decreases |items|
  {
    if |items| == 0 then map[]
    else
      var tail := items[1..];
      var m := SeriesMap(tail);
      assert forall i :: 0 < i < |items| ==> tail[i - 1] == items[i] && tail[i - 1 + 1..] == items[i + 1..];
      map[items[0].key := items[0].count] + m
  }

  /** Adding one entry at the end sets its key, as `Map.prototype.set` does. */
  lemma {:induction false} SeriesMapSnoc<K>(items: seq<Point<K>>, p: Point<K>)
    ensures SeriesMap(items + [p]) == SeriesMap(items)[p.key := p.count]
    decreases |items|
  {
    if |items| == 0 {
      assert [p][1..] == [];
    } else {
      assert (items + [p])[1..] == items[1..] + [p];
      SeriesMapSnoc(items[1..], p);
    }
  }

  /** The series map built entry by entry, as the dashboard's `forEach` does. */
  method BuildSeriesMap<K>(items: seq<Point<K>>) returns (m: map<K, nat>)
    ensures m.Keys == KeySet(items)
    ensures forall i :: 0 <= i < |items| && items[i].key !in KeySet(items[i + 1..])
              ==> m[items[i].key] == items[i].count
  {
    m := map[];
    var i := 0;
    while i < |items|
      invariant 0 <= i <= |items|
      invariant m == SeriesMap(items[..i])
    {
      assert items[..i + 1] == items[..i] + [items[i]];
      SeriesMapSnoc(items[..i], items[i]);
      m := m[items[i].key := items[i].count];
      i := i + 1;
    }
    assert items[..i] == items;
  }

  function KeysOf<K(!new)>(items: seq<Point<K>>): (ks: seq<K>)
    ensures |ks| == |items| && forall i :: 0 <= i < |items| ==> ks[i] == items[i].key
    ensures forall k :: k in ks <==> k in KeySet(items)
  {
    var ks := seq(|items|, i requires 0 <= i < |items| => items[i].key);
    assert forall k :: k in ks <==> k in KeySet(items) by {
      forall k ensures k in ks <==> k in KeySet(items) {
        KeySetMembers(items, k);
        if k in KeySet(items) {
          var i :| 0 <= i < |items| && items[i].key == k;
          assert ks[i] == k;
        }
      }
    }
    ks
  }

  /** The value of a key in a series, 0 when the series lacks it. */
  function CountOr0<K>(m: map<K, nat>, k: K): nat {
    if k in m then m[k] else 0
  }

  function RowKeys<K>(rows: seq<TrendRow<K>>): (ks: seq<K>)
    ensures |ks| == |rows| && forall i :: 0 <= i < |rows| ==> ks[i] == rows[i].key
  {
    seq(|rows|, i requires 0 <= i < |rows| => rows[i].key)
  }

  /** One row per key, with the count of each series or 0. */
  function RowsFor<K>(keys: seq<K>, pm: map<K, nat>, fm: map<K, nat>): (rows: seq<TrendRow<K>>)
    ensures RowKeys(rows) == keys
    ensures forall i :: 0 <= i < |rows| ==> rows[i].pass == CountOr0(pm, keys[i]) && rows[i].fail == CountOr0(fm, keys[i])
  {
    seq(|keys|, i requires 0 <= i < |keys| => TrendRow(keys[i], CountOr0(pm, keys[i]), CountOr0(fm, keys[i])))
  }

  /** Merges the pass and fail series into one row per key of either, sorted ascending by `below`. */
  function MergeSeries<K(==,!new)>(pass: seq<Point<K>>, fail: seq<Point<K>>, below: (K, K) -> bool): (rows: seq<TrendRow<K>>)
    requires Sequences.StrictTotalOrder(below)
    ensures forall i, j :: 0 <= i < j < |rows| ==> below(rows[i].key, rows[j].key)
    ensures forall k :: k in RowKeys(rows) <==> k in SeriesMap(pass) || k in SeriesMap(fail)
    ensures forall i :: 0 <= i < |rows| ==>
      rows[i].pass == CountOr0(SeriesMap(pass), rows[i].key)
      && rows[i].fail == CountOr0(SeriesMap(fail), rows[i].key)
  {
    var all := Sequences.Dedup(KeysOf(pass) + KeysOf(fail));
    var keys := Sequences.Sort(all, below);
    var rows := RowsFor(keys, SeriesMap(pass), SeriesMap(fail));
    assert RowKeys(rows) == keys;
    rows
  }

  /** The final-inspection trend as the dashboard draws it: month labels are the keys and sort as strings. */
  function Trend(pass: Option<seq<Point<string>>>, fail: Option<seq<Point<string>>>): (rows: seq<TrendRow<string>>)
    ensures forall i, j :: 0 <= i < j < |rows| ==> Text.Below(rows[i].key, rows[j].key)
    ensures forall k :: k in RowKeys(rows) <==> k in SeriesMap(pass.GetOr([])) || k in SeriesMap(fail.GetOr([]))
    ensures forall i :: 0 <= i < |rows| ==>
      rows[i].pass == CountOr0(SeriesMap(pass.GetOr([])), rows[i].key)
      && rows[i].fail == CountOr0(SeriesMap(fail.GetOr([])), rows[i].key)
  {
    Text.BelowIsStrictTotalOrder();
    MergeSeries(pass.GetOr([]), fail.GetOr([]), Text.Below)
  }

  /** The en-US short month label of a month, as "Jan 25". */
  const MonthNames: seq<string> := ["Jan", "Feb", "Mar", "Apr", "May", "Jun", "Jul", "Aug", "Sep", "Oct", "Nov", "Dec"]

  function MonthLabel(year: nat, month: int): string
    requires 1 <= month <= 12
  {
    var yy := year % 100;
    MonthNames[month - 1] + " " + [('0' as int + yy / 10) as char, ('0' as int + yy % 10) as char]
  }

  lemma MonthLabelsOfEarly2025()
    ensures MonthLabel(2025, 1) == "Jan 25" && MonthLabel(2025, 2) == "Feb 25"
  {
  }

  /** The map of a two-entry series with distinct keys. */
  lemma SeriesMapOfTwo<K>(a: K, b: K, x: nat, y: nat)
    requires a != b
    ensures SeriesMap([Point(a, x), Point(b, y)]) == map[a := x, b := y]
  {
    var items := [Point(a, x), Point(b, y)];
    assert items[1..] == [Point(b, y)];
    assert [Point(b, y)][1..] == [];
  }

  /** Sorted rows over exactly two keys `b` below `a` are the row of `b` and then the row of `a`. */
  lemma RowsOfTwo(rows: seq<TrendRow<string>>, a: string, b: string, pm: map<string, nat>, fm: map<string, nat>)
    requires Text.Below(b, a)
    requires forall i, j :: 0 <= i < j < |rows| ==> Text.Below(rows[i].key, rows[j].key)
    requires forall k :: k in RowKeys(rows) <==> k == a || k == b
    requires forall i :: 0 <= i < |rows| ==> rows[i].pass == CountOr0(pm, rows[i].key) && rows[i].fail == CountOr0(fm, rows[i].key)
    ensures rows == [TrendRow(b, CountOr0(pm, b), CountOr0(fm, b)), TrendRow(a, CountOr0(pm, a), CountOr0(fm, a))]
  {
    Text.BelowIsStrictTotalOrder();
    var ks := RowKeys(rows);
    assert forall i :: 0 <= i < |ks| ==> ks[i] in ks;
    Sequences.SortedPair(ks, b, a, Text.Below);
  }

  /** Two months whose labels sort in the order `b` before `a` are drawn in that order. */
  lemma TrendOfTwo(a: string, b: string, x: nat, y: nat)
    requires Text.Below(b, a)
    ensures Trend(Some([Point(a, x), Point(b, y)]), None) == [TrendRow(b, y, 0), TrendRow(a, x, 0)]
  {
    Text.BelowAsymmetric(b, a);
    SeriesMapOfTwo(a, b, x, y);
    assert SeriesMap<string>([]) == map[];
    var rows := Trend(Some([Point(a, x), Point(b, y)]), None);
    RowsOfTwo(rows, a, b, map[a := x, b := y], map[]);
  }

  /** Labels sort alphabetically: February 2025 is drawn before January 2025. */
  lemma TrendNotChronological()
    ensures var rows := Trend(Some([Point(MonthLabel(2025, 1), 3), Point(MonthLabel(2025, 2), 1)]), None);
      rows == [TrendRow("Feb 25", 1, 0), TrendRow("Jan 25", 3, 0)]
  {
    MonthLabelsOfEarly2025();
    assert Text.Below("Feb 25", "Jan 25");
    TrendOfTwo("Jan 25", "Feb 25", 3, 1);
  }

  /** A calendar month, the key the trend evidently means to order by. */
  datatype YearMonth = YearMonth(year: nat, month: int)

  function EarlierMonth(a: YearMonth, b: YearMonth): bool {
    a.year < b.year || (a.year == b.year && a.month < b.month)
  }

  lemma EarlierMonthIsOrder()
    ensures Sequences.StrictTotalOrder(EarlierMonth)
  {
  }

  /** A trend row with its calendar month and its display label. */
  datatype LabeledRow = LabeledRow(month: YearMonth, name: string, pass: nat, fail: nat)

  function Months(rows: seq<LabeledRow>): (ms: seq<YearMonth>)
    ensures |ms| == |rows| && forall i :: 0 <= i < |rows| ==> ms[i] == rows[i].month
  {
    seq(|rows|, i requires 0 <= i < |rows| => rows[i].month)
  }

  ghost predicate ValidMonths(items: seq<Point<YearMonth>>) {
    forall i :: 0 <= i < |items| ==> 1 <= items[i].key.month <= 12
  }

  lemma KeysValid(items: seq<Point<YearMonth>>, k: YearMonth)
    requires ValidMonths(items) && k in KeySet(items)
    ensures 1 <= k.month <= 12
  {
    KeySetMembers(items, k);
  }

  /** Every key of a merge of two valid series is a valid month. */
  lemma MergedMonthsValid(p: seq<Point<YearMonth>>, f: seq<Point<YearMonth>>, merged: seq<TrendRow<YearMonth>>)
    requires ValidMonths(p) && ValidMonths(f)
    requires forall k :: k in RowKeys(merged) ==> k in SeriesMap(p) || k in SeriesMap(f)
    ensures forall i :: 0 <= i < |merged| ==> 1 <= merged[i].key.month <= 12
  {
    forall i | 0 <= i < |merged| ensures 1 <= merged[i].key.month <= 12 {
      var k := merged[i].key;
      assert RowKeys(merged)[i] == k;
      if k in SeriesMap(p) {
        KeysValid(p, k);
      } else {
        KeysValid(f, k);
      }
    }
  }

  /** Attaches each row's display label to the merged rows. */
  function Labelled(merged: seq<TrendRow<YearMonth>>): (rows: seq<LabeledRow>)
    requires forall i :: 0 <= i < |merged| ==> 1 <= merged[i].key.month <= 12
    ensures Months(rows) == RowKeys(merged)
    ensures forall i :: 0 <= i < |rows| ==>
      rows[i] == LabeledRow(merged[i].key, MonthLabel(merged[i].key.year, merged[i].key.month), merged[i].pass, merged[i].fail)
  {
    seq(|merged|, i requires 0 <= i < |merged| =>
      LabeledRow(merged[i].key, MonthLabel(merged[i].key.year, merged[i].key.month), merged[i].pass, merged[i].fail))
  }

  /** The trend merged and ordered by calendar month, labelled only for display. */
  function ChronologicalTrend(pass: Option<seq<Point<YearMonth>>>, fail: Option<seq<Point<YearMonth>>>): (rows: seq<LabeledRow>)
    requires ValidMonths(pass.GetOr([])) && ValidMonths(fail.GetOr([]))
    ensures forall i, j :: 0 <= i < j < |rows| ==> EarlierMonth(rows[i].month, rows[j].month)
    ensures forall m :: m in Months(rows) <==> m in SeriesMap(pass.GetOr([])) || m in SeriesMap(fail.GetOr([]))
    ensures forall i :: 0 <= i < |rows| ==>
      1 <= rows[i].month.month <= 12
      && rows[i].name == MonthLabel(rows[i].month.year, rows[i].month.month)
      && rows[i].pass == CountOr0(SeriesMap(pass.GetOr([])), rows[i].month)
      && rows[i].fail == CountOr0(SeriesMap(fail.GetOr([])), rows[i].month)
  {
    EarlierMonthIsOrder();
    var p, f := pass.GetOr([]), fail.GetOr([]);
    var merged := MergeSeries(p, f, EarlierMonth);
    MergedMonthsValid(p, f, merged);
    Labelled(merged)
  }

  // ---------------------------------------------------------------- charts

  datatype ChartPoint = ChartPoint(name: string, value: nat)

  datatype PassFailPoint = PassFailPoint(name: string, pass: nat, fail: nat)

  /** A missing or empty name is shown as "Unknown". */
  function NameOr(name: Option<string>): string {
    OrElse(name, "Unknown")
  }

  datatype StageItem = StageItem(stage: string, count: nat)
  datatype CustomerItem = CustomerItem(customerName: Option<string>, count: nat)
  datatype FiCustomerItem = FiCustomerItem(customerName: Option<string>, passCount: Option<nat>, failCount: Option<nat>)
  datatype DefectItem = DefectItem(description: Option<string>, total: Option<nat>)

  /** The pass/fail pie: the two server counts, missing ones as 0. */
  function PassFailData(passCount: Option<nat>, failCount: Option<nat>): (r: seq<ChartPoint>)
    ensures |r| == 2 && r[0].name == "Pass" && r[1].name == "Fail"
    ensures passCount.Some? ==> r[0].value == passCount.value
    ensures failCount.Some? ==> r[1].value == failCount.value
    ensures passCount.None? ==> r[0].value == 0
    ensures failCount.None? ==> r[1].value == 0
  {
    [ChartPoint("Pass", passCount.GetOr(0)), ChartPoint("Fail", failCount.GetOr(0))]
  }

  function StageData(items: Option<seq<StageItem>>): (r: seq<ChartPoint>)
    ensures |r| == |items.GetOr([])|
    ensures forall i :: 0 <= i < |r| ==> r[i] == ChartPoint(items.value[i].stage, items.value[i].count)
  {
    var xs := items.GetOr([]);
    seq(|xs|, i requires 0 <= i < |xs| => ChartPoint(xs[i].stage, xs[i].count))
  }

  /** The monthly inspection trend: one point per month, the month already rendered as its label. */
  function MonthlyTrendData(items: Option<seq<Point<string>>>): (r: seq<ChartPoint>)
    ensures |r| == |items.GetOr([])|
    ensures forall i :: 0 <= i < |r| ==> r[i] == ChartPoint(items.value[i].key, items.value[i].count)
  {
    var xs := items.GetOr([]);
    seq(|xs|, i requires 0 <= i < |xs| => ChartPoint(xs[i].key, xs[i].count))
  }

  function CustomerData(items: Option<seq<CustomerItem>>): (r: seq<ChartPoint>)
    ensures |r| == |items.GetOr([])|
    ensures forall i :: 0 <= i < |r| ==>
      r[i].name != "" && r[i] == ChartPoint(NameOr(items.value[i].customerName), items.value[i].count)
  {
    var xs := items.GetOr([]);
    seq(|xs|, i requires 0 <= i < |xs| => ChartPoint(NameOr(xs[i].customerName), xs[i].count))
  }

  function FiCustomerData(items: Option<seq<FiCustomerItem>>): (r: seq<PassFailPoint>)
    ensures |r| == |items.GetOr([])|
    ensures forall i :: 0 <= i < |r| ==>
      r[i].name != "" && r[i] == PassFailPoint(NameOr(items.value[i].customerName),
                                               items.value[i].passCount.GetOr(0), items.value[i].failCount.GetOr(0))
  {
    var xs := items.GetOr([]);
    seq(|xs|, i requires 0 <= i < |xs| =>
      PassFailPoint(NameOr(xs[i].customerName), xs[i].passCount.GetOr(0), xs[i].failCount.GetOr(0)))
  }

  function FiDefectsData(items: Option<seq<DefectItem>>): (r: seq<ChartPoint>)
    ensures |r| == |items.GetOr([])|
    ensures forall i :: 0 <= i < |r| ==>
      r[i].name != "" && r[i] == ChartPoint(NameOr(items.value[i].description), items.value[i].total.GetOr(0))
  {
    var xs := items.GetOr([]);
    seq(|xs|, i requires 0 <= i < |xs| => ChartPoint(NameOr(xs[i].description), xs[i].total.GetOr(0)))
  }

  // ---------------------------------------------------------------- chart totals

  function PointValue(): ChartPoint -> nat { (p: ChartPoint) => p.value }
  function PointPass(): PassFailPoint -> nat { (p: PassFailPoint) => p.pass }
  function PointFail(): PassFailPoint -> nat { (p: PassFailPoint) => p.fail }
  function StageCount(): StageItem -> nat { (x: StageItem) => x.count }
  function MonthCount(): Point<string> -> nat { (x: Point<string>) => x.count }
  function CustomerCount(): CustomerItem -> nat { (x: CustomerItem) => x.count }
  function FiPassCount(): FiCustomerItem -> nat { (x: FiCustomerItem) => x.passCount.GetOr(0) }
  function FiFailCount(): FiCustomerItem -> nat { (x: FiCustomerItem) => x.failCount.GetOr(0) }
  function DefectTotal(): DefectItem -> nat { (x: DefectItem) => x.total.GetOr(0) }

  /** The pie's two slices add up to the reported passes and fails, a missing count adding nothing. */
  lemma PassFailTotal(passCount: Option<nat>, failCount: Option<nat>)
    ensures Sequences.SumOf(PassFailData(passCount, failCount), PointValue()) == passCount.GetOr(0) + failCount.GetOr(0)
  {
    var r, v := PassFailData(passCount, failCount), PointValue();
    assert r[1..][1..] == [];
    assert Sequences.SumOf(r[1..], v) == r[1].value + Sequences.SumOf(r[1..][1..], v);
    assert Sequences.SumOf(r, v) == r[0].value + Sequences.SumOf(r[1..], v);
  }

  /** Each bar chart draws every counted inspection once: its bars add up to the server's counts,
      whatever names the groups are shown under. */
  lemma StageChartTotal(items: Option<seq<StageItem>>)
    ensures Sequences.SumOf(StageData(items), PointValue()) == Sequences.SumOf(items.GetOr([]), StageCount())
  {
    Sequences.SumOfMatches(StageData(items), PointValue(), items.GetOr([]), StageCount());
  }

  lemma MonthlyChartTotal(items: Option<seq<Point<string>>>)
    ensures Sequences.SumOf(MonthlyTrendData(items), PointValue()) == Sequences.SumOf(items.GetOr([]), MonthCount())
  {
    Sequences.SumOfMatches(MonthlyTrendData(items), PointValue(), items.GetOr([]), MonthCount());
  }

  lemma CustomerChartTotal(items: Option<seq<CustomerItem>>)
    ensures Sequences.SumOf(CustomerData(items), PointValue()) == Sequences.SumOf(items.GetOr([]), CustomerCount())
  {
    Sequences.SumOfMatches(CustomerData(items), PointValue(), items.GetOr([]), CustomerCount());
  }

  /** The final-inspection customer chart keeps both the pass and the fail totals, missing counts adding nothing. */
  lemma FiCustomerChartTotals(items: Option<seq<FiCustomerItem>>)
    ensures Sequences.SumOf(FiCustomerData(items), PointPass()) == Sequences.SumOf(items.GetOr([]), FiPassCount())
    ensures Sequences.SumOf(FiCustomerData(items), PointFail()) == Sequences.SumOf(items.GetOr([]), FiFailCount())
  {
    Sequences.SumOfMatches(FiCustomerData(items), PointPass(), items.GetOr([]), FiPassCount());
    Sequences.SumOfMatches(FiCustomerData(items), PointFail(), items.GetOr([]), FiFailCount());
  }

  lemma DefectChartTotal(items: Option<seq<DefectItem>>)
    ensures Sequences.SumOf(FiDefectsData(items), PointValue()) == Sequences.SumOf(items.GetOr([]), DefectTotal())
  {
    Sequences.SumOfMatches(FiDefectsData(items), PointValue(), items.GetOr([]), DefectTotal());
  }
}
