/**
 * Dashboard post-processing: the twelve-month payments report built from
 * the grouped query rows, and the recent-activity feed that merges the
 * latest rows of three tables. The queries themselves become input
 * sequences; `GroupByMonth` and `Latest` state what the SQL returns.
 */
module Dashboard {
  import opened Common

  // ---------------------------------------------------------------------
  // paymentsByMonth
  // ---------------------------------------------------------------------

  /** A payment as the report query sees it: the year and month of `created_at`, and the amount. */
  datatype PaymentRow = PaymentRow(year: int, month: nat, amount: int)

  /** One row of the grouped query: `MONTH(created_at) as month, SUM(amount) as amount`. */
  datatype MonthRow = MonthRow(month: nat, amount: int)

  /** One entry of the report: the English month name and the amount. */
  datatype MonthEntry = MonthEntry(month: string, amount: int)

  /** Carbon's `format('F')` for months 1 to 12. */
  const MonthNames: seq<string> := [
    "January", "February", "March", "April", "May", "June",
    "July", "August", "September", "October", "November", "December"
  ]

  predicate InMonth(p: PaymentRow, year: int, m: nat) {
    p.year == year && p.month == m
  }

  /** The sum of the amounts paid in month `m` of `year`. */
  function MonthTotal(ps: seq<PaymentRow>, year: int, m: nat): int {
    if |ps| == 0 then 0
    else MonthTotal(ps[..|ps| - 1], year, m) + (if InMonth(ps[|ps| - 1], year, m) then ps[|ps| - 1].amount else 0)
  }

  /** Whether any payment falls in month `m` of `year` (so the query has a row for it). */
  predicate HasMonth(ps: seq<PaymentRow>, year: int, m: nat) {
    exists i :: 0 <= i < |ps| && InMonth(ps[i], year, m)
  }

  /** The grouped rows for months `m..12`, in month order (`groupBy('month')->orderBy('month')`). */
  function GroupFrom(ps: seq<PaymentRow>, year: int, m: nat): seq<MonthRow>
    decreases 13 - m
  {
    if m > 12 then []
    else (if HasMonth(ps, year, m) then [MonthRow(m, MonthTotal(ps, year, m))] else []) + GroupFrom(ps, year, m + 1)
  }

  /** The report query: `whereYear('created_at', $currentYear)`, grouped by month. */
  function GroupByMonth(ps: seq<PaymentRow>, year: int): seq<MonthRow> {
    GroupFrom(ps, year, 1)
  }

  /** `$payments->firstWhere('month', $m)`, reduced to its amount. */
  function FirstWhere(rows: seq<MonthRow>, m: nat): (r: Option<int>)
    ensures r.Some? <==> exists i :: 0 <= i < |rows| && rows[i].month == m
    ensures r.Some? ==> exists i :: 0 <= i < |rows| && rows[i].month == m && rows[i].amount == r.value
                          && forall j :: 0 <= j < i ==> rows[j].month != m
  {
    if |rows| == 0 then None
    else if rows[0].month == m then Some(rows[0].amount)
    else
      var r := FirstWhere(rows[1..], m);
      assert forall i :: 1 <= i < |rows| ==> rows[1..][i - 1] == rows[i];
      r
  }

  /**
   * paymentsByMonth: one entry per month, January to December, holding the
   * grouped amount of that month or 0 when the query has no row for it.
   */
  method PaymentsByMonth(rows: seq<MonthRow>) returns (report: seq<MonthEntry>)
    ensures |report| == 12
    ensures forall i :: 0 <= i < 12 ==> report[i].month == MonthNames[i]
    ensures forall i :: 0 <= i < 12 ==> report[i].amount == FirstWhere(rows, i + 1).GetOr(0)
  {
    report := [];
    var i := 1;
    while i <= 12
      invariant 1 <= i <= 13
      invariant |report| == i - 1
      invariant forall j :: 0 <= j < i - 1 ==> report[j] == MonthEntry(MonthNames[j], FirstWhere(rows, j + 1).GetOr(0))
    {
      var monthData := FirstWhere(rows, i);
      var amount := match monthData case Some(a) => a case None => 0;
      report := report + [MonthEntry(MonthNames[i - 1], amount)];
      i := i + 1;
    }
  }

  /** With no payment in the month, the month's total is zero. */
  lemma {:induction false} NoPaymentsNoTotal(ps: seq<PaymentRow>, year: int, m: nat)
    requires !HasMonth(ps, year, m)
    ensures MonthTotal(ps, year, m) == 0
  {
    if |ps| > 0 {
      assert forall i :: 0 <= i < |ps| - 1 ==> ps[..|ps| - 1][i] == ps[i];
      NoPaymentsNoTotal(ps[..|ps| - 1], year, m);
    }
  }

  /** Looking up month `k >= m` in the rows from `m` on finds that month's total, when it has payments. */
  lemma {:induction false} FirstWhereInGroup(ps: seq<PaymentRow>, year: int, m: nat, k: nat)
    requires 1 <= m <= k <= 12
    ensures FirstWhere(GroupFrom(ps, year, m), k) == if HasMonth(ps, year, k) then Some(MonthTotal(ps, year, k)) else None
    decreases 13 - m
  {
    var rows := GroupFrom(ps, year, m);
    var tail := GroupFrom(ps, year, m + 1);
    if m == k {
      if !HasMonth(ps, year, k) {
        assert rows == tail;
        if k < 12 {
          GroupFromAbove(ps, year, m + 1, k);
        } else {
          assert tail == [];
        }
      }
    } else {
      FirstWhereInGroup(ps, year, m + 1, k);
      if HasMonth(ps, year, m) {
        assert rows == [MonthRow(m, MonthTotal(ps, year, m))] + tail;
        assert rows[1..] == tail;
      } else {
        assert rows == tail;
      }
    }
  }

  /** The rows from `m` on only hold months `m` and later. */
  lemma {:induction false} GroupFromAbove(ps: seq<PaymentRow>, year: int, m: nat, k: nat)
    requires k < m
    ensures FirstWhere(GroupFrom(ps, year, m), k) == None
    decreases 13 - m
  {
    if m <= 12 {
      GroupFromAbove(ps, year, m + 1, k);
      var tail := GroupFrom(ps, year, m + 1);
      if HasMonth(ps, year, m) {
        assert GroupFrom(ps, year, m)[1..] == tail;
      }
    }
  }

  /** Each report entry is the month's total over the year's payments (0 for a month without any). */
  lemma ReportMatchesMonthTotals(ps: seq<PaymentRow>, year: int)
    ensures forall m: nat :: 1 <= m <= 12 ==> FirstWhere(GroupByMonth(ps, year), m).GetOr(0) == MonthTotal(ps, year, m)
  {
    forall m: nat | 1 <= m <= 12
      ensures FirstWhere(GroupByMonth(ps, year), m).GetOr(0) == MonthTotal(ps, year, m)
    {
      FirstWhereInGroup(ps, year, 1, m);
      if !HasMonth(ps, year, m) {
        NoPaymentsNoTotal(ps, year, m);
      }
    }
  }

  /** A payment from another year changes no row of the report query. */
  lemma OtherYearsIgnored(ps: seq<PaymentRow>, p: PaymentRow, year: int)
    requires p.year != year
    ensures GroupByMonth(ps + [p], year) == GroupByMonth(ps, year)
  {
    forall m: nat ensures HasMonth(ps + [p], year, m) == HasMonth(ps, year, m) && MonthTotal(ps + [p], year, m) == MonthTotal(ps, year, m) {
      assert (ps + [p])[..|ps|] == ps;
      if HasMonth(ps + [p], year, m) {
        var i :| 0 <= i < |ps| + 1 && InMonth((ps + [p])[i], year, m);
        assert i < |ps| && InMonth(ps[i], year, m);
      }
      if HasMonth(ps, year, m) {
        var i :| 0 <= i < |ps| && InMonth(ps[i], year, m);
        assert InMonth((ps + [p])[i], year, m);
      }
    }
    GroupFromSame(ps + [p], ps, year, 1);
  }

  lemma {:induction false} GroupFromSame(a: seq<PaymentRow>, b: seq<PaymentRow>, year: int, m: nat)
    requires forall k: nat :: HasMonth(a, year, k) == HasMonth(b, year, k) && MonthTotal(a, year, k) == MonthTotal(b, year, k)
    ensures GroupFrom(a, year, m) == GroupFrom(b, year, m)
    decreases 13 - m
  {
    if m <= 12 {
      GroupFromSame(a, b, year, m + 1);
    }
  }

  // ---------------------------------------------------------------------
  // recentActivities
  // ---------------------------------------------------------------------

  /** One feed item: its kind (`vehicle`, `payment`, `procedure`), row id and creation time. */
  datatype Activity = Activity(kind: string, id: nat, createdAt: int)

  predicate SortedDesc(s: seq<Activity>) {
    forall i, j :: 0 <= i < j < |s| ==> s[i].createdAt >= s[j].createdAt
  }

  /** Inserts `x` before the first element that is not later than it. */
  function Insert(x: Activity, s: seq<Activity>): (r: seq<Activity>)
    requires SortedDesc(s)
    ensures SortedDesc(r)
    ensures |r| == |s| + 1
    ensures multiset(r) == multiset{x} + multiset(s)
    ensures forall y :: y in r <==> y == x || y in s
  {
    if |s| == 0 || x.createdAt >= s[0].createdAt then [x] + s
    else
      var rest := Insert(x, s[1..]);
      assert s == [s[0]] + s[1..];
      assert forall i :: 1 <= i < |s| ==> s[1..][i - 1] == s[i];
      assert forall y :: y in rest ==> y.createdAt <= s[0].createdAt;
      [s[0]] + rest
  }

  /** A stable sort by `created_at`, latest first (`sortByDesc('created_at')`). */
  function SortDesc(s: seq<Activity>): (r: seq<Activity>)
    ensures SortedDesc(r)
    ensures |r| == |s|
    ensures multiset(r) == multiset(s)
    ensures forall y :: y in r <==> y in s
  {
    if |s| == 0 then []
    else
      var rest := SortDesc(s[1..]);
      assert s == [s[0]] + s[1..];
      assert forall y :: y in s <==> y == s[0] || y in s[1..];
      Insert(s[0], rest)
  }

  /** `->latest()->limit($k)` on one table. */
  function Latest(table: seq<Activity>, k: nat): seq<Activity> {
    Take(SortDesc(table), k)
  }

  /** `$request->input('limit', 10)`. */
  function FeedLimit(limit: Option<nat>): nat {
    limit.GetOr(10)
  }

  /**
   * recentActivities: the latest `limit` rows of each table, concatenated,
   * sorted latest first and cut to `limit` items.
   */
  function RecentActivities(vehicles: seq<Activity>, payments: seq<Activity>, procedures: seq<Activity>,
                            limit: Option<nat>): (r: seq<Activity>)
    ensures |r| <= FeedLimit(limit)
    ensures limit.None? ==> |r| <= 10
    ensures SortedDesc(r)
    ensures forall y :: y in r ==> y in vehicles || y in payments || y in procedures
  {
    var k := FeedLimit(limit);
    var merged := Latest(vehicles, k) + Latest(payments, k) + Latest(procedures, k);
    var sorted := SortDesc(merged);
    var r := Take(sorted, k);
    assert forall y :: y in r ==> y in sorted;
    r
  }

  /** The number of items strictly later than `t`. */
  function CountAbove(s: seq<Activity>, t: int): nat {
    if |s| == 0 then 0 else (if s[0].createdAt > t then 1 else 0) + CountAbove(s[1..], t)
  }

  lemma {:induction false} CountAboveAppend(a: seq<Activity>, b: seq<Activity>, t: int)
    ensures CountAbove(a + b, t) == CountAbove(a, t) + CountAbove(b, t)
  {
    if |a| > 0 {
      assert (a + b)[1..] == a[1..] + b;
      CountAboveAppend(a[1..], b, t);
    } else {
      assert a + b == b;
    }
  }

  lemma {:induction false} CountAboveInsert(x: Activity, s: seq<Activity>, t: int)
    requires SortedDesc(s)
    ensures CountAbove(Insert(x, s), t) == CountAbove(s, t) + (if x.createdAt > t then 1 else 0)
  {
    if |s| == 0 || x.createdAt >= s[0].createdAt {
      assert Insert(x, s) == [x] + s;
      assert ([x] + s)[1..] == s;
    } else {
      assert SortedDesc(s[1..]) by {
        assert forall i :: 1 <= i < |s| ==> s[1..][i - 1] == s[i];
      }
      CountAboveInsert(x, s[1..], t);
      var rest := Insert(x, s[1..]);
      assert Insert(x, s) == [s[0]] + rest;
      assert ([s[0]] + rest)[1..] == rest;
    }
  }

  /** Sorting neither adds nor loses an item later than any given time. */
  lemma {:induction false} CountAboveSort(s: seq<Activity>, t: int)
    ensures CountAbove(SortDesc(s), t) == CountAbove(s, t)
  {
    if |s| > 0 {
      CountAboveSort(s[1..], t);
      CountAboveInsert(s[0], SortDesc(s[1..]), t);
    }
  }

  lemma {:induction false} NoneAboveAfterHead(s: seq<Activity>, t: int)
    requires SortedDesc(s) && |s| > 0 && s[0].createdAt <= t
    ensures CountAbove(s, t) == 0
  {
    if |s| > 1 {
      assert forall i :: 1 <= i < |s| ==> s[1..][i - 1] == s[i];
      NoneAboveAfterHead(s[1..], t);
    }
  }

  /** In a latest-first sequence, the first `k` items hold the `k` latest ones. */
  lemma {:induction false} CountAboveTake(s: seq<Activity>, k: nat, t: int)
    requires SortedDesc(s)
    ensures CountAbove(Take(s, k), t) == Min(k, CountAbove(s, t))
  {
    if |s| == 0 {
    } else if k == 0 {
      assert Take(s, k) == [];
    } else {
      assert forall i :: 1 <= i < |s| ==> s[1..][i - 1] == s[i];
      CountAboveTake(s[1..], k - 1, t);
      assert Take(s, k)[1..] == Take(s[1..], k - 1);
      if s[0].createdAt <= t {
        NoneAboveAfterHead(s, t);
        NoneAboveAfterHead(Take(s, k), t);
      }
    }
  }

  /** The `k` latest items of a table hold min(k, n) of its items later than any time. */
  lemma LatestCount(s: seq<Activity>, k: nat, t: int)
    ensures CountAbove(Latest(s, k), t) == Min(k, CountAbove(s, t))
  {
    CountAboveSort(s, t);
    CountAboveTake(SortDesc(s), k, t);
  }

  /** Pre-truncating each part to `k` items does not change the `k` smallest of their sum. */
  lemma MinOfSums(k: nat, a: nat, b: nat, c: nat)
    ensures Min(k, Min(k, a) + Min(k, b) + Min(k, c)) == Min(k, a + b + c)
  {
  }

  /**
   * The feed holds the `limit` latest timestamps across the three tables:
   * for every time `t`, it has as many items later than `t` as the three
   * tables together, up to `limit`.
   */
  lemma RecentActivitiesAreLatest(vehicles: seq<Activity>, payments: seq<Activity>, procedures: seq<Activity>,
                                  limit: Option<nat>, t: int)
    ensures CountAbove(RecentActivities(vehicles, payments, procedures, limit), t)
         == Min(FeedLimit(limit), CountAbove(vehicles + payments + procedures, t))
  {
    var k := FeedLimit(limit);
    FeedIsLatestOfParts(vehicles, payments, procedures, limit);
    LatestCount(vehicles, k, t);
    LatestCount(payments, k, t);
    LatestCount(procedures, k, t);
    LatestOfPartsCount(Latest(vehicles, k), Latest(payments, k), Latest(procedures, k),
                       CountAbove(vehicles, t), CountAbove(payments, t), CountAbove(procedures, t), k, t);
    CountAboveThree(vehicles, payments, procedures, t);
  }

  /** The feed is the `k` latest of the three tables' own `k` latest. */
  lemma FeedIsLatestOfParts(vehicles: seq<Activity>, payments: seq<Activity>, procedures: seq<Activity>,
                            limit: Option<nat>)
    ensures var k := FeedLimit(limit);
      RecentActivities(vehicles, payments, procedures, limit)
        == Latest(Latest(vehicles, k) + Latest(payments, k) + Latest(procedures, k), k)
  {
  }

  /**
   * Parts that each hold min(k, n) of their table's items past `t` give a
   * `k` latest holding min(k, a + b + c) of them.
   */
  lemma LatestOfPartsCount(lv: seq<Activity>, lp: seq<Activity>, lr: seq<Activity>, a: nat, b: nat, c: nat, k: nat, t: int)
    requires CountAbove(lv, t) == Min(k, a) && CountAbove(lp, t) == Min(k, b) && CountAbove(lr, t) == Min(k, c)
    ensures CountAbove(Latest(lv + lp + lr, k), t) == Min(k, a + b + c)
  {
    LatestCount(lv + lp + lr, k, t);
    CountAboveThree(lv, lp, lr, t);
    ChainCounts(k, a, b, c, CountAbove(lv, t), CountAbove(lp, t), CountAbove(lr, t),
                CountAbove(lv + lp + lr, t), CountAbove(Latest(lv + lp + lr, k), t));
  }

  /** The arithmetic of the feed count, away from the sequences it counts. */
  lemma ChainCounts(k: nat, a: nat, b: nat, c: nat, la: nat, lb: nat, lc: nat, m: nat, top: nat)
    requires la == Min(k, a) && lb == Min(k, b) && lc == Min(k, c)
    requires m == la + lb + lc && top == Min(k, m)
    ensures top == Min(k, a + b + c)
  {
    MinOfSums(k, a, b, c);
  }

  /** The count over three concatenated tables is the sum of their counts. */
  lemma CountAboveThree(a: seq<Activity>, b: seq<Activity>, c: seq<Activity>, t: int)
    ensures CountAbove(a + b + c, t) == CountAbove(a, t) + CountAbove(b, t) + CountAbove(c, t)
  {
    CountAboveAppend(a + b, c, t);
    CountAboveAppend(a, b, t);
  }
}
