/**
 * The admin order handlers of controllers/adminController.js over the `Order` collection:
 * an allow-listed status overwrite, an unconditional cancel and the monthly sales report.
 * `resolveOrderModel()` is taken to yield the collection of models/Order.js; the local time
 * zone is UTC, so a calendar date is a whole number of days since 1970-01-01.
 */
module AdminOrders {
  import opened Wrappers
  import opened Http
  import opened Query
  import opened OrderModel
  import InlineOrderIds

  // ---------------------------------------------------------------- status overwrite

  /** The allow-list `["Pending", "Processing", "Shipped", "Delivered", "Cancelled"]`. */
  function ParseAdminStatus(s: string): (r: Option<Status>)
    ensures r.Some? <==> s == "Pending" || s == "Processing" || s == "Shipped" || s == "Delivered" || s == "Cancelled"
    ensures r.Some? ==> r.value.Literal() == s
    ensures r.Some? ==> r.value in {Pending, Processing, Shipped, Delivered, Cancelled}
  {
    if s == "Pending" then Some(Pending)
    else if s == "Processing" then Some(Processing)
    else if s == "Shipped" then Some(Shipped)
    else if s == "Delivered" then Some(Delivered)
    else if s == "Cancelled" then Some(Cancelled)
    else None
  }

  datatype AdminOutcome = AdminOutcome(reply: Reply<Order>, orders: seq<Order>)

  /** `findByIdAndUpdate(id, { status }, { new: true })`: the updated document, or 404. */
  function SetStatus(orders: seq<Order>, id: nat, status: Status): AdminOutcome
    requires WellFormed(orders)
  {
    match FindById(orders, id)
    case None => AdminOutcome(Fail(NotFound, "Order not found"), orders)
    case Some(i) => AdminOutcome(Ok(orders[i].(status := status)), WithStatusAt(orders, i, status))
  }

  /** PUT /orders/:id/status: 400 outside the allow-list, then the overwrite. */
  function UpdateStatus(orders: seq<Order>, id: nat, status: string): AdminOutcome
    requires WellFormed(orders)
  {
    match ParseAdminStatus(status)
    case None => AdminOutcome(Fail(BadRequest, "Invalid status"), orders)
    case Some(st) => SetStatus(orders, id, st)
  }

  /** PUT /orders/:id/cancel: `Cancelled`, whatever the current status. */
  function Cancel(orders: seq<Order>, id: nat): AdminOutcome
    requires WellFormed(orders)
  {
    SetStatus(orders, id, Cancelled)
  }

  method UpdateOrderStatus(store: OrderStore, id: nat, status: string) returns (reply: Reply<Order>)
    requires store.Valid()
    modifies store
    ensures store.Valid()
    ensures AdminOutcome(reply, store.orders) == UpdateStatus(old(store.orders), id, status)
  {
    var st := ParseAdminStatus(status);
    if st.None? {
      reply := Fail(BadRequest, "Invalid status");
      return;
    }
    reply := Overwrite(store, id, st.value);
  }

  method CancelOrder(store: OrderStore, id: nat) returns (reply: Reply<Order>)
    requires store.Valid()
    modifies store
    ensures store.Valid()
    ensures AdminOutcome(reply, store.orders) == Cancel(old(store.orders), id)
  {
    reply := Overwrite(store, id, Cancelled);
  }

  method Overwrite(store: OrderStore, id: nat, status: Status) returns (reply: Reply<Order>)
    requires store.Valid()
    modifies store
    ensures store.Valid()
    ensures AdminOutcome(reply, store.orders) == SetStatus(old(store.orders), id, status)
  {
    var found := FindById(store.orders, id);
    if found.None? {
      reply := Fail(NotFound, "Order not found");
      return;
    }
    var updated := store.orders[found.value].(status := status);
    store.Replace(found.value, updated);
    reply := Ok(updated);
  }

  /** A status outside the allow-list answers 400 and writes nothing. */
  lemma UpdateRejectsUnlisted(orders: seq<Order>, id: nat, status: string)
    requires WellFormed(orders) && ParseAdminStatus(status).None?
    ensures UpdateStatus(orders, id, status) == AdminOutcome(Fail(BadRequest, "Invalid status"), orders)
  {
  }

  /**
   * An allowed status is written over any current status (backward and skipping moves included),
   * only `status` of that one document changes, and an unknown id answers 404.
   */
  lemma UpdateOverwritesAnyStatus(orders: seq<Order>, id: nat, status: string)
    requires WellFormed(orders) && ParseAdminStatus(status).Some?
    ensures var out := UpdateStatus(orders, id, status);
      && (id >= |orders| ==> out == AdminOutcome(Fail(NotFound, "Order not found"), orders))
      && (id < |orders| ==>
            && out.reply == Ok(orders[id].(status := ParseAdminStatus(status).value))
            && out.orders == orders[id := orders[id].(status := ParseAdminStatus(status).value)]
            && out.orders[id].status.Literal() == status)
  {
  }

  /** Cancel succeeds from every status, Shipped and Delivered included, and a second cancel changes nothing. */
  lemma CancelUnconditional(orders: seq<Order>, id: nat)
    requires WellFormed(orders)
    ensures var out := Cancel(orders, id);
      && (id >= |orders| ==> out == AdminOutcome(Fail(NotFound, "Order not found"), orders))
      && (id < |orders| ==> out.reply.Ok? && out.orders == orders[id := orders[id].(status := Cancelled)])
      && WellFormed(out.orders)
      && Cancel(out.orders, id).orders == out.orders
  {
    if id < |orders| {
      ReplaceKeepsWellFormed(orders, id, orders[id].(status := Cancelled));
      var after := Cancel(orders, id).orders;
      assert after[id := after[id].(status := Cancelled)] == after;
    }
  }

  // ---------------------------------------------------------------- calendar

  const DayMs: int := 86400000

  predicate Leap(y: nat) {
    y % 4 == 0 && (y % 100 != 0 || y % 400 == 0)
  }

  function DaysInYear(y: nat): nat {
    if Leap(y) then 366 else 365
  }

  /** Days in month m (0 = January) of year y. */
  function DaysInMonth(y: nat, m: nat): (n: nat)
    requires m < 12
    ensures 28 <= n <= 31
  {
    if m == 1 then (if Leap(y) then 29 else 28)
    else if m == 3 || m == 5 || m == 8 || m == 10 then 30
    else 31
  }

  /** Days of year y before the first of month m. */
  function DaysBeforeMonth(y: nat, m: nat): nat
    requires m <= 12
  {
    if m == 0 then 0 else DaysBeforeMonth(y, m - 1) + DaysInMonth(y, m - 1)
  }

  /** Days from 1 January of year 0 to 1 January of year y (proleptic Gregorian; year 0 is a leap year). */
  function DaysBeforeYear(y: nat): nat {
    365 * y + (y + 3) / 4 - (y + 99) / 100 + (y + 399) / 400
  }

  /** Each year adds its own length. */
  lemma NextYear(y: nat)
    ensures DaysBeforeYear(y + 1) == DaysBeforeYear(y) + DaysInYear(y)
  {
    CeilStep(y, 4);
    CeilStep(y, 100);
    CeilStep(y, 400);
    Divisibility(y);
    var step := DaysBeforeYear(y + 1) - DaysBeforeYear(y);
    assert step == 365 + ((y + 4) / 4 - (y + 3) / 4) - ((y + 100) / 100 - (y + 99) / 100) + ((y + 400) / 400 - (y + 399) / 400);
  }

  /** A multiple of 400 is a multiple of 100, and a multiple of 100 one of 4. */
  lemma Divisibility(y: nat)
    ensures y % 400 == 0 ==> y % 100 == 0
    ensures y % 100 == 0 ==> y % 4 == 0
  {
    if y % 400 == 0 {
      var q := y / 400;
      assert y == 100 * (4 * q) + 0;
      InlineOrderIds.ModUnique(y, 100, 4 * q, 0);
    }
    if y % 100 == 0 {
      var q := y / 100;
      assert y == 4 * (25 * q) + 0;
      InlineOrderIds.ModUnique(y, 4, 25 * q, 0);
    }
  }

  /** Among 0 .. y the multiples of k grow by one exactly at a multiple of k. */
  lemma CeilStep(y: nat, k: nat)
    requires k > 0
    ensures (y + k) / k == (y + k - 1) / k + (if y % k == 0 then 1 else 0)
  {
    var q := y / k;
    var r := y % k;
    assert y == k * q + r;
    assert y + k == k * (q + 1) + r;
    if r == 0 {
      assert y + k - 1 == k * q + (k - 1);
      InlineOrderIds.DivUnique(y + k - 1, k, q, k - 1);
      InlineOrderIds.DivUnique(y + k, k, q + 1, 0);
    } else {
      assert y + k - 1 == k * (q + 1) + (r - 1);
      InlineOrderIds.DivUnique(y + k - 1, k, q + 1, r - 1);
      InlineOrderIds.DivUnique(y + k, k, q + 1, r);
    }
  }

  /** The day number (0 = 1970-01-01) of day d of month m of year y; d may leave the month. */
  function DayNumber(y: nat, m: nat, d: int): int
    requires m < 12
  {
    DaysBeforeYear(y) - DaysBeforeYear(1970) + DaysBeforeMonth(y, m) + d - 1
  }

  /** `new Date(y, m, d)` in UTC milliseconds: a month past 11 carries into the year, day 0 is the day before the 1st. */
  function LocalDate(y: nat, m: nat, d: int): int {
    DayNumber(y + m / 12, m % 12, d) * DayMs
  }

  /** The twelve months fill the year. */
  lemma MonthsFillYear(y: nat)
    ensures DaysBeforeMonth(y, 12) == DaysInYear(y)
  {
    var f := DaysInMonth(y, 1);
    assert DaysBeforeMonth(y, 1) == 31;
    assert DaysBeforeMonth(y, 2) == 31 + f;
    assert DaysBeforeMonth(y, 3) == 62 + f;
    assert DaysBeforeMonth(y, 4) == 92 + f;
    assert DaysBeforeMonth(y, 5) == 123 + f;
    assert DaysBeforeMonth(y, 6) == 153 + f;
    assert DaysBeforeMonth(y, 7) == 184 + f;
    assert DaysBeforeMonth(y, 8) == 215 + f;
    assert DaysBeforeMonth(y, 9) == 245 + f;
    assert DaysBeforeMonth(y, 10) == 276 + f;
    assert DaysBeforeMonth(y, 11) == 306 + f;
  }

  /** `new Date(y, m + 1, 0)` is 00:00 on the last day of month m, and the next month starts one day later. */
  lemma LastDayOfMonth(y: nat, m: nat)
    requires m < 12
    ensures LocalDate(y, m + 1, 0) == LocalDate(y, m, DaysInMonth(y, m))
    ensures LocalDate(y, m + 1, 1) == LocalDate(y, m, DaysInMonth(y, m)) + DayMs
  {
    var last := DaysInMonth(y, m);
    assert m / 12 == 0 && m % 12 == m;
    assert LocalDate(y, m, last) == DayNumber(y, m, last) * DayMs;
    if m == 11 {
      assert (m + 1) / 12 == 1 && (m + 1) % 12 == 0;
      MonthsFillYear(y);
      NextYear(y);
      assert DayNumber(y + 1, 0, 0) == DayNumber(y, m, last);
    } else {
      assert (m + 1) / 12 == 0 && (m + 1) % 12 == m + 1;
      assert DayNumber(y, m + 1, 0) == DayNumber(y, m, last);
    }
  }

  // ---------------------------------------------------------------- monthly sales

  /** The month `new Date()` falls in: its year and its 0-based month. */
  datatype Today = Today(year: nat, month: nat)

  /** `createdAt` between `firstDay` and `lastDay` inclusive, and `status` not `Cancelled`. */
  predicate Counted(o: Order, y: nat, m: nat) {
    LocalDate(y, m, 1) <= o.createdAt <= LocalDate(y, m + 1, 0) && o.status != Cancelled
  }

  /** The filter of the report query. */
  function InReport(y: nat, m: nat): Order -> bool {
    (o: Order) => Counted(o, y, m)
  }

  /** The sum of `total` over a list (an absent total is 0). */
  function SumTotals(s: seq<Order>): real {
    if s == [] then 0.0 else s[0].total + SumTotals(s[1..])
  }

  lemma {:induction false} SumTotalsAppend(a: seq<Order>, b: seq<Order>)
    ensures SumTotals(a + b) == SumTotals(a) + SumTotals(b)
  {
    if a == [] {
      assert a + b == b;
    } else {
      assert (a + b)[1..] == a[1..] + b;
      SumTotalsAppend(a[1..], b);
    }
  }

  datatype SalesReport = SalesReport(month: nat, totalSales: real, orderCount: nat)

  /**
   * GET /sales/monthly: the orders of the current calendar month that are not cancelled, the
   * sum of their totals accumulated one by one, and their number.
   */
  method GetMonthlySales(orders: seq<Order>, today: Today) returns (report: SalesReport)
    requires today.month < 12
    ensures report.month == today.month + 1
    ensures report.totalSales == SumTotals(Filter(orders, InReport(today.year, today.month)))
    ensures report.orderCount == |Filter(orders, InReport(today.year, today.month))|
  {
    var found := Filter(orders, InReport(today.year, today.month));
    var totalSales := AddUpTotals(found);
    report := SalesReport(today.month + 1, totalSales, |found|);
  }

  /** `orders.forEach(o => totalSales += Number(o.total || 0))`. */
  method AddUpTotals(found: seq<Order>) returns (totalSales: real)
    ensures totalSales == SumTotals(found)
  {
    totalSales := 0.0;
    var i := 0;
    while i < |found|
      invariant 0 <= i <= |found|
      invariant totalSales == SumTotals(found[..i])
    {
      assert found[..i + 1] == found[..i] + [found[i]];
      SumTotalsAppend(found[..i], [found[i]]);
      totalSales := totalSales + found[i].total;
      i := i + 1;
    }
    assert found[..|found|] == found;
  }

  /** The reference sum: each order's total when it belongs to the report, else nothing. */
  function SumWhere(s: seq<Order>, p: Order -> bool): real {
    if s == [] then 0.0 else (if p(s[0]) then s[0].total else 0.0) + SumWhere(s[1..], p)
  }

  /** Summing the selected orders equals summing every order's contribution. */
  lemma {:induction false} FilterSum(s: seq<Order>, p: Order -> bool)
    ensures SumTotals(Filter(s, p)) == SumWhere(s, p)
  {
    if s != [] {
      var head := if p(s[0]) then [s[0]] else [];
      assert Filter(s, p) == head + Filter(s[1..], p);
      SumTotalsAppend(head, Filter(s[1..], p));
      FilterSum(s[1..], p);
    }
  }

  lemma {:induction false} SumWhereCancel(s: seq<Order>, p: Order -> bool, i: nat, y: nat, m: nat)
    requires i < |s| && p == InReport(y, m)
    ensures SumWhere(s[i := s[i].(status := Cancelled)], p) == SumWhere(s, p) - (if p(s[i]) then s[i].total else 0.0)
  {
    var t := s[i := s[i].(status := Cancelled)];
    if i == 0 {
      assert t[1..] == s[1..];
    } else {
      assert t[1..] == s[1..][i - 1 := s[i].(status := Cancelled)];
      SumWhereCancel(s[1..], p, i - 1, y, m);
    }
  }

  /**
   * Cancelling an order takes its total out of the month's sales when it was counted, and
   * leaves the sales unchanged otherwise.
   */
  lemma SalesAfterCancel(orders: seq<Order>, id: nat, today: Today)
    requires WellFormed(orders) && id < |orders| && today.month < 12
    ensures var p := InReport(today.year, today.month);
      SumTotals(Filter(Cancel(orders, id).orders, p))
        == SumTotals(Filter(orders, p)) - (if p(orders[id]) then orders[id].total else 0.0)
  {
    var p := InReport(today.year, today.month);
    FilterSum(orders, p);
    FilterSum(Cancel(orders, id).orders, p);
    SumWhereCancel(orders, p, id, today.year, today.month);
  }

  /**
   * The window ends at 00:00 on the last day: an order created later that day is counted
   * neither in this month's report nor in the next month's.
   */
  lemma LateLastDayUncounted(o: Order, y: nat, m: nat)
    requires m < 12
    requires LocalDate(y, m, DaysInMonth(y, m)) < o.createdAt < LocalDate(y, m, DaysInMonth(y, m)) + DayMs
    ensures !InReport(y, m)(o)
    ensures var next := if m == 11 then (y + 1, 0) else (y, m + 1);
      !InReport(next.0, next.1)(o)
  {
    LastDayOfMonth(y, m);
    var last := LocalDate(y, m, DaysInMonth(y, m));
    assert o.createdAt > LocalDate(y, m + 1, 0);
    var next := if m == 11 then (y + 1, 0) else (y, m + 1);
    assert LocalDate(next.0, next.1, 1) == last + DayMs by {
      if m == 11 {
        assert 12 / 12 == 1 && 12 % 12 == 0 && 0 / 12 == 0 && 0 % 12 == 0;
        assert LocalDate(y + 1, 0, 1) == DayNumber(y + 1, 0, 1) * DayMs;
        assert LocalDate(y, 12, 1) == DayNumber(y + 1, 0, 1) * DayMs;
      }
    }
    assert o.createdAt < LocalDate(next.0, next.1, 1);
  }
}
