/**
 * The dashboard: sales and order counts over completed orders for today, this
 * month, this year and all time; counts per status; the five best-selling
 * products; and the ten most recent orders. The handler reads the order and
 * product tables and changes nothing. The start of the day, month and year
 * are computed by the caller from the clock and passed in.
 */
module Dashboard {
  import opened Models
  import Seqs
  import Orders

  datatype ProductStats = ProductStats(productId: nat, productName: string, productImage: string,
                                       totalSold: int, totalRevenue: int)

  datatype DashboardStats = DashboardStats(
    todaySales: int, monthSales: int, yearSales: int, totalSales: int,
    todayOrders: nat, monthOrders: nat, yearOrders: nat, totalOrders: nat,
    pendingOrders: nat, completedOrders: nat, cancelledOrders: nat,
    topProducts: seq<ProductStats>, recentOrders: seq<Order>)

  /** ShowDashboard: greets the session's user; without one the caller is unauthorized. */
  function ShowDashboard(user: Option<string>): (r: Response<string>)
    ensures r.Ok? <==> user.Some?
    ensures r.Ok? ==> r.value == user.value
    ensures !r.Ok? ==> r == Unauthorized
  {
    if user.None? then Unauthorized else Ok(user.value)
  }

  /** The orders with this status (`status = ?`), in store order. */
  function WithStatus(os: seq<Order>, st: OrderStatus): (r: seq<Order>)
    ensures forall o :: o in r <==> o in os && o.status == st
    ensures |r| <= |os|
  {
    if os == [] then []
    else
      var last := os[|os| - 1];
      assert os == os[..|os| - 1] + [last];
      WithStatus(os[..|os| - 1], st) + if last.status == st then [last] else []
  }

  /**
   * The completed orders created at or after `since` (`created_at >= ? AND
   * status = 'completed'`); with no bound, every completed order.
   */
  function CompletedSince(os: seq<Order>, since: Option<int>): (r: seq<Order>)
    ensures forall o :: o in r <==> o in os && o.status == Completed && (since.None? || o.createdAt >= since.value)
    ensures |r| <= |os|
  {
    if os == [] then []
    else
      var last := os[|os| - 1];
      assert os == os[..|os| - 1] + [last];
      CompletedSince(os[..|os| - 1], since)
      + if last.status == Completed && (since.None? || last.createdAt >= since.value) then [last] else []
  }

  lemma SumAppend(os: seq<Order>, o: Order)
    ensures Orders.TotalPriceSum(os + [o]) == Orders.TotalPriceSum(os) + o.totalPrice
  {
    assert (os + [o])[..|os|] == os;
  }

  /** Every order has exactly one of the three statuses. */
  lemma {:induction false} StatusPartition(os: seq<Order>)
    ensures |WithStatus(os, Pending)| + |WithStatus(os, Completed)| + |WithStatus(os, Cancelled)| == |os|
  {
    if os != [] {
      StatusPartition(os[..|os| - 1]);
    }
  }

  /** The all-time window is exactly the completed orders. */
  lemma {:induction false} AllTimeIsCompleted(os: seq<Order>)
    ensures CompletedSince(os, None) == WithStatus(os, Completed)
  {
    if os != [] {
      AllTimeIsCompleted(os[..|os| - 1]);
    }
  }

  /** A window that starts later holds no more orders. */
  lemma {:induction false} WindowCount(os: seq<Order>, outer: Option<int>, inner: int)
    requires outer.None? || outer.value <= inner
    ensures |CompletedSince(os, Some(inner))| <= |CompletedSince(os, outer)|
  {
    if os != [] {
      WindowCount(os[..|os| - 1], outer, inner);
    }
  }

  /** The sales of a window, summed order by order. */
  function SalesSince(os: seq<Order>, since: Option<int>): int {
    if os == [] then 0
    else
      var last := os[|os| - 1];
      SalesSince(os[..|os| - 1], since)
      + if last.status == Completed && (since.None? || last.createdAt >= since.value) then last.totalPrice else 0
  }

  /** Summing the window's orders is summing order by order. */
  lemma {:induction false} SalesOfWindow(os: seq<Order>, since: Option<int>)
    ensures Orders.TotalPriceSum(CompletedSince(os, since)) == SalesSince(os, since)
  {
    if os != [] {
      var init := os[..|os| - 1];
      var last := os[|os| - 1];
      SalesOfWindow(init, since);
      var a := CompletedSince(init, since);
      if last.status == Completed && (since.None? || last.createdAt >= since.value) {
        calc {
          Orders.TotalPriceSum(CompletedSince(os, since));
          { assert CompletedSince(os, since) == a + [last]; }
          Orders.TotalPriceSum(a + [last]);
          { SumAppend(a, last); }
          Orders.TotalPriceSum(a) + last.totalPrice;
        }
      } else {
        assert CompletedSince(os, since) == a + [];
        assert a + [] == a;
      }
    }
  }

  lemma {:induction false} SalesMonotone(os: seq<Order>, outer: Option<int>, inner: int)
    requires outer.None? || outer.value <= inner
    requires forall i :: 0 <= i < |os| ==> os[i].totalPrice >= 0
    ensures SalesSince(os, Some(inner)) <= SalesSince(os, outer)
  {
    if os != [] {
      SalesMonotone(os[..|os| - 1], outer, inner);
    }
  }

  /** A window that starts later has no larger sales, when no order has a negative total. */
  lemma WindowSales(os: seq<Order>, outer: Option<int>, inner: int)
    requires outer.None? || outer.value <= inner
    requires forall i :: 0 <= i < |os| ==> os[i].totalPrice >= 0
    ensures Orders.TotalPriceSum(CompletedSince(os, Some(inner))) <= Orders.TotalPriceSum(CompletedSince(os, outer))
  {
    SalesOfWindow(os, Some(inner));
    SalesOfWindow(os, outer);
    SalesMonotone(os, outer, inner);
  }

  /** The product ids of `os`, each once, in order of first appearance (`GROUP BY product_id`). */
  function ProductIdsOf(os: seq<Order>): (r: seq<nat>)
    ensures Seqs.Distinct(r)
    ensures forall pid :: pid in r <==> exists o :: o in os && o.productId == pid
  {
    if os == [] then []
    else
      var init := os[..|os| - 1];
      var last := os[|os| - 1];
      assert os == init + [last];
      var ids := ProductIdsOf(init);
      if last.productId in ids then ids
      else
        var r := ids + [last.productId];
        assert forall i :: 0 <= i < |ids| ==> r[i] == ids[i] && r[i] != last.productId;
        r
  }

  /** `SUM(quantity)` over the orders of product `pid`. */
  function SoldOf(os: seq<Order>, pid: nat): (r: int)
    ensures (forall i :: 0 <= i < |os| ==> os[i].productId != pid) ==> r == 0
    ensures (forall i :: 0 <= i < |os| ==> os[i].quantity >= 0) ==> r >= 0
  {
    if os == [] then 0
    else SoldOf(os[..|os| - 1], pid) + if os[|os| - 1].productId == pid then os[|os| - 1].quantity else 0
  }

  /** `SUM(total_price)` over the orders of product `pid`. */
  function RevenueOf(os: seq<Order>, pid: nat): (r: int)
    ensures (forall i :: 0 <= i < |os| ==> os[i].productId != pid) ==> r == 0
    ensures (forall i :: 0 <= i < |os| ==> os[i].totalPrice >= 0) ==> r >= 0
  {
    if os == [] then 0
    else RevenueOf(os[..|os| - 1], pid) + if os[|os| - 1].productId == pid then os[|os| - 1].totalPrice else 0
  }

  /** The grouped row of product `pid`, before its name and image are looked up. */
  function Stat(os: seq<Order>, pid: nat): ProductStats {
    ProductStats(pid, "", "", SoldOf(os, pid), RevenueOf(os, pid))
  }

  /** One row per product id. */
  function Grouped(os: seq<Order>): (r: seq<ProductStats>)
    ensures |r| == |ProductIdsOf(os)|
    ensures forall i :: 0 <= i < |r| ==> r[i] == Stat(os, ProductIdsOf(os)[i])
  {
    var ids := ProductIdsOf(os);
    seq(|ids|, i requires 0 <= i < |ids| => Stat(os, ids[i]))
  }

  function SoldKey(s: ProductStats): int {
    -s.totalSold
  }

  /** `... WHERE status = 'completed' GROUP BY product_id ORDER BY total_sold DESC LIMIT 5`. */
  function TopProducts(orders: seq<Order>): (r: seq<ProductStats>)
    ensures |r| <= 5
  {
    Seqs.Take(Seqs.SortBy(Grouped(WithStatus(orders, Completed)), SoldKey), 5)
  }

  /**
   * Each top entry is a product sold in some completed order, with its
   * quantity and revenue summed over the completed orders of that product,
   * and the entries come in descending quantity sold.
   */
  lemma TopProductsEntries(orders: seq<Order>)
    ensures var completed := WithStatus(orders, Completed);
            var r := TopProducts(orders);
            && (forall e :: e in r ==> e == Stat(completed, e.productId)
                                       && exists o :: o in orders && o.status == Completed && o.productId == e.productId)
            && (forall i, j :: 0 <= i < j < |r| ==> r[i].totalSold >= r[j].totalSold)
  {
    var completed := WithStatus(orders, Completed);
    var g := Grouped(completed);
    var sorted := Seqs.SortBy(g, SoldKey);
    var r := TopProducts(orders);
    forall e | e in r
      ensures e == Stat(completed, e.productId)
      ensures exists o :: o in orders && o.status == Completed && o.productId == e.productId
    {
      var i :| 0 <= i < |r| && r[i] == e;
      assert e == sorted[i];
      assert e in multiset(g);
      var j :| 0 <= j < |g| && g[j] == e;
      assert ProductIdsOf(completed)[j] in ProductIdsOf(completed);
    }
    forall i, j | 0 <= i < j < |r| ensures r[i].totalSold >= r[j].totalSold {
      assert r[i] == sorted[i] && r[j] == sorted[j];
      assert SoldKey(sorted[i]) <= SoldKey(sorted[j]);
    }
  }

  /** No product appears twice among the top entries. */
  lemma TopProductsDistinct(orders: seq<Order>)
    ensures var r := TopProducts(orders);
            forall i, j :: 0 <= i < j < |r| ==> r[i].productId != r[j].productId
  {
    var completed := WithStatus(orders, Completed);
    var g := Grouped(completed);
    var ids := ProductIdsOf(completed);
    var sorted := Seqs.SortBy(g, SoldKey);
    var r := TopProducts(orders);
    assert Seqs.Distinct(g) by {
      forall i, j | 0 <= i < j < |g| ensures g[i] != g[j] {
        assert g[i].productId == ids[i] && g[j].productId == ids[j];
      }
    }
    Seqs.PermutationKeepsDistinct(g, sorted);
    TopProductsEntries(orders);
    forall i, j | 0 <= i < j < |r| ensures r[i].productId != r[j].productId {
      assert r[i] == sorted[i] && r[j] == sorted[j];
      assert r[i] in r && r[j] in r;
    }
  }

  /**
   * A product sold in a completed order that is missing from the top entries
   * was left out by the limit: there are five entries, each selling at least
   * as much.
   */
  lemma TopProductsComplete(orders: seq<Order>, pid: nat)
    requires exists o :: o in orders && o.status == Completed && o.productId == pid
    requires forall e :: e in TopProducts(orders) ==> e.productId != pid
    ensures |TopProducts(orders)| == 5
    ensures forall e :: e in TopProducts(orders) ==> e.totalSold >= SoldOf(WithStatus(orders, Completed), pid)
  {
    var completed := WithStatus(orders, Completed);
    var g := Grouped(completed);
    var ids := ProductIdsOf(completed);
    var sorted := Seqs.SortBy(g, SoldKey);
    var r := TopProducts(orders);
    var o :| o in orders && o.status == Completed && o.productId == pid;
    assert o in completed;
    assert pid in ids;
    var k :| 0 <= k < |ids| && ids[k] == pid;
    var x := g[k];
    assert x in multiset(sorted);
    assert x !in r;
    Seqs.TakeOfSortedBounds(sorted, SoldKey, 5, x);
    forall e | e in r ensures e.totalSold >= SoldOf(completed, pid) {
      var i :| 0 <= i < |r| && r[i] == e;
      assert SoldKey(sorted[i]) <= SoldKey(x);
    }
  }

  /** A top entry with the product's name and image, when the product still exists. */
  function WithInfo(s: ProductStats, products: seq<Product>): (r: ProductStats)
    ensures r.productId == s.productId && r.totalSold == s.totalSold && r.totalRevenue == s.totalRevenue
    ensures FindProduct(products, s.productId).Some? ==>
              && r.productName == FindProduct(products, s.productId).value.name
              && r.productImage == FindProduct(products, s.productId).value.imagePath
    ensures FindProduct(products, s.productId).None? ==> r == s
  {
    match FindProduct(products, s.productId)
    case Some(p) => s.(productName := p.name, productImage := p.imagePath)
    case None => s
  }

  /** Fills in, in place, the name and image of every top entry whose product exists. */
  method FillProductInfo(top: array<ProductStats>, products: seq<Product>)
    modifies top
    ensures forall i :: 0 <= i < top.Length ==> top[i] == WithInfo(old(top[i]), products)
  {
    for i := 0 to top.Length
      invariant forall j :: 0 <= j < i ==> top[j] == WithInfo(old(top[j]), products)
      invariant forall j :: i <= j < top.Length ==> top[j] == old(top[j])
    {
      match FindProduct(products, top[i].productId)
      case Some(p) =>
        top[i] := top[i].(productName := p.name, productImage := p.imagePath);
      case None =>
    }
  }

  /** The top entries, each with its product's name and image filled in when the product exists. */
  method TopProductsWithInfo(orders: seq<Order>, products: seq<Product>) returns (top: seq<ProductStats>)
    ensures |top| == |TopProducts(orders)|
    ensures forall i :: 0 <= i < |top| ==> top[i] == WithInfo(TopProducts(orders)[i], products)
  {
    var grouped := TopProducts(orders);
    var a := new ProductStats[|grouped|](i requires 0 <= i < |grouped| => grouped[i]);
    FillProductInfo(a, products);
    top := a[..];
  }

  /** `ORDER BY created_at DESC LIMIT 10` over orders of every status. */
  function RecentOrders(orders: seq<Order>): (r: seq<Order>)
    ensures |r| <= 10
  {
    Seqs.Take(Orders.NewestFirst(orders), 10)
  }

  /**
   * The recent orders are orders of the store, newest first; an order left
   * out was cut by the limit: there are ten, each at least as new.
   */
  lemma RecentOrdersSpec(orders: seq<Order>, o: Order)
    ensures var r := RecentOrders(orders);
            && (forall x :: x in r ==> x in orders)
            && (forall i, j :: 0 <= i < j < |r| ==> r[i].createdAt >= r[j].createdAt)
            && (o in orders && o !in r ==> |r| == 10 && forall x :: x in r ==> x.createdAt >= o.createdAt)
  {
    var sorted := Orders.NewestFirst(orders);
    var r := RecentOrders(orders);
    forall x | x in r ensures x in orders {
      var i :| 0 <= i < |r| && r[i] == x;
      assert x == sorted[i] && x in multiset(sorted);
    }
    if o in orders && o !in r {
      assert o in multiset(sorted);
      assert Seqs.SortedBy(sorted, Orders.NewestKey) by {
        forall i, j | 0 <= i < j < |sorted| ensures Orders.NewestKey(sorted[i]) <= Orders.NewestKey(sorted[j]) {
        }
      }
      Seqs.TakeOfSortedBounds(sorted, Orders.NewestKey, 10, o);
      forall x | x in r ensures x.createdAt >= o.createdAt {
        var i :| 0 <= i < |r| && r[i] == x;
        assert Orders.NewestKey(sorted[i]) <= Orders.NewestKey(o);
      }
    }
  }

  /** Today's window lies within this month's, which lies within this year's, which lies within all time. */
  lemma WindowsNested(orders: seq<Order>, startOfToday: int, startOfMonth: int, startOfYear: int)
    requires startOfYear <= startOfMonth <= startOfToday
    ensures |CompletedSince(orders, Some(startOfToday))| <= |CompletedSince(orders, Some(startOfMonth))|
            <= |CompletedSince(orders, Some(startOfYear))| <= |WithStatus(orders, Completed)|
    ensures (forall i :: 0 <= i < |orders| ==> orders[i].totalPrice >= 0) ==>
            Orders.TotalPriceSum(CompletedSince(orders, Some(startOfToday)))
            <= Orders.TotalPriceSum(CompletedSince(orders, Some(startOfMonth)))
            <= Orders.TotalPriceSum(CompletedSince(orders, Some(startOfYear)))
            <= Orders.TotalPriceSum(WithStatus(orders, Completed))
  {
    AllTimeIsCompleted(orders);
    WindowCount(orders, Some(startOfMonth), startOfToday);
    WindowCount(orders, Some(startOfYear), startOfMonth);
    WindowCount(orders, None, startOfYear);
    if forall i :: 0 <= i < |orders| ==> orders[i].totalPrice >= 0 {
      WindowSales(orders, Some(startOfMonth), startOfToday);
      WindowSales(orders, Some(startOfYear), startOfMonth);
      WindowSales(orders, None, startOfYear);
    }
  }

  /**
   * GetDashboardStats: for a logged-in caller, every sales and count figure
   * over completed orders only, per-status counts over all orders, the top
   * five products with their names and images, and the ten latest orders.
   */
  method GetDashboardStats(userId: Option<nat>, orders: seq<Order>, products: seq<Product>,
                           startOfToday: int, startOfMonth: int, startOfYear: int)
    returns (r: Response<DashboardStats>)
    ensures r.Ok? <==> userId.Some?
    ensures !r.Ok? ==> r == Unauthorized
    ensures r.Ok? ==>
      var s := r.value;
      && s.totalOrders == s.completedOrders == |WithStatus(orders, Completed)|
      && s.totalSales == Orders.TotalPriceSum(WithStatus(orders, Completed))
      && s.todayOrders == |CompletedSince(orders, Some(startOfToday))|
      && s.todaySales == Orders.TotalPriceSum(CompletedSince(orders, Some(startOfToday)))
      && s.monthOrders == |CompletedSince(orders, Some(startOfMonth))|
      && s.monthSales == Orders.TotalPriceSum(CompletedSince(orders, Some(startOfMonth)))
      && s.yearOrders == |CompletedSince(orders, Some(startOfYear))|
      && s.yearSales == Orders.TotalPriceSum(CompletedSince(orders, Some(startOfYear)))
      && s.pendingOrders + s.completedOrders + s.cancelledOrders == |orders|
      && s.pendingOrders == |WithStatus(orders, Pending)| && s.cancelledOrders == |WithStatus(orders, Cancelled)|
      && |s.topProducts| == |TopProducts(orders)|
      && (forall i :: 0 <= i < |s.topProducts| ==> s.topProducts[i] == WithInfo(TopProducts(orders)[i], products))
      && s.recentOrders == RecentOrders(orders)
    ensures r.Ok? && startOfYear <= startOfMonth <= startOfToday ==>
      r.value.todayOrders <= r.value.monthOrders <= r.value.yearOrders <= r.value.totalOrders
    ensures r.Ok? && startOfYear <= startOfMonth <= startOfToday && (forall i :: 0 <= i < |orders| ==> orders[i].totalPrice >= 0) ==>
      r.value.todaySales <= r.value.monthSales <= r.value.yearSales <= r.value.totalSales
  {
    if userId.None? {
      return Unauthorized;
    }
    var completed := WithStatus(orders, Completed);
    var today := CompletedSince(orders, Some(startOfToday));
    var month := CompletedSince(orders, Some(startOfMonth));
    var year := CompletedSince(orders, Some(startOfYear));
    var top := TopProductsWithInfo(orders, products);
    StatusPartition(orders);
    AllTimeIsCompleted(orders);
    if startOfYear <= startOfMonth <= startOfToday {
      WindowsNested(orders, startOfToday, startOfMonth, startOfYear);
    }
    var stats := DashboardStats(
      Orders.TotalPriceSum(today), Orders.TotalPriceSum(month), Orders.TotalPriceSum(year),
      Orders.TotalPriceSum(completed),
      |today|, |month|, |year|, |completed|,
      |WithStatus(orders, Pending)|, |completed|, |WithStatus(orders, Cancelled)|,
      top, RecentOrders(orders));
    return Ok(stats);
  }
}
