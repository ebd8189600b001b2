/** The figures of `src/pages/admin/AdminDashboard.tsx`, computed from the three fetched lists
    (all products, all orders newest first, today's orders); `None` is a list not loaded yet. */
module AdminDashboard {
  import opened Nullable
  import opened Seqs
  import opened Tables
  import AdminOrders

  /** Everything the dashboard shows. */
  datatype Dashboard = Dashboard(
    totalProducts: nat,
    totalOrders: nat,
    todayOrders: nat,
    totalRevenue: int,
    activeProducts: nat,
    pendingOrders: nat,
    todayRevenue: int,
    recent: seq<Order>,       // the rows of the Recent Activity card
    noRecentOrders: bool)     // the "No recent orders" line

  function Length<T>(s: Option<seq<T>>): nat {
    match s
    case None => 0
    case Some(xs) => |xs|
  }

  /** `p.is_active` is truthy. */
  function IsActive(p: Product): bool {
    p.isActive == Some(true)
  }

  function View(products: Option<seq<Product>>, orders: Option<seq<Order>>, today: Option<seq<Order>>): Dashboard {
    Dashboard(
      Length(products),
      Length(orders),
      Length(today),
      AdminOrders.Revenue(orders),
      match products case None => 0 case Some(ps) => |Filter(ps, IsActive)|,
      AdminOrders.CountStatus(orders, "pending"),
      AdminOrders.Revenue(today),
      match orders case None => [] case Some(os) => Take(os, 5),
      orders == None || orders == Some([]))
  }

  /** The dashboard's figures: the three totals are the lengths of their lists, the active count is the
      number of products with `is_active` true, the pending count the number of orders with status exactly
      "pending" (each 0 for a list not loaded); revenues are the sums of the amounts (0 for a list that is
      empty or not loaded), the active and pending counts never exceed their totals, Recent Activity shows at most
      five orders, the first five of the fetched newest-first list (all of it when shorter), and "No recent
      orders" shows exactly when that list is missing or empty, which is when Recent Activity is empty. */
  lemma ViewSpec(products: Option<seq<Product>>, orders: Option<seq<Order>>, today: Option<seq<Order>>)
    ensures View(products, orders, today).totalProducts == (if products.Some? then |products.value| else 0)
    ensures View(products, orders, today).totalOrders == (if orders.Some? then |orders.value| else 0)
    ensures View(products, orders, today).todayOrders == (if today.Some? then |today.value| else 0)
    ensures View(products, orders, today).activeProducts
         == (if products.Some? then |Filter(products.value, IsActive)| else 0)
    ensures View(products, orders, today).pendingOrders
         == (if orders.Some? then |Filter(orders.value, AdminOrders.StatusIs("pending"))| else 0)
    ensures View(products, orders, today).totalRevenue == (if orders.Some? then Sum(orders.value, Amount) else 0)
    ensures View(products, orders, today).todayRevenue == (if today.Some? then Sum(today.value, Amount) else 0)
    ensures orders == None || orders == Some([]) ==> View(products, orders, today).totalRevenue == 0
    ensures View(products, orders, today).activeProducts <= View(products, orders, today).totalProducts
    ensures View(products, orders, today).pendingOrders <= View(products, orders, today).totalOrders
    ensures |View(products, orders, today).recent| <= 5
    ensures orders.Some? ==> View(products, orders, today).recent <= orders.value
    ensures orders.Some? && |orders.value| >= 5 ==> |View(products, orders, today).recent| == 5
    ensures orders.Some? && |orders.value| < 5 ==> View(products, orders, today).recent == orders.value
    ensures View(products, orders, today).noRecentOrders <==> orders == None || orders == Some([])
    ensures View(products, orders, today).noRecentOrders <==> View(products, orders, today).recent == []
  {
  }

  /** With non-negative amounts, today's revenue is at most the total revenue whenever today's orders are
      among all orders (both lists are fetched separately, so the page itself does not ensure this). */
  lemma TodayWithinTotal(orders: seq<Order>, today: seq<Order>, isToday: Order -> bool)
    requires today == Filter(orders, isToday)
    requires forall o :: o in orders ==> o.totalAmount >= 0
    ensures 0 <= View(None, Some(orders), Some(today)).todayRevenue <= View(None, Some(orders), Some(today)).totalRevenue
  {
    SumNonNegative(today, Amount);
    SumFilterAtMost(orders, isToday, Amount);
  }
}
