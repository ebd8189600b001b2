/** The order back-office of `src/pages/admin/AdminOrders.tsx`: the search over fetched orders, the
    statistics cards, the status badge and the status update. */
module AdminOrders {
  import opened Nullable
  import opened Seqs
  import opened Text
  import opened Tables

  /** The predicate of `filteredOrders`: an empty search keeps everything; otherwise the lowercased
      query must occur in the lowercased name, email or id, or in the phone exactly as stored. */
  predicate MatchesSearch(o: Order, searchQuery: string) {
    if searchQuery == "" then true
    else
      var q := ToLower(searchQuery);
      || Contains(ToLower(o.customerName), q)
      || Contains(ToLower(o.customerEmail), q)
      || Contains(o.customerPhone, q)
      || Contains(ToLower(o.id), q)
  }

  function Matcher(searchQuery: string): Order -> bool {
    (o: Order) => MatchesSearch(o, searchQuery)
  }

  /** `orders?.filter(...)`: nothing while the orders are not loaded. */
  function FilterOrders(orders: Option<seq<Order>>, searchQuery: string): (r: Option<seq<Order>>)
    ensures r.Some? <==> orders.Some?
    ensures r.Some? ==> |r.value| <= |orders.value|
  {
    match orders
    case None => None
    case Some(os) => Some(Filter(os, Matcher(searchQuery)))
  }

  /** An empty search keeps every fetched order, in the fetched order. */
  lemma EmptySearchKeepsAll(orders: Option<seq<Order>>)
    ensures FilterOrders(orders, "") == orders
  {
    if orders.Some? {
      FilterAll(orders.value, Matcher(""));
    }
  }

  /** The filtered list is an order-preserving sub-list of the fetched orders, and an order is in it iff
      the query is empty or occurs in one of the four searched fields. */
  lemma SearchSpec(orders: seq<Order>, searchQuery: string)
    ensures FilterOrders(Some(orders), searchQuery).Some?
    ensures IsSublist(FilterOrders(Some(orders), searchQuery).value, orders)
    ensures forall o :: o in FilterOrders(Some(orders), searchQuery).value <==>
      && o in orders
      && (|| searchQuery == ""
          || Contains(ToLower(o.customerName), ToLower(searchQuery))
          || Contains(ToLower(o.customerEmail), ToLower(searchQuery))
          || Contains(o.customerPhone, ToLower(searchQuery))
          || Contains(ToLower(o.id), ToLower(searchQuery)))
  {
    FilterIsSublist(orders, Matcher(searchQuery));
  }

  /** The phone is searched without lowercasing: a query written in capitals that occurs in the phone
      as stored does not find the order through it, while the same text in the email does. */
  lemma PhoneSearchIsCaseSensitive()
    ensures !MatchesSearch(Order("7", None, "Ravi", "r@x.in", "9 EXT", "Pune", 0, None, 0), "EXT")
    ensures MatchesSearch(Order("7", None, "Ravi", "r@ext.in", "9", "Pune", 0, None, 0), "EXT")
  {
    var q := ToLower("EXT");
    assert q == "ext";
    assert !Contains("9 EXT", q) by {
      forall i | 0 <= i <= 5 ensures !(q <= "9 EXT"[i..]) {
        assert "9 EXT"[i..] == [] || "9 EXT"[i] != 'e';
      }
    }
    assert !Contains(ToLower("Ravi"), q) by {
      var name := ToLower("Ravi");
      forall i | 0 <= i <= 4 ensures !(q <= name[i..]) {
        assert name[i..] == [] || name[i] != 'e';
      }
    }
    assert !Contains(ToLower("r@x.in"), q) by {
      var email := ToLower("r@x.in");
      forall i | 0 <= i <= 6 ensures !(q <= email[i..]) {
        assert email[i..] == [] || email[i] != 'e';
      }
    }
    assert !Contains(ToLower("7"), q) by {
      var id := ToLower("7");
      forall i | 0 <= i <= 1 ensures !(q <= id[i..]) {
        assert id[i..] == [] || id[i] != 'e';
      }
    }
    assert q <= ToLower("r@ext.in")[2..];
  }

  /** Whether an order's status is exactly `status` (a null status is not "pending" here). */
  function StatusIs(status: string): Order -> bool {
    (o: Order) => o.status == Some(status)
  }

  /** `orders?.reduce((sum, o) => sum + Number(o.total_amount), 0) || 0`. */
  function Revenue(orders: Option<seq<Order>>): (r: int)
    ensures orders == None || orders == Some([]) ==> r == 0
  {
    match orders
    case None => 0
    case Some(os) => Sum(os, Amount)
  }

  /** `orders?.filter((o) => o.status === status).length || 0`. */
  function CountStatus(orders: Option<seq<Order>>, status: string): (n: nat)
    ensures orders == None ==> n == 0
    ensures orders.Some? ==> n <= |orders.value|
  {
    match orders
    case None => 0
    case Some(os) => |Filter(os, StatusIs(status))|
  }

  /** The four statistics cards. */
  datatype OrderStats = OrderStats(total: nat, pending: nat, delivered: nat, revenue: int)

  function Stats(filtered: Option<seq<Order>>): OrderStats {
    OrderStats(
      match filtered case None => 0 case Some(os) => |os|,
      CountStatus(filtered, "pending"),
      CountStatus(filtered, "delivered"),
      Revenue(filtered))
  }

  /** The cards count the shown orders: the total is their number, pending and delivered the numbers of
      shown orders with exactly that status. Pending and delivered orders are disjoint, so together they
      are at most the shown total; the revenue is the sum of the amounts of the shown orders, 0 when none
      are shown, and with non-negative amounts it never exceeds the revenue of all fetched orders. */
  lemma StatsSpec(orders: seq<Order>, searchQuery: string)
    ensures Stats(FilterOrders(Some(orders), searchQuery)).total == |Filter(orders, Matcher(searchQuery))|
    ensures Stats(FilterOrders(Some(orders), searchQuery)).pending
         == |Filter(Filter(orders, Matcher(searchQuery)), StatusIs("pending"))|
    ensures Stats(FilterOrders(Some(orders), searchQuery)).delivered
         == |Filter(Filter(orders, Matcher(searchQuery)), StatusIs("delivered"))|
    ensures Stats(FilterOrders(Some(orders), searchQuery)).pending + Stats(FilterOrders(Some(orders), searchQuery)).delivered
         <= Stats(FilterOrders(Some(orders), searchQuery)).total <= |orders|
    ensures Stats(FilterOrders(Some(orders), searchQuery)).revenue == Sum(Filter(orders, Matcher(searchQuery)), Amount)
    ensures Filter(orders, Matcher(searchQuery)) == [] ==> Stats(FilterOrders(Some(orders), searchQuery)).revenue == 0
    ensures (forall o :: o in orders ==> o.totalAmount >= 0) ==>
      0 <= Stats(FilterOrders(Some(orders), searchQuery)).revenue <= Sum(orders, Amount)
  {
    var shown := Filter(orders, Matcher(searchQuery));
    FilterDisjointCounts(shown, StatusIs("pending"), StatusIs("delivered"));
    if forall o :: o in orders ==> o.totalAmount >= 0 {
      SumNonNegative(shown, Amount);
      SumFilterAtMost(orders, Matcher(searchQuery), Amount);
    }
  }

  /** While the orders are not loaded every card shows 0. */
  lemma StatsNotLoaded()
    ensures Stats(None) == OrderStats(0, 0, 0, 0)
  {
  }

  /** The six values an order status is offered as, in the select's order. */
  const STATUSES: seq<string> := ["pending", "confirmed", "processing", "shipped", "delivered", "cancelled"]

  const GRAY := "bg-gray-100 text-gray-700 border-gray-200"

  /** `getStatusColor`: a class string per known status, gray for anything else. */
  function StatusColor(status: string): string {
    match status
    case "pending" => "bg-yellow-100 text-yellow-700 border-yellow-200"
    case "confirmed" => "bg-blue-100 text-blue-700 border-blue-200"
    case "processing" => "bg-purple-100 text-purple-700 border-purple-200"
    case "shipped" => "bg-indigo-100 text-indigo-700 border-indigo-200"
    case "delivered" => "bg-green-100 text-green-700 border-green-200"
    case "cancelled" => "bg-red-100 text-red-700 border-red-200"
    case _ => GRAY
  }

  /** Exactly the strings other than the six statuses get the gray default. */
  lemma StatusColorDefault(status: string)
    ensures status !in STATUSES <==> StatusColor(status) == GRAY
  {
  }

  /** The class string of each of the six statuses. */
  lemma StatusColorValues()
    ensures StatusColor("pending") == "bg-yellow-100 text-yellow-700 border-yellow-200"
    ensures StatusColor("confirmed") == "bg-blue-100 text-blue-700 border-blue-200"
    ensures StatusColor("processing") == "bg-purple-100 text-purple-700 border-purple-200"
    ensures StatusColor("shipped") == "bg-indigo-100 text-indigo-700 border-indigo-200"
    ensures StatusColor("delivered") == "bg-green-100 text-green-700 border-green-200"
    ensures StatusColor("cancelled") == "bg-red-100 text-red-700 border-red-200"
  {
  }

  /** The colour of a status's class string is named from its fourth character on, and the six
      colour names start with six different letters. */
  lemma ColorInitial(i: nat)
    requires i < |STATUSES|
    ensures |StatusColor(STATUSES[i])| > 3 && StatusColor(STATUSES[i])[3] == "ybpigr"[i]
  {
    StatusColorValues();
    if i == 0 {
      assert STATUSES[i] == "pending";
    } else if i == 1 {
      assert STATUSES[i] == "confirmed";
    } else if i == 2 {
      assert STATUSES[i] == "processing";
    } else if i == 3 {
      assert STATUSES[i] == "shipped";
    } else if i == 4 {
      assert STATUSES[i] == "delivered";
    } else {
      assert STATUSES[i] == "cancelled";
    }
  }

  /** Each of the six statuses gets a class of its own. */
  lemma StatusColorsDistinct()
    ensures forall i, j :: 0 <= i < j < |STATUSES| ==> StatusColor(STATUSES[i]) != StatusColor(STATUSES[j])
  {
    forall i, j | 0 <= i < j < |STATUSES|
      ensures StatusColor(STATUSES[i]) != StatusColor(STATUSES[j])
    {
      ColorInitial(i);
      ColorInitial(j);
      InitialsDistinct(i, j);
    }
  }

  lemma InitialsDistinct(i: nat, j: nat)
    requires i < j < 6
    ensures "ybpigr"[i] != "ybpigr"[j]
  {
  }

  /** `order.status || "pending"`: the status the badge shows and the select starts on. */
  function DisplayStatus(status: Option<string>): (shown: string)
    ensures shown != ""
    ensures Truthy(status) ==> shown == status.value
    ensures !Truthy(status) ==> shown == "pending"
  {
    if Truthy(status) then status.value else "pending"
  }

  /** The badge class of an order. */
  function BadgeClass(o: Order): string {
    StatusColor(DisplayStatus(o.status))
  }

  /** An order without a status is shown and selected as "pending", with the pending colour, yet the
      Pending card does not count it. */
  lemma MissingStatusShownAsPending(o: Order)
    requires o.status == None
    ensures DisplayStatus(o.status) == "pending"
    ensures BadgeClass(o) == StatusColor("pending") != GRAY
    ensures CountStatus(Some([o]), "pending") == 0
  {
    StatusColorValues();
    assert Filter([o], StatusIs("pending")) == [];
  }

  /** `.update({ status }).eq("id", orderId)` on the orders table: every row with that id takes the new
      status, and nothing else changes. */
  function SetStatus(table: seq<Order>, orderId: string, status: string): (r: seq<Order>)
    ensures |r| == |table|
    ensures forall i :: 0 <= i < |table| ==> r[i].(status := table[i].status) == table[i]
    ensures forall i :: 0 <= i < |table| ==> r[i].status == (if table[i].id == orderId then Some(status) else table[i].status)
  {
    seq(|table|, i requires 0 <= i < |table| => if table[i].id == orderId then table[i].(status := Some(status)) else table[i])
  }

  /** What `updateOrderStatus` leaves behind: the table, whether the detail dialog was closed, the notice. */
  datatype StatusUpdate = StatusUpdate(table: seq<Order>, dialogClosed: bool, notice: string)

  /** `updateOrderStatus(orderId, status)`; `failure` is the backend's error message, if it reports one. */
  function UpdateOrderStatus(table: seq<Order>, orderId: string, status: string, failure: Option<string>): (u: StatusUpdate)
    ensures u.dialogClosed <==> failure == None
    ensures failure.Some? ==> u.table == table
    ensures |u.table| == |table|
    ensures failure == None ==> forall i :: 0 <= i < |table| ==>
      u.table[i].status == (if table[i].id == orderId then Some(status) else table[i].status)
    ensures failure == None ==> u.table == SetStatus(table, orderId, status) && u.notice == "Order status updated to " + status
    ensures failure.Some? ==> u.notice == MessageOr(failure.value, "Failed to update order status")
  {
    match failure
    case None => StatusUpdate(SetStatus(table, orderId, status), true, "Order status updated to " + status)
    case Some(message) => StatusUpdate(table, false, MessageOr(message, "Failed to update order status"))
  }

  /** There is no transition table: from whatever status an order has, a successful update sets any of
      the six values; a failed one changes nothing and keeps the dialog open. */
  lemma AnyTransitionAllowed(table: seq<Order>, orderId: string, status: string, i: nat)
    requires status in STATUSES
    requires i < |table| && table[i].id == orderId
    ensures UpdateOrderStatus(table, orderId, status, None).table[i].status == Some(status)
    ensures DisplayStatus(UpdateOrderStatus(table, orderId, status, None).table[i].status) == status
    ensures UpdateOrderStatus(table, orderId, status, None).dialogClosed
    ensures forall m :: UpdateOrderStatus(table, orderId, status, Some(m)).table == table
    ensures forall m :: !UpdateOrderStatus(table, orderId, status, Some(m)).dialogClosed
  {
  }
}
