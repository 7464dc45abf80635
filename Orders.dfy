/**
 * The buyer's order history (app/account/orders/page.tsx): the bundled
 * orders that belong to the signed-in user, and the badge class of each
 * order status. The seller's order page uses the same status classes.
 */
module Orders {
  import opened Wrappers
  import opened Domain

  /** An order belongs to a user through its buyer id or its buyer email. */
  predicate BelongsTo(o: Order, u: User) {
    o.buyerId == u.id || o.buyerEmail == u.email
  }

  /** `orders.filter(order => order.buyerId === user.id || order.buyerEmail === user.email)` */
  function UserOrders(orders: seq<Order>, u: User): (r: seq<Order>)
    ensures |r| <= |orders|
    decreases |orders|
  {
    if |orders| == 0 then []
    else (if BelongsTo(orders[0], u) then [orders[0]] else []) + UserOrders(orders[1..], u)
  }

  /** An order is listed exactly when it is one of the user's. */
  lemma {:induction false} UserOrdersExact(orders: seq<Order>, u: User, o: Order)
    ensures o in UserOrders(orders, u) <==> o in orders && BelongsTo(o, u)
    decreases |orders|
  {
    if |orders| > 0 {
      UserOrdersExact(orders[1..], u, o);
      assert orders == [orders[0]] + orders[1..];
    }
  }

  /** The filter works piece by piece, so the listed orders keep the bundled order. */
  lemma {:induction false} UserOrdersAppend(a: seq<Order>, b: seq<Order>, u: User)
    ensures UserOrders(a + b, u) == UserOrders(a, u) + UserOrders(b, u)
    decreases |a|
  {
    if |a| == 0 {
      assert a + b == b;
    } else {
      assert (a + b)[0] == a[0] && (a + b)[1..] == a[1..] + b;
      UserOrdersAppend(a[1..], b, u);
      var head := if BelongsTo(a[0], u) then [a[0]] else [];
      assert UserOrders(a + b, u) == head + UserOrders(a[1..] + b, u);
    }
  }

  /** The empty state is shown exactly when no order belongs to the user. */
  lemma EmptyStateIffNoOrders(orders: seq<Order>, u: User)
    ensures |UserOrders(orders, u)| == 0 <==> forall k :: 0 <= k < |orders| ==> !BelongsTo(orders[k], u)
  {
    if |UserOrders(orders, u)| == 0 {
      forall k | 0 <= k < |orders| ensures !BelongsTo(orders[k], u) {
        UserOrdersExact(orders, u, orders[k]);
      }
    } else {
      var o := UserOrders(orders, u)[0];
      UserOrdersExact(orders, u, o);
    }
  }

  const DeliveredClass := "bg-green-100 text-green-700 dark:bg-green-900/30 dark:text-green-400"
  const ShippedClass := "bg-blue-100 text-blue-700 dark:bg-blue-900/30 dark:text-blue-400"
  const ProcessingClass := "bg-yellow-100 text-yellow-700 dark:bg-yellow-900/30 dark:text-yellow-400"
  const NeutralClass := "bg-gray-100 text-gray-700 dark:bg-gray-800 dark:text-gray-400"
  const CancelledClass := "bg-red-100 text-red-700 dark:bg-red-900/30 dark:text-red-400"

  /** `getStatusColor`: one class per known status, the neutral one for `pending` and the rest. */
  function StatusColor(status: string): (cls: string)
    ensures status == "delivered" ==> cls == DeliveredClass
    ensures status == "shipped" ==> cls == ShippedClass
    ensures status == "processing" ==> cls == ProcessingClass
    ensures status == "cancelled" ==> cls == CancelledClass
    ensures status !in {"delivered", "shipped", "processing", "cancelled"} ==> cls == NeutralClass
  {
    if status == "delivered" then DeliveredClass
    else if status == "shipped" then ShippedClass
    else if status == "processing" then ProcessingClass
    else if status == "pending" then NeutralClass
    else if status == "cancelled" then CancelledClass
    else NeutralClass
  }

  /**
   * The four marked statuses get four different classes, and an unknown
   * status looks like a pending one.
   */
  lemma StatusColorsDistinct(unknown: string)
    requires unknown !in {"delivered", "shipped", "processing", "cancelled"}
    ensures |{StatusColor("delivered"), StatusColor("shipped"), StatusColor("processing"),
              StatusColor("cancelled"), StatusColor("pending")}| == 5
    ensures StatusColor(unknown) == StatusColor("pending")
  {
    assert |DeliveredClass| == 68 && |ShippedClass| == 64 && |ProcessingClass| == 72;
    assert |NeutralClass| == 61 && |CancelledClass| == 60;
  }

  /** What the page shows. */
  datatype View = Loading | Nothing | History(orders: seq<Order>)

  /**
   * The page: a loading screen, nothing without a session (the effect sends
   * the visitor to `/login`), or the user's orders.
   */
  function PageView(isLoading: bool, session: Option<User>, orders: seq<Order>): (v: View)
    ensures v.Loading? <==> isLoading
    ensures v.Nothing? <==> !isLoading && session.None?
    ensures v.History? ==> session.Some? && v.orders == UserOrders(orders, session.value)
  {
    if isLoading then Loading
    else if session.None? then Nothing
    else History(UserOrders(orders, session.value))
  }

  /** The redirect to the login page fires exactly when nothing is shown. */
  predicate RedirectsToLogin(isLoading: bool, session: Option<User>) {
    !isLoading && session.None?
  }

  lemma RedirectIffNothing(isLoading: bool, session: Option<User>, orders: seq<Order>)
    ensures RedirectsToLogin(isLoading, session) <==> PageView(isLoading, session, orders).Nothing?
  {
  }
}
