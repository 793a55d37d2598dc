/** The handlers of internal/handlers/order.go. CreateOrder appends to the
    orders table after three guards; GetOrders only reads it. */
module OrderHandlers {

  import opened Wrappers
  import opened Seqs
  import opened Strconv
  import opened Models
  import opened Http
  import opened Database

  /** POST /users/:id/orders. The guards run in this order: the path id must
      be an integer (400), the user must exist (404), the body must bind
      (400). `now` is the server clock reading. */
  method CreateOrder(db: Store, idParam: string, input: Option<OrderInput>, now: Timestamp) returns (r: Response)
    requires db.Valid()
    modifies db
    ensures db.Valid()
    ensures db.users == old(db.users) && db.nextUserId == old(db.nextUserId)
    ensures !Atoi(idParam).Ok? ==>
      && r == Response(StatusBadRequest, ErrorJson("Invalid user ID"))
      && db.orders == old(db.orders) && db.nextOrderId == old(db.nextOrderId)
    ensures Atoi(idParam).Ok? && FindUser(old(db.users), Atoi(idParam).value).None? ==>
      && r == Response(StatusNotFound, ErrorJson("User not found"))
      && db.orders == old(db.orders) && db.nextOrderId == old(db.nextOrderId)
    ensures Atoi(idParam).Ok? && FindUser(old(db.users), Atoi(idParam).value).Some? && input.None? ==>
      && r == Response(StatusBadRequest, ErrorJson("Invalid input"))
      && db.orders == old(db.orders) && db.nextOrderId == old(db.nextOrderId)
    ensures Atoi(idParam).Ok? && FindUser(old(db.users), Atoi(idParam).value).Some? && input.Some? ==>
      && Atoi(idParam).value >= 1
      && var o := Order(old(db.nextOrderId), Atoi(idParam).value, input.value.product,
                        input.value.quantity, input.value.price, now);
         && db.orders == old(db.orders) + [o]
         && db.nextOrderId == old(db.nextOrderId) + 1
         && (forall k :: 0 <= k < |old(db.orders)| ==> old(db.orders)[k].id != o.id)
         && r == Response(StatusCreated, OrderBody(o))
  {
    var parsed := Atoi(idParam);
    if !parsed.Ok? {
      return Response(StatusBadRequest, ErrorJson("Invalid user ID"));
    }
    var userId := parsed.value;
    var found := FindUser(db.users, userId);
    if found.None? {
      return Response(StatusNotFound, ErrorJson("User not found"));
    }
    if input.None? {
      return Response(StatusBadRequest, ErrorJson("Invalid input"));
    }
    var body := input.value;
    var o := db.InsertOrder(db.users[found.value].id, body.product, body.quantity, body.price, now);
    r := Response(StatusCreated, OrderBody(o));
  }

  /** The stored orders of one user, in stored order (`Where("user_id = ?", id)`). */
  function OrdersOf(orders: seq<Order>, userId: int): (r: seq<Order>)
    ensures forall k :: 0 <= k < |r| ==> r[k] in orders && r[k].userId == userId
    ensures forall k :: 0 <= k < |orders| && orders[k].userId == userId ==> orders[k] in r
  {
    Filter(orders, (o: Order) => o.userId == userId)
  }

  /** GET /users/:id/orders. `fault` stands for a storage failure. The path id
      is handed to the database as text; one the database cannot read as an
      integer makes the query fail as well. The user's existence is never checked. */
  function GetOrders(orders: seq<Order>, idParam: string, fault: bool): (r: Response)
    ensures r.status == StatusOK <==> !fault && Atoi(idParam).Ok?
    ensures r.status != StatusOK ==> r == Response(StatusInternalServerError, ErrorJson("Failed to fetch orders"))
    ensures r.status == StatusOK ==> r.body.OrderList?
    ensures r.status == StatusOK ==>
      forall k :: 0 <= k < |r.body.orders| ==> r.body.orders[k] in orders && r.body.orders[k].userId == Atoi(idParam).value
    ensures r.status == StatusOK ==>
      forall k :: 0 <= k < |orders| && orders[k].userId == Atoi(idParam).value ==> orders[k] in r.body.orders
  {
    if fault then Response(StatusInternalServerError, ErrorJson("Failed to fetch orders"))
    else match Atoi(idParam)
      case Ok(n) => Response(StatusOK, OrderList(OrdersOf(orders, n)))
      case _ => Response(StatusInternalServerError, ErrorJson("Failed to fetch orders"))
  }

  /** A user id that owns no order (whether or not the user exists) gets 200 and an empty list. */
  lemma GetOrdersNoneIsEmpty(orders: seq<Order>, idParam: string)
    requires Atoi(idParam).Ok?
    requires forall k :: 0 <= k < |orders| ==> orders[k].userId != Atoi(idParam).value
    ensures GetOrders(orders, idParam, false) == Response(StatusOK, OrderList([]))
  {
    FilterEmpty(orders, (o: Order) => o.userId == Atoi(idParam).value);
  }

  /** Appending an order extends exactly its owner's list, at the end. */
  lemma GetOrdersAfterAppend(orders: seq<Order>, o: Order, idParam: string)
    requires Atoi(idParam).Ok?
    ensures GetOrders(orders + [o], idParam, false).body.orders
         == GetOrders(orders, idParam, false).body.orders + (if o.userId == Atoi(idParam).value then [o] else [])
  {
    var p := (x: Order) => x.userId == Atoi(idParam).value;
    FilterAppend(orders, [o], p);
    assert Filter([o], p) == (if p(o) then [o] else []) + Filter([o][1..], p);
  }

  /** Filtering keeps rows in stored order: a table in ascending id order yields a list in ascending id order. */
  lemma OrdersOfAscending(orders: seq<Order>, userId: int)
    requires OrderIdsAscending(orders)
    ensures OrderIdsAscending(OrdersOf(orders, userId))
  {
    FilterKeepsOrder(orders, (o: Order) => o.userId == userId, (o: Order) => o.id);
  }
}
