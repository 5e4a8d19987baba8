/**
 * The order handlers: create an order for one of the caller's products, list
 * every order newest first, read or delete one of the caller's orders, and
 * change the status of any order.
 */
module Orders {
  import opened Models
  import opened Store
  import Params
  import Seqs

  /** The `oneof=pending completed cancelled` binding rule on the status body. */
  function ParseStatus(s: string): (r: Option<OrderStatus>)
    ensures r.Some? <==> s == "pending" || s == "completed" || s == "cancelled"
    ensures r.Some? ==> StatusName(r.value) == s
  {
    if s == "pending" then Some(Pending)
    else if s == "completed" then Some(Completed)
    else if s == "cancelled" then Some(Cancelled)
    else None
  }

  /** Every status reads back from its own wire name. */
  lemma ParseStatusName(st: OrderStatus)
    ensures ParseStatus(StatusName(st)) == Some(st)
  {
  }

  function NewestKey(o: Order): int {
    -o.createdAt
  }

  /** `ORDER BY created_at DESC`: all of `os`, newest first. */
  function NewestFirst(os: seq<Order>): (r: seq<Order>)
    ensures multiset(r) == multiset(os) && |r| == |os|
    ensures forall i, j :: 0 <= i < j < |r| ==> r[i].createdAt >= r[j].createdAt
  {
    var r := Seqs.SortBy(os, NewestKey);
    assert forall i, j :: 0 <= i < j < |r| ==> NewestKey(r[i]) <= NewestKey(r[j]);
    r
  }

  /** `SUM(total_price)`, which is 0 over no rows (the `COALESCE(..., 0)`). */
  function TotalPriceSum(os: seq<Order>): int
  {
    if os == [] then 0 else TotalPriceSum(os[..|os| - 1]) + os[|os| - 1].totalPrice
  }

  /** Over orders with no negative total, the sum is never negative. */
  lemma {:induction false} TotalPriceSumNonneg(os: seq<Order>)
    requires forall i :: 0 <= i < |os| ==> os[i].totalPrice >= 0
    ensures TotalPriceSum(os) >= 0
  {
    if os != [] {
      var init := os[..|os| - 1];
      assert forall i :: 0 <= i < |init| ==> init[i] == os[i];
      TotalPriceSumNonneg(init);
    }
  }

  /** The first order with this primary key. */
  function IndexOfOrder(orders: seq<Order>, id: int): (k: Option<nat>)
    ensures k.Some? ==> k.value < |orders| && orders[k.value].id == id
    ensures k.None? <==> forall i :: 0 <= i < |orders| ==> orders[i].id != id
  {
    if orders == [] then None
    else if orders[0].id == id then Some(0)
    else match IndexOfOrder(orders[1..], id)
      case None => None
      case Some(k) => Some(k + 1)
  }

  /** The first order with this key owned by `uid` (`id = ? AND user_id = ?`); guest orders never match. */
  function IndexOfOwnedOrder(orders: seq<Order>, id: int, uid: nat): (k: Option<nat>)
    ensures k.Some? ==> k.value < |orders| && orders[k.value].id == id && orders[k.value].userId == Some(uid)
    ensures k.None? <==> forall i :: 0 <= i < |orders| ==> !(orders[i].id == id && orders[i].userId == Some(uid))
  {
    if orders == [] then None
    else if orders[0].id == id && orders[0].userId == Some(uid) then Some(0)
    else match IndexOfOwnedOrder(orders[1..], id, uid)
      case None => None
      case Some(k) => Some(k + 1)
  }

  /** The caller's product with this key (`id = ? AND user_id = ?`). */
  function FindOwnedProduct(products: seq<Product>, id: nat, uid: nat): (r: Option<Product>)
    ensures r.Some? ==> r.value in products && r.value.id == id && r.value.userId == uid
    ensures r.None? <==> forall i :: 0 <= i < |products| ==> !(products[i].id == id && products[i].userId == uid)
  {
    if products == [] then None
    else if products[0].id == id && products[0].userId == uid then Some(products[0])
    else FindOwnedProduct(products[1..], id, uid)
  }

  /**
   * CreateOrder: a logged-in caller orders `quantity` (at least 1) of a product
   * they own; the new order is pending, belongs to the caller, is attached to
   * no table, and costs the product's price times the quantity.
   */
  method CreateOrder(db: Db, userId: Option<nat>, productId: nat, quantity: int, now: int)
    returns (r: Response<Order>)
    requires db.Valid()
    modifies db`orders, db`nextOrderId
    ensures db.Valid()
    ensures userId.None? ==> r == Unauthorized
    ensures userId.Some? && (productId == 0 || quantity < 1) ==> r == BadRequest
    ensures (userId.Some? && productId != 0 && quantity >= 1
             && FindOwnedProduct(db.products, productId, userId.value).None?) ==> r == NotFound
    ensures r.Ok? <==> userId.Some? && productId != 0 && quantity >= 1
                       && FindOwnedProduct(db.products, productId, userId.value).Some?
    ensures !r.Ok? ==> db.orders == old(db.orders) && db.nextOrderId == old(db.nextOrderId)
    ensures r.Ok? ==>
      var p := FindOwnedProduct(db.products, productId, userId.value).value;
      && r.value == Order(old(db.nextOrderId), userId, productId, quantity, p.price * quantity, Pending, now, None)
      && db.orders == old(db.orders) + [r.value]
      && db.nextOrderId == old(db.nextOrderId) + 1
  {
    if userId.None? {
      return Unauthorized;
    }
    if productId == 0 || quantity < 1 {
      return BadRequest;
    }
    var product := FindOwnedProduct(db.products, productId, userId.value);
    if product.None? {
      return NotFound;
    }
    var order := Order(db.nextOrderId, userId, productId, quantity, product.value.price * quantity, Pending, now, None);
    db.orders := db.orders + [order];
    db.nextOrderId := db.nextOrderId + 1;
    return Ok(order);
  }

  /** GetOrders: every order, guest orders included, newest first, for any logged-in caller. */
  function GetOrders(userId: Option<nat>, orders: seq<Order>): (r: Response<seq<Order>>)
    ensures r.Ok? <==> userId.Some?
    ensures !r.Ok? ==> r == Unauthorized
    ensures r.Ok? ==> multiset(r.value) == multiset(orders)
    ensures r.Ok? ==> forall i, j :: 0 <= i < j < |r.value| ==> r.value[i].createdAt >= r.value[j].createdAt
  {
    if userId.None? then Unauthorized else Ok(NewestFirst(orders))
  }

  /** GetOrderByID: only an order owned by the caller is ever returned. */
  function GetOrderByID(userId: Option<nat>, idParam: string, orders: seq<Order>): (r: Response<Order>)
    ensures userId.None? <==> r == Unauthorized
    ensures userId.Some? && Params.Atoi(idParam).None? <==> r == BadRequest
    ensures r.Ok? || r == Unauthorized || r == BadRequest || r == NotFound
    ensures r.Ok? ==> r.value in orders && Params.Atoi(idParam) == Some(r.value.id as int) && r.value.userId == userId
    ensures r == NotFound <==> userId.Some? && Params.Atoi(idParam).Some?
                               && forall o :: o in orders ==> !(o.id == Params.Atoi(idParam).value && o.userId == userId)
  {
    if userId.None? then Unauthorized
    else match Params.Atoi(idParam)
      case None => BadRequest
      case Some(id) =>
        match IndexOfOwnedOrder(orders, id, userId.value)
        case None => NotFound
        case Some(k) => Ok(orders[k])
  }

  /**
   * UpdateOrderStatus: any logged-in caller may set any of the three statuses
   * on any order (guest orders included), whatever its current status; only
   * that order's status changes.
   */
  method UpdateOrderStatus(db: Db, userId: Option<nat>, idParam: string, status: string)
    returns (r: Response<Order>)
    requires db.Valid()
    modifies db`orders
    ensures db.Valid()
    ensures userId.None? ==> r == Unauthorized
    ensures userId.Some? && (Params.Atoi(idParam).None? || ParseStatus(status).None?) ==> r == BadRequest
    ensures r.Ok? <==> userId.Some? && Params.Atoi(idParam).Some? && ParseStatus(status).Some?
                       && IndexOfOrder(old(db.orders), Params.Atoi(idParam).value).Some?
    ensures (userId.Some? && Params.Atoi(idParam).Some? && ParseStatus(status).Some?
             && IndexOfOrder(old(db.orders), Params.Atoi(idParam).value).None?) ==> r == NotFound
    ensures !r.Ok? ==> db.orders == old(db.orders)
    ensures r.Ok? ==>
      var k := IndexOfOrder(old(db.orders), Params.Atoi(idParam).value).value;
      && r.value == old(db.orders)[k].(status := ParseStatus(status).value)
      && db.orders == old(db.orders)[k := r.value]
  {
    if userId.None? {
      return Unauthorized;
    }
    var id := Params.Atoi(idParam);
    if id.None? {
      return BadRequest;
    }
    var st := ParseStatus(status);
    if st.None? {
      return BadRequest;
    }
    var k := IndexOfOrder(db.orders, id.value);
    if k.None? {
      return NotFound;
    }
    var order := db.orders[k.value].(status := st.value);
    db.orders := db.orders[k.value := order];
    return Ok(order);
  }

  /** DeleteOrder: removes the caller's order with that id and nothing else. */
  method DeleteOrder(db: Db, userId: Option<nat>, idParam: string) returns (r: Response<()>)
    requires db.Valid()
    modifies db`orders
    ensures db.Valid()
    ensures userId.None? ==> r == Unauthorized
    ensures userId.Some? && Params.Atoi(idParam).None? ==> r == BadRequest
    ensures r.Ok? <==> userId.Some? && Params.Atoi(idParam).Some?
                       && IndexOfOwnedOrder(old(db.orders), Params.Atoi(idParam).value, userId.value).Some?
    ensures (userId.Some? && Params.Atoi(idParam).Some?
             && IndexOfOwnedOrder(old(db.orders), Params.Atoi(idParam).value, userId.value).None?) ==> r == NotFound
    ensures !r.Ok? ==> db.orders == old(db.orders)
    ensures r.Ok? ==>
      && |db.orders| == |old(db.orders)| - 1
      && forall o :: o in db.orders <==> o in old(db.orders) && o.id != Params.Atoi(idParam).value
  {
    if userId.None? {
      return Unauthorized;
    }
    var id := Params.Atoi(idParam);
    if id.None? {
      return BadRequest;
    }
    var k := IndexOfOwnedOrder(db.orders, id.value, userId.value);
    if k.None? {
      return NotFound;
    }
    RemoveOrder(db.orders, db.nextOrderId, k.value);
    db.orders := Seqs.RemoveAt(db.orders, k.value);
    return Ok(());
  }

  /** Deleting one row by its key keeps the store valid and removes exactly the rows with that key. */
  lemma RemoveOrder(orders: seq<Order>, next: nat, k: nat)
    requires OrdersValid(orders, next) && k < |orders|
    ensures OrdersValid(Seqs.RemoveAt(orders, k), next)
    ensures forall o :: o in Seqs.RemoveAt(orders, k) <==> o in orders && o.id != orders[k].id
  {
    var r := Seqs.RemoveAt(orders, k);
    forall i, j | 0 <= i < j < |r| ensures r[i].id != r[j].id {
      assert r[i] == orders[if i < k then i else i + 1];
      assert r[j] == orders[if j < k then j else j + 1];
    }
    forall o ensures o in r <==> o in orders && o.id != orders[k].id {
      Seqs.RemoveAtIndex(orders, k, o);
      if o in orders && o.id != orders[k].id {
        var i :| 0 <= i < |orders| && orders[i] == o;
        assert i != k;
      }
      if o in r {
        var i :| 0 <= i < |orders| && i != k && orders[i] == o;
        assert orders[if i < k then i else k].id != orders[if i < k then k else i].id;
      }
    }
  }

  /** Rows inserted with consecutive fresh keys keep the keys unique. */
  lemma AppendOrders(orders: seq<Order>, next: nat, created: seq<Order>)
    requires OrdersValid(orders, next)
    requires forall i :: 0 <= i < |created| ==> created[i].id == next + i
    ensures OrdersValid(orders + created, next + |created|)
  {
    var all := orders + created;
    forall i, j | 0 <= i < j < |all| ensures all[i].id != all[j].id {
      if j >= |orders| {
        assert all[j] == created[j - |orders|];
        if i >= |orders| {
          assert all[i] == created[i - |orders|];
        }
      }
    }
  }
}
