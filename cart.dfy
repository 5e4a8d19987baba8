/**
 * The guest cart: lines are kept per cart session (a cookie-held id, no login
 * needed); adding a product already in the cart merges into its line;
 * checkout turns every line of the session into a pending order and empties
 * the session's cart, in one transaction.
 */
module Cart {
  import opened Models
  import opened Store
  import Params
  import Seqs
  import Orders

  /** The cookie session; only the cart session id is kept here. */
  class Session {
    var cartSessionId: Option<string>

    constructor ()
      ensures cartSessionId == None
    {
      cartSessionId := None;
    }

    /**
     * GetOrCreateSessionID: the stored cart session id, or `generated` (the
     * clock-based id) stored and returned when there is none yet. Once set,
     * the id never changes.
     */
    method GetOrCreateSessionID(generated: string) returns (id: string)
      modifies this
      ensures cartSessionId == Some(id)
      ensures old(cartSessionId).Some? ==> id == old(cartSessionId).value
      ensures old(cartSessionId).None? ==> id == generated
    {
      if cartSessionId.None? {
        cartSessionId := Some(generated);
      }
      id := cartSessionId.value;
    }
  }

  /** What GetCart answers. */
  datatype CartView = CartView(items: seq<CartItem>, totalPrice: int, itemCount: nat)

  /** What a successful CheckoutCart answers. */
  datatype Receipt = Receipt(orders: seq<Order>, totalAmount: int, orderCount: nat)

  /** The unit price a preloaded product carries; a missing product preloads as Go's zero value. */
  function PriceOf(products: seq<Product>, pid: nat): int {
    match FindProduct(products, pid)
    case Some(p) => p.price
    case None => 0
  }

  function LineTotal(item: CartItem, products: seq<Product>): int {
    PriceOf(products, item.productId) * item.quantity
  }

  /** A cart whose lines each cost nothing negative has a total that is not negative. */
  lemma {:induction false} CartTotalNonneg(items: seq<CartItem>, products: seq<Product>)
    requires forall i :: 0 <= i < |items| ==> LineTotal(items[i], products) >= 0
    ensures CartTotal(items, products) >= 0
  {
    if items != [] {
      var init := items[..|items| - 1];
      assert forall i :: 0 <= i < |init| ==> init[i] == items[i];
      CartTotalNonneg(init, products);
    }
  }

  /** The sum of price times quantity over the given lines. */
  function CartTotal(items: seq<CartItem>, products: seq<Product>): int
  {
    if items == [] then 0
    else CartTotal(items[..|items| - 1], products) + LineTotal(items[|items| - 1], products)
  }

  /** The lines of one session, in store order (`session_id = ?`). */
  function ItemsOf(items: seq<CartItem>, sid: string): (r: seq<CartItem>)
    ensures forall x {:trigger x in r} :: x in r <==> x in items && x.sessionId == sid
    ensures |r| <= |items|
  {
    if items == [] then []
    else
      var last := items[|items| - 1];
      assert items == items[..|items| - 1] + [last];
      ItemsOf(items[..|items| - 1], sid) + if last.sessionId == sid then [last] else []
  }

  /** The lines of every other session: what deleting `session_id = ?` leaves. */
  function OtherSessions(items: seq<CartItem>, sid: string): (r: seq<CartItem>)
    ensures forall x {:trigger x in r} :: x in r <==> x in items && x.sessionId != sid
    ensures |r| <= |items|
  {
    if items == [] then []
    else
      var last := items[|items| - 1];
      assert items == items[..|items| - 1] + [last];
      OtherSessions(items[..|items| - 1], sid) + if last.sessionId != sid then [last] else []
  }

  /** The quantity of product `pid` in session `sid`'s cart: the cart as its customer sees it. */
  function QuantityOf(items: seq<CartItem>, sid: string, pid: nat): int {
    if items == [] then 0
    else QuantityOf(items[..|items| - 1], sid, pid) + LineQuantity(items[|items| - 1], sid, pid)
  }

  function LineQuantity(x: CartItem, sid: string, pid: nat): int {
    if x.sessionId == sid && x.productId == pid then x.quantity else 0
  }

  /** The line of (session, product), if any (`session_id = ? AND product_id = ?`). */
  function IndexOfLine(items: seq<CartItem>, sid: string, pid: nat): (k: Option<nat>)
    ensures k.Some? ==> k.value < |items| && items[k.value].sessionId == sid && items[k.value].productId == pid
    ensures k.None? <==> forall i :: 0 <= i < |items| ==> !(items[i].sessionId == sid && items[i].productId == pid)
  {
    if items == [] then None
    else if items[0].sessionId == sid && items[0].productId == pid then Some(0)
    else match IndexOfLine(items[1..], sid, pid)
      case None => None
      case Some(k) => Some(k + 1)
  }

  /** The line with this key in this session (`id = ? AND session_id = ?`). */
  function IndexOfItem(items: seq<CartItem>, id: int, sid: string): (k: Option<nat>)
    ensures k.Some? ==> k.value < |items| && items[k.value].id == id && items[k.value].sessionId == sid
    ensures k.None? <==> forall i :: 0 <= i < |items| ==> !(items[i].id == id && items[i].sessionId == sid)
  {
    if items == [] then None
    else if items[0].id == id && items[0].sessionId == sid then Some(0)
    else match IndexOfItem(items[1..], id, sid)
      case None => None
      case Some(k) => Some(k + 1)
  }

  /** Appending a line adds its quantity to its own (session, product) pair only. */
  lemma QuantityOfAppend(items: seq<CartItem>, x: CartItem, sid: string, pid: nat)
    ensures QuantityOf(items + [x], sid, pid) == QuantityOf(items, sid, pid) + LineQuantity(x, sid, pid)
  {
    assert (items + [x])[..|items|] == items;
  }

  /** Replacing line `k` by `x` swaps the two lines' contributions. */
  lemma {:induction false} QuantityOfUpdate(items: seq<CartItem>, k: nat, x: CartItem, sid: string, pid: nat)
    requires k < |items|
    ensures QuantityOf(items[k := x], sid, pid)
            == QuantityOf(items, sid, pid) - LineQuantity(items[k], sid, pid) + LineQuantity(x, sid, pid)
  {
    var n := |items|;
    if k == n - 1 {
      assert items[k := x][..n - 1] == items[..n - 1];
    } else {
      assert items[k := x][..n - 1] == items[..n - 1][k := x];
      QuantityOfUpdate(items[..n - 1], k, x, sid, pid);
    }
  }

  /** A pair with no line has quantity 0. */
  lemma {:induction false} QuantityOfNone(items: seq<CartItem>, sid: string, pid: nat)
    requires forall i :: 0 <= i < |items| ==> !(items[i].sessionId == sid && items[i].productId == pid)
    ensures QuantityOf(items, sid, pid) == 0
  {
    if items != [] {
      var init := items[..|items| - 1];
      assert forall i :: 0 <= i < |init| ==> init[i] == items[i];
      QuantityOfNone(init, sid, pid);
    }
  }

  /** With one line per pair, the pair's quantity is the quantity on its line. */
  lemma {:induction false} QuantityOfAt(items: seq<CartItem>, k: nat, sid: string, pid: nat)
    requires UniqueLines(items)
    requires k < |items| && items[k].sessionId == sid && items[k].productId == pid
    ensures QuantityOf(items, sid, pid) == items[k].quantity
  {
    var n := |items|;
    var init := items[..n - 1];
    if k == n - 1 {
      forall i | 0 <= i < |init| ensures !(init[i].sessionId == sid && init[i].productId == pid) {
        assert DistinctLines(items[i], items[k]);
      }
      QuantityOfNone(init, sid, pid);
    } else {
      forall i, j | 0 <= i < j < |init| ensures DistinctLines(init[i], init[j]) {
        assert DistinctLines(items[i], items[j]);
      }
      QuantityOfAt(init, k, sid, pid);
      assert DistinctLines(items[k], items[n - 1]);
    }
  }

  /** Dropping lines keeps every cart rule. */
  lemma {:induction false} OtherSessionsValid(items: seq<CartItem>, next: nat, sid: string)
    requires CartValid(items, next)
    ensures CartValid(OtherSessions(items, sid), next)
  {
    if items != [] {
      var n := |items|;
      var init := items[..n - 1];
      InitValid(items, next);
      OtherSessionsValid(init, next, sid);
      var rest := OtherSessions(init, sid);
      var last := items[n - 1];
      if last.sessionId != sid {
        forall i | 0 <= i < |rest| ensures DistinctLines(rest[i], last) {
          assert rest[i] in rest;
          var j :| 0 <= j < |init| && init[j] == rest[i];
          assert items[j] == rest[i];
        }
        AppendLine(rest, next, last);
      }
    }
  }

  /** The lines before the last one keep every cart rule. */
  lemma InitValid(items: seq<CartItem>, next: nat)
    requires CartValid(items, next) && items != []
    ensures CartValid(items[..|items| - 1], next)
  {
    var init := items[..|items| - 1];
    forall i | 0 <= i < |init| ensures LineOk(init[i], next) {
      assert init[i] == items[i];
    }
    forall i, j | 0 <= i < j < |init| ensures DistinctLines(init[i], init[j]) {
      assert DistinctLines(items[i], items[j]);
    }
  }

  lemma AppendLine(rest: seq<CartItem>, next: nat, last: CartItem)
    requires CartValid(rest, next) && LineOk(last, next)
    requires forall i :: 0 <= i < |rest| ==> DistinctLines(rest[i], last)
    ensures CartValid(rest + [last], next)
  {
    var r := rest + [last];
    forall i, j | 0 <= i < j < |r| ensures DistinctLines(r[i], r[j]) {
      assert r[i] == if i < |rest| then rest[i] else last;
    }
  }

  /** Removing the line at `k` keeps every cart rule. */
  lemma RemoveLineValid(items: seq<CartItem>, next: nat, k: nat)
    requires CartValid(items, next) && k < |items|
    ensures CartValid(Seqs.RemoveAt(items, k), next)
  {
    var r := Seqs.RemoveAt(items, k);
    forall i, j | 0 <= i < j < |r| ensures DistinctLines(r[i], r[j]) {
      assert r[i] == items[if i < k then i else i + 1];
      assert r[j] == items[if j < k then j else j + 1];
    }
  }

  /** Removing the line at `k` removes exactly the line with that key. */
  lemma RemoveLineMembers(items: seq<CartItem>, next: nat, k: nat)
    requires CartValid(items, next) && k < |items|
    ensures forall x :: x in Seqs.RemoveAt(items, k) <==> x in items && x.id != items[k].id
  {
    var r := Seqs.RemoveAt(items, k);
    forall x ensures x in r <==> x in items && x.id != items[k].id {
      Seqs.RemoveAtIndex(items, k, x);
      if x in items && x.id != items[k].id {
        var i :| 0 <= i < |items| && items[i] == x;
        assert i != k;
      }
      if x in r {
        var i :| 0 <= i < |items| && i != k && items[i] == x;
        assert DistinctLines(items[if i < k then i else k], items[if i < k then k else i]);
      }
    }
  }

  /** Changing the quantity of one line to at least 1 keeps every cart rule. */
  lemma UpdateLineValid(items: seq<CartItem>, next: nat, k: nat, q: int)
    requires CartValid(items, next) && k < |items| && q >= 1
    ensures CartValid(items[k := items[k].(quantity := q)], next)
  {
    var r := items[k := items[k].(quantity := q)];
    forall i, j | 0 <= i < j < |r| ensures DistinctLines(r[i], r[j]) {
      assert DistinctLines(items[i], items[j]);
    }
  }

  /**
   * AddToCart: a quantity below 1 or a zero product id is a bad request, an
   * unknown product is not found, and either leaves the cart alone. Otherwise
   * the quantity is added to the session's line for that product, or a new
   * line is created when there is none; no other (session, product) pair
   * changes, and there is still at most one line per pair.
   */
  method AddToCart(db: Db, sid: string, productId: nat, quantity: int) returns (r: Response<CartItem>)
    requires db.Valid()
    modifies db`cartItems, db`nextCartItemId
    ensures db.Valid()
    ensures (productId == 0 || quantity < 1) ==> r == BadRequest
    ensures (productId != 0 && quantity >= 1 && FindProduct(db.products, productId).None?) ==> r == NotFound
    ensures r.Ok? <==> productId != 0 && quantity >= 1 && FindProduct(db.products, productId).Some?
    ensures !r.Ok? ==> db.cartItems == old(db.cartItems) && db.nextCartItemId == old(db.nextCartItemId)
    ensures r.Ok? ==> QuantityOf(db.cartItems, sid, productId) == old(QuantityOf(db.cartItems, sid, productId)) + quantity
    ensures r.Ok? ==> forall s, p :: (s != sid || p != productId)
                       ==> QuantityOf(db.cartItems, s, p) == old(QuantityOf(db.cartItems, s, p))
    ensures r.Ok? && old(IndexOfLine(db.cartItems, sid, productId)).Some? ==>
      var k := old(IndexOfLine(db.cartItems, sid, productId)).value;
      && r.value == old(db.cartItems)[k].(quantity := old(db.cartItems)[k].quantity + quantity)
      && db.cartItems == old(db.cartItems)[k := r.value]
      && db.nextCartItemId == old(db.nextCartItemId)
    ensures r.Ok? && old(IndexOfLine(db.cartItems, sid, productId)).None? ==>
      && r.value == CartItem(old(db.nextCartItemId), sid, productId, quantity)
      && db.cartItems == old(db.cartItems) + [r.value]
      && db.nextCartItemId == old(db.nextCartItemId) + 1
  {
    if productId == 0 || quantity < 1 {
      return BadRequest;
    }
    if FindProduct(db.products, productId).None? {
      return NotFound;
    }
    var before := db.cartItems;
    var k := IndexOfLine(db.cartItems, sid, productId);
    if k.Some? {
      var merged := db.cartItems[k.value].(quantity := db.cartItems[k.value].quantity + quantity);
      UpdateLineValid(db.cartItems, db.nextCartItemId, k.value, merged.quantity);
      db.cartItems := db.cartItems[k.value := merged];
      forall s, p ensures QuantityOf(db.cartItems, s, p)
                          == QuantityOf(before, s, p) - LineQuantity(before[k.value], s, p) + LineQuantity(merged, s, p) {
        QuantityOfUpdate(before, k.value, merged, s, p);
      }
      return Ok(merged);
    }
    var item := CartItem(db.nextCartItemId, sid, productId, quantity);
    db.cartItems := db.cartItems + [item];
    db.nextCartItemId := db.nextCartItemId + 1;
    forall s, p ensures QuantityOf(db.cartItems, s, p) == QuantityOf(before, s, p) + LineQuantity(item, s, p) {
      QuantityOfAppend(before, item, s, p);
    }
    return Ok(item);
  }

  /**
   * GetCart: the session's lines, the sum of unit price times quantity over
   * them, and how many lines there are; other sessions' lines play no part.
   */
  method GetCart(cartItems: seq<CartItem>, products: seq<Product>, sid: string) returns (r: Response<CartView>)
    ensures r.Ok?
    ensures r.value.items == ItemsOf(cartItems, sid)
    ensures forall x :: x in r.value.items ==> x.sessionId == sid
    ensures r.value.totalPrice == CartTotal(r.value.items, products)
    ensures r.value.itemCount == |r.value.items|
  {
    var items := ItemsOf(cartItems, sid);
    var total := 0;
    for i := 0 to |items|
      invariant total == CartTotal(items[..i], products)
    {
      assert items[..i + 1][..i] == items[..i];
      total := total + PriceOf(products, items[i].productId) * items[i].quantity;
    }
    assert items[..|items|] == items;
    return Ok(CartView(items, total, |items|));
  }

  /**
   * UpdateCartItem: sets the quantity (at least 1) of the line with that key
   * in this session; a line of another session is not found. Only that line's
   * quantity changes.
   */
  method UpdateCartItem(db: Db, sid: string, idParam: string, quantity: int) returns (r: Response<CartItem>)
    requires db.Valid()
    modifies db`cartItems
    ensures db.Valid()
    ensures Params.Atoi(idParam).None? || quantity < 1 ==> r == BadRequest
    ensures r.Ok? <==> Params.Atoi(idParam).Some? && quantity >= 1
                       && IndexOfItem(old(db.cartItems), Params.Atoi(idParam).value, sid).Some?
    ensures (Params.Atoi(idParam).Some? && quantity >= 1
             && IndexOfItem(old(db.cartItems), Params.Atoi(idParam).value, sid).None?) ==> r == NotFound
    ensures !r.Ok? ==> db.cartItems == old(db.cartItems)
    ensures r.Ok? ==>
      var k := IndexOfItem(old(db.cartItems), Params.Atoi(idParam).value, sid).value;
      && r.value == old(db.cartItems)[k].(quantity := quantity)
      && db.cartItems == old(db.cartItems)[k := r.value]
      && QuantityOf(db.cartItems, sid, r.value.productId) == quantity
  {
    var id := Params.Atoi(idParam);
    if id.None? {
      return BadRequest;
    }
    if quantity < 1 {
      return BadRequest;
    }
    var k := IndexOfItem(db.cartItems, id.value, sid);
    if k.None? {
      return NotFound;
    }
    var item := db.cartItems[k.value].(quantity := quantity);
    UpdateLineValid(db.cartItems, db.nextCartItemId, k.value, quantity);
    db.cartItems := db.cartItems[k.value := item];
    QuantityOfAt(db.cartItems, k.value, sid, item.productId);
    return Ok(item);
  }

  /** RemoveFromCart: deletes the line with that key in this session, and nothing else. */
  method RemoveFromCart(db: Db, sid: string, idParam: string) returns (r: Response<()>)
    requires db.Valid()
    modifies db`cartItems
    ensures db.Valid()
    ensures Params.Atoi(idParam).None? ==> r == BadRequest
    ensures r.Ok? <==> Params.Atoi(idParam).Some? && IndexOfItem(old(db.cartItems), Params.Atoi(idParam).value, sid).Some?
    ensures Params.Atoi(idParam).Some? && IndexOfItem(old(db.cartItems), Params.Atoi(idParam).value, sid).None?
            ==> r == NotFound
    ensures !r.Ok? ==> db.cartItems == old(db.cartItems)
    ensures r.Ok? ==>
      && |db.cartItems| == |old(db.cartItems)| - 1
      && forall x :: x in db.cartItems <==> x in old(db.cartItems) && x.id != Params.Atoi(idParam).value
  {
    var id := Params.Atoi(idParam);
    if id.None? {
      return BadRequest;
    }
    var k := IndexOfItem(db.cartItems, id.value, sid);
    if k.None? {
      return NotFound;
    }
    RemoveLineValid(db.cartItems, db.nextCartItemId, k.value);
    RemoveLineMembers(db.cartItems, db.nextCartItemId, k.value);
    db.cartItems := Seqs.RemoveAt(db.cartItems, k.value);
    return Ok(());
  }

  /** ClearCart: deletes every line of this session and keeps every other session's lines. */
  method ClearCart(db: Db, sid: string) returns (r: Response<()>)
    requires db.Valid()
    modifies db`cartItems
    ensures db.Valid()
    ensures r.Ok?
    ensures db.cartItems == OtherSessions(old(db.cartItems), sid)
  {
    OtherSessionsValid(db.cartItems, db.nextCartItemId, sid);
    db.cartItems := OtherSessions(db.cartItems, sid);
    return Ok(());
  }

  /** Deleting a session's lines leaves that session with none. */
  lemma {:induction false} SessionCleared(items: seq<CartItem>, sid: string)
    ensures ItemsOf(OtherSessions(items, sid), sid) == []
  {
    if items != [] {
      var init := items[..|items| - 1];
      var last := items[|items| - 1];
      SessionCleared(init, sid);
      var rest := OtherSessions(init, sid);
      if last.sessionId != sid {
        assert OtherSessions(items, sid) == rest + [last];
        ItemsOfAppend(rest, last, sid);
      } else {
        assert OtherSessions(items, sid) == rest;
      }
    }
  }

  lemma ItemsOfAppend(items: seq<CartItem>, x: CartItem, sid: string)
    ensures ItemsOf(items + [x], sid) == ItemsOf(items, sid) + if x.sessionId == sid then [x] else []
  {
    assert (items + [x])[..|items|] == items;
  }

  /** Deleting a session's lines leaves every other session's cart as it was, line for line. */
  lemma {:induction false} OtherCartsKept(items: seq<CartItem>, sid: string, other: string)
    requires other != sid
    ensures ItemsOf(OtherSessions(items, sid), other) == ItemsOf(items, other)
  {
    if items != [] {
      var init := items[..|items| - 1];
      var last := items[|items| - 1];
      OtherCartsKept(init, sid, other);
      var rest := OtherSessions(init, sid);
      if last.sessionId != sid {
        assert OtherSessions(items, sid) == rest + [last];
        ItemsOfAppend(rest, last, other);
      } else {
        assert OtherSessions(items, sid) == rest;
      }
    }
  }

  /** The order that checkout makes of one cart line. */
  function CheckoutOrder(item: CartItem, userId: Option<nat>, products: seq<Product>, id: nat, now: int): Order {
    Order(id, userId, item.productId, item.quantity, LineTotal(item, products), Pending, now, None)
  }

  /** The orders that checkout makes of the lines, with consecutive keys from `firstId`. */
  function CheckoutOrders(items: seq<CartItem>, userId: Option<nat>, products: seq<Product>, firstId: nat, now: int)
    : (r: seq<Order>)
    ensures |r| == |items|
    ensures forall i :: 0 <= i < |r| ==> r[i] == CheckoutOrder(items[i], userId, products, firstId + i, now)
  {
    seq(|items|, i requires 0 <= i < |items| => CheckoutOrder(items[i], userId, products, firstId + i, now))
  }

  /** What checkout charges (the sum over its orders) is what GetCart shows as the cart's total. */
  lemma {:induction false} CheckoutTotal(items: seq<CartItem>, userId: Option<nat>, products: seq<Product>,
                                         firstId: nat, now: int)
    ensures Orders.TotalPriceSum(CheckoutOrders(items, userId, products, firstId, now)) == CartTotal(items, products)
  {
    if items != [] {
      var n := |items|;
      var os := CheckoutOrders(items, userId, products, firstId, now);
      assert os[..n - 1] == CheckoutOrders(items[..n - 1], userId, products, firstId, now);
      CheckoutTotal(items[..n - 1], userId, products, firstId, now);
    }
  }

  /**
   * The insert phase of the checkout transaction: one pending order per line,
   * accumulating the amount charged. When the database rejects the insert of
   * line `failingWrite`, the phase stops and reports the failure.
   */
  method BuildOrders(items: seq<CartItem>, userId: Option<nat>, products: seq<Product>, firstId: nat, now: int,
                     failingWrite: Option<nat>)
    returns (created: seq<Order>, total: int, failed: bool)
    ensures failed <==> failingWrite.Some? && failingWrite.value < |items|
    ensures !failed ==> created == CheckoutOrders(items, userId, products, firstId, now)
    ensures !failed ==> total == Orders.TotalPriceSum(created) == CartTotal(items, products)
  {
    created, total, failed := [], 0, false;
    var i := 0;
    while i < |items|
      invariant 0 <= i <= |items|
      invariant |created| == i
      invariant forall j :: 0 <= j < i ==> created[j] == CheckoutOrder(items[j], userId, products, firstId + j, now)
      invariant total == Orders.TotalPriceSum(created)
      invariant failingWrite.Some? ==> failingWrite.value >= i
    {
      if failingWrite == Some(i) {
        failed := true;
        return;
      }
      var order := Order(firstId + i, userId, items[i].productId, items[i].quantity,
                         PriceOf(products, items[i].productId) * items[i].quantity, Pending, now, None);
      assert (created + [order])[..i] == created;
      created := created + [order];
      total := total + order.totalPrice;
      i := i + 1;
    }
    assert created == CheckoutOrders(items, userId, products, firstId, now);
    CheckoutTotal(items, userId, products, firstId, now);
  }

  /**
   * CheckoutCart: an empty cart is a bad request and creates nothing. Otherwise,
   * in one transaction, one pending order per line (price times quantity,
   * owned by the logged-in user or by nobody for a guest) is created and the
   * session's lines are deleted. `failingWrite` names the transaction step the
   * database rejects, if any: step i < n is the i-th order insert, step n the
   * cart delete, step n + 1 the commit. A rejected step rolls everything back.
   */
  method CheckoutCart(db: Db, sid: string, userId: Option<nat>, now: int, failingWrite: Option<nat>)
    returns (r: Response<Receipt>)
    requires db.Valid()
    modifies db`orders, db`nextOrderId, db`cartItems
    ensures db.Valid()
    ensures r.BadRequest? <==> ItemsOf(old(db.cartItems), sid) == []
    ensures r.InternalError? <==> ItemsOf(old(db.cartItems), sid) != []
                                  && failingWrite.Some? && failingWrite.value <= |ItemsOf(old(db.cartItems), sid)| + 1
    ensures r.Ok? || r.BadRequest? || r.InternalError?
    ensures !r.Ok? ==> && db.orders == old(db.orders) && db.nextOrderId == old(db.nextOrderId)
                       && db.cartItems == old(db.cartItems)
    ensures r.Ok? ==>
      var items := ItemsOf(old(db.cartItems), sid);
      && r.value.orders == CheckoutOrders(items, userId, db.products, old(db.nextOrderId), now)
      && r.value.orderCount == |items|
      && r.value.totalAmount == Orders.TotalPriceSum(r.value.orders) == CartTotal(items, db.products)
      && db.orders == old(db.orders) + r.value.orders
      && db.nextOrderId == old(db.nextOrderId) + |items|
      && db.cartItems == OtherSessions(old(db.cartItems), sid)
  {
    if ItemsOf(db.cartItems, sid) == [] {
      return BadRequest;
    }
    r := PlaceOrders(db, sid, userId, now, failingWrite);
  }

  /** The transaction of a checkout over a non-empty cart: all of its writes, or none. */
  method PlaceOrders(db: Db, sid: string, userId: Option<nat>, now: int, failingWrite: Option<nat>)
    returns (r: Response<Receipt>)
    requires db.Valid() && ItemsOf(db.cartItems, sid) != []
    modifies db`orders, db`nextOrderId, db`cartItems
    ensures db.Valid()
    ensures r.Ok? || r.InternalError?
    ensures r.InternalError? <==> failingWrite.Some? && failingWrite.value <= |ItemsOf(old(db.cartItems), sid)| + 1
    ensures r.InternalError? ==> && db.orders == old(db.orders) && db.nextOrderId == old(db.nextOrderId)
                                 && db.cartItems == old(db.cartItems)
    ensures r.Ok? ==>
      var items := ItemsOf(old(db.cartItems), sid);
      && r.value.orders == CheckoutOrders(items, userId, db.products, old(db.nextOrderId), now)
      && r.value.orderCount == |items|
      && r.value.totalAmount == Orders.TotalPriceSum(r.value.orders) == CartTotal(items, db.products)
      && db.orders == old(db.orders) + r.value.orders
      && db.nextOrderId == old(db.nextOrderId) + |items|
      && db.cartItems == OtherSessions(old(db.cartItems), sid)
  {
    var items := ItemsOf(db.cartItems, sid);
    var created, total, failed := BuildOrders(items, userId, db.products, db.nextOrderId, now, failingWrite);
    if failed || failingWrite == Some(|items|) || failingWrite == Some(|items| + 1) {
      return InternalError;
    }
    assert !(failingWrite.Some? && failingWrite.value <= |items| + 1);
    Commit(db, sid, created);
    return Ok(Receipt(created, total, |created|));
  }

  /** The committed writes of a checkout: the new orders are stored and the session's lines deleted. */
  method Commit(db: Db, sid: string, created: seq<Order>)
    requires db.Valid()
    requires forall i :: 0 <= i < |created| ==> created[i].id == db.nextOrderId + i
    modifies db`orders, db`nextOrderId, db`cartItems
    ensures db.Valid()
    ensures db.orders == old(db.orders) + created
    ensures db.nextOrderId == old(db.nextOrderId) + |created|
    ensures db.cartItems == OtherSessions(old(db.cartItems), sid)
  {
    CheckoutValid(db.cartItems, db.nextCartItemId, db.orders, db.nextOrderId, sid, created);
    db.orders, db.nextOrderId, db.cartItems := db.orders + created, db.nextOrderId + |created|, OtherSessions(db.cartItems, sid);
  }

  /** A committed checkout keeps every rule of the store and leaves the session without lines. */
  lemma CheckoutValid(cart: seq<CartItem>, nextLine: nat, orders: seq<Order>, nextOrder: nat, sid: string,
                      created: seq<Order>)
    requires CartValid(cart, nextLine) && OrdersValid(orders, nextOrder)
    requires forall i :: 0 <= i < |created| ==> created[i].id == nextOrder + i
    ensures CartValid(OtherSessions(cart, sid), nextLine)
    ensures OrdersValid(orders + created, nextOrder + |created|)
  {
    Orders.AppendOrders(orders, nextOrder, created);
    OtherSessionsValid(cart, nextLine, sid);
  }
}
