/**
 * The database the handlers share, held in memory: one sequence of rows per
 * table, in insertion order, and the next auto-increment id of each table
 * the handlers insert into. The uniqueness rules are the primary keys, the
 * `unique` and `uniqueIndex` tags of the models, and the one-line-per-product rule the
 * cart handlers keep.
 */
module Store {
  import opened Models

  /** Cart rows: keys below the next id, quantity at least 1, one line per (session, product). */
  ghost predicate CartValid(items: seq<CartItem>, next: nat) {
    && next >= 1
    && (forall i :: 0 <= i < |items| ==> LineOk(items[i], next))
    && UniqueLines(items)
  }

  ghost predicate UniqueLines(items: seq<CartItem>) {
    forall i, j :: 0 <= i < j < |items| ==> DistinctLines(items[i], items[j])
  }

  ghost predicate LineOk(x: CartItem, next: nat) {
    0 < x.id < next && x.quantity >= 1
  }

  /** Two cart rows have different keys and are not lines of the same (session, product). */
  ghost predicate DistinctLines(x: CartItem, y: CartItem) {
    x.id != y.id && (x.sessionId != y.sessionId || x.productId != y.productId)
  }

  ghost predicate OrdersValid(orders: seq<Order>, next: nat) {
    && next >= 1
    && (forall i :: 0 <= i < |orders| ==> 0 < orders[i].id < next)
    && (forall i, j :: 0 <= i < j < |orders| ==> orders[i].id != orders[j].id)
  }

  /** Table rows: unique keys and unique `table_number` (its `uniqueIndex`). */
  ghost predicate TablesValid(tables: seq<Table>, next: nat) {
    && next >= 1
    && (forall i :: 0 <= i < |tables| ==> 0 < tables[i].id < next)
    && (forall i, j :: 0 <= i < j < |tables| ==> tables[i].id != tables[j].id)
    && (forall i, j :: 0 <= i < j < |tables| ==> tables[i].tableNumber != tables[j].tableNumber)
  }

  /** Page rows: unique keys and a page `name` unique over all users (its `uniqueIndex`). */
  ghost predicate PagesValid(pages: seq<HtmlPage>, next: nat) {
    && next >= 1
    && (forall i :: 0 <= i < |pages| ==> 0 < pages[i].id < next)
    && (forall i, j :: 0 <= i < j < |pages| ==> pages[i].id != pages[j].id)
    && (forall i, j :: 0 <= i < j < |pages| ==> pages[i].name != pages[j].name)
  }

  /** Product rows: unique primary keys. */
  ghost predicate ProductsValid(products: seq<Product>) {
    forall i, j :: 0 <= i < j < |products| ==> products[i].id != products[j].id
  }

  /** Account rows: unique primary keys and a unique `username` (its `unique` tag). */
  ghost predicate UsersValid(users: seq<User>) {
    && (forall i, j :: 0 <= i < j < |users| ==> users[i].id != users[j].id)
    && (forall i, j :: 0 <= i < j < |users| ==> users[i].username != users[j].username)
  }

  /** With unique keys, looking a product up by its own key finds that very row. */
  lemma {:induction false} ProductLookup(products: seq<Product>, k: nat)
    requires ProductsValid(products) && k < |products|
    ensures FindProduct(products, products[k].id) == Some(products[k])
  {
    if k > 0 {
      assert products[0].id != products[k].id;
      assert products[1..][k - 1] == products[k];
      ProductLookup(products[1..], k - 1);
    }
  }

  class Db {
    var products: seq<Product>
    var users: seq<User>
    var cartItems: seq<CartItem>
    var nextCartItemId: nat
    var orders: seq<Order>
    var nextOrderId: nat
    var tables: seq<Table>
    var nextTableId: nat
    var pages: seq<HtmlPage>
    var nextPageId: nat

    ghost predicate Valid()
      reads this
    {
      && ProductsValid(products)
      && UsersValid(users)
      && CartValid(cartItems, nextCartItemId)
      && OrdersValid(orders, nextOrderId)
      && TablesValid(tables, nextTableId)
      && PagesValid(pages, nextPageId)
    }

    /** A store with the given menu and accounts and no carts, orders, tables or pages. */
    constructor (products: seq<Product>, users: seq<User>)
      requires ProductsValid(products) && UsersValid(users)
      ensures Valid()
      ensures this.products == products && this.users == users
      ensures cartItems == [] && orders == [] && tables == [] && pages == []
    {
      this.products := products;
      this.users := users;
      cartItems, orders, tables, pages := [], [], [], [];
      nextCartItemId, nextOrderId, nextTableId, nextPageId := 1, 1, 1, 1;
    }
  }
}
