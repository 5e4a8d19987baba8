/**
 * The records the order-management backend keeps in its database (the gorm
 * models), as Dafny values, together with the HTTP outcome of a handler.
 * Only the columns the handlers read or write are kept; timestamps other than
 * an order's `created_at` are left out.
 */
module Models {

  datatype Option<+T> = None | Some(value: T)

  /** A menu item. `userId` is the owner (the staff account that registered it). */
  datatype Product = Product(id: nat, name: string, price: int, imagePath: string, userId: nat)

  /** A staff account; only the id and the unique user name matter here. */
  datatype User = User(id: nat, username: string)

  /** One line of a guest cart: a product and a quantity, for one cart session. */
  datatype CartItem = CartItem(id: nat, sessionId: string, productId: nat, quantity: int)

  /** The closed set of order states ("pending", "completed", "cancelled"). */
  datatype OrderStatus = Pending | Completed | Cancelled

  /**
   * An order. `userId` is None for a guest order; `tableId` is None when the
   * order is not attached to a table. `createdAt` is a timestamp.
   */
  datatype Order = Order(
    id: nat,
    userId: Option<nat>,
    productId: nat,
    quantity: int,
    totalPrice: int,
    status: OrderStatus,
    createdAt: int,
    tableId: Option<nat>)

  /** A seat. `status` is free text; the handlers write "active" and "inactive". */
  datatype Table = Table(id: nat, tableNumber: int, capacity: int, status: string)

  /** A published HTML page; `name` is unique over the whole store. */
  datatype HtmlPage = HtmlPage(id: nat, name: string, content: string, userId: nat)

  /** The wire name of an order status. */
  function StatusName(s: OrderStatus): string
  {
    match s
    case Pending => "pending"
    case Completed => "completed"
    case Cancelled => "cancelled"
  }

  /** The HTTP outcome of a handler: a payload on 200, or the error status it answers. */
  datatype Response<+T> =
    | Ok(value: T)
    | BadRequest
    | Unauthorized
    | Forbidden
    | NotFound
    | Conflict
    | InternalError

  /** The first product with this primary key (gorm `First(&product, id)`). */
  function FindProduct(products: seq<Product>, id: nat): (r: Option<Product>)
    ensures r.Some? ==> r.value in products && r.value.id == id
    ensures r.None? <==> forall i :: 0 <= i < |products| ==> products[i].id != id
  {
    if products == [] then None
    else if products[0].id == id then Some(products[0])
    else FindProduct(products[1..], id)
  }
}
