/**
 * The persisted entities and the database context. Each table of the
 * context is a sequence of rows; a row's generated id is drawn from a
 * counter, so ids are positive, distinct and below the counter. Shopping
 * carts are keyed by their owner's user id.
 */
module Data {
  import opened Wrappers

  const StatusDefault: int := 0
  const StatusOk: int := 200
  const StatusCreated: int := 201
  const StatusNoContent: int := 204
  const StatusBadRequest: int := 400
  const StatusNotFound: int := 404
  const StatusInternalServerError: int := 500

  datatype MenuItem = MenuItem(
    id: int,
    name: string,
    description: string,
    specialTag: string,
    category: string,
    price: real,
    image: string,      // "" when no image was ever uploaded
    imageSrc: string)   // not stored; filled in by the read endpoints

  datatype OrderHeader = OrderHeader(
    orderHeaderId: int,
    applicationUserId: string,
    pickupName: string,
    pickupPhoneNumber: string,
    pickupEmail: string,
    orderTotal: real,
    orderDate: string,
    stripePaymentIntentId: string,
    totalItems: int,
    status: string)

  datatype OrderDetail = OrderDetail(
    orderHeaderId: int,
    itemName: string,
    menuItemId: int,
    price: real,
    quantity: int)

  /** A cart line, with its menu item loaded alongside it. */
  datatype CartItem = CartItem(menuItem: MenuItem, quantity: int)

  datatype ShoppingCart = ShoppingCart(
    userId: string,
    cartItems: seq<CartItem>,
    cartTotal: real,
    stripePaymentIntentId: string,   // "" when no intent was created yet
    clientSecret: string)

  /** The response envelope every endpoint returns. */
  datatype ApiResponse<T> = ApiResponse(statusCode: int, isSuccess: bool, errorMessages: seq<string>, result: Option<T>)

  /** The HTTP status actually sent, with the envelope as body. */
  datatype ActionResult<T> = ActionResult(http: int, body: ApiResponse<T>)

  predicate MenuIdsValid(items: seq<MenuItem>, next: int) {
    && next > 0
    && (forall i :: 0 <= i < |items| ==> 0 < items[i].id < next)
    && (forall i, j :: 0 <= i < j < |items| ==> items[i].id != items[j].id)
  }

  predicate HeaderIdsValid(headers: seq<OrderHeader>, next: int) {
    && next > 0
    && (forall i :: 0 <= i < |headers| ==> 0 < headers[i].orderHeaderId < next)
    && (forall i, j :: 0 <= i < j < |headers| ==> headers[i].orderHeaderId != headers[j].orderHeaderId)
  }

  function MenuItemIds(items: seq<MenuItem>): set<int> {
    set m | m in items :: m.id
  }

  class AppDb {
    var users: set<string>
    var menuItems: seq<MenuItem>
    var nextMenuItemId: int
    var orderHeaders: seq<OrderHeader>
    var nextOrderHeaderId: int
    var orderDetails: seq<OrderDetail>
    var shoppingCarts: map<string, ShoppingCart>

    ghost predicate Valid()
      reads this
    {
      MenuIdsValid(menuItems, nextMenuItemId) && HeaderIdsValid(orderHeaders, nextOrderHeaderId)
    }

    constructor (users: set<string>)
      ensures Valid()
      ensures this.users == users && menuItems == [] && orderHeaders == [] && orderDetails == []
      ensures shoppingCarts == map[]
    {
      this.users := users;
      menuItems, orderHeaders, orderDetails := [], [], [];
      nextMenuItemId, nextOrderHeaderId := 1, 1;
      shoppingCarts := map[];
    }
  }
}
