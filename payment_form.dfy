/**
 * The client's payment form: folding the cart into order lines and totals,
 * the order it submits after a payment succeeds, the decision taken on the
 * payment provider's answers, and where the page goes after the order is
 * created. The provider is abstracted as the answers it gives.
 */
module PaymentForm {
  import opened Wrappers
  import opened Strings
  import opened Seqs
  import opened OrderStatuses
  import opened OrderController

  /** A cart line as the client holds it: any field may be missing. */
  datatype MenuItemModel = MenuItemModel(id: Option<int>, name: Option<string>, price: Option<real>)
  datatype CartItemModel = CartItemModel(menuItem: Option<MenuItemModel>, quantity: Option<int>)

  /** `x || 0`, `x || ''`: a missing value counts as the default. */
  function OrZero(x: Option<int>): int { if x.Some? then x.value else 0 }
  function OrZeroReal(x: Option<real>): real { if x.Some? then x.value else 0.0 }
  function OrEmpty(x: Option<string>): string { if x.Some? then x.value else "" }

  /** `item.menuItem?.id` is truthy: the item has a menu item with a non-zero id. */
  predicate Kept(item: CartItemModel) {
    item.menuItem.Some? && item.menuItem.value.id.Some? && item.menuItem.value.id.value != 0
  }

  function ToDetail(item: CartItemModel): OrderDetailCreateDto {
    var m := if item.menuItem.Some? then item.menuItem.value else MenuItemModel(None, None, None);
    OrderDetailCreateDto(OrZero(m.id), OrEmpty(m.name), OrZeroReal(m.price), OrZero(item.quantity))
  }

  function ToDetails(items: seq<CartItemModel>): seq<OrderDetailCreateDto> {
    seq(|items|, i requires 0 <= i < |items| => ToDetail(items[i]))
  }

  /** Sum of quantity times price over order lines. */
  function LinesTotal(ds: seq<OrderDetailCreateDto>): real {
    if ds == [] then 0.0 else LinesTotal(ds[..|ds| - 1]) + ds[|ds| - 1].quantity as real * ds[|ds| - 1].price
  }

  /** Sum of the quantities of order lines. */
  function LinesQuantity(ds: seq<OrderDetailCreateDto>): int {
    if ds == [] then 0 else LinesQuantity(ds[..|ds| - 1]) + ds[|ds| - 1].quantity
  }

  /** The lines of the kept items, built item by item as the loop does. */
  function KeptDetails(items: seq<CartItemModel>): seq<OrderDetailCreateDto> {
    if items == [] then []
    else KeptDetails(items[..|items| - 1]) + (if Kept(items[|items| - 1]) then [ToDetail(items[|items| - 1])] else [])
  }

  /** Item by item or all at once: the lines are those of the kept items, in cart order. */
  lemma {:induction false} KeptDetailsIsWhere(items: seq<CartItemModel>)
    ensures KeptDetails(items) == ToDetails(Where(items, Kept))
  {
    if items != [] {
      var n := |items| - 1;
      KeptDetailsIsWhere(items[..n]);
      assert items == items[..n] + [items[n]];
      WhereAppend(items[..n], [items[n]], Kept);
      assert [items[n]][1..] == [];
    }
  }

  /**
   * `createOrderDetails`: one line per cart item that has a menu-item id, in
   * cart order, with missing fields defaulted; the grand total and the item
   * count are the sums over exactly those lines.
   */
  method CreateOrderDetails(cartItems: seq<CartItemModel>)
    returns (grandTotal: real, totalItems: int, orderDetailsDto: seq<OrderDetailCreateDto>)
    ensures orderDetailsDto == ToDetails(Where(cartItems, Kept))
    ensures grandTotal == LinesTotal(orderDetailsDto)
    ensures totalItems == LinesQuantity(orderDetailsDto)
  {
    grandTotal, totalItems, orderDetailsDto := 0.0, 0, [];
    for i := 0 to |cartItems|
      invariant orderDetailsDto == KeptDetails(cartItems[..i])
      invariant grandTotal == LinesTotal(orderDetailsDto)
      invariant totalItems == LinesQuantity(orderDetailsDto)
    {
      var item := cartItems[i];
      assert cartItems[..i + 1][..i] == cartItems[..i];
      if Kept(item) {
        var tempOrderDetail := OrderDetailCreateDto(item.menuItem.value.id.value, OrEmpty(item.menuItem.value.name),
                                                    OrZeroReal(item.menuItem.value.price), OrZero(item.quantity));
        LinesSnoc(orderDetailsDto, tempOrderDetail);
        orderDetailsDto := orderDetailsDto + [tempOrderDetail];
        grandTotal := grandTotal + OrZero(item.quantity) as real * OrZeroReal(item.menuItem.value.price);
        totalItems := totalItems + OrZero(item.quantity);
      }
    }
    assert cartItems[..|cartItems|] == cartItems;
    KeptDetailsIsWhere(cartItems);
  }

  lemma LinesSnoc(ds: seq<OrderDetailCreateDto>, d: OrderDetailCreateDto)
    ensures LinesTotal(ds + [d]) == LinesTotal(ds) + d.quantity as real * d.price
    ensures LinesQuantity(ds + [d]) == LinesQuantity(ds) + d.quantity
  {
    assert (ds + [d])[..|ds|] == ds;
  }

  /** Every line names a real menu item, and dropping the unusable items leaves the other lines in order. */
  lemma {:induction false} ToDetailsOfKept(items: seq<CartItemModel>)
    ensures forall d :: d in ToDetails(Where(items, Kept)) ==> d.menuItemId != 0
    ensures (forall x :: x in items ==> Kept(x)) ==> |ToDetails(Where(items, Kept))| == |items|
  {
    forall d | d in ToDetails(Where(items, Kept))
      ensures d.menuItemId != 0
    {
      var w := Where(items, Kept);
      var i :| 0 <= i < |w| && ToDetails(w)[i] == d;
      WhereMember(items, Kept, w[i]);
    }
    if forall x :: x in items ==> Kept(x) {
      WhereAll(items, Kept);
    }
  }

  /** The totals of two batches of lines add up. */
  lemma {:induction false} LinesAppend(a: seq<OrderDetailCreateDto>, b: seq<OrderDetailCreateDto>)
    ensures LinesTotal(a + b) == LinesTotal(a) + LinesTotal(b)
    ensures LinesQuantity(a + b) == LinesQuantity(a) + LinesQuantity(b)
  {
    if b == [] {
      assert a + b == a;
    } else {
      LinesAppend(a, b[..|b| - 1]);
      assert (a + b)[..|a + b| - 1] == a + b[..|b| - 1];
    }
  }

  /** The fields typed in on the checkout page. */
  datatype UserInput = UserInput(name: string, phoneNumber: string, email: string)

  /**
   * `handleSuccessfulPayment`'s order: the folded lines and totals, the
   * buyer's contact fields and user id, the succeeded intent's id, and
   * status Confirmed.
   */
  method OrderPayload(cartItems: seq<CartItemModel>, userId: string, input: UserInput, intentId: string)
    returns (orderData: OrderHeaderCreateDto)
    ensures orderData.status == "Confirmed" && orderData.stripePaymentIntentId == intentId
    ensures orderData.applicationUserId == userId
    ensures orderData.pickupName == input.name && orderData.pickupPhoneNumber == input.phoneNumber
    ensures orderData.pickupEmail == input.email
    ensures orderData.orderDetailsDto == ToDetails(Where(cartItems, Kept))
    ensures orderData.orderTotal == LinesTotal(orderData.orderDetailsDto)
    ensures orderData.totalItems == LinesQuantity(orderData.orderDetailsDto)
  {
    var grandTotal, totalItems, orderDetailsDto := CreateOrderDetails(cartItems);
    orderData := OrderHeaderCreateDto(userId, input.name, input.phoneNumber, input.email, grandTotal, totalItems,
                                      intentId, Name(Confirmed), orderDetailsDto);
  }

  // ---------------------------------------------------------------- submit

  /** What retrieving the intent gave: its status, if any, or an exception. */
  datatype Retrieved = RetrievedIntent(status: Option<string>) | RetrieveThrows

  /** What confirming the payment gave. */
  datatype Confirmation =
    | ConfirmError(message: string)              // "" when the error has no message
    | ConfirmedIntent(intentId: string, status: string)
    | NoIntent                                   // neither an error nor an intent
    | ConfirmThrows

  datatype SubmitOutcome =
    | NotInitialized     // toast "Stripe has not been initialized"
    | AlreadyPaid        // toast "Payment has already been completed."
    | PaymentFailed(message: string)
    | AwaitingAction     // the intent requires further action
    | PlaceOrder(intentId: string)
    | UnexpectedState    // toast "Unexpected payment state. Please try again."
    | Idle               // nothing to report
    | ProcessingError    // toast "An unexpected error occurred during payment processing"

  const Succeeded: string := "succeeded"

  /** `handleSubmit`'s decision. */
  function Submit(ready: bool, retrieved: Retrieved, confirmation: Confirmation): SubmitOutcome {
    if !ready then NotInitialized
    else if retrieved.RetrieveThrows? then ProcessingError
    else if retrieved.status == Some(Succeeded) then AlreadyPaid
    else match confirmation
      case ConfirmThrows => ProcessingError
      case ConfirmError(message) => PaymentFailed(if message != "" then message else "An unexpected error occurred.")
      case NoIntent => Idle
      case ConfirmedIntent(id, status) =>
        if status == "requires_action" then AwaitingAction
        else if status == Succeeded then PlaceOrder(id)
        else UnexpectedState
  }

  /**
   * An order is placed exactly when the form is ready, the intent was not
   * already paid, and confirming returned an intent with status
   * "succeeded" - and then for that intent's id.
   */
  lemma SubmitPlacesOrderIff(ready: bool, retrieved: Retrieved, confirmation: Confirmation)
    ensures Submit(ready, retrieved, confirmation).PlaceOrder? <==>
              && ready && retrieved.RetrievedIntent? && retrieved.status != Some("succeeded")
              && confirmation.ConfirmedIntent? && confirmation.status == "succeeded"
    ensures Submit(ready, retrieved, confirmation).PlaceOrder? ==>
              Submit(ready, retrieved, confirmation).intentId == confirmation.intentId
    ensures ready && retrieved == RetrievedIntent(Some("succeeded")) ==>
              Submit(ready, retrieved, confirmation) == AlreadyPaid
  {
  }

  // ---------------------------------------------------------------- after creation

  /** The part of the create-order answer the page reads. */
  datatype OrderResult = OrderResult(orderHeaderId: int, status: string)
  datatype OrderResponse = OrderResponse(isSuccess: bool, result: Option<OrderResult>, errorMessages: seq<string>)

  datatype UiAction = Navigate(path: string) | Toast(message: string)

  const ConfirmedPath: string := "/order/orderConfirmed/"

  /** `handleOrderResponse`. */
  function HandleOrderResponse(response: OrderResponse): UiAction {
    if response.isSuccess && response.result.Some? then
      if response.result.value.status == Name(Confirmed) then Navigate(ConfirmedPath + IntToString(response.result.value.orderHeaderId))
      else Navigate("/failed")
    else Toast("Failed to create order")
  }

  /**
   * A successful answer for a Confirmed order leads to that order's
   * confirmation page, from whose path the order id reads back; a
   * successful answer in any other status leads to the failure page; an
   * unsuccessful or empty answer only shows a message.
   */
  lemma HandleOrderResponseSpec(response: OrderResponse)
    ensures var a := HandleOrderResponse(response);
            && (a.Navigate? <==> response.isSuccess && response.result.Some?)
            && (a.Navigate? && a.path != "/failed" <==> response.isSuccess && response.result.Some? && response.result.value.status == "Confirmed")
            && (a.Navigate? && a.path != "/failed" ==>
                  && a.path[..|ConfirmedPath|] == "/order/orderConfirmed/"
                  && ParseInt(a.path[|ConfirmedPath|..]) == response.result.value.orderHeaderId)
  {
    var a := HandleOrderResponse(response);
    if response.isSuccess && response.result.Some? && response.result.value.status == "Confirmed" {
      assert a.path[|ConfirmedPath|..] == IntToString(response.result.value.orderHeaderId);
      ParseIntToString(response.result.value.orderHeaderId);
    }
  }

  /** How `createOrder(...).unwrap()` ended. */
  datatype CreateReply = Resolved(response: OrderResponse) | Thrown

  /** `handleSuccessfulPayment` after the order request: route, or report the failure. */
  function AfterCreate(reply: CreateReply): UiAction {
    match reply
    case Thrown => Toast("Failed to create order. Please try again.")
    case Resolved(response) =>
      if response.isSuccess then HandleOrderResponse(response)
      else
        var joined := Join(", ", response.errorMessages);
        Toast("Failed to create order: " + (if joined != "" then joined else "Unknown error"))
  }

  /** Only a resolved, successful answer can leave the page; every failure is reported with a message. */
  lemma AfterCreateSpec(reply: CreateReply)
    ensures AfterCreate(reply).Navigate? ==> reply.Resolved? && reply.response.isSuccess && reply.response.result.Some?
    ensures AfterCreate(reply).Toast? ==> |AfterCreate(reply).message| > 0
  {
  }
}
