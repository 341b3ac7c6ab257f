/**
 * How the client and the server fit together along the order pipeline: the
 * amount charged for a cart and the total the client submits for it, the
 * totals the server stores, the page shown after a successful checkout, the
 * listing parameters as the server binds them, and what a status change
 * from the order summary does to the stored order.
 */
module Pipeline {
  import opened Wrappers
  import opened Strings
  import opened Seqs
  import opened Data
  import opened OrderStatuses
  import opened OrderController
  import opened PaymentController
  import opened PaymentForm
  import opened OrderApi
  import OrderSummary

  // ---------------------------------------------------------------- totals

  /** The cart as the client receives it from the server: every field present. */
  function ClientCart(items: seq<CartItem>): seq<CartItemModel> {
    seq(|items|, i requires 0 <= i < |items| =>
      CartItemModel(Some(MenuItemModel(Some(items[i].menuItem.id), Some(items[i].menuItem.name), Some(items[i].menuItem.price))),
                    Some(items[i].quantity)))
  }

  lemma {:induction false} ClientCartTotal(items: seq<CartItem>)
    ensures LinesTotal(ToDetails(ClientCart(items))) == CartTotal(items)
  {
    if items != [] {
      var init := items[..|items| - 1];
      ClientCartTotal(init);
      assert ToDetails(ClientCart(items))[..|items| - 1] == ToDetails(ClientCart(init));
    }
  }

  /**
   * For a cart whose menu items all have stored (non-zero) ids, the order
   * total the client submits is the very total the server charged for, and
   * one order line is sent per cart line.
   */
  lemma ChargedTotalIsSubmittedTotal(items: seq<CartItem>)
    requires forall i :: 0 <= i < |items| ==> items[i].menuItem.id != 0
    ensures Where(ClientCart(items), Kept) == ClientCart(items)
    ensures LinesTotal(ToDetails(Where(ClientCart(items), Kept))) == CartTotal(items)
    ensures |ToDetails(Where(ClientCart(items), Kept))| == |items|
  {
    var c := ClientCart(items);
    assert forall x :: x in c ==> Kept(x);
    WhereAll(c, Kept);
    ClientCartTotal(items);
  }

  /** The server's sum over the stored lines is the client's sum over the lines it sent. */
  lemma {:induction false} StoredLinesTotal(ds: seq<OrderDetailCreateDto>, id: int)
    ensures DetailsTotal(NewDetails(ds, id)) == LinesTotal(ds)
  {
    if ds != [] {
      StoredLinesTotal(ds[..|ds| - 1], id);
      assert NewDetails(ds, id)[..|ds| - 1] == NewDetails(ds[..|ds| - 1], id);
    }
  }

  /**
   * An order assembled by the client is stored with a total equal to the
   * sum over its stored lines, although the server only copies the total it
   * is given; and it is stored as Confirmed.
   */
  lemma ClientOrderStoredConsistently(dto: OrderHeaderCreateDto, id: int, now: string)
    requires dto.orderTotal == LinesTotal(dto.orderDetailsDto)
    requires dto.status == "Confirmed"
    ensures NewHeader(dto, id, now).orderTotal == DetailsTotal(NewDetails(dto.orderDetailsDto, id))
    ensures NewHeader(dto, id, now).status == Name(Confirmed)
  {
    StoredLinesTotal(dto.orderDetailsDto, id);
  }

  // ---------------------------------------------------------------- checkout result

  /** What the page reads from the server's 201 answer. */
  function ClientView(resp: ActionResult<CreatedOrder>): OrderResponse {
    OrderResponse(resp.body.isSuccess,
      if resp.body.result.Some? then Some(OrderResult(resp.body.result.value.header.orderHeaderId, resp.body.result.value.header.status)) else None,
      resp.body.errorMessages)
  }

  /** A client order the server creates leads to the confirmation page of the new order's id. */
  lemma CheckoutLandsOnConfirmation(dto: OrderHeaderCreateDto, id: int, now: string)
    requires dto.status == "Confirmed"
    ensures var resp := ActionResult(StatusCreated, ApiResponse(StatusCreated, true, [], Some(CreatedOrder(NewHeader(dto, id, now), None))));
            AfterCreate(Resolved(ClientView(resp))) == Navigate("/order/orderConfirmed/" + IntToString(id))
  {
  }

  // ---------------------------------------------------------------- listing

  function OrEmptyParam(v: Option<string>): string { if v.Some? then v.value else "" }

  function ParseParam(v: Option<string>): Option<int> { if v.Some? then Some(ParseInt(v.value)) else None }

  /** How the server binds the query string of the listing request (a missing text parameter is null). */
  function BindParams(params: seq<Param>): OrderQuery {
    BindQuery(OrEmptyParam(Lookup(params, "userId")), OrEmptyParam(Lookup(params, "searchString")),
              OrEmptyParam(Lookup(params, "status")),
              ParseParam(Lookup(params, "pageNumber")), ParseParam(Lookup(params, "pageSize")))
  }

  /**
   * The server sees exactly the client's filters and paging, except that a
   * page number or page size of 0 is not sent and becomes the server's
   * default (page 1, size 5).
   */
  lemma ListingQueryRoundTrip(args: ListArgs)
    ensures BindParams(GetAllOrdersParams(args)) ==
              OrderQuery(args.userId, args.searchString, args.status,
                         if args.pageNumber != 0 then args.pageNumber else 1,
                         if args.pageSize != 0 then args.pageSize else 5)
  {
    GetAllOrdersParamsSpec(args);
    ParseIntToString(args.pageNumber);
    ParseIntToString(args.pageSize);
  }

  // ---------------------------------------------------------------- status changes

  /** The server's binding of the summary's update body: the absent payment-intent field is null. */
  function BindUpdate(r: UpdateRequest): OrderHeaderUpdateDto {
    OrderHeaderUpdateDto(r.orderHeaderId, r.pickupName, r.pickupPhoneNumber, r.pickupEmail, "", r.status)
  }

  /**
   * A status change sent from the order summary stores the new status, and
   * any status is stored, even one the summary would never offer (a
   * delivered order cancelled); as the body carries no payment-intent id,
   * the stored one is erased.
   */
  lemma SummaryUpdateStored(h: OrderHeader, orderId: int, target: Status, input: OrderSummary.PickupInput)
    ensures var stored := ApplyUpdate(h, BindUpdate(OrderSummary.Request(orderId, target, input)));
            && stored.status == Name(target)
            && stored.stripePaymentIntentId == ""
            && stored.orderHeaderId == h.orderHeaderId && stored.orderTotal == h.orderTotal
            && stored.pickupName == input.name
    ensures h.status == Name(Delivered) ==>
              ApplyUpdate(h, BindUpdate(OrderSummary.Request(orderId, Cancelled, input))).status == "Cancelled"
  {
  }
}
