/**
 * The admin's order-summary view: the next-status rule, the two button
 * guards, and the two handlers that send an update and adopt the new status
 * only when the server reports success. The server itself checks no
 * transition; this rule is the only place the pipeline exists.
 */
module OrderSummary {
  import opened Wrappers
  import opened OrderStatuses
  import opened StatusColor
  import opened OrderApi

  /** The advance button: its colour and the status it moves to. */
  datatype NextStep = NextStep(color: string, value: Status)

  function NextStatus(current: Status): Option<NextStep> {
    match current
    case Confirmed => Some(NextStep("info", Packed))
    case Packed => Some(NextStep("warning", OutForDelivery))
    case OutForDelivery => Some(NextStep("success", Delivered))
    case _ => None
  }

  /** Position in declaration order: Pending, Confirmed, Packed, Out for Delivery, Delivered, Cancelled. */
  function Rank(s: Status): nat {
    match s
    case Pending => 0
    case Confirmed => 1
    case Packed => 2
    case OutForDelivery => 3
    case Delivered => 4
    case Cancelled => 5
  }

  /**
   * Only Confirmed, Packed and Out for Delivery have a next status; it is
   * the one right after, never Cancelled, and the button's colour is the
   * badge colour of the status it leads to.
   */
  lemma NextStatusSpec(s: Status)
    ensures NextStatus(s).Some? <==> s == Confirmed || s == Packed || s == OutForDelivery
    ensures NextStatus(s).Some? ==>
              var n := NextStatus(s).value;
              && Rank(n.value) == Rank(s) + 1
              && n.value != Cancelled && n.value != Pending
              && GetStatusColor(Name(n.value)) == Some(n.color)
  {
  }

  /** The status reached by pressing the advance button `n` times, if every press is offered. */
  function Advance(s: Status, n: nat): Option<Status>
    decreases n
  {
    if n == 0 then Some(s)
    else match NextStatus(s)
      case None => None
      case Some(step) => Advance(step.value, n - 1)
  }

  /** Every press moves exactly one place forward, so no status is ever reached again. */
  lemma {:induction false} AdvanceRank(s: Status, n: nat)
    decreases n
    ensures Advance(s, n).Some? ==> Rank(Advance(s, n).value) == Rank(s) + n
  {
    if n > 0 && NextStatus(s).Some? {
      AdvanceRank(NextStatus(s).value.value, n - 1);
    }
  }

  lemma Acyclic(s: Status, n: nat)
    requires n > 0
    ensures Advance(s, n) != Some(s)
  {
    AdvanceRank(s, n);
  }

  /** From Confirmed, three presses reach Delivered, and no chain of presses is longer than three. */
  lemma {:induction false} ConfirmedToDelivered(s: Status, n: nat)
    ensures Advance(Confirmed, 3) == Some(Delivered)
    ensures Advance(s, n).Some? ==> n <= 3
  {
    assert Advance(Delivered, 0) == Some(Delivered);
    if n > 0 && NextStatus(s).Some? {
      var t := NextStatus(s).value.value;
      AdvanceRank(t, n - 1);
      AdvanceNeverCancels(t, n - 1);
    }
  }

  lemma {:induction false} AdvanceNeverCancels(s: Status, n: nat)
    requires s != Cancelled
    decreases n
    ensures Advance(s, n) != Some(Cancelled)
  {
    if n > 0 && NextStatus(s).Some? {
      AdvanceNeverCancels(NextStatus(s).value.value, n - 1);
    }
  }

  /** The cancel button: admins only, and only while the order is neither cancelled nor delivered. */
  predicate CancelShown(role: string, status: Status) {
    role == AdminRole && status != Cancelled && status != Delivered
  }

  /** The advance button: admins only, and only when a next status exists. */
  predicate AdvanceShown(role: string, status: Status) {
    role == AdminRole && NextStatus(status).Some?
  }

  /**
   * Cancel is offered exactly to admins on a non-terminal order; wherever
   * advance is offered cancel is too; a pending order can be cancelled but
   * not advanced; customers see neither.
   */
  lemma ButtonGuards(role: string, status: Status)
    ensures CancelShown(role, status) <==> role == "admin" && !IsTerminal(status)
    ensures AdvanceShown(role, status) ==> CancelShown(role, status)
    ensures CancelShown(role, status) && !AdvanceShown(role, status) <==> role == "admin" && status == Pending
    ensures role == CustomerRole ==> !CancelShown(role, status) && !AdvanceShown(role, status)
  {
  }

  /** The contact fields typed in on the page. */
  datatype PickupInput = PickupInput(name: string, phoneNumber: string, email: string)

  /** How the awaited update ended: an answer with its success flag, an empty answer, or a rejected request. */
  datatype UpdateReply = Answered(isSuccess: bool) | EmptyAnswer | Rejected

  predicate Succeeded(reply: UpdateReply) {
    reply.Answered? && reply.isSuccess
  }

  function Request(orderId: int, status: Status, input: PickupInput): UpdateRequest {
    UpdateRequest(orderId, Name(status), input.name, input.phoneNumber, input.email)
  }

  class OrderSummaryView {
    var orderStatus: Status
    var loading: bool
    const orderId: int
    const userInput: PickupInput

    constructor (orderId: int, status: Status, userInput: PickupInput)
      ensures this.orderId == orderId && this.userInput == userInput
      ensures orderStatus == status && !loading
    {
      this.orderId := orderId;
      this.userInput := userInput;
      orderStatus := status;
      loading := false;
    }

    /**
     * With no next status nothing is sent and nothing changes. Otherwise the
     * update for the next status is sent; the view adopts it only on a
     * successful answer and stops loading in every case.
     */
    method HandleNextStatus(reply: UpdateReply) returns (sent: Option<UpdateRequest>)
      modifies this
      ensures NextStatus(old(orderStatus)).None? ==>
                sent.None? && orderStatus == old(orderStatus) && loading == old(loading)
      ensures NextStatus(old(orderStatus)).Some? ==>
                var next := NextStatus(old(orderStatus)).value.value;
                && sent == Some(Request(orderId, next, userInput))
                && orderStatus == (if Succeeded(reply) then next else old(orderStatus))
                && !loading
    {
      var nextStatus := NextStatus(orderStatus);
      if nextStatus.None? {
        return None;
      }
      loading := true;
      sent := Some(Request(orderId, nextStatus.value.value, userInput));
      if Succeeded(reply) {
        orderStatus := nextStatus.value.value;
      }
      loading := false;
    }

    /** Sends the cancellation; the view shows Cancelled only after a successful answer. */
    method HandleCancel(reply: UpdateReply) returns (sent: UpdateRequest)
      modifies this
      ensures sent == Request(orderId, Cancelled, userInput)
      ensures orderStatus == (if Succeeded(reply) then Cancelled else old(orderStatus))
      ensures !loading
    {
      loading := true;
      sent := Request(orderId, Cancelled, userInput);
      if Succeeded(reply) {
        orderStatus := Cancelled;
      }
      loading := false;
    }
  }
}
