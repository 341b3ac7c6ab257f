/**
 * Payment-intent reconciliation for a user's cart: the empty-cart check, the
 * recomputed cart total, the create-or-update choice, and the retry loop of
 * three attempts with doubling back-off. The payment gateway is abstracted
 * as the outcome of each attempt, supplied by the caller.
 */
module PaymentController {
  import opened Wrappers
  import opened Data

  const MaxRetries: nat := 3
  const Currency: string := "usd"
  const PaymentMethodTypes: seq<string> := ["card"]
  const EmptyCartMessage: string := "Shopping cart is empty"

  /** A request sent to the payment gateway. */
  datatype GatewayCall =
    | CreateIntent(amount: int, currency: string, paymentMethodTypes: seq<string>)
    | RetrieveIntent(intentId: string)
    | UpdateIntent(intentId: string, amount: int)

  /**
   * What one attempt against the gateway gives. For an attempt that updates
   * an existing intent, `atRetrieve` says that the exception came from the
   * retrieve that precedes the update, so the update was never sent; it has
   * no effect on an attempt that creates an intent.
   */
  datatype AttemptOutcome =
    | IntentOk(intentId: string, clientSecret: string)
    | StripeError(message: string, atRetrieve: bool)   // the gateway's own exception: retried
    | OtherError(message: string, atRetrieve: bool)    // any other exception: not retried

  /** Sum of quantity times the menu item's current price. */
  function CartTotal(items: seq<CartItem>): real {
    if items == [] then 0.0
    else CartTotal(items[..|items| - 1]) + items[|items| - 1].quantity as real * items[|items| - 1].menuItem.price
  }

  /** A cast to `long`: truncation toward zero. */
  function TruncateToLong(x: real): int {
    if x >= 0.0 then x.Floor else -((-x).Floor)
  }

  function AmountInCents(total: real): int {
    TruncateToLong(total * 100.0)
  }

  /** For a non-negative total the amount is the total in cents, rounded down. */
  lemma AmountInCentsBounds(total: real)
    requires total >= 0.0
    ensures 0 <= AmountInCents(total)
    ensures AmountInCents(total) as real <= total * 100.0 < AmountInCents(total) as real + 1.0
    ensures AmountInCents(23.50) == 2350
  {
  }

  /**
   * The requests one attempt sends: a create when the cart holds no intent
   * id, otherwise a retrieve of that intent followed, unless the retrieve
   * threw, by an update of it.
   */
  function AttemptCalls(cart: ShoppingCart, outcome: AttemptOutcome): seq<GatewayCall> {
    var amount := AmountInCents(cart.cartTotal);
    var id := cart.stripePaymentIntentId;
    if id == "" then [CreateIntent(amount, Currency, PaymentMethodTypes)]
    else if !outcome.IntentOk? && outcome.atRetrieve then [RetrieveIntent(id)]
    else [RetrieveIntent(id), UpdateIntent(id, amount)]
  }

  /** The requests sent by the first `n` attempts, in order. */
  function CallsMade(cart: ShoppingCart, attempts: seq<AttemptOutcome>, n: nat): seq<GatewayCall>
    requires n <= |attempts|
  {
    if n == 0 then [] else CallsMade(cart, attempts, n - 1) + AttemptCalls(cart, attempts[n - 1])
  }

  function Repeat(call: GatewayCall, n: nat): seq<GatewayCall> {
    seq(n, _ => call)
  }

  /** Every request is about intent `id`, and every update comes right after a retrieve. */
  predicate RetrieveThenUpdate(calls: seq<GatewayCall>, id: string, amount: int) {
    forall k {:trigger calls[k]} :: 0 <= k < |calls| ==>
      calls[k] == RetrieveIntent(id) ||
      (calls[k] == UpdateIntent(id, amount) && k > 0 && calls[k - 1] == RetrieveIntent(id))
  }

  /** A cart without an intent sends one create per attempt. */
  lemma {:induction false} CallsMadeCreate(cart: ShoppingCart, attempts: seq<AttemptOutcome>, n: nat)
    requires n <= |attempts| && cart.stripePaymentIntentId == ""
    ensures CallsMade(cart, attempts, n) == Repeat(CreateIntent(AmountInCents(cart.cartTotal), Currency, PaymentMethodTypes), n)
  {
    if n > 0 {
      CallsMadeCreate(cart, attempts, n - 1);
    }
  }

  /**
   * A cart holding intent `id` sends one or two requests per attempt, all
   * about that intent: the first is a retrieve, and every update comes
   * right after a retrieve.
   */
  lemma {:induction false} CallsMadeUpdate(cart: ShoppingCart, attempts: seq<AttemptOutcome>, n: nat)
    requires n <= |attempts| && cart.stripePaymentIntentId != ""
    ensures var calls := CallsMade(cart, attempts, n);
            && n <= |calls| <= 2 * n
            && (n > 0 ==> calls[0] == RetrieveIntent(cart.stripePaymentIntentId))
            && RetrieveThenUpdate(calls, cart.stripePaymentIntentId, AmountInCents(cart.cartTotal))
  {
    if n > 0 {
      CallsMadeUpdate(cart, attempts, n - 1);
      RetrieveThenUpdateAppend(CallsMade(cart, attempts, n - 1), AttemptCalls(cart, attempts[n - 1]),
                               cart.stripePaymentIntentId, AmountInCents(cart.cartTotal));
    }
  }

  lemma RetrieveThenUpdateAppend(prev: seq<GatewayCall>, last: seq<GatewayCall>, id: string, amount: int)
    requires RetrieveThenUpdate(prev, id, amount)
    requires last == [RetrieveIntent(id)] || last == [RetrieveIntent(id), UpdateIntent(id, amount)]
    ensures RetrieveThenUpdate(prev + last, id, amount)
  {
    var calls := prev + last;
    forall k | 0 <= k < |calls|
      ensures calls[k] == RetrieveIntent(id) ||
              (calls[k] == UpdateIntent(id, amount) && k > 0 && calls[k - 1] == RetrieveIntent(id))
    {
      if k < |prev| {
        assert calls[k] == prev[k];
        if k > 0 {
          assert calls[k - 1] == prev[k - 1];
        }
      } else {
        assert calls[k] == last[k - |prev|];
        if k > |prev| {
          assert calls[k - 1] == last[0];
        }
      }
    }
  }

  function Pow2(i: nat): nat {
    if i == 0 then 1 else 2 * Pow2(i - 1)
  }

  /** The wait after failed attempt `i` (counted from 0), in milliseconds. */
  function Backoff(i: nat): int {
    1000 * Pow2(i)
  }

  datatype RetryRun = RetryRun(outcome: AttemptOutcome, attemptsUsed: nat, delays: seq<int>)

  /** The retry policy from attempt `i` on. */
  function RunAttempts(attempts: seq<AttemptOutcome>, i: nat): RetryRun
    requires i < MaxRetries == |attempts|
    decreases MaxRetries - i
  {
    match attempts[i]
    case StripeError(_, _) =>
      if i == MaxRetries - 1 then RetryRun(attempts[i], i + 1, [])
      else
        var rest := RunAttempts(attempts, i + 1);
        rest.(delays := [Backoff(i)] + rest.delays)
    case _ => RetryRun(attempts[i], i + 1, [])
  }

  /**
   * At most three attempts; every attempt before the last one made failed
   * with a gateway exception, and the last one made decides the outcome; a
   * gateway exception is final only on the third attempt; the waits are
   * 1000 * 2^k ms, one after each retried failure, none after the last.
   */
  lemma {:induction false} RunAttemptsSpec(attempts: seq<AttemptOutcome>, i: nat)
    requires i < MaxRetries == |attempts|
    decreases MaxRetries - i
    ensures var r := RunAttempts(attempts, i);
            && i < r.attemptsUsed <= MaxRetries
            && r.outcome == attempts[r.attemptsUsed - 1]
            && (forall k :: i <= k < r.attemptsUsed - 1 ==> attempts[k].StripeError?)
            && (r.outcome.StripeError? ==> r.attemptsUsed == MaxRetries)
            && |r.delays| == r.attemptsUsed - 1 - i
            && (forall k :: 0 <= k < |r.delays| ==> r.delays[k] == Backoff(i + k))
  {
    if attempts[i].StripeError? && i < MaxRetries - 1 {
      RunAttemptsSpec(attempts, i + 1);
      var rest := RunAttempts(attempts, i + 1);
      var r := RunAttempts(attempts, i);
      forall k | 0 <= k < |r.delays|
        ensures r.delays[k] == Backoff(i + k)
      {
        if k > 0 {
          assert r.delays[k] == rest.delays[k - 1];
        }
      }
    }
  }

  /** The first attempt that does not fail with a gateway exception is the last one made. */
  lemma {:induction false} RunAttemptsStopsAt(attempts: seq<AttemptOutcome>, i: nat, k: nat)
    requires i <= k < MaxRetries == |attempts|
    requires !attempts[k].StripeError?
    requires forall j :: i <= j < k ==> attempts[j].StripeError?
    decreases k - i
    ensures RunAttempts(attempts, i).attemptsUsed == k + 1
    ensures RunAttempts(attempts, i).outcome == attempts[k]
  {
    if i < k {
      RunAttemptsStopsAt(attempts, i + 1, k);
    }
  }

  /** The reconciliation succeeds exactly when some attempt succeeds after nothing but gateway exceptions. */
  lemma RunAttemptsSucceedsIff(attempts: seq<AttemptOutcome>)
    requires MaxRetries == |attempts|
    ensures RunAttempts(attempts, 0).outcome.IntentOk? <==>
              exists k :: 0 <= k < MaxRetries && attempts[k].IntentOk? && forall j :: 0 <= j < k ==> attempts[j].StripeError?
  {
    RunAttemptsSpec(attempts, 0);
    var r := RunAttempts(attempts, 0);
    if exists k :: 0 <= k < MaxRetries && attempts[k].IntentOk? && forall j :: 0 <= j < k ==> attempts[j].StripeError? {
      var k :| 0 <= k < MaxRetries && attempts[k].IntentOk? && forall j :: 0 <= j < k ==> attempts[j].StripeError?;
      RunAttemptsStopsAt(attempts, 0, k);
    }
  }

  /** Everything one call of the endpoint does, as a value. */
  datatype Reconciliation = Reconciliation(
    response: ActionResult<ShoppingCart>,
    saved: Option<ShoppingCart>,       // the cart written back, if any
    calls: seq<GatewayCall>,
    delays: seq<int>)

  function Failure(message: string): ActionResult<ShoppingCart> {
    ActionResult(StatusInternalServerError, ApiResponse(StatusInternalServerError, false, [message], None))
  }

  function Reconcile(cart: Option<ShoppingCart>, attempts: seq<AttemptOutcome>): Reconciliation
    requires |attempts| == MaxRetries
  {
    if cart.None? || cart.value.cartItems == [] then
      Reconciliation(ActionResult(StatusBadRequest, ApiResponse(StatusBadRequest, false, [EmptyCartMessage], None)), None, [], [])
    else
      var priced := cart.value.(cartTotal := CartTotal(cart.value.cartItems));
      var run := RunAttempts(attempts, 0);
      var calls := CallsMade(priced, attempts, run.attemptsUsed);
      match run.outcome
      case IntentOk(id, secret) =>
        var final := priced.(
          stripePaymentIntentId := if priced.stripePaymentIntentId == "" then id else priced.stripePaymentIntentId,
          clientSecret := secret);
        Reconciliation(ActionResult(StatusOk, ApiResponse(StatusOk, true, [], Some(final))), Some(final), calls, run.delays)
      case StripeError(message, _) => Reconciliation(Failure(message), None, calls, run.delays)
      case OtherError(message, _) => Reconciliation(Failure(message), None, calls, run.delays)
  }

  /** A missing or empty cart is refused before any gateway call, and nothing is saved. */
  lemma EmptyCartRejected(cart: Option<ShoppingCart>, attempts: seq<AttemptOutcome>)
    requires |attempts| == MaxRetries
    requires cart.None? || cart.value.cartItems == []
    ensures var r := Reconcile(cart, attempts);
            && r.response.http == StatusBadRequest && r.response.body.errorMessages == [EmptyCartMessage]
            && !r.response.body.isSuccess && r.calls == [] && r.saved.None?
  {
  }

  /**
   * For a non-empty cart: one to three attempts, each sending requests for
   * the recomputed total in cents. A cart without an intent gets one create
   * per attempt; a cart with one gets, per attempt, a retrieve of its own
   * intent and, unless that threw, an update of it, and a success ends with
   * that update. The cart is saved only on success,
   * with the recomputed total, the intent id (new on create, unchanged on
   * update) and the new client secret; any failure answers 500 with the
   * exception's message.
   */
  lemma ReconcileNonEmptyCart(cart: ShoppingCart, attempts: seq<AttemptOutcome>)
    requires |attempts| == MaxRetries && cart.cartItems != []
    ensures var r := Reconcile(Some(cart), attempts);
            var run := RunAttempts(attempts, 0);
            var amount := AmountInCents(CartTotal(cart.cartItems));
            var id := cart.stripePaymentIntentId;
            && 1 <= run.attemptsUsed <= MaxRetries
            && |r.delays| == run.attemptsUsed - 1
            && (id == "" ==> r.calls == Repeat(CreateIntent(amount, "usd", ["card"]), run.attemptsUsed))
            && (id != "" ==>
                  && run.attemptsUsed <= |r.calls| <= 2 * run.attemptsUsed
                  && r.calls[0] == RetrieveIntent(id)
                  && RetrieveThenUpdate(r.calls, id, amount)
                  && (r.saved.Some? ==> r.calls[|r.calls| - 1] == UpdateIntent(id, amount)))
            && (r.saved.Some? <==> run.outcome.IntentOk?)
            && (r.saved.Some? ==>
                  && r.saved.value.cartTotal == CartTotal(cart.cartItems)
                  && r.saved.value.cartItems == cart.cartItems
                  && r.saved.value.clientSecret == run.outcome.clientSecret
                  && r.saved.value.stripePaymentIntentId ==
                       (if cart.stripePaymentIntentId == "" then run.outcome.intentId else cart.stripePaymentIntentId)
                  && r.response == ActionResult(StatusOk, ApiResponse(StatusOk, true, [], r.saved)))
            && (r.saved.None? ==>
                  r.response == Failure(run.outcome.message))
  {
    RunAttemptsSpec(attempts, 0);
    var priced := cart.(cartTotal := CartTotal(cart.cartItems));
    var n := RunAttempts(attempts, 0).attemptsUsed;
    if cart.stripePaymentIntentId == "" {
      CallsMadeCreate(priced, attempts, n);
    } else {
      CallsMadeUpdate(priced, attempts, n);
    }
    assert CallsMade(priced, attempts, n) == CallsMade(priced, attempts, n - 1) + AttemptCalls(priced, attempts[n - 1]);
  }

  /**
   * Reconciling again a cart that was reconciled successfully updates the
   * same intent, retrieving it first, rather than creating a second one,
   * and keeps its id.
   */
  lemma SecondReconcileKeepsIntent(cart: ShoppingCart, first: seq<AttemptOutcome>, second: seq<AttemptOutcome>)
    requires |first| == MaxRetries && |second| == MaxRetries && cart.cartItems != []
    requires forall k :: 0 <= k < MaxRetries && first[k].IntentOk? ==> first[k].intentId != ""
    requires Reconcile(Some(cart), first).saved.Some?
    ensures var c1 := Reconcile(Some(cart), first).saved.value;
            var r2 := Reconcile(Some(c1), second);
            && c1.stripePaymentIntentId != ""
            && |r2.calls| >= 1 && r2.calls[0] == RetrieveIntent(c1.stripePaymentIntentId)
            && RetrieveThenUpdate(r2.calls, c1.stripePaymentIntentId, AmountInCents(CartTotal(cart.cartItems)))
            && (r2.saved.Some? ==> r2.saved.value.stripePaymentIntentId == c1.stripePaymentIntentId)
  {
    RunAttemptsSpec(first, 0);
    ReconcileNonEmptyCart(cart, first);
    var c1 := Reconcile(Some(cart), first).saved.value;
    ReconcileNonEmptyCart(c1, second);
  }

  /**
   * `POST payment?userId=...`: loads the user's cart, refuses it when missing
   * or empty, recomputes its total, then tries the gateway up to three
   * times; the cart, with intent id and client secret, is saved only after
   * a successful attempt.
   */
  method MakePayment(db: AppDb, userId: string, attempts: seq<AttemptOutcome>)
    returns (resp: ActionResult<ShoppingCart>, calls: seq<GatewayCall>, delays: seq<int>)
    requires |attempts| == MaxRetries
    modifies db`shoppingCarts
    ensures var spec := Reconcile(if userId in old(db.shoppingCarts) then Some(old(db.shoppingCarts)[userId]) else None, attempts);
            && resp == spec.response && calls == spec.calls && delays == spec.delays
            && db.shoppingCarts == if spec.saved.Some? then old(db.shoppingCarts)[userId := spec.saved.value] else old(db.shoppingCarts)
  {
    if userId !in db.shoppingCarts || |db.shoppingCarts[userId].cartItems| == 0 {
      resp := ActionResult(StatusBadRequest, ApiResponse(StatusBadRequest, false, [EmptyCartMessage], None));
      return resp, [], [];
    }
    var shoppingCart := db.shoppingCarts[userId];
    shoppingCart := shoppingCart.(cartTotal := CartTotal(shoppingCart.cartItems));
    ghost var priced := shoppingCart;
    var amount := AmountInCents(shoppingCart.cartTotal);
    ghost var run := RunAttempts(attempts, 0);
    RunAttemptsSpec(attempts, 0);

    var intent: Option<AttemptOutcome> := None;
    var failure: Option<string> := None;
    calls, delays := [], [];
    var i := 0;
    while i < MaxRetries
      invariant i < run.attemptsUsed
      invariant forall k :: 0 <= k < i ==> attempts[k].StripeError?
      invariant calls == CallsMade(priced, attempts, i)
      invariant delays == run.delays[..i]
      invariant shoppingCart == priced && intent.None? && failure.None?
    {
      var outcome := attempts[i];
      ghost var before := calls;
      if shoppingCart.stripePaymentIntentId == "" {
        calls := calls + [CreateIntent(amount, Currency, PaymentMethodTypes)];
      } else {
        calls := calls + [RetrieveIntent(shoppingCart.stripePaymentIntentId)];
        if outcome.IntentOk? || !outcome.atRetrieve {
          calls := calls + [UpdateIntent(shoppingCart.stripePaymentIntentId, amount)];
        }
      }
      assert calls == before + AttemptCalls(priced, outcome);
      match outcome {
        case IntentOk(id, _) =>
          if shoppingCart.stripePaymentIntentId == "" {
            shoppingCart := shoppingCart.(stripePaymentIntentId := id);
          }
          intent := Some(outcome);
          break;
        case StripeError(message, _) =>
          if i == MaxRetries - 1 {
            failure := Some(message);
            break;
          }
          delays := delays + [Backoff(i)];
        case OtherError(message, _) =>
          failure := Some(message);
          break;
      }
      i := i + 1;
    }
    assert i == run.attemptsUsed - 1;
    assert delays == run.delays;

    if failure.Some? {
      return Failure(failure.value), calls, delays;
    }
    shoppingCart := shoppingCart.(clientSecret := intent.value.clientSecret);
    db.shoppingCarts := db.shoppingCarts[userId := shoppingCart];
    resp := ActionResult(StatusOk, ApiResponse(StatusOk, true, [], Some(shoppingCart)));
  }
}
