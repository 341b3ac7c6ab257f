# Dress-Store-Web order pipeline, in Dafny

This project models the order pipeline of a small food-ordering web shop.
The shop has an ASP.NET server and a React client. The model covers:

- **Server order endpoints** (`OrderController`): the paged order listing,
  which is filtered and sorted newest first; the lookup by id; order
  creation, with its three checks in order and its two separate saves; and
  the order update, which overwrites five fields.
- **Payment-intent reconciliation** (`PaymentController`): the empty-cart
  check and the recomputed cart total. The server creates a payment intent,
  or updates the one the cart already holds. It tries at most three times,
  with doubling back-off.
- **Menu items** (`MenuItemController`): listing and lookup with the derived
  image URL, creation, update, deletion, and the rule that names an uploaded
  image file.
- **Client order summary** (`OrderSummary`): the next-status rule, the
  admin-only button guards, and the two handlers that send a status change.
  Each handler adopts the new status only after a successful answer.
- **Client payment form** (`PaymentForm`): the fold of the cart into order
  lines and totals, the order it submits, the decision taken on the payment
  provider's answers, and the routing after the order is created.
- **Client helpers**: the status badge colours (`StatusColor`), and the order
  API's response normalisation, listing parameters and update request
  (`OrderApi`).
- **Cross-component facts** (`Pipeline`). The total the client submits is the
  total the server charged. The listing parameters the client sends reach
  the server unchanged. A status change from the summary erases the stored
  payment-intent id.

The database is the class `Data.AppDb`. Its tables are sequence fields, and
generated ids come from counters. Endpoints that change the store are
methods with `modifies` clauses. Their contracts state the whole new state
and the response for every branch. Read-only logic is written as functions,
with lemmas that state what the source promises. Loops in the source are
`while`/`for` loops with invariants: the retry loop, the detail-staging
loop, the image-URL loop and the client's cart fold.

Prices are `real`. The `(long)(total * 100)` cast is written as truncation
toward zero. A null string is written as `""`. The checks the code makes
with `IsNullOrEmpty` treat the two alike, but a null stored field that the
listing lower-cases would throw, and that case is left out below. The
payment gateway is the outcome of each attempt, supplied by the caller. Database failures and file-system failures are a
`fault` parameter. The upload time stamp is an opaque string.

## Model

| member | source | states |
|---|---|---|
| Strings.ContainsIff | Server/Server/Controllers/OrderController.cs:55-57 | `Contains` holds exactly when the needle occurs at some offset of the text |
| Seqs.WhereMember | Server/Server/Controllers/OrderController.cs:49 | an element survives `Where` exactly when it is in the input and passes the test |
| Seqs.WhereWhere | Server/Server/Controllers/OrderController.cs:47-62 | two filters in a row are one filter by the conjunction |
| Seqs.SkipTakeIsSlice | Server/Server/Controllers/OrderController.cs:73 | `Skip(n).Take(m)` is one contiguous slice of the input, for any counts |
| Seqs.SkipTakeWindow | Server/Server/Controllers/OrderController.cs:73 | for non-negative counts the page has length min(m, len - n), or 0 past the end, and element k is input element n + k |
| OrderStatuses.ParseName | Client/client/src/Utility/SD.ts:6-13 | the six status strings and the status values are in one-to-one correspondence |
| StatusColor.StatusColors | Client/client/src/Helper/getStatusColor.ts:4-14 | Confirmed primary, Pending secondary, Cancelled danger, Delivered success, Packed info, Out for Delivery warning |
| StatusColor.StatusColorSpec | Client/client/src/Helper/getStatusColor.ts:3-14 | a colour is given exactly to the six status strings (any other value gives `false`), and no two statuses share a colour |
| OrderController.OrderByIdDescSpec | Server/Server/Controllers/OrderController.cs:40-43 | the sorted table is in descending id order and is a permutation of the table |
| OrderController.WhereSortCount | Server/Server/Controllers/OrderController.cs:40-68 | sorting does not change how many orders pass a filter |
| OrderController.ApplyFiltersIsConjunction | Server/Server/Controllers/OrderController.cs:47-62 | the three filters, each skipped when its argument is empty, amount to one filter by their conjunction: user id equal, search text in phone, email or name ignoring case, status equal ignoring case |
| OrderController.GetOrdersIsPage | Server/Server/Controllers/OrderController.cs:40-73 | the listed orders are the requested page of the newest-first matching orders |
| OrderController.GetOrdersIsSlice | Server/Server/Controllers/OrderController.cs:73 | the listed orders are one contiguous slice of the newest-first matching orders |
| OrderController.GetOrdersListsMatches | Server/Server/Controllers/OrderController.cs:40-62 | every listed order is a stored order that passes every non-empty filter, and the page is newest first |
| OrderController.GetOrdersTotalRecords | Server/Server/Controllers/OrderController.cs:64-73 | the record count is the number of matching stored orders before paging; the page is no longer than that count and no longer than the page size |
| OrderController.GetOrdersPageWindow | Server/Server/Controllers/OrderController.cs:73 | for page number ≥ 1 and size ≥ 0 the page starts at (pageNumber - 1) * pageSize of the matching orders, has exactly the stated length, and holds them in order |
| OrderController.PagingTwelveByFive | Server/Server/Controllers/OrderController.cs:64-73 | twelve matching orders in pages of five: page 1 holds five, page 3 holds two, the count is twelve |
| OrderController.GetOrderById | Server/Server/Controllers/OrderController.cs:93-110 | id 0 gives exactly the 400 answers, still with `IsSuccess` true; otherwise 200 with the one order of that id, or an empty list; never 404 |
| OrderController.FindHeader | Server/Server/Controllers/OrderController.cs:237 | the lookup finds a row with the id, or reports that no row has it |
| OrderController.DistinctSpec | Server/Server/Controllers/OrderController.cs:146 | `Distinct` keeps the same values, each once, in order of first occurrence |
| OrderController.ExceptIdsSpec | Server/Server/Controllers/OrderController.cs:148 | the result holds exactly the listed values that are not stored, with no repeats, in the order of their first occurrence among the requested ids |
| OrderController.InvalidMenuItemIdsSpec | Server/Server/Controllers/OrderController.cs:146-148 | the reported ids are exactly the requested menu-item ids absent from the store, without repeats, in first-occurrence order |
| OrderController.ValidationAcceptsExactly | Server/Server/Controllers/OrderController.cs:127-156 | a request passes validation exactly when the model is valid, the user exists and every line's menu item exists |
| OrderController.OrderTotalNotRecomputed | Server/Server/Controllers/OrderController.cs:164 | the stored total is copied from the request: some request is stored with a total that differs from the sum over its lines |
| OrderController.HeaderAppendValid | Server/Server/Controllers/OrderController.cs:172-173 | adding a header with the next generated id keeps ids positive, distinct and below the counter |
| OrderController.ValidateOrder | Server/Server/Controllers/OrderController.cs:127-156 | an invalid model state gives "Invalid model state"; otherwise an unknown user gives "Invalid ApplicationUserId. User does not exist."; otherwise the request passes exactly when every line's menu item is stored, and a failure lists the missing ids after "Invalid MenuItemIds: " |
| OrderController.SaveOrder | Server/Server/Controllers/OrderController.cs:158-209 | a failed header save changes nothing. Otherwise the header is stored with the next id, status Pending when none is given, and the request's total copied. If the details save then fails, the header stays stored without details and the answer is 500. On success there is one detail per request line carrying the new id, and the answer is 201 with the details nulled |
| OrderController.CreateOrder | Server/Server/Controllers/OrderController.cs:123-221 | a failing check answers 400 with its message and writes nothing; otherwise the two saves behave as `SaveOrder` states, and the store's id invariant is kept |
| OrderController.UpdateOrder | Server/Server/Controllers/OrderController.cs:225-257 | a missing body or an id mismatch gives 400, an unknown id gives 404, and neither changes anything; otherwise exactly that row gets the five fields, with any status accepted |
| OrderController.UpdateKeepsOtherFields | Server/Server/Controllers/OrderController.cs:247-251 | id, owner, total, item count and date are unchanged, the status is the one sent, and applying the update again changes nothing |
| PaymentController.AmountInCentsBounds | Server/Server/Controllers/PaymentController.cs:67 | for a non-negative total the amount is the total in cents rounded down (23.50 gives 2350) |
| PaymentController.RunAttemptsSpec | Server/Server/Controllers/PaymentController.cs:56-94 | at most three attempts are made; each attempt before the last failed with a gateway exception; the last attempt decides the outcome; a gateway exception ends the run only on the third attempt; the waits are 1000·2^k ms, none after the last attempt |
| PaymentController.RunAttemptsStopsAt | Server/Server/Controllers/PaymentController.cs:87 | the first attempt that is not a gateway exception ends the loop and gives the outcome |
| PaymentController.RunAttemptsSucceedsIff | Server/Server/Controllers/PaymentController.cs:58-95 | the loop obtains an intent exactly when some attempt succeeds after nothing but gateway exceptions |
| PaymentController.EmptyCartRejected | Server/Server/Controllers/PaymentController.cs:43-49 | a missing or empty cart answers 400 "Shopping cart is empty", with no gateway call and no save |
| PaymentController.CallsMadeCreate | Server/Server/Controllers/PaymentController.cs:62-73 | a cart without an intent sends exactly one create, for its total in cents in usd by card, per attempt |
| PaymentController.CallsMadeUpdate | Server/Server/Controllers/PaymentController.cs:75-85 | a cart with an intent sends one or two requests per attempt, all about its own intent: the first is a retrieve, and every update comes right after a retrieve |
| PaymentController.ReconcileNonEmptyCart | Server/Server/Controllers/PaymentController.cs:53-107 | a non-empty cart gets one to three attempts for the recomputed total in cents. Without an intent, each attempt is one create in usd by card. With one, each attempt retrieves the cart's own intent and then, unless that threw, updates it; a success ends with that update. The cart is saved only on success, with the new total, the intent id and the client secret; every failure answers 500 with its message |
| PaymentController.SecondReconcileKeepsIntent | Server/Server/Controllers/PaymentController.cs:62-85 | reconciling a cart that already succeeded sends no create: it retrieves first and then only retrieves and updates that same intent, and keeps its id |
| PaymentController.MakePayment | Server/Server/Controllers/PaymentController.cs:31-117 | the retry loop produces exactly the answer, the gateway requests (creates, or retrieves each followed by an update) and the delays of the reconciliation; the user's cart is replaced only when it is saved |
| MenuItemController.ImageSrcParts | Server/Server/Controllers/MenuItemController.cs:35 | the image URL is `scheme://host/uploads/` followed by the stored file name, which it gives back |
| MenuItemController.FindMenuItem | Server/Server/Controllers/MenuItemController.cs:51 | the lookup finds a row with the id, and finds none exactly when the id is not stored |
| MenuItemController.GetMenuItems | Server/Server/Controllers/MenuItemController.cs:30-40 | 200 with every row in table order; each row has its image URL set and every other field as stored |
| MenuItemController.GetMenuItemSpec | Server/Server/Controllers/MenuItemController.cs:42-64 | id 0 gives 400, an unknown id gives 404, and 200 comes exactly for a stored id, with that row and its image URL |
| MenuItemController.FileNameHasNoSeparator | Server/Server/Controllers/MenuItemController.cs:110 | the file name of a path has no directory separator and is no longer than the path |
| MenuItemController.StoredFileNameShape | Server/Server/Controllers/MenuItemController.cs:110-115 | the stored name is the first ten characters of the name without extension, spaces turned into dashes, then the time stamp, then the extension |
| MenuItemController.StemAndExtension | Server/Server/Controllers/MenuItemController.cs:110-115 | name without extension plus extension give back the file name, unless it ends in a dot |
| MenuItemController.ExtensionShape | Server/Server/Controllers/MenuItemController.cs:115 | a non-empty extension is a dot and at least one more character, with no further dot and no separator |
| MenuItemController.ExtensionOfSuffix | Server/Server/Controllers/MenuItemController.cs:115 | a name without separators that ends in such an extension has exactly that extension |
| MenuItemController.StoredFileNameKeepsExtension | Server/Server/Controllers/MenuItemController.cs:110-115 | for a digit time stamp the stored name has no directory part and keeps the upload's extension |
| MenuItemController.CreateMenuItem | Server/Server/Controllers/MenuItemController.cs:65-106 | an invalid model or an exception answers 400 and adds nothing. Otherwise one row is added with the next (fresh) id, the five copied fields, and an image only when a file came. The answer is 201 with that row |
| MenuItemController.UpdateMenuItem | Server/Server/Controllers/MenuItemController.cs:132-193 | an invalid model or an id mismatch gives 400; an unknown id gives 404; an exception gives 400; none of these changes anything. Otherwise only that row changes, and the answer is HTTP 200 carrying 204 |
| MenuItemController.MenuUpdateFields | Server/Server/Controllers/MenuItemController.cs:155-173 | the five descriptive fields take the request's values, the id stays, and the image changes only when a file came |
| MenuItemController.RemoveAtIndex | Server/Server/Controllers/MenuItemController.cs:217 | removing row k shifts the later rows down by one and keeps the earlier ones |
| MenuItemController.RemoveAtValid | Server/Server/Controllers/MenuItemController.cs:217 | removing a row keeps ids positive, distinct and below the counter |
| MenuItemController.RemoveAtSpec | Server/Server/Controllers/MenuItemController.cs:217 | removing the row keeps exactly the rows with another id, and the stored ids lose exactly that id |
| MenuItemController.DeleteMenuItem | Server/Server/Controllers/MenuItemController.cs:196-230 | id 0 gives 400, an unknown id 404 and an exception 400, none changing anything; otherwise exactly that row is cut out, the others stay in their order, and the answer is HTTP 200 carrying 204 |
| OrderApi.TransformResponseSpec | Client/client/src/Apis/orderApi.ts:23-30 | `isSuccess` is the answer's own, else true. `result` is the answer's own, else the whole answer. `errorMessages` is the answer's own, else empty. No field is null, and normalising twice changes nothing more |
| OrderApi.TransformServerEnvelope | Client/client/src/Apis/orderApi.ts:23-30 | a server envelope keeps its flag and messages; a null result is replaced by the whole envelope |
| OrderApi.TransformErrorResponseSpec | Client/client/src/Apis/orderApi.ts:31-38 | a failure with a body becomes unsuccessful with a null result and one message: the body's message when truthy, else the default text; a null body throws |
| OrderApi.LookupAppend | Client/client/src/Apis/orderApi.ts:43-49 | a parameter looked up in two concatenated lists is found in the first one first |
| OrderApi.GetAllOrdersParamsSpec | Client/client/src/Apis/orderApi.ts:41-50 | each of the five parameters is sent exactly when its value is truthy, at most once, carrying that value |
| OrderApi.UpdateOrderHeaderUrl | Client/client/src/Apis/orderApi.ts:65-73 | the update is a PUT to `order/<id>`, and the id read back from the URL is the body's id |
| OrderSummary.NextStatusSpec | Client/client/src/Components/Pages/Order/OrderSummary.tsx:20-31 | only Confirmed, Packed and Out for Delivery have a next status. It is the status right after them, never Pending or Cancelled, and the button's colour is that status's badge colour |
| OrderSummary.AdvanceRank | Client/client/src/Components/Pages/Order/OrderSummary.tsx:20-31 | each press of the advance button moves exactly one place forward |
| OrderSummary.Acyclic | Client/client/src/Components/Pages/Order/OrderSummary.tsx:20-31 | no sequence of presses returns to the status it started from |
| OrderSummary.ConfirmedToDelivered | Client/client/src/Components/Pages/Order/OrderSummary.tsx:20-31 | three presses lead from Confirmed to Delivered, and no chain of presses is longer than three |
| OrderSummary.AdvanceNeverCancels | Client/client/src/Components/Pages/Order/OrderSummary.tsx:20-31 | advancing never reaches Cancelled |
| OrderSummary.ButtonGuards | Client/client/src/Components/Pages/Order/OrderSummary.tsx:135-153 | cancel is offered exactly to admins on a non-terminal order. Wherever advance is offered, cancel is too. Only a pending order has cancel without advance, and customers see neither |
| OrderSummary.OrderSummaryView.constructor | Client/client/src/Components/Pages/Order/OrderSummary.tsx:17 | the view starts with the order's status and not loading |
| OrderSummary.OrderSummaryView.HandleNextStatus | Client/client/src/Components/Pages/Order/OrderSummary.tsx:35-58 | with no next status nothing is sent and nothing changes. Otherwise the request carries the order id, the next status and the contact fields. The status is adopted only on a successful answer, and loading ends in every case |
| OrderSummary.OrderSummaryView.HandleCancel | Client/client/src/Components/Pages/Order/OrderSummary.tsx:60-81 | sends Cancelled with the contact fields, shows Cancelled only after a successful answer, and loading ends in every case |
| PaymentForm.KeptDetailsIsWhere | Client/client/src/Components/Pages/Payment/PaymentForm.tsx:135-149 | building lines item by item gives the lines of the kept items, in cart order |
| PaymentForm.CreateOrderDetails | Client/client/src/Components/Pages/Payment/PaymentForm.tsx:130-152 | one line per cart item that has a menu-item id, in cart order, with missing fields defaulted; the grand total and item count are the sums over exactly those lines |
| PaymentForm.LinesSnoc | Client/client/src/Components/Pages/Payment/PaymentForm.tsx:144-145 | adding a line adds its quantity times price to the total and its quantity to the count |
| PaymentForm.ToDetailsOfKept | Client/client/src/Components/Pages/Payment/PaymentForm.tsx:136-147 | every line has a non-zero menu-item id; when every item is usable there is one line per item |
| PaymentForm.LinesAppend | Client/client/src/Components/Pages/Payment/PaymentForm.tsx:144-145 | the totals of two batches of lines add up |
| PaymentForm.OrderPayload | Client/client/src/Components/Pages/Payment/PaymentForm.tsx:100-112 | the submitted order carries status Confirmed, the succeeded intent's id, the user id and contact fields, and the folded lines and totals |
| PaymentForm.SubmitPlacesOrderIff | Client/client/src/Components/Pages/Payment/PaymentForm.tsx:52-98 | an order is placed exactly when the form is ready, the intent was not already paid, and confirming returned status "succeeded"; it uses that intent's id. An already paid intent stops early |
| PaymentForm.HandleOrderResponseSpec | Client/client/src/Components/Pages/Payment/PaymentForm.tsx:154-164 | success with a result navigates, otherwise the page shows a toast. Only a Confirmed result goes to `/order/orderConfirmed/<id>`, whose id reads back; other statuses go to `/failed` |
| PaymentForm.AfterCreateSpec | Client/client/src/Components/Pages/Payment/PaymentForm.tsx:115-127 | only a resolved, successful answer leaves the page; every failure shows a non-empty message |
| Pipeline.ClientCartTotal | Server/Server/Controllers/PaymentController.cs:53 | the client's fold over the cart it received sums to the server's recomputed cart total |
| Pipeline.ChargedTotalIsSubmittedTotal | Client/client/src/Components/Pages/Payment/PaymentForm.tsx:130-152 | for a cart of stored menu items every line is kept, and the submitted total is the amount the server charged for |
| Pipeline.StoredLinesTotal | Server/Server/Controllers/OrderController.cs:176-187 | the sum over the stored details equals the sum over the lines sent |
| Pipeline.ClientOrderStoredConsistently | Server/Server/Controllers/OrderController.cs:164 | an order assembled by the client is stored as Confirmed with a total equal to the sum over its stored lines |
| Pipeline.CheckoutLandsOnConfirmation | Client/client/src/Components/Pages/Payment/PaymentForm.tsx:154-164 | the server's 201 answer for a client order leads to the confirmation page of the new order's id |
| Pipeline.ListingQueryRoundTrip | Server/Server/Controllers/OrderController.cs:35-36 | the server binds exactly the filters and paging the client sends, with a page number or size of 0 becoming the default page 1 of size 5 |
| Pipeline.SummaryUpdateStored | Server/Server/Controllers/OrderController.cs:247-251 | a summary status change stores the new status whatever it is, even cancelling a delivered order; the stored payment-intent id is erased because the request has none |

## Where the code and its design description differ

The model follows the code in each case.

- The description says the server recomputes the order total. `CreateOrder`
  copies the total from the request (`OrderController.OrderTotalNotRecomputed`).
- The description says the lookup of an order by id answers 404 for an
  unknown id. The code's null check can never fire, so the answer is 200
  with an empty list (`OrderController.GetOrderById`).
- The description says a failed save leaves no half-written order. The code
  saves the header and its details separately, so a failed details save
  leaves a header without details (`OrderController.SaveOrder`).
- The description lists Pending → Confirmed as a forward step. The client's
  next-status rule offers no step from Pending, only Cancel
  (`OrderSummary.NextStatusSpec`, `OrderSummary.ButtonGuards`).
- The server checks no status transition at all (`OrderController.UpdateOrder`,
  `Pipeline.SummaryUpdateStored`).

## Left out

- Entity Framework, `SaveChangesAsync` and the `Include` joins: tables are sequences of rows in `Data.AppDb`. A failed save is the `fault` parameter and leaves the table unchanged.
- The Stripe SDK on server and client: each server attempt is an `AttemptOutcome`, and the client's retrieve and confirm answers are values.
- `Task.Delay` timing: only the delay values are modelled. The TLS setting (PaymentController.cs line 36) and the API-key setup are left out.
- Writing and creating files in `SaveFile` and `UpdateMenuItem` (`DeleteMenuItem` removes only the row), and the value of `DateTime.Now`, which is a string parameter (`stamp`, `now`).
- `double` arithmetic: prices are `real`, so there is no rounding of sums and no NaN. The `(long)` cast is exact truncation toward zero.
- .NET's culture-sensitive `ToLower`: only ASCII letters are lower-cased.
- 32-bit overflow of `(pageNumber - 1) * pageSize` and of the client's id parameters: integers are unbounded.
- OrderController.GetOrders: a stored order whose pickup phone, email or name, or whose status, is null makes `ToLower` throw while filtering (OrderController.cs lines 55-61). The catch branch (lines 77-83) then answers HTTP 200 with `IsSuccess` false and the exception text. The model has no null strings, so such a row is compared as `""` instead.
- The automatic model-state filter of `[ApiController]` (OrderController.cs line 19, MenuItemController.cs line 15, PaymentController.cs line 14): the model follows the action bodies, as if that filter were suppressed. With ASP.NET Core's default options, an invalid model or a missing body is refused before the action runs, with the framework's own 400 answer. In that case the "Invalid model state" branch of `OrderController.ValidateOrder`, the status-0 refusal of `MenuItemController.CreateMenuItem` and `MenuItemController.UpdateMenuItem`, and the missing-body half of "Invalid input data" in `OrderController.UpdateOrder` never run. The same holds for `OrderController.GetOrders` (OrderController.cs lines 34-35): if nullable reference types make `searchString` and `status` required, a listing request that leaves either out is refused with that 400, so `Pipeline.ListingQueryRoundTrip` describes the binding only as the action sees it.
- StoredStem: the cut to ten characters counts Unicode code points, while .NET's `Take(10)` on a string counts UTF-16 code units. The two agree for names in the Basic Multilingual Plane; a name with characters outside it keeps more of them in the model, and the half surrogate pair .NET can store is not expressible.
- IsSeparator: both `/` and `\` separate directories, as in .NET's path functions on Windows. On Linux only `/` does, so a file name containing `\` would keep it there.
- The catch branches of `GetOrders` and `GetOrders(id)` (lines 77-83 and 112-118) for database exceptions: reads from `Data.AppDb` do not fail.
- PaymentController.MakePayment: a failed attempt is known only by the request that threw (the retrieve, or the create or update). Whether the gateway had already applied that request is not modelled.
- The `intent == null` check after the retry loop (PaymentController.cs lines 97-100): the loop always either breaks with an intent or throws, so the check cannot fire.
- The general `Exception` branch of `CreateOrder` (lines 210-220): only database failures are raised in the model.
- The 500 branch of `UpdateOrder` (lines 259-265) and a failure of the cart save in `MakePayment` (line 103): their saves are taken to succeed.
- Whether the database refuses a menu item created without an image (its `Image` column is required). That refusal is one of the failures the `fault` parameter stands for.
- Concurrent requests and the lost-update race on the cart's intent id.
- Logging, JSX rendering, React hooks, toasts as side effects (they are returned as `UiAction` values), `navigate(-1)`, the `X-Pagination` header's JSON text, and the `Payment.tsx`, `Home.tsx`, `MenuItemList.tsx`, `Footer.tsx` and `Interfaces` files.
- JSON `undefined` and `null` are one value, `JNull`, in `OrderApi`. A `data` that is `null` makes `transformErrorResponse` throw, which is `None`.
- The server's `SD.cs` is not part of this model; its pending status is taken to be "Pending", the client's value.
- The client's response normalisation between the server's 201 answer and the payment form: `Pipeline.CheckoutLandsOnConfirmation` reads the server's envelope directly (`OrderApi.TransformServerEnvelope` shows the normalisation keeps its flag and its non-null result).
