/**
 * The order endpoints of the server: the filtered, newest-first, paged
 * listing; the lookup by id; order creation with its validation order and
 * its two separate saves; and the update that overwrites five fields.
 */
module OrderController {
  import opened Wrappers
  import opened Strings
  import opened Seqs
  import opened Data
  import OrderStatuses

  const DefaultPageNumber: int := 1
  const DefaultPageSize: int := 5

  // ---------------------------------------------------------------- listing

  datatype OrderQuery = OrderQuery(userId: string, searchString: string, status: string, pageNumber: int, pageSize: int)

  /** Parameter binding: an absent page number or page size takes its default. */
  function BindQuery(userId: string, searchString: string, status: string, pageNumber: Option<int>, pageSize: Option<int>): OrderQuery {
    OrderQuery(userId, searchString, status,
      if pageNumber.Some? then pageNumber.value else DefaultPageNumber,
      if pageSize.Some? then pageSize.value else DefaultPageSize)
  }

  datatype Pagination = Pagination(currentPage: int, pageSize: int, totalRecords: int)
  datatype OrderPage = OrderPage(orders: seq<OrderHeader>, pagination: Pagination)

  predicate SortedByIdDesc(s: seq<OrderHeader>) {
    forall i, j :: 0 <= i < j < |s| ==> s[i].orderHeaderId >= s[j].orderHeaderId
  }

  /** Inserts `h` before the first row whose id is not larger (keeps equal ids in input order). */
  function InsertByIdDesc(h: OrderHeader, s: seq<OrderHeader>): seq<OrderHeader> {
    if s == [] || s[0].orderHeaderId <= h.orderHeaderId then [h] + s
    else [s[0]] + InsertByIdDesc(h, s[1..])
  }

  /** `OrderByDescending(u => u.OrderHeaderId)`, a stable sort. */
  function OrderByIdDesc(s: seq<OrderHeader>): seq<OrderHeader> {
    if s == [] then [] else InsertByIdDesc(s[0], OrderByIdDesc(s[1..]))
  }

  lemma {:induction false} InsertByIdDescMultiset(h: OrderHeader, s: seq<OrderHeader>)
    ensures multiset(InsertByIdDesc(h, s)) == multiset(s) + multiset{h}
  {
    if s != [] && s[0].orderHeaderId > h.orderHeaderId {
      InsertByIdDescMultiset(h, s[1..]);
      assert s == [s[0]] + s[1..];
    }
  }

  lemma {:induction false} InsertByIdDescSorted(h: OrderHeader, s: seq<OrderHeader>)
    requires SortedByIdDesc(s)
    ensures SortedByIdDesc(InsertByIdDesc(h, s))
  {
    if s != [] && s[0].orderHeaderId > h.orderHeaderId {
      var rest := s[1..];
      assert SortedByIdDesc(rest) by {
        forall i, j | 0 <= i < j < |rest|
          ensures rest[i].orderHeaderId >= rest[j].orderHeaderId
        {
          assert rest[i] == s[i + 1] && rest[j] == s[j + 1];
        }
      }
      InsertByIdDescSorted(h, rest);
      InsertByIdDescMultiset(h, rest);
      var t := InsertByIdDesc(h, rest);
      forall x | x in t
        ensures x.orderHeaderId <= s[0].orderHeaderId
      {
        assert x in multiset(t);
        if x != h {
          assert x in multiset(rest);
          var i :| 0 <= i < |rest| && rest[i] == x;
          assert s[i + 1] == x;
        }
      }
      SortedCons(s[0], t);
    } else {
      forall x | x in s
        ensures x.orderHeaderId <= h.orderHeaderId
      {
        var i :| 0 <= i < |s| && s[i] == x;
        assert s[0].orderHeaderId >= s[i].orderHeaderId;
      }
      SortedCons(h, s);
    }
  }

  lemma SortedCons(x: OrderHeader, t: seq<OrderHeader>)
    requires SortedByIdDesc(t)
    requires forall y :: y in t ==> y.orderHeaderId <= x.orderHeaderId
    ensures SortedByIdDesc([x] + t)
  {
    var r := [x] + t;
    forall i, j | 0 <= i < j < |r|
      ensures r[i].orderHeaderId >= r[j].orderHeaderId
    {
      if i == 0 {
        assert r[j] in t;
      } else {
        assert r[i] == t[i - 1] && r[j] == t[j - 1];
      }
    }
  }

  /** The listing order: newest (largest id) first, and nothing lost or added. */
  lemma {:induction false} OrderByIdDescSpec(s: seq<OrderHeader>)
    ensures SortedByIdDesc(OrderByIdDesc(s))
    ensures multiset(OrderByIdDesc(s)) == multiset(s)
  {
    if s != [] {
      OrderByIdDescSpec(s[1..]);
      InsertByIdDescSorted(s[0], OrderByIdDesc(s[1..]));
      InsertByIdDescMultiset(s[0], OrderByIdDesc(s[1..]));
      assert s == [s[0]] + s[1..];
    }
  }

  lemma {:induction false} WhereInsertCount(h: OrderHeader, s: seq<OrderHeader>, p: OrderHeader -> bool)
    ensures |Where(InsertByIdDesc(h, s), p)| == |Where(s, p)| + (if p(h) then 1 else 0)
  {
    if s != [] && s[0].orderHeaderId > h.orderHeaderId {
      WhereInsertCount(h, s[1..], p);
      WhereAppend([s[0]], InsertByIdDesc(h, s[1..]), p);
      WhereAppend([s[0]], s[1..], p);
      assert s == [s[0]] + s[1..];
    } else {
      WhereAppend([h], s, p);
    }
  }

  /** Sorting does not change how many rows pass a test. */
  lemma {:induction false} WhereSortCount(s: seq<OrderHeader>, p: OrderHeader -> bool)
    ensures |Where(OrderByIdDesc(s), p)| == |Where(s, p)|
  {
    if s != [] {
      WhereSortCount(s[1..], p);
      WhereInsertCount(s[0], OrderByIdDesc(s[1..]), p);
      WhereAppend([s[0]], s[1..], p);
      assert s == [s[0]] + s[1..];
    }
  }

  lemma {:induction false} WhereKeepsSorted(s: seq<OrderHeader>, p: OrderHeader -> bool)
    requires SortedByIdDesc(s)
    ensures SortedByIdDesc(Where(s, p))
  {
    if s != [] {
      WhereKeepsSorted(s[1..], p);
      var w := Where(s[1..], p);
      forall x | x in w
        ensures x.orderHeaderId <= s[0].orderHeaderId
      {
        WhereMember(s[1..], p, x);
      }
      SortedCons(s[0], w);
    }
  }

  /** The case-insensitive search of phone, then email, then name. */
  predicate SearchHit(h: OrderHeader, search: string) {
    var needle := ToLower(search);
    || Contains(ToLower(h.pickupPhoneNumber), needle)
    || Contains(ToLower(h.pickupEmail), needle)
    || Contains(ToLower(h.pickupName), needle)
  }

  function OwnedBy(userId: string): OrderHeader -> bool {
    (h: OrderHeader) => h.applicationUserId == userId
  }

  function Mentions(search: string): OrderHeader -> bool {
    (h: OrderHeader) => SearchHit(h, search)
  }

  function HasStatus(status: string): OrderHeader -> bool {
    (h: OrderHeader) => ToLower(h.status) == ToLower(status)
  }

  /** The three filters, each applied only when its argument is non-empty. */
  function ApplyFilters(s: seq<OrderHeader>, q: OrderQuery): seq<OrderHeader> {
    var byUser := if q.userId == "" then s else Where(s, OwnedBy(q.userId));
    var bySearch := if q.searchString == "" then byUser else Where(byUser, Mentions(q.searchString));
    if q.status == "" then bySearch else Where(bySearch, HasStatus(q.status))
  }

  /** What an order must satisfy to be listed: every non-empty filter, together. */
  predicate Matches(q: OrderQuery, h: OrderHeader) {
    && (q.userId == "" || h.applicationUserId == q.userId)
    && (q.searchString == "" || SearchHit(h, q.searchString))
    && (q.status == "" || ToLower(h.status) == ToLower(q.status))
  }

  function MatchesQuery(q: OrderQuery): OrderHeader -> bool {
    (h: OrderHeader) => Matches(q, h)
  }

  /** How many matching orders the pages before `pageNumber` hold. */
  function PageStart(pageNumber: int, pageSize: int): (n: int)
    ensures pageNumber >= 1 && pageSize >= 0 ==> n >= 0
  {
    (pageNumber - 1) * pageSize
  }

  /** `Skip((pageNumber - 1) * pageSize).Take(pageSize)`. */
  function Paginate(s: seq<OrderHeader>, pageNumber: int, pageSize: int): seq<OrderHeader> {
    Take(Skip(s, PageStart(pageNumber, pageSize)), pageSize)
  }

  function GetOrders(table: seq<OrderHeader>, q: OrderQuery): OrderPage {
    var filtered := ApplyFilters(OrderByIdDesc(table), q);
    OrderPage(
      Paginate(filtered, q.pageNumber, q.pageSize),
      Pagination(q.pageNumber, q.pageSize, |filtered|))
  }

  /** The three conditional filters amount to one filter by the conjunction `Matches`. */
  lemma ApplyFiltersIsConjunction(s: seq<OrderHeader>, q: OrderQuery)
    ensures ApplyFilters(s, q) == Where(s, MatchesQuery(q))
  {
    var p1: OrderHeader -> bool := (h: OrderHeader) => q.userId == "" || h.applicationUserId == q.userId;
    var p12: OrderHeader -> bool := (h: OrderHeader) => p1(h) && (q.searchString == "" || SearchHit(h, q.searchString));
    var byUser := if q.userId == "" then s else Where(s, OwnedBy(q.userId));
    if q.userId == "" {
      WhereAll(s, p1);
    } else {
      WhereExt(s, OwnedBy(q.userId), p1);
    }
    assert byUser == Where(s, p1);
    var bySearch := if q.searchString == "" then byUser else Where(byUser, Mentions(q.searchString));
    if q.searchString == "" {
      WhereExt(s, p1, p12);
    } else {
      WhereWhere(s, p1, Mentions(q.searchString), p12);
    }
    assert bySearch == Where(s, p12);
    if q.status == "" {
      WhereExt(s, p12, MatchesQuery(q));
    } else {
      WhereWhere(s, p12, HasStatus(q.status), MatchesQuery(q));
    }
  }

  /** The page is the requested page of the newest-first matching orders. */
  lemma GetOrdersIsPage(table: seq<OrderHeader>, q: OrderQuery)
    ensures GetOrders(table, q).orders == Paginate(Where(OrderByIdDesc(table), MatchesQuery(q)), q.pageNumber, q.pageSize)
  {
    ApplyFiltersIsConjunction(OrderByIdDesc(table), q);
  }

  /** The page as a slice of the newest-first matching orders. */
  lemma GetOrdersIsSlice(table: seq<OrderHeader>, q: OrderQuery)
    ensures var all := Where(OrderByIdDesc(table), MatchesQuery(q));
            var n := PageStart(q.pageNumber, q.pageSize);
            GetOrders(table, q).orders == all[SliceStart(|all|, n)..SliceEnd(|all|, n, q.pageSize)]
  {
    var all := Where(OrderByIdDesc(table), MatchesQuery(q));
    GetOrdersIsPage(table, q);
    SkipTakeIsSlice(all, PageStart(q.pageNumber, q.pageSize), q.pageSize);
  }

  /** A slice of a newest-first sequence is newest first, and holds only its elements. */
  lemma SortedSlice(all: seq<OrderHeader>, lo: nat, hi: nat)
    requires lo <= hi <= |all| && SortedByIdDesc(all)
    ensures SortedByIdDesc(all[lo..hi])
    ensures forall h :: h in all[lo..hi] ==> h in all
  {
    var page := all[lo..hi];
    forall i, j | 0 <= i < j < |page|
      ensures page[i].orderHeaderId >= page[j].orderHeaderId
    {
      assert page[i] == all[lo + i] && page[j] == all[lo + j];
    }
  }

  /** Every listed order is a stored order passing the filters, and the page is newest first. */
  lemma GetOrdersListsMatches(table: seq<OrderHeader>, q: OrderQuery)
    ensures SortedByIdDesc(GetOrders(table, q).orders)
    ensures forall h :: h in GetOrders(table, q).orders ==> h in table && Matches(q, h)
  {
    var sorted := OrderByIdDesc(table);
    OrderByIdDescSpec(table);
    var all := Where(sorted, MatchesQuery(q));
    WhereKeepsSorted(sorted, MatchesQuery(q));
    GetOrdersIsSlice(table, q);
    var n := PageStart(q.pageNumber, q.pageSize);
    var lo, hi := SliceStart(|all|, n), SliceEnd(|all|, n, q.pageSize);
    SortedSlice(all, lo, hi);
    forall h | h in all
      ensures h in table && MatchesQuery(q)(h)
    {
      WhereMember(sorted, MatchesQuery(q), h);
      assert h in multiset(sorted);
    }
  }

  /** The record count is the number of stored orders passing the filters, before paging. */
  lemma GetOrdersTotalRecords(table: seq<OrderHeader>, q: OrderQuery)
    ensures GetOrders(table, q).pagination.totalRecords == |Where(table, MatchesQuery(q))|
    ensures |GetOrders(table, q).orders| <= GetOrders(table, q).pagination.totalRecords
    ensures |GetOrders(table, q).orders| <= if q.pageSize < 0 then 0 else q.pageSize
  {
    ApplyFiltersIsConjunction(OrderByIdDesc(table), q);
    WhereSortCount(table, MatchesQuery(q));
  }

  /**
   * For a page number from 1 and a non-negative page size, the page is the
   * window of the newest-first matching orders that starts at
   * (pageNumber - 1) * pageSize and holds at most pageSize orders.
   */
  lemma GetOrdersPageWindow(table: seq<OrderHeader>, q: OrderQuery)
    requires q.pageNumber >= 1 && q.pageSize >= 0
    ensures var all := Where(OrderByIdDesc(table), MatchesQuery(q));
            var start := PageStart(q.pageNumber, q.pageSize);
            var page := GetOrders(table, q).orders;
            && start == (q.pageNumber - 1) * q.pageSize
            && |page| == (if start >= |all| then 0 else if |all| - start < q.pageSize then |all| - start else q.pageSize)
            && forall k :: 0 <= k < |page| ==> start + k < |all| && page[k] == all[start + k]
  {
    var all := Where(OrderByIdDesc(table), MatchesQuery(q));
    GetOrdersIsPage(table, q);
    SkipTakeWindow(all, PageStart(q.pageNumber, q.pageSize), q.pageSize);
  }

  /** Twelve matching orders in pages of five: pages 1 and 2 are full, page 3 holds two. */
  lemma PagingTwelveByFive(table: seq<OrderHeader>, q: OrderQuery)
    requires |Where(table, MatchesQuery(q))| == 12 && q.pageSize == 5
    ensures q.pageNumber == 1 ==> |GetOrders(table, q).orders| == 5
    ensures q.pageNumber == 3 ==> |GetOrders(table, q).orders| == 2
    ensures GetOrders(table, q).pagination.totalRecords == 12
  {
    GetOrdersTotalRecords(table, q);
    WhereSortCount(table, MatchesQuery(q));
    if q.pageNumber == 1 || q.pageNumber == 3 {
      GetOrdersPageWindow(table, q);
    }
  }

  // ---------------------------------------------------------------- lookup

  function HasId(id: int): OrderHeader -> bool {
    (h: OrderHeader) => h.orderHeaderId == id
  }

  /** `GET order/{id}`: 400 for id 0 (the envelope still says success), else 200 with the rows of that id. */
  function GetOrder(table: seq<OrderHeader>, id: int): ActionResult<seq<OrderHeader>> {
    if id == 0 then ActionResult(StatusBadRequest, ApiResponse(StatusBadRequest, true, [], None))
    else ActionResult(StatusOk, ApiResponse(StatusOk, true, [], Some(Where(table, HasId(id)))))
  }

  predicate DistinctIds(s: seq<OrderHeader>) {
    forall i, j :: 0 <= i < j < |s| ==> s[i].orderHeaderId != s[j].orderHeaderId
  }

  lemma {:induction false} WhereByUniqueId(s: seq<OrderHeader>, k: nat)
    requires DistinctIds(s) && k < |s|
    ensures Where(s, HasId(s[k].orderHeaderId)) == [s[k]]
  {
    var p := HasId(s[k].orderHeaderId);
    if k == 0 {
      WhereNone(s[1..], p);
    } else {
      WhereByUniqueId(s[1..], k - 1);
    }
  }

  /**
   * The lookup never answers 404: for a non-zero id it answers 200 with the
   * single order of that id, or with an empty list when there is none; even
   * the 400 for id 0 keeps `IsSuccess` true.
   */
  lemma GetOrderById(table: seq<OrderHeader>, id: int)
    requires DistinctIds(table)
    ensures GetOrder(table, id).http != StatusNotFound
    ensures id == 0 <==> GetOrder(table, id).http == StatusBadRequest
    ensures id != 0 ==> GetOrder(table, id).http == StatusOk
    ensures GetOrder(table, id).body.isSuccess
    ensures id != 0 ==> forall k :: 0 <= k < |table| && table[k].orderHeaderId == id ==>
              GetOrder(table, id).body.result == Some([table[k]])
    ensures id != 0 && (forall h :: h in table ==> h.orderHeaderId != id) ==>
              GetOrder(table, id).body.result == Some([])
  {
    if id != 0 {
      forall k | 0 <= k < |table| && table[k].orderHeaderId == id
        ensures Where(table, HasId(id)) == [table[k]]
      {
        WhereByUniqueId(table, k);
      }
      if forall h :: h in table ==> h.orderHeaderId != id {
        WhereNone(table, HasId(id));
      }
    }
  }

  /** Position of the row with the given id (`FindAsync`). */
  function FindHeader(s: seq<OrderHeader>, id: int): (r: Option<nat>)
    ensures r.Some? ==> r.value < |s| && s[r.value].orderHeaderId == id
    ensures r.None? ==> forall h :: h in s ==> h.orderHeaderId != id
  {
    if s == [] then None
    else if s[0].orderHeaderId == id then Some(0)
    else match FindHeader(s[1..], id)
      case None => None
      case Some(k) => Some(k + 1)
  }

  // ---------------------------------------------------------------- creation

  datatype OrderDetailCreateDto = OrderDetailCreateDto(menuItemId: int, itemName: string, price: real, quantity: int)

  datatype OrderHeaderCreateDto = OrderHeaderCreateDto(
    applicationUserId: string,
    pickupName: string,
    pickupPhoneNumber: string,
    pickupEmail: string,
    orderTotal: real,
    totalItems: int,
    stripePaymentIntentId: string,
    status: string,                 // "" when null or empty
    orderDetailsDto: seq<OrderDetailCreateDto>)

  /** What the database does on each of the two saves. */
  datatype SaveFault = NoFault | HeaderSaveFails(message: string, inner: string) | DetailsSaveFails(message: string, inner: string)

  /** The created order as returned: its detail collection is nulled. */
  datatype CreatedOrder = CreatedOrder(header: OrderHeader, orderDetails: Option<seq<OrderDetail>>)

  /** `Distinct()`: each value once, at its first occurrence. */
  function Distinct(s: seq<int>): seq<int> {
    if s == [] then []
    else
      var d := Distinct(s[..|s| - 1]);
      if s[|s| - 1] in d then d else d + [s[|s| - 1]]
  }

  /** `Except(existing)`: the distinct values of `s` that are not in `existing`, in order. */
  function ExceptIds(s: seq<int>, existing: set<int>): seq<int> {
    if s == [] then []
    else
      var e := ExceptIds(s[..|s| - 1], existing);
      var x := s[|s| - 1];
      if x in existing || x in e then e else e + [x]
  }

  function FirstIndex(s: seq<int>, x: int): (k: nat)
    requires x in s
    ensures k < |s| && s[k] == x && x !in s[..k]
  {
    if s[0] == x then 0 else 1 + FirstIndex(s[1..], x)
  }

  lemma {:induction false} FirstIndexAppend(s: seq<int>, y: int, x: int)
    requires x in s + [y]
    ensures FirstIndex(s + [y], x) == if x in s then FirstIndex(s, x) else |s|
  {
    if s != [] && s[0] != x {
      assert (s + [y])[1..] == s[1..] + [y];
      FirstIndexAppend(s[1..], y, x);
    }
  }

  /** `r` lists values of `ids` in the order of their first occurrence in `ids`. */
  predicate FirstOccurrenceOrder(r: seq<int>, ids: seq<int>) {
    && (forall x :: x in r ==> x in ids)
    && (forall i, j :: 0 <= i < j < |r| ==> r[i] in ids && r[j] in ids && FirstIndex(ids, r[i]) < FirstIndex(ids, r[j]))
  }

  predicate NoDuplicates(r: seq<int>) {
    forall i, j :: 0 <= i < j < |r| ==> r[i] != r[j]
  }

  /** Appending a value first seen after everything already listed keeps the order. */
  lemma AppendKeepsOrder(e: seq<int>, y: int, ids: seq<int>)
    requires FirstOccurrenceOrder(e, ids) && NoDuplicates(e)
    requires y in ids && y !in e
    requires forall x :: x in e ==> FirstIndex(ids, x) < FirstIndex(ids, y)
    ensures FirstOccurrenceOrder(e + [y], ids) && NoDuplicates(e + [y])
  {
    var r := e + [y];
    forall i, j | 0 <= i < j < |r|
      ensures r[i] != r[j] && r[i] in ids && r[j] in ids && FirstIndex(ids, r[i]) < FirstIndex(ids, r[j])
    {
      if j == |e| {
        assert r[i] == e[i] && r[i] in e;
      } else {
        assert r[i] == e[i] && r[j] == e[j];
      }
    }
  }

  lemma {:induction false} DistinctSpec(ids: seq<int>)
    ensures forall x :: x in Distinct(ids) <==> x in ids
    ensures NoDuplicates(Distinct(ids))
    ensures FirstOccurrenceOrder(Distinct(ids), ids)
  {
    if ids != [] {
      var init, y := ids[..|ids| - 1], ids[|ids| - 1];
      assert ids == init + [y];
      DistinctSpec(init);
      var d := Distinct(init);
      forall x | x in d
        ensures x in ids && FirstIndex(ids, x) == FirstIndex(init, x) < |init|
      {
        FirstIndexAppend(init, y, x);
      }
      assert FirstOccurrenceOrder(d, ids);
      if y !in d {
        FirstIndexAppend(init, y, y);
        AppendKeepsOrder(d, y, ids);
      }
    }
  }

  lemma {:induction false} ExceptIdsSpec(s: seq<int>, existing: set<int>, ids: seq<int>)
    requires FirstOccurrenceOrder(s, ids)
    ensures forall x :: x in ExceptIds(s, existing) <==> x in s && x !in existing
    ensures NoDuplicates(ExceptIds(s, existing))
    ensures FirstOccurrenceOrder(ExceptIds(s, existing), ids)
  {
    if s != [] {
      var init, y := s[..|s| - 1], s[|s| - 1];
      assert s == init + [y];
      assert FirstOccurrenceOrder(init, ids) by {
        forall i, j | 0 <= i < j < |init|
          ensures init[i] in ids && init[j] in ids && FirstIndex(ids, init[i]) < FirstIndex(ids, init[j])
        {
          assert init[i] == s[i] && init[j] == s[j];
        }
      }
      ExceptIdsSpec(init, existing, ids);
      var e := ExceptIds(init, existing);
      if !(y in existing || y in e) {
        forall x | x in e
          ensures FirstIndex(ids, x) < FirstIndex(ids, y)
        {
          var i :| 0 <= i < |init| && init[i] == x;
          assert s[i] == x && i < |s| - 1;
        }
        AppendKeepsOrder(e, y, ids);
      }
    }
  }

  function RequestedMenuItemIds(dto: OrderHeaderCreateDto): seq<int> {
    seq(|dto.orderDetailsDto|, i requires 0 <= i < |dto.orderDetailsDto| => dto.orderDetailsDto[i].menuItemId)
  }

  function InvalidMenuItemIds(dto: OrderHeaderCreateDto, existing: set<int>): seq<int> {
    ExceptIds(Distinct(RequestedMenuItemIds(dto)), existing)
  }

  /**
   * The reported ids are exactly the requested menu-item ids absent from the
   * store, each once, in the order in which they first appear in the request.
   */
  lemma InvalidMenuItemIdsSpec(dto: OrderHeaderCreateDto, existing: set<int>)
    ensures var ids, r := RequestedMenuItemIds(dto), InvalidMenuItemIds(dto, existing);
            && (forall x :: x in r <==> x in ids && x !in existing)
            && NoDuplicates(r)
            && FirstOccurrenceOrder(r, ids)
  {
    var ids := RequestedMenuItemIds(dto);
    DistinctSpec(ids);
    ExceptIdsSpec(Distinct(ids), existing, ids);
  }

  function IdList(ids: seq<int>): seq<string> {
    seq(|ids|, i requires 0 <= i < |ids| => IntToString(ids[i]))
  }

  /** The first failing check, in the order the endpoint makes them. */
  function ValidationError(dto: OrderHeaderCreateDto, modelStateValid: bool, users: set<string>, existing: set<int>): Option<string> {
    if !modelStateValid then Some("Invalid model state")
    else if dto.applicationUserId !in users then Some("Invalid ApplicationUserId. User does not exist.")
    else
      var invalid := InvalidMenuItemIds(dto, existing);
      if invalid != [] then Some("Invalid MenuItemIds: " + Join(", ", IdList(invalid))) else None
  }

  /** A request passes validation exactly when the model is valid, the user exists and every line's menu item exists. */
  lemma ValidationAcceptsExactly(dto: OrderHeaderCreateDto, modelStateValid: bool, users: set<string>, existing: set<int>)
    ensures ValidationError(dto, modelStateValid, users, existing).None? <==>
      && modelStateValid
      && dto.applicationUserId in users
      && forall d :: d in dto.orderDetailsDto ==> d.menuItemId in existing
  {
    InvalidMenuItemIdsSpec(dto, existing);
    var ids := RequestedMenuItemIds(dto);
    var invalid := InvalidMenuItemIds(dto, existing);
    if invalid == [] {
      forall d | d in dto.orderDetailsDto
        ensures d.menuItemId in existing
      {
        var i :| 0 <= i < |dto.orderDetailsDto| && dto.orderDetailsDto[i] == d;
        assert ids[i] == d.menuItemId;
      }
    } else {
      var x := invalid[0];
      assert x in invalid;
      assert x in ids;
      var i :| 0 <= i < |ids| && ids[i] == x;
      assert dto.orderDetailsDto[i] in dto.orderDetailsDto;
    }
  }

  function NewHeader(dto: OrderHeaderCreateDto, id: int, now: string): OrderHeader {
    OrderHeader(id, dto.applicationUserId, dto.pickupName, dto.pickupPhoneNumber, dto.pickupEmail,
      dto.orderTotal, now, dto.stripePaymentIntentId, dto.totalItems,
      if dto.status == "" then OrderStatuses.Name(OrderStatuses.Pending) else dto.status)
  }

  function NewDetail(d: OrderDetailCreateDto, headerId: int): OrderDetail {
    OrderDetail(headerId, d.itemName, d.menuItemId, d.price, d.quantity)
  }

  function NewDetails(ds: seq<OrderDetailCreateDto>, headerId: int): seq<OrderDetail> {
    seq(|ds|, i requires 0 <= i < |ds| => NewDetail(ds[i], headerId))
  }

  function DetailsTotal(ds: seq<OrderDetail>): real {
    if ds == [] then 0.0 else DetailsTotal(ds[..|ds| - 1]) + ds[|ds| - 1].quantity as real * ds[|ds| - 1].price
  }

  /**
   * The server copies the request's total instead of recomputing it: there is
   * a request whose stored total differs from the sum over its stored lines.
   */
  lemma OrderTotalNotRecomputed()
    ensures exists dto: OrderHeaderCreateDto ::
      NewHeader(dto, 1, "").orderTotal != DetailsTotal(NewDetails(dto.orderDetailsDto, 1))
  {
    var dto := OrderHeaderCreateDto("u", "n", "p", "e", 0.0, 1, "pi", "", [OrderDetailCreateDto(7, "Tea", 2.5, 1)]);
    var ds := NewDetails(dto.orderDetailsDto, 1);
    assert ds == [OrderDetail(1, "Tea", 7, 2.5, 1)];
    assert DetailsTotal(ds) == 2.5;
  }

  function BadRequest<T>(message: string): ActionResult<T> {
    ActionResult(StatusBadRequest, ApiResponse(StatusBadRequest, false, [message], None))
  }

  function DbError<T>(message: string, inner: string): ActionResult<T> {
    ActionResult(StatusInternalServerError, ApiResponse(StatusInternalServerError, false,
      ["A database error occurred while creating the order.", "Error details: " + message, "Inner exception: " + inner],
      None))
  }

  /** Appending a row that carries the next id keeps the ids positive, distinct and below the counter. */
  lemma HeaderAppendValid(headers: seq<OrderHeader>, next: int, h: OrderHeader)
    requires HeaderIdsValid(headers, next) && h.orderHeaderId == next
    ensures HeaderIdsValid(headers + [h], next + 1)
  {
  }

  /**
   * The checks of `POST order`, in their order: model state, then the user,
   * then the menu-item ids; the first failing check gives the message, and
   * the request passes exactly when every line names a stored menu item.
   */
  method ValidateOrder(db: AppDb, dto: OrderHeaderCreateDto, modelStateValid: bool) returns (err: Option<string>)
    ensures !modelStateValid ==> err == Some("Invalid model state")
    ensures modelStateValid && dto.applicationUserId !in db.users ==>
              err == Some("Invalid ApplicationUserId. User does not exist.")
    ensures modelStateValid && dto.applicationUserId in db.users ==>
              && (err.None? <==> forall d :: d in dto.orderDetailsDto ==> d.menuItemId in MenuItemIds(db.menuItems))
              && (err.Some? ==>
                    err.value == "Invalid MenuItemIds: " + Join(", ", IdList(InvalidMenuItemIds(dto, MenuItemIds(db.menuItems)))))
  {
    ValidationAcceptsExactly(dto, modelStateValid, db.users, MenuItemIds(db.menuItems));
    if !modelStateValid {
      return Some("Invalid model state");
    }
    if dto.applicationUserId !in db.users {
      return Some("Invalid ApplicationUserId. User does not exist.");
    }
    var invalid := InvalidMenuItemIds(dto, MenuItemIds(db.menuItems));
    if invalid != [] {
      return Some("Invalid MenuItemIds: " + Join(", ", IdList(invalid)));
    }
    return None;
  }

  /**
   * The two saves of `POST order` after validation: the header (receiving the
   * next id), then, separately, one detail per request line. A failure of
   * the second save leaves the header stored without details.
   */
  method SaveOrder(db: AppDb, dto: OrderHeaderCreateDto, now: string, fault: SaveFault)
    returns (resp: ActionResult<CreatedOrder>)
    requires db.Valid()
    modifies db`orderHeaders, db`nextOrderHeaderId, db`orderDetails
    ensures db.Valid()
    ensures fault.HeaderSaveFails? ==>
              && resp == DbError(fault.message, fault.inner)
              && db.orderHeaders == old(db.orderHeaders) && db.orderDetails == old(db.orderDetails)
              && db.nextOrderHeaderId == old(db.nextOrderHeaderId)
    ensures !fault.HeaderSaveFails? ==>
              && db.orderHeaders == old(db.orderHeaders) + [NewHeader(dto, old(db.nextOrderHeaderId), now)]
              && db.nextOrderHeaderId == old(db.nextOrderHeaderId) + 1
    ensures fault.DetailsSaveFails? ==>
              resp == DbError(fault.message, fault.inner) && db.orderDetails == old(db.orderDetails)
    ensures fault.NoFault? ==>
              && db.orderDetails == old(db.orderDetails) + NewDetails(dto.orderDetailsDto, old(db.nextOrderHeaderId))
              && resp == ActionResult(StatusCreated, ApiResponse(StatusCreated, true, [],
                           Some(CreatedOrder(NewHeader(dto, old(db.nextOrderHeaderId), now), None))))
  {
    if fault.HeaderSaveFails? {
      return DbError(fault.message, fault.inner);
    }
    var order := NewHeader(dto, db.nextOrderHeaderId, now);
    HeaderAppendValid(db.orderHeaders, db.nextOrderHeaderId, order);
    db.orderHeaders := db.orderHeaders + [order];
    db.nextOrderHeaderId := db.nextOrderHeaderId + 1;

    var staged: seq<OrderDetail> := [];
    for i := 0 to |dto.orderDetailsDto|
      invariant |staged| == i
      invariant forall k :: 0 <= k < i ==> staged[k] == NewDetail(dto.orderDetailsDto[k], order.orderHeaderId)
    {
      staged := staged + [NewDetail(dto.orderDetailsDto[i], order.orderHeaderId)];
    }
    assert staged == NewDetails(dto.orderDetailsDto, order.orderHeaderId);
    if fault.DetailsSaveFails? {
      return DbError(fault.message, fault.inner);
    }
    db.orderDetails := db.orderDetails + staged;
    resp := ActionResult(StatusCreated, ApiResponse(StatusCreated, true, [], Some(CreatedOrder(order, None))));
  }

  /**
   * `POST order`. Validation comes first and a failing check writes nothing;
   * then the two saves.
   */
  method CreateOrder(db: AppDb, dto: OrderHeaderCreateDto, modelStateValid: bool, now: string, fault: SaveFault)
    returns (resp: ActionResult<CreatedOrder>)
    requires db.Valid()
    modifies db`orderHeaders, db`nextOrderHeaderId, db`orderDetails
    ensures db.Valid()
    ensures var err := ValidationError(dto, modelStateValid, db.users, MenuItemIds(db.menuItems));
            err.Some? ==>
              && resp == BadRequest(err.value)
              && db.orderHeaders == old(db.orderHeaders) && db.orderDetails == old(db.orderDetails)
              && db.nextOrderHeaderId == old(db.nextOrderHeaderId)
    ensures var err := ValidationError(dto, modelStateValid, db.users, MenuItemIds(db.menuItems));
            var header := NewHeader(dto, old(db.nextOrderHeaderId), now);
            && (err.None? && fault.HeaderSaveFails? ==>
                  && resp == DbError(fault.message, fault.inner)
                  && db.orderHeaders == old(db.orderHeaders) && db.orderDetails == old(db.orderDetails)
                  && db.nextOrderHeaderId == old(db.nextOrderHeaderId))
            && (err.None? && !fault.HeaderSaveFails? ==>
                  && db.orderHeaders == old(db.orderHeaders) + [header]
                  && db.nextOrderHeaderId == old(db.nextOrderHeaderId) + 1)
            && (err.None? && fault.DetailsSaveFails? ==>
                  && resp == DbError(fault.message, fault.inner)
                  && db.orderDetails == old(db.orderDetails))
            && (err.None? && fault.NoFault? ==>
                  && db.orderDetails == old(db.orderDetails) + NewDetails(dto.orderDetailsDto, header.orderHeaderId)
                  && resp == ActionResult(StatusCreated, ApiResponse(StatusCreated, true, [], Some(CreatedOrder(header, None)))))
  {
    var err := ValidateOrder(db, dto, modelStateValid);
    ValidationAcceptsExactly(dto, modelStateValid, db.users, MenuItemIds(db.menuItems));
    if err.Some? {
      return BadRequest(err.value);
    }
    resp := SaveOrder(db, dto, now, fault);
  }

  // ---------------------------------------------------------------- update

  datatype OrderHeaderUpdateDto = OrderHeaderUpdateDto(
    orderHeaderId: int,
    pickupName: string,
    pickupPhoneNumber: string,
    pickupEmail: string,
    stripePaymentIntentId: string,
    status: string)

  /** The five overwritten fields; the status is taken as given, whatever it is. */
  function ApplyUpdate(h: OrderHeader, dto: OrderHeaderUpdateDto): OrderHeader {
    h.(pickupName := dto.pickupName, pickupPhoneNumber := dto.pickupPhoneNumber, pickupEmail := dto.pickupEmail,
       stripePaymentIntentId := dto.stripePaymentIntentId, status := dto.status)
  }

  /**
   * `PUT order/{id}`: 400 for a missing body or an id mismatch, 404 for an
   * unknown id, otherwise the five fields of that one row are overwritten,
   * with no check of the status transition, and nothing else changes.
   */
  method UpdateOrder(db: AppDb, id: int, dto: Option<OrderHeaderUpdateDto>) returns (resp: ActionResult<OrderHeader>)
    requires db.Valid()
    modifies db`orderHeaders
    ensures db.Valid()
    ensures dto.None? || id != dto.value.orderHeaderId ==>
              resp == BadRequest("Invalid input data") && db.orderHeaders == old(db.orderHeaders)
    ensures dto.Some? && id == dto.value.orderHeaderId && FindHeader(old(db.orderHeaders), id).None? ==>
              && resp == ActionResult(StatusNotFound, ApiResponse(StatusNotFound, false, ["Order not found"], None))
              && db.orderHeaders == old(db.orderHeaders)
    ensures dto.Some? && id == dto.value.orderHeaderId && FindHeader(old(db.orderHeaders), id).Some? ==>
              var k := FindHeader(old(db.orderHeaders), id).value;
              var updated := ApplyUpdate(old(db.orderHeaders)[k], dto.value);
              && db.orderHeaders == old(db.orderHeaders)[k := updated]
              && updated.status == dto.value.status
              && resp == ActionResult(StatusOk, ApiResponse(StatusOk, true, [], Some(updated)))
  {
    if dto.None? || id != dto.value.orderHeaderId {
      return BadRequest("Invalid input data");
    }
    var found := FindHeader(db.orderHeaders, id);
    if found.None? {
      return ActionResult(StatusNotFound, ApiResponse(StatusNotFound, false, ["Order not found"], None));
    }
    var k := found.value;
    var orderFromDb := ApplyUpdate(db.orderHeaders[k], dto.value);
    db.orderHeaders := db.orderHeaders[k := orderFromDb];
    resp := ActionResult(StatusOk, ApiResponse(StatusOk, true, [], Some(orderFromDb)));
  }

  /**
   * The update keeps the row's identity, owner, totals, item count and date,
   * and any status may replace any other: a delivered order can be put back
   * to pending.
   */
  lemma UpdateKeepsOtherFields(h: OrderHeader, dto: OrderHeaderUpdateDto)
    ensures var r := ApplyUpdate(h, dto);
            && r.orderHeaderId == h.orderHeaderId && r.applicationUserId == h.applicationUserId
            && r.orderTotal == h.orderTotal && r.totalItems == h.totalItems && r.orderDate == h.orderDate
            && r.status == dto.status
            && ApplyUpdate(r, dto) == r
  {
  }
}
