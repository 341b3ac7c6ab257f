/**
 * The client's order API definitions: how a create-order answer and a
 * create-order failure are normalised into one envelope, which query
 * parameters the order listing sends, and the request that updates an
 * order header. JSON values are modelled structurally; `JNull` stands for
 * both `null` and `undefined`, and a key absent from an object reads as
 * `undefined`.
 */
module OrderApi {
  import opened Wrappers
  import opened Strings

  datatype Json =
    | JNull
    | JBool(b: bool)
    | JNum(n: real)
    | JStr(s: string)
    | JArr(items: seq<Json>)
    | JObj(fields: map<string, Json>)

  /** JavaScript truthiness (NaN is not modelled). */
  predicate Truthy(j: Json) {
    match j
    case JNull => false
    case JBool(b) => b
    case JNum(n) => n != 0.0
    case JStr(s) => s != ""
    case _ => true
  }

  /** `obj.key`: `undefined` when the key is absent. */
  function Get(obj: map<string, Json>, key: string): Json {
    if key in obj then obj[key] else JNull
  }

  /** `obj.key ?? fallback`. */
  function Coalesce(obj: map<string, Json>, key: string, fallback: Json): Json {
    if Get(obj, key) != JNull then Get(obj, key) else fallback
  }

  // ---------------------------------------------------------------- createOrder

  /** `transformResponse` of `createOrder`: the answer as `{isSuccess, result, errorMessages}`. */
  function TransformResponse(response: map<string, Json>): map<string, Json> {
    map[
      "isSuccess" := Coalesce(response, "isSuccess", JBool(true)),
      "result" := Coalesce(response, "result", JObj(response)),
      "errorMessages" := Coalesce(response, "errorMessages", JArr([]))]
  }

  /**
   * `isSuccess` is the answer's own when present and `true` otherwise;
   * `result` is the answer's own when present, otherwise the whole answer;
   * `errorMessages` defaults to the empty list; and normalising twice
   * changes nothing more.
   */
  lemma TransformResponseSpec(response: map<string, Json>)
    ensures var t := TransformResponse(response);
            && t.Keys == {"isSuccess", "result", "errorMessages"}
            && (Get(response, "isSuccess") != JNull ==> t["isSuccess"] == response["isSuccess"])
            && (Get(response, "isSuccess") == JNull ==> t["isSuccess"] == JBool(true))
            && (Get(response, "result") != JNull ==> t["result"] == response["result"])
            && (Get(response, "result") == JNull ==> t["result"] == JObj(response))
            && (Get(response, "errorMessages") != JNull ==> t["errorMessages"] == response["errorMessages"])
            && (Get(response, "errorMessages") == JNull ==> t["errorMessages"] == JArr([]))
            && (forall k :: k in t ==> t[k] != JNull)
            && TransformResponse(t) == t
  {
    var t := TransformResponse(response);
    assert TransformResponse(t) == t by {
      assert Get(t, "isSuccess") == t["isSuccess"] != JNull;
      assert Get(t, "result") == t["result"] != JNull;
      assert Get(t, "errorMessages") == t["errorMessages"] != JNull;
    }
  }

  /** The server's envelope as it arrives: status code, success flag, messages and result. */
  function ServerEnvelope(statusCode: int, isSuccess: bool, errorMessages: seq<string>, result: Json): map<string, Json> {
    map[
      "statusCode" := JNum(statusCode as real),
      "isSuccess" := JBool(isSuccess),
      "errorMessages" := JArr(seq(|errorMessages|, i requires 0 <= i < |errorMessages| => JStr(errorMessages[i]))),
      "result" := result]
  }

  /**
   * A server envelope keeps its flag and messages; its result is kept when
   * non-null, and a null result is replaced by the whole envelope.
   */
  lemma TransformServerEnvelope(statusCode: int, isSuccess: bool, errorMessages: seq<string>, result: Json)
    ensures var e := ServerEnvelope(statusCode, isSuccess, errorMessages, result);
            var t := TransformResponse(e);
            && t["isSuccess"] == JBool(isSuccess)
            && t["errorMessages"] == e["errorMessages"]
            && |t["errorMessages"].items| == |errorMessages|
            && t["result"] == if result == JNull then JObj(e) else result
  {
  }

  const UnknownError: string := "An unknown error occurred"

  /**
   * `transformErrorResponse` of `createOrder`. Reading `.message` of a null
   * or undefined `data` throws, which is `None` here; a `data` that is not
   * an object has no `message`.
   */
  function TransformErrorResponse(data: Json): Option<map<string, Json>> {
    if data == JNull then None
    else
      var message := if data.JObj? then Get(data.fields, "message") else JNull;
      Some(map[
        "isSuccess" := JBool(false),
        "result" := JNull,
        "errorMessages" := JArr([if Truthy(message) then message else JStr(UnknownError)])])
  }

  /**
   * Any failure with a body becomes an unsuccessful envelope with a null
   * result and exactly one message: the body's `message` when truthy, the
   * default text otherwise.
   */
  lemma TransformErrorResponseSpec(data: Json)
    ensures TransformErrorResponse(data).None? <==> data == JNull
    ensures data != JNull ==>
              var t := TransformErrorResponse(data).value;
              && t["isSuccess"] == JBool(false) && t["result"] == JNull
              && t["errorMessages"].JArr? && |t["errorMessages"].items| == 1
              && Truthy(t["errorMessages"].items[0])
              && (data.JObj? && Truthy(Get(data.fields, "message")) ==> t["errorMessages"].items[0] == data.fields["message"])
              && (!data.JObj? || !Truthy(Get(data.fields, "message")) ==> t["errorMessages"].items[0] == JStr(UnknownError))
  {
  }

  // ---------------------------------------------------------------- getAllOrders

  /** What the listing page passes to `getAllOrders`. */
  datatype ListArgs = ListArgs(userId: string, searchString: string, status: string, pageNumber: int, pageSize: int)

  /** A query parameter as sent: its name and its rendered value. */
  datatype Param = Param(name: string, value: string)

  function IfString(name: string, value: string): seq<Param> {
    if value != "" then [Param(name, value)] else []
  }

  function IfNumber(name: string, value: int): seq<Param> {
    if value != 0 then [Param(name, IntToString(value))] else []
  }

  /** The conditional spreads: a parameter is sent only when its value is truthy. */
  function GetAllOrdersParams(args: ListArgs): seq<Param> {
    IfString("userId", args.userId) + IfString("searchString", args.searchString) + IfString("status", args.status)
    + IfNumber("pageSize", args.pageSize) + IfNumber("pageNumber", args.pageNumber)
  }

  /**
   * The value sent under `name`, if that parameter is sent. The first
   * binding wins, whereas an object spread keeps the last one; the two agree
   * because the listing's parameters are built with distinct names.
   */
  function Lookup(params: seq<Param>, name: string): Option<string> {
    if params == [] then None
    else if params[0].name == name then Some(params[0].value)
    else Lookup(params[1..], name)
  }

  lemma {:induction false} LookupAppend(a: seq<Param>, b: seq<Param>, name: string)
    ensures Lookup(a + b, name) == if Lookup(a, name).Some? then Lookup(a, name) else Lookup(b, name)
  {
    if a == [] {
      assert a + b == b;
    } else {
      assert (a + b)[0] == a[0];
      assert (a + b)[1..] == a[1..] + b;
      LookupAppend(a[1..], b, name);
    }
  }

  /**
   * Each parameter is sent exactly when its value is truthy, at most once,
   * carrying that value (numbers in decimal).
   */
  lemma GetAllOrdersParamsSpec(args: ListArgs)
    ensures var p := GetAllOrdersParams(args);
            && |p| <= 5
            && (forall i, j :: 0 <= i < j < |p| ==> p[i].name != p[j].name)
            && Lookup(p, "userId") == (if args.userId != "" then Some(args.userId) else None)
            && Lookup(p, "searchString") == (if args.searchString != "" then Some(args.searchString) else None)
            && Lookup(p, "status") == (if args.status != "" then Some(args.status) else None)
            && Lookup(p, "pageSize") == (if args.pageSize != 0 then Some(IntToString(args.pageSize)) else None)
            && Lookup(p, "pageNumber") == (if args.pageNumber != 0 then Some(IntToString(args.pageNumber)) else None)
  {
    var a := IfString("userId", args.userId);
    var b := IfString("searchString", args.searchString);
    var c := IfString("status", args.status);
    var d := IfNumber("pageSize", args.pageSize);
    var e := IfNumber("pageNumber", args.pageNumber);
    LookupOfFive(a, b, c, d, e, "userId");
    LookupOfFive(a, b, c, d, e, "searchString");
    LookupOfFive(a, b, c, d, e, "status");
    LookupOfFive(a, b, c, d, e, "pageSize");
    LookupOfFive(a, b, c, d, e, "pageNumber");
  }

  lemma LookupOfFive(a: seq<Param>, b: seq<Param>, c: seq<Param>, d: seq<Param>, e: seq<Param>, name: string)
    requires |a| <= 1 && |b| <= 1 && |c| <= 1 && |d| <= 1 && |e| <= 1
    ensures Lookup(a + b + c + d + e, name) ==
              if |a| == 1 && a[0].name == name then Some(a[0].value)
              else if |b| == 1 && b[0].name == name then Some(b[0].value)
              else if |c| == 1 && c[0].name == name then Some(c[0].value)
              else if |d| == 1 && d[0].name == name then Some(d[0].value)
              else if |e| == 1 && e[0].name == name then Some(e[0].value)
              else None
  {
    LookupAppend(a + b + c + d, e, name);
    LookupAppend(a + b + c, d, name);
    LookupAppend(a + b, c, name);
    LookupAppend(a, b, name);
    LookupSingle(a, name);
    LookupSingle(b, name);
    LookupSingle(c, name);
    LookupSingle(d, name);
    LookupSingle(e, name);
  }

  lemma LookupSingle(a: seq<Param>, name: string)
    requires |a| <= 1
    ensures Lookup(a, name) == if |a| == 1 && a[0].name == name then Some(a[0].value) else None
  {
    if |a| == 1 {
      assert a[1..] == [];
    }
  }

  // ---------------------------------------------------------------- updateOrderHeader

  /** The body the order summary sends; it has no payment-intent field. */
  datatype UpdateRequest = UpdateRequest(orderHeaderId: int, status: string, pickupName: string, pickupPhoneNumber: string, pickupEmail: string)

  datatype HttpRequest = HttpRequest(httpMethod: string, url: string, body: UpdateRequest)

  const OrderPath: string := "order/"

  function UpdateOrderHeader(body: UpdateRequest): HttpRequest {
    HttpRequest("PUT", OrderPath + IntToString(body.orderHeaderId), body)
  }

  /** The update goes by PUT to `order/<id>`, and the id read back from the URL is the body's id. */
  lemma UpdateOrderHeaderUrl(body: UpdateRequest)
    ensures var r := UpdateOrderHeader(body);
            && r.httpMethod == "PUT"
            && |r.url| > |OrderPath| && r.url[..|OrderPath|] == "order/"
            && ParseInt(r.url[|OrderPath|..]) == body.orderHeaderId
  {
    var r := UpdateOrderHeader(body);
    assert r.url[|OrderPath|..] == IntToString(body.orderHeaderId);
    ParseIntToString(body.orderHeaderId);
  }
}
