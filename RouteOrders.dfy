/**
 * The third draft of the order handlers, routes/orderRoutes.js, with its own field names:
 * `email`, `customerName`, `address`, `couponCode` and `razorpayOrderId` /
 * `razorpayPaymentId` / `razorpaySignature`. Every handler runs behind a token check that
 * supplies the caller's email. The ids are random (`RandomOrderId`), and the collection keeps
 * the unique `orderId` index.
 */
module RouteOrders {
  import opened Wrappers
  import opened Http
  import opened Query
  import opened Secrets
  import opened Gateway
  import opened OrderModel
  import opened InlineOrderIds
  import opened Checkout

  /** The object `buildOrderFromPayload` returns. */
  datatype BaseOrder = BaseOrder(
    orderId: string,
    email: string,
    customerName: string,
    phone: string,
    address: string,
    items: seq<Item>,
    subtotal: real,
    discount: real,
    total: real,
    couponCode: Option<string>)

  /** A stored document of this draft. */
  datatype RouteOrder = RouteOrder(
    docId: nat,
    base: BaseOrder,
    paymentMethod: PaymentMethod,
    status: Status,
    razorpayOrderId: Option<string>,
    razorpayPaymentId: Option<string>,
    razorpaySignature: Option<string>,
    createdAt: int)

  /**
   * `buildOrderFromPayload(payload, email)`: a fresh random id, the token email, and `''`,
   * `[]`, `0` or `null` for what the payload leaves out (an empty coupon code is `null`).
   */
  function BuildOrderFromPayload(body: CheckoutBody, email: string, year: nat, draw: nat): (b: BaseOrder)
    requires draw < 10000
    ensures b.orderId == RandomOrderId(year, draw) && b.email == email
    ensures body.customer.None? ==> b.customerName == "" && b.phone == "" && b.address == ""
    ensures body.customer.Some? ==>
      b.customerName == body.customer.value.name && b.phone == body.customer.value.phone
      && b.address == body.customer.value.address
    ensures b.items == body.cart && b.subtotal == body.subtotal && b.discount == body.discount
    ensures b.total == body.total
    ensures b.couponCode == if body.couponCode == Some("") then None else body.couponCode
  {
    var c := if body.customer.Some? then body.customer.value else Customer("", "", "", "");
    BaseOrder(RandomOrderId(year, draw), email, c.name, c.phone, c.address, body.cart,
              body.subtotal, body.discount, body.total,
              if body.couponCode == Some("") then None else body.couponCode)
  }

  /** The email in the payload is never read: only the token's email is stored. */
  lemma PayloadEmailIgnored(body: CheckoutBody, c: Customer, other: string, email: string, year: nat, draw: nat)
    requires draw < 10000 && body.customer == Some(c)
    ensures BuildOrderFromPayload(body.(customer := Some(c.(email := other))), email, year, draw)
         == BuildOrderFromPayload(body, email, year, draw)
  {
  }

  /** `Math.round(x)`: the nearest integer, halves rounded up. */
  function Round(x: real): (n: int)
    ensures n as real - 0.5 <= x < n as real + 0.5
  {
    (x + 0.5).Floor
  }

  predicate UniqueRouteIds(orders: seq<RouteOrder>) {
    forall i, j :: 0 <= i < j < |orders| ==> orders[i].base.orderId != orders[j].base.orderId
  }

  predicate RouteWellFormed(orders: seq<RouteOrder>) {
    UniqueRouteIds(orders) && forall i :: 0 <= i < |orders| ==> orders[i].docId == i
  }

  /** `Order.create(doc)` succeeds unless the unique index already holds the id. */
  predicate RouteAccepts(orders: seq<RouteOrder>, o: RouteOrder) {
    forall i :: 0 <= i < |orders| ==> orders[i].base.orderId != o.base.orderId
  }

  function RouteInserted(orders: seq<RouteOrder>, o: RouteOrder): (r: seq<RouteOrder>)
    ensures |r| == |orders| + 1 && r[..|orders|] == orders && r[|orders|] == o.(docId := |orders|)
  {
    orders + [o.(docId := |orders|)]
  }

  lemma RouteInsertKeepsWellFormed(orders: seq<RouteOrder>, o: RouteOrder)
    requires RouteWellFormed(orders) && RouteAccepts(orders, o)
    ensures RouteWellFormed(RouteInserted(orders, o))
  {
    var r := RouteInserted(orders, o);
    forall i, j | 0 <= i < j < |r| ensures r[i].base.orderId != r[j].base.orderId {
      assert r[i] == orders[i];
      if j < |orders| { assert r[j] == orders[j]; }
    }
  }

  lemma RouteReplaceKeepsWellFormed(orders: seq<RouteOrder>, i: nat, o: RouteOrder)
    requires RouteWellFormed(orders) && i < |orders|
    requires o.docId == orders[i].docId && o.base.orderId == orders[i].base.orderId
    ensures RouteWellFormed(orders[i := o])
  {
    var r := orders[i := o];
    forall a, b | 0 <= a < b < |r| ensures r[a].base.orderId != r[b].base.orderId {
      assert r[a].base.orderId == orders[a].base.orderId && r[b].base.orderId == orders[b].base.orderId;
    }
  }

  /** This draft's collection of orders. */
  class RouteOrderStore {
    var orders: seq<RouteOrder>

    ghost predicate Valid()
      reads this
    {
      RouteWellFormed(orders)
    }

    constructor ()
      ensures Valid() && orders == []
    {
      orders := [];
    }

    /** `Order.create(doc)`. */
    method Create(o: RouteOrder) returns (ok: bool)
      requires Valid()
      modifies this
      ensures Valid()
      ensures ok == RouteAccepts(old(orders), o)
      ensures orders == if ok then RouteInserted(old(orders), o) else old(orders)
    {
      ok := true;
      var i := 0;
      while i < |orders|
        invariant 0 <= i <= |orders|
        invariant ok <==> forall j :: 0 <= j < i ==> orders[j].base.orderId != o.base.orderId
      {
        if orders[i].base.orderId == o.base.orderId {
          ok := false;
        }
        i := i + 1;
      }
      if ok {
        RouteInsertKeepsWellFormed(orders, o);
        orders := orders + [o.(docId := |orders|)];
      }
    }

    /** `order.save()` of a fetched document whose id is unchanged. */
    method Replace(i: nat, o: RouteOrder)
      requires Valid() && i < |orders|
      requires o.docId == orders[i].docId && o.base.orderId == orders[i].base.orderId
      modifies this
      ensures Valid()
      ensures orders == old(orders)[i := o]
    {
      RouteReplaceKeepsWellFormed(orders, i, o);
      orders := orders[i := o];
    }
  }

  datatype RouteWrite = RouteWrite(reply: Reply<string>, orders: seq<RouteOrder>)
  datatype RouteCreate = RouteCreate(reply: Reply<OnlineCreated>, call: Option<GatewayRequest>, orders: seq<RouteOrder>)

  function NewRouteOrder(b: BaseOrder, pay: PaymentMethod, status: Status, ms: nat): RouteOrder {
    RouteOrder(0, b, pay, status, None, None, None, ms)
  }

  // ---------------------------------------------------------------- cod

  /** POST /cod: the base order, `Cash on Delivery` and `Pending (COD)`, inserted; 500 if refused. */
  function RouteCod(orders: seq<RouteOrder>, body: CheckoutBody, email: string, clock: Clock, draw: nat): RouteWrite
    requires draw < 10000
  {
    var o := NewRouteOrder(BuildOrderFromPayload(body, email, clock.year, draw), CashOnDelivery, PendingCod, clock.ms);
    if RouteAccepts(orders, o) then RouteWrite(Ok(o.base.orderId), RouteInserted(orders, o))
    else RouteWrite(Fail(ServerError, "Could not place COD order."), orders)
  }

  method Cod(store: RouteOrderStore, body: CheckoutBody, email: string, clock: Clock, draw: nat) returns (reply: Reply<string>)
    requires store.Valid() && draw < 10000
    modifies store
    ensures store.Valid()
    ensures RouteWrite(reply, store.orders) == RouteCod(old(store.orders), body, email, clock, draw)
  {
    var base := BuildOrderFromPayload(body, email, clock.year, draw);
    var o := NewRouteOrder(base, CashOnDelivery, PendingCod, clock.ms);
    var ok := store.Create(o);
    if ok {
      reply := Ok(base.orderId);
    } else {
      reply := Fail(ServerError, "Could not place COD order.");
    }
  }

  /** A COD order is inserted with `Cash on Delivery`, `Pending (COD)` and the token email, whatever its total. */
  lemma RouteCodShape(orders: seq<RouteOrder>, body: CheckoutBody, email: string, clock: Clock, draw: nat)
    requires draw < 10000
    ensures var out := RouteCod(orders, body, email, clock, draw);
      && (out.reply.Fail? ==> out.orders == orders)
      && (out.reply.Ok? ==>
            && |out.orders| == |orders| + 1 && out.orders[..|orders|] == orders
            && var o := out.orders[|orders|];
               && o.base.orderId == out.reply.body == RandomOrderId(clock.year, draw)
               && o.paymentMethod == CashOnDelivery && o.status == PendingCod
               && o.base.email == email && o.base.total == body.total && o.razorpayOrderId.None?)
  {
  }

  // ---------------------------------------------------------------- create-razorpay-order

  /**
   * POST /create-razorpay-order: 500 without a configured gateway, 400 when the rounded paise
   * amount is not positive; otherwise the order is inserted as `Created` first, and the gateway
   * is asked only then; its id is added afterwards.
   */
  function RouteCreateOnline(orders: seq<RouteOrder>, configured: bool, body: CheckoutBody, email: string,
                             clock: Clock, draw: nat, gateway: GatewayReply): RouteCreate
    requires draw < 10000
  {
    if !configured then RouteCreate(Fail(ServerError, "Razorpay is not configured."), None, orders)
    else
      var base := BuildOrderFromPayload(body, email, clock.year, draw);
      var amount := Round(base.total * 100.0);
      if amount <= 0 then RouteCreate(Fail(BadRequest, "Invalid amount."), None, orders)
      else
        var o := NewRouteOrder(base, RazorpayOnlinePayment, Created, clock.ms);
        var failed := Fail(ServerError, "Could not create Razorpay order.");
        if !RouteAccepts(orders, o) then RouteCreate(failed, None, orders)
        else
          var saved := RouteInserted(orders, o);
          var call := Some(GatewayRequest(amount as real, "INR", base.orderId, Some(email)));
          match gateway
          case GatewayError => RouteCreate(failed, call, saved)
          case GatewayOrder(gid, paise) =>
            RouteCreate(Ok(OnlineCreated(base.orderId, gid, paise)), call,
                        saved[|orders| := saved[|orders|].(razorpayOrderId := Some(gid))])
  }

  method CreateRazorpayOrder(store: RouteOrderStore, configured: bool, body: CheckoutBody, email: string,
                             clock: Clock, draw: nat, gateway: GatewayReply)
    returns (reply: Reply<OnlineCreated>, call: Option<GatewayRequest>)
    requires store.Valid() && draw < 10000
    modifies store
    ensures store.Valid()
    ensures RouteCreate(reply, call, store.orders) == RouteCreateOnline(old(store.orders), configured, body, email, clock, draw, gateway)
  {
    call := None;
    if !configured {
      reply := Fail(ServerError, "Razorpay is not configured.");
      return;
    }
    var base := BuildOrderFromPayload(body, email, clock.year, draw);
    var amount := Round(base.total * 100.0);
    if amount <= 0 {
      reply := Fail(BadRequest, "Invalid amount.");
      return;
    }
    var o := NewRouteOrder(base, RazorpayOnlinePayment, Created, clock.ms);
    var ok := store.Create(o);
    reply := Fail(ServerError, "Could not create Razorpay order.");
    if !ok {
      return;
    }
    call := Some(GatewayRequest(amount as real, "INR", base.orderId, Some(email)));
    if gateway.GatewayError? {
      return;
    }
    var i := |store.orders| - 1;
    store.Replace(i, store.orders[i].(razorpayOrderId := Some(gateway.id)));
    reply := Ok(OnlineCreated(base.orderId, gateway.id, gateway.amount));
  }

  /** No gateway configured gives 500; a rounded amount of at most 0 paise gives 400; neither writes or calls. */
  lemma RouteCreateGuards(orders: seq<RouteOrder>, configured: bool, body: CheckoutBody, email: string,
                          clock: Clock, draw: nat, gateway: GatewayReply)
    requires draw < 10000
    ensures var out := RouteCreateOnline(orders, configured, body, email, clock, draw, gateway);
      && (!configured ==> out.reply.Fail? && out.reply.status == ServerError && out.call.None? && out.orders == orders)
      && (configured && Round(body.total * 100.0) <= 0 ==>
            out.reply == Fail(BadRequest, "Invalid amount.") && out.call.None? && out.orders == orders)
  {
  }

  /**
   * Once the guards pass and the id is free, the order is stored as `Created` before the gateway
   * call. A gateway failure answers 500 but keeps that order, without `razorpayOrderId`; a
   * gateway success adds only `razorpayOrderId`, and the status stays `Created`.
   */
  lemma RouteCreateInsertsFirst(orders: seq<RouteOrder>, body: CheckoutBody, email: string,
                                clock: Clock, draw: nat, gateway: GatewayReply)
    requires draw < 10000
    requires Round(body.total * 100.0) > 0
    requires RouteAccepts(orders, NewRouteOrder(BuildOrderFromPayload(body, email, clock.year, draw), RazorpayOnlinePayment, Created, clock.ms))
    ensures var out := RouteCreateOnline(orders, true, body, email, clock, draw, gateway);
      && var o := NewRouteOrder(BuildOrderFromPayload(body, email, clock.year, draw), RazorpayOnlinePayment, Created, clock.ms);
      && out.call == Some(GatewayRequest(Round(body.total * 100.0) as real, "INR", RandomOrderId(clock.year, draw), Some(email)))
      && |out.orders| == |orders| + 1 && out.orders[..|orders|] == orders
      && (gateway.GatewayError? ==> out.reply.Fail? && out.orders[|orders|] == o.(docId := |orders|))
      && (gateway.GatewayOrder? ==>
            && out.reply == Ok(OnlineCreated(o.base.orderId, gateway.id, gateway.amount))
            && out.orders[|orders|] == o.(docId := |orders|, razorpayOrderId := Some(gateway.id))
            && out.orders[|orders|].status == Created)
  {
    var out := RouteCreateOnline(orders, true, body, email, clock, draw, gateway);
    assert out.orders[..|orders|] == RouteInserted(orders, NewRouteOrder(BuildOrderFromPayload(body, email, clock.year, draw), RazorpayOnlinePayment, Created, clock.ms))[..|orders|];
  }

  // ---------------------------------------------------------------- verify-razorpay

  /** The order to update: the first bound to that gateway order id and owned by the caller. */
  function FindOwned(orders: seq<RouteOrder>, gatewayOrderId: string, email: string): (r: Option<nat>)
    ensures r.None? <==> forall i :: 0 <= i < |orders| ==> !(orders[i].razorpayOrderId == Some(gatewayOrderId) && orders[i].base.email == email)
    ensures r.Some? ==> r.value < |orders| && orders[r.value].razorpayOrderId == Some(gatewayOrderId) && orders[r.value].base.email == email
    ensures r.Some? ==> forall j :: 0 <= j < r.value ==> !(orders[j].razorpayOrderId == Some(gatewayOrderId) && orders[j].base.email == email)
  {
    FirstIndex(orders, (o: RouteOrder) => o.razorpayOrderId == Some(gatewayOrderId) && o.base.email == email)
  }

  function Paid(o: RouteOrder, cb: Callback): RouteOrder {
    o.(razorpayPaymentId := Some(cb.paymentId), razorpaySignature := Some(cb.signature), status := PaymentSuccessOnline)
  }

  /**
   * POST /verify-razorpay: 400 when a field is missing, then the signature (an unset secret
   * makes `createHmac` throw), and only then the lookup by gateway order id and token email.
   */
  function RouteVerify(orders: seq<RouteOrder>, hmac: Hmac, secret: Option<string>, cb: Callback, email: string): RouteWrite {
    if cb.orderId == "" || cb.paymentId == "" || cb.signature == "" then
      RouteWrite(Fail(BadRequest, "Missing Razorpay parameters."), orders)
    else if secret.None? then RouteWrite(Fail(ServerError, "Payment verification failed."), orders)
    else if ExpectedSignature(hmac, secret.value, cb.orderId, cb.paymentId) != cb.signature then
      RouteWrite(Fail(BadRequest, "Invalid payment signature."), orders)
    else
      match FindOwned(orders, cb.orderId, email)
      case None => RouteWrite(Fail(NotFound, "Order not found."), orders)
      case Some(i) => RouteWrite(Ok(orders[i].base.orderId), orders[i := Paid(orders[i], cb)])
  }

  method VerifyRazorpay(store: RouteOrderStore, hmac: Hmac, secret: Option<string>, cb: Callback, email: string)
    returns (reply: Reply<string>)
    requires store.Valid()
    modifies store
    ensures store.Valid()
    ensures RouteWrite(reply, store.orders) == RouteVerify(old(store.orders), hmac, secret, cb, email)
  {
    if cb.orderId == "" || cb.paymentId == "" || cb.signature == "" {
      reply := Fail(BadRequest, "Missing Razorpay parameters.");
      return;
    }
    if secret.None? {
      reply := Fail(ServerError, "Payment verification failed.");
      return;
    }
    if ExpectedSignature(hmac, secret.value, cb.orderId, cb.paymentId) != cb.signature {
      reply := Fail(BadRequest, "Invalid payment signature.");
      return;
    }
    var found := FindOwned(store.orders, cb.orderId, email);
    if found.None? {
      reply := Fail(NotFound, "Order not found.");
      return;
    }
    var i := found.value;
    var order := store.orders[i];
    store.Replace(i, Paid(order, cb));
    reply := Ok(order.base.orderId);
  }

  /** A missing field or a wrong signature answers 400 and changes nothing, whoever the caller is. */
  lemma RouteVerifyRejects(orders: seq<RouteOrder>, hmac: Hmac, secret: string, cb: Callback, email: string)
    requires cb.orderId == "" || cb.paymentId == "" || cb.signature == ""
             || hmac(secret, SignedText(cb.orderId, cb.paymentId)) != cb.signature
    ensures var out := RouteVerify(orders, hmac, Some(secret), cb, email);
      out.reply.Fail? && out.reply.status == BadRequest && out.orders == orders
  {
  }

  /**
   * Another user's order is never touched: with a valid signature, orders not owned by the
   * caller are unchanged, and when the caller owns none bound to that gateway order the answer
   * is 404. The answer is Ok exactly when the caller owns an order bound to that gateway order,
   * and then the first such order, and only it, gets the payment id, the signature and
   * `Payment Success (Online)`.
   */
  lemma RouteVerifyOwnerOnly(orders: seq<RouteOrder>, hmac: Hmac, secret: string, cb: Callback, email: string)
    requires cb.orderId != "" && cb.paymentId != "" && cb.signature != ""
    requires hmac(secret, SignedText(cb.orderId, cb.paymentId)) == cb.signature
    ensures var out := RouteVerify(orders, hmac, Some(secret), cb, email);
      && |out.orders| == |orders|
      && (forall i :: 0 <= i < |orders| && orders[i].base.email != email ==> out.orders[i] == orders[i])
      && ((forall i :: 0 <= i < |orders| ==> !(orders[i].razorpayOrderId == Some(cb.orderId) && orders[i].base.email == email))
            ==> out.reply == Fail(NotFound, "Order not found."))
      && (out.reply.Ok? <==> exists i :: 0 <= i < |orders| && orders[i].razorpayOrderId == Some(cb.orderId) && orders[i].base.email == email)
      && (out.reply.Ok? ==> exists i :: 0 <= i < |orders| && out.orders == orders[i := Paid(orders[i], cb)]
                                        && orders[i].razorpayOrderId == Some(cb.orderId) && orders[i].base.email == email
                                        && (forall j :: 0 <= j < i ==> !(orders[j].razorpayOrderId == Some(cb.orderId) && orders[j].base.email == email))
                                        && out.orders[i].status == PaymentSuccessOnline)
  {
    var r := FindOwned(orders, cb.orderId, email);
    if r.Some? {
      var i := r.value;
      assert RouteVerify(orders, hmac, Some(secret), cb, email).orders == orders[i := Paid(orders[i], cb)];
    }
  }

  /** Replaying the same callback leaves the collection as the first delivery did. */
  lemma RouteVerifyIdempotent(orders: seq<RouteOrder>, hmac: Hmac, secret: Option<string>, cb: Callback, email: string)
    ensures var once := RouteVerify(orders, hmac, secret, cb, email);
      RouteVerify(once.orders, hmac, secret, cb, email) == once
  {
    var once := RouteVerify(orders, hmac, secret, cb, email);
    var r := FindOwned(orders, cb.orderId, email);
    if once.reply.Ok? {
      var i := r.value;
      var after := once.orders;
      assert after == orders[i := Paid(orders[i], cb)];
      assert after[i].razorpayOrderId == Some(cb.orderId) && after[i].base.email == email;
      var r2 := FindOwned(after, cb.orderId, email);
      assert r2.value == i by {
        if r2.value < i {
          assert false;
        }
      }
      assert after[i := Paid(after[i], cb)] == after;
    }
  }

  // ---------------------------------------------------------------- my orders

  /** GET /my: every order of the token email, newest first, with no limit. */
  function RouteMyOrders(orders: seq<RouteOrder>, email: string): (r: seq<RouteOrder>)
    ensures forall i :: 0 <= i < |r| ==> r[i].base.email == email
    ensures SortedDesc(r, RouteCreatedAt)
    ensures forall o :: multiset(r)[o] == if o.base.email == email then multiset(orders)[o] else 0
  {
    var p := (o: RouteOrder) => o.base.email == email;
    var page := SortDesc(Filter(orders, p), RouteCreatedAt);
    SortedFilter(orders, p, RouteCreatedAt);
    page
  }

  function RouteCreatedAt(o: RouteOrder): int { o.createdAt }
}
