/**
 * The checkout handlers over the `Order` collection of models/Order.js, in the two drafts
 * that share that record: server.js and controllers/orderController.js. The drafts run the
 * same steps and differ only in how they read the customer and the token email, which
 * `Draft` selects. Each handler is one atomic step over the `OrderStore`; the clock, the
 * gateway reply, the key secret and HMAC are inputs.
 */
module Checkout {
  import opened Wrappers
  import opened Http
  import opened JsText
  import opened Query
  import opened Secrets
  import opened Gateway
  import opened OrderModel
  import opened InlineOrderIds

  /** server.js, or controllers/orderController.js. */
  datatype Draft = Server | Controller

  /** `customer` of the request body; an absent field is "". */
  datatype Customer = Customer(email: string, name: string, phone: string, address: string)

  /** The checkout request body; an absent cart is empty and an absent number is 0. */
  datatype CheckoutBody = CheckoutBody(
    cart: seq<Item>,
    subtotal: real,
    discount: real,
    total: real,
    customer: Option<Customer>,
    couponCode: Option<string>)

  /** The success body of create-razorpay-order: order id, gateway order id and echoed amount. */
  datatype OnlineCreated = OnlineCreated(orderId: string, razorpayOrderId: string, amount: real)

  /** The razorpay fields of a payment callback. */
  datatype Callback = Callback(orderId: string, paymentId: string, signature: string)

  /** What a write handler answers, what it asked the gateway (None: no call) and the collection after it. */
  datatype CreateOutcome = CreateOutcome(reply: Reply<OnlineCreated>, call: Option<GatewayRequest>, orders: seq<Order>)
  datatype WriteOutcome = WriteOutcome(reply: Reply<string>, orders: seq<Order>)

  /**
   * The buyer fields as each draft reads them. server.js dereferences `customer.email` and
   * so fails when there is no customer; the controller reads `customer?.x || ''` and lowercases
   * the email.
   */
  function Buyer(d: Draft, c: Option<Customer>): (b: Option<Customer>)
    ensures d == Server ==> b == c
    ensures d == Controller ==> b.Some? && b.value.email == ToLower(if c.Some? then c.value.email else "")
    ensures d == Controller && c.Some? ==> b.value.(email := c.value.email) == c.value
    ensures d == Controller && c.None? ==> b == Some(Customer("", "", "", ""))
  {
    match d
    case Server => c
    case Controller =>
      match c
      case None => Some(Customer("", "", "", ""))
      case Some(x) => Some(x.(email := ToLower(x.email)))
  }

  /** The document `new Order({...})` builds; the store assigns `_id` on insert. */
  function NewOrder(id: string, ms: nat, b: Customer, body: CheckoutBody, pay: PaymentMethod,
                    status: Status, gatewayId: Option<string>): (o: Order)
    ensures o.orderId == id && o.createdAt == ms && o.buyerEmail == b.email
    ensures o.items == body.cart && o.total == body.total && o.metadata == Metadata(body.couponCode)
    ensures o.paymentMethod == pay && o.status == status && o.razorpay_order_id == gatewayId
    ensures o.razorpay_payment_id.None? && o.razorpay_signature.None?
  {
    Order(0, id, ms, b.email, b.name, b.phone, b.address, body.cart, body.subtotal, body.discount,
          body.total, pay, status, None, gatewayId, None, Metadata(body.couponCode))
  }

  // ---------------------------------------------------------------- create-razorpay-order

  /**
   * POST /api/orders/create-razorpay-order: reject a non-positive total; otherwise ask the
   * gateway for an order of total * 100 paise, and only then build and save the document.
   */
  function CreateOnline(d: Draft, orders: seq<Order>, body: CheckoutBody, clock: Clock, gateway: GatewayReply): CreateOutcome {
    if body.total <= 0.0 then CreateOutcome(Fail(BadRequest, "Invalid total amount"), None, orders)
    else
      var id := TimestampOrderId(clock.year, clock.ms);
      var call := Some(GatewayRequest(body.total * 100.0, "INR", id, None));
      var failed := CreateOutcome(Fail(ServerError, "Could not create Razorpay order"), call, orders);
      match gateway
      case GatewayError => failed
      case GatewayOrder(gid, amount) =>
        match Buyer(d, body.customer)
        case None => failed
        case Some(b) =>
          var o := NewOrder(id, clock.ms, b, body, Razorpay, Created, Some(gid));
          if Accepts(orders, o) then CreateOutcome(Ok(OnlineCreated(id, gid, amount)), call, Inserted(orders, o))
          else failed
  }

  method CreateRazorpayOrder(d: Draft, store: OrderStore, body: CheckoutBody, clock: Clock, gateway: GatewayReply)
    returns (reply: Reply<OnlineCreated>, call: Option<GatewayRequest>)
    requires store.Valid()
    modifies store
    ensures store.Valid()
    ensures CreateOutcome(reply, call, store.orders) == CreateOnline(d, old(store.orders), body, clock, gateway)
  {
    if body.total <= 0.0 {
      reply := Fail(BadRequest, "Invalid total amount");
      call := None;
      return;
    }
    var id := TimestampOrderId(clock.year, clock.ms);
    call := Some(GatewayRequest(body.total * 100.0, "INR", id, None));
    reply := Fail(ServerError, "Could not create Razorpay order");
    if gateway.GatewayError? {
      return;
    }
    var buyer := Buyer(d, body.customer);
    if buyer.None? {
      return;
    }
    var o := NewOrder(id, clock.ms, buyer.value, body, Razorpay, Created, Some(gateway.id));
    var ok := store.Save(o);
    if ok {
      reply := Ok(OnlineCreated(id, gateway.id, gateway.amount));
    }
  }

  /** A missing, zero or negative total is refused with 400 before any gateway call or write. */
  lemma CreateRejectsBadTotal(d: Draft, orders: seq<Order>, body: CheckoutBody, clock: Clock, gateway: GatewayReply)
    requires body.total <= 0.0
    ensures var out := CreateOnline(d, orders, body, clock, gateway);
      out.reply == Fail(BadRequest, "Invalid total amount") && out.call.None? && out.orders == orders
  {
  }

  /**
   * A positive total always reaches the gateway with total * 100 paise in INR and the new id
   * as receipt; when the gateway fails the collection is unchanged.
   */
  lemma CreateCallsGatewayFirst(d: Draft, orders: seq<Order>, body: CheckoutBody, clock: Clock, gateway: GatewayReply)
    requires body.total > 0.0
    ensures var out := CreateOnline(d, orders, body, clock, gateway);
      && out.call == Some(GatewayRequest(body.total * 100.0, "INR", TimestampOrderId(clock.year, clock.ms), None))
      && (gateway.GatewayError? ==> out.reply.Fail? && out.reply.status == ServerError && out.orders == orders)
  {
  }

  /**
   * A successful create inserts exactly one document: the new id, status `Created`, method
   * `Razorpay` and the gateway order id; its answer echoes both ids. Every failure leaves the
   * collection as it was.
   */
  lemma CreateSavesCreatedOrder(d: Draft, orders: seq<Order>, body: CheckoutBody, clock: Clock, gateway: GatewayReply)
    ensures var out := CreateOnline(d, orders, body, clock, gateway);
      && (out.reply.Fail? ==> out.orders == orders)
      && (out.reply.Ok? ==>
            && body.total > 0.0 && gateway.GatewayOrder?
            && |out.orders| == |orders| + 1 && out.orders[..|orders|] == orders
            && var o := out.orders[|orders|];
               && o.orderId == TimestampOrderId(clock.year, clock.ms) == out.reply.body.orderId
               && o.status == Created && o.paymentMethod == Razorpay
               && o.razorpay_order_id == Some(gateway.id) && out.reply.body.razorpayOrderId == gateway.id
               && o.total == body.total && o.items == body.cart
               && Accepts(orders, o.(docId := 0)))
  {
  }

  /**
   * The create succeeds exactly when the total is positive, the gateway answers, the draft can
   * read a buyer, and the collection accepts the document; a repeated timestamp id is refused.
   */
  lemma CreateSucceedsIff(d: Draft, orders: seq<Order>, body: CheckoutBody, clock: Clock, gateway: GatewayReply)
    ensures CreateOnline(d, orders, body, clock, gateway).reply.Ok? <==>
      && body.total > 0.0 && gateway.GatewayOrder? && Buyer(d, body.customer).Some?
      && Accepts(orders, NewOrder(TimestampOrderId(clock.year, clock.ms), clock.ms, Buyer(d, body.customer).value,
                                  body, Razorpay, Created, Some(gateway.id)))
  {
  }

  /** The controller stores the customer email lowercased, and "" for every absent field. */
  lemma ControllerBuyerFields(orders: seq<Order>, body: CheckoutBody, clock: Clock, gateway: GatewayReply)
    requires CreateOnline(Controller, orders, body, clock, gateway).reply.Ok?
    ensures var o := CreateOnline(Controller, orders, body, clock, gateway).orders[|orders|];
      && o.buyerEmail == ToLower(if body.customer.Some? then body.customer.value.email else "")
      && (body.customer.None? ==> o.name == "" && o.phone == "" && o.shippingAddress == "")
  {
  }

  /** server.js dereferences the absent customer after the gateway call: 500, and nothing saved. */
  lemma ServerNeedsCustomer(orders: seq<Order>, body: CheckoutBody, clock: Clock, gateway: GatewayReply)
    requires body.total > 0.0 && body.customer.None?
    ensures var out := CreateOnline(Server, orders, body, clock, gateway);
      out.reply.Fail? && out.reply.status == ServerError && out.call.Some? && out.orders == orders
  {
  }

  // ---------------------------------------------------------------- verify-razorpay

  /**
   * POST /api/orders/verify-razorpay: recompute the signature over `order_id|payment_id`,
   * answer 400 on a mismatch, otherwise update the first document bound to that gateway order.
   * An unset key secret (server.js) makes `createHmac` throw.
   */
  function VerifyPayment(orders: seq<Order>, hmac: Hmac, secret: Option<string>, cb: Callback): WriteOutcome {
    if secret.None? then WriteOutcome(Fail(ServerError, "Verification failed"), orders)
    else if ExpectedSignature(hmac, secret.value, cb.orderId, cb.paymentId) != cb.signature then
      WriteOutcome(Fail(BadRequest, "Invalid signature"), orders)
    else
      match FindByGatewayOrder(orders, cb.orderId)
      case None => WriteOutcome(Fail(NotFound, "Order not found"), orders)
      case Some(i) =>
        WriteOutcome(Ok(orders[i].orderId), orders[i := WithPayment(orders[i], PaymentSuccess, cb.paymentId, cb.signature)])
  }

  method VerifyRazorpay(store: OrderStore, hmac: Hmac, secret: Option<string>, cb: Callback) returns (reply: Reply<string>)
    requires store.Valid()
    modifies store
    ensures store.Valid()
    ensures WriteOutcome(reply, store.orders) == VerifyPayment(old(store.orders), hmac, secret, cb)
  {
    if secret.None? {
      reply := Fail(ServerError, "Verification failed");
      return;
    }
    var expected := ExpectedSignature(hmac, secret.value, cb.orderId, cb.paymentId);
    if expected != cb.signature {
      reply := Fail(BadRequest, "Invalid signature");
      return;
    }
    var found := FindByGatewayOrder(store.orders, cb.orderId);
    if found.None? {
      reply := Fail(NotFound, "Order not found");
      return;
    }
    var i := found.value;
    var updated := WithPayment(store.orders[i], PaymentSuccess, cb.paymentId, cb.signature);
    store.Replace(i, updated);
    reply := Ok(updated.orderId);
  }

  /** The signature is checked before any lookup or write: a mismatch answers 400 and changes nothing. */
  lemma VerifyMismatchChangesNothing(orders: seq<Order>, hmac: Hmac, secret: string, cb: Callback)
    requires hmac(secret, SignedText(cb.orderId, cb.paymentId)) != cb.signature
    ensures VerifyPayment(orders, hmac, Some(secret), cb) == WriteOutcome(Fail(BadRequest, "Invalid signature"), orders)
  {
  }

  /**
   * With a valid signature the lookup is keyed by the gateway order id alone: 404 when no
   * document carries it, otherwise that document, and only it, gets `Payment Success` with
   * the payment id and signature.
   */
  lemma VerifyUpdatesOnlyTarget(orders: seq<Order>, hmac: Hmac, secret: string, cb: Callback)
    requires hmac(secret, SignedText(cb.orderId, cb.paymentId)) == cb.signature
    ensures var out := VerifyPayment(orders, hmac, Some(secret), cb);
      && ((forall i :: 0 <= i < |orders| ==> orders[i].razorpay_order_id != Some(cb.orderId)) ==>
            out == WriteOutcome(Fail(NotFound, "Order not found"), orders))
      && (forall i :: (0 <= i < |orders| && orders[i].razorpay_order_id == Some(cb.orderId)
            && (forall j :: 0 <= j < i ==> orders[j].razorpay_order_id != Some(cb.orderId))) ==>
            && out.reply == Ok(orders[i].orderId)
            && |out.orders| == |orders|
            && out.orders[i] == WithPayment(orders[i], PaymentSuccess, cb.paymentId, cb.signature)
            && forall j :: 0 <= j < |orders| && j != i ==> out.orders[j] == orders[j])
  {
    var out := VerifyPayment(orders, hmac, Some(secret), cb);
    forall i | 0 <= i < |orders| && orders[i].razorpay_order_id == Some(cb.orderId)
        && (forall j :: 0 <= j < i ==> orders[j].razorpay_order_id != Some(cb.orderId))
      ensures out.reply == Ok(orders[i].orderId)
      ensures out.orders == orders[i := WithPayment(orders[i], PaymentSuccess, cb.paymentId, cb.signature)]
    {
      var r := FindByGatewayOrder(orders, cb.orderId);
      assert r.Some?;
      FirstMatchUnique(orders, cb.orderId, r.value, i);
    }
  }

  /** Two positions that are both the first document bound to a gateway order are the same. */
  lemma FirstMatchUnique(orders: seq<Order>, gid: string, a: nat, b: nat)
    requires a < |orders| && b < |orders|
    requires orders[a].razorpay_order_id == Some(gid) && orders[b].razorpay_order_id == Some(gid)
    requires forall j :: 0 <= j < a ==> orders[j].razorpay_order_id != Some(gid)
    requires forall j :: 0 <= j < b ==> orders[j].razorpay_order_id != Some(gid)
    ensures a == b
  {
  }

  /** Replaying the same valid callback answers the same and leaves the collection as the first delivery did. */
  lemma VerifyIdempotent(orders: seq<Order>, hmac: Hmac, secret: Option<string>, cb: Callback)
    ensures var once := VerifyPayment(orders, hmac, secret, cb);
      VerifyPayment(once.orders, hmac, secret, cb) == once
  {
    var once := VerifyPayment(orders, hmac, secret, cb);
    if secret.Some? && ExpectedSignature(hmac, secret.value, cb.orderId, cb.paymentId) == cb.signature {
      var r := FindByGatewayOrder(orders, cb.orderId);
      if r.Some? {
        var i := r.value;
        var after := once.orders;
        assert after[i].razorpay_order_id == orders[i].razorpay_order_id;
        var r2 := FindByGatewayOrder(after, cb.orderId);
        assert r2.Some?;
        forall j | 0 <= j < r2.value ensures orders[j].razorpay_order_id != Some(cb.orderId) {
          if j == i { assert false; }
        }
        assert after[r2.value].razorpay_order_id == orders[r2.value].razorpay_order_id;
        FirstMatchUnique(orders, cb.orderId, i, r2.value);
        assert after[i := WithPayment(after[i], PaymentSuccess, cb.paymentId, cb.signature)] == after;
      }
    }
  }

  // ---------------------------------------------------------------- cod

  /** POST /api/orders/cod: no total check and no gateway; the document is saved as `Pending (COD)`. */
  function CreateCod(d: Draft, orders: seq<Order>, body: CheckoutBody, clock: Clock): WriteOutcome {
    var id := TimestampOrderId(clock.year, clock.ms);
    var failed := WriteOutcome(Fail(ServerError, "Could not create COD order"), orders);
    match Buyer(d, body.customer)
    case None => failed
    case Some(b) =>
      var o := NewOrder(id, clock.ms, b, body, CashOnDelivery, PendingCod, None);
      if Accepts(orders, o) then WriteOutcome(Ok(id), Inserted(orders, o)) else failed
  }

  method CreateCodOrder(d: Draft, store: OrderStore, body: CheckoutBody, clock: Clock) returns (reply: Reply<string>)
    requires store.Valid()
    modifies store
    ensures store.Valid()
    ensures WriteOutcome(reply, store.orders) == CreateCod(d, old(store.orders), body, clock)
  {
    var id := TimestampOrderId(clock.year, clock.ms);
    reply := Fail(ServerError, "Could not create COD order");
    var buyer := Buyer(d, body.customer);
    if buyer.None? {
      return;
    }
    var ok := store.Save(NewOrder(id, clock.ms, buyer.value, body, CashOnDelivery, PendingCod, None));
    if ok {
      reply := Ok(id);
    }
  }

  /**
   * A COD order is inserted with `Cash on Delivery`, `Pending (COD)` and no gateway fields,
   * whatever its total: the answer does not depend on the total, and a failure changes nothing.
   */
  lemma CodShape(d: Draft, orders: seq<Order>, body: CheckoutBody, clock: Clock, otherTotal: real)
    ensures var out := CreateCod(d, orders, body, clock);
      && CreateCod(d, orders, body.(total := otherTotal), clock).reply == out.reply
      && (out.reply.Fail? ==> out.orders == orders)
      && (out.reply.Ok? ==>
            && out.reply.body == TimestampOrderId(clock.year, clock.ms)
            && |out.orders| == |orders| + 1 && out.orders[..|orders|] == orders
            && var o := out.orders[|orders|];
               && o.orderId == out.reply.body && o.total == body.total
               && o.paymentMethod == CashOnDelivery && o.status == PendingCod
               && o.razorpay_order_id.None? && o.razorpay_payment_id.None? && o.razorpay_signature.None?)
  {
  }

  // ---------------------------------------------------------------- authentication and my orders

  /** server.js `authMiddleware`: a "Bearer " header whose remainder the token verifier accepts. */
  function Authenticate(header: string, verify: Verifier): (r: Reply<Payload>)
    ensures r.Fail? ==> r.status == Unauthorized
    ensures r.Ok? <==> StartsWith(header, "Bearer ") && verify(header[7..]).Some?
    ensures r.Ok? ==> verify(header[7..]) == Some(r.body)
    ensures !StartsWith(header, "Bearer ") ==> r.error == "Missing or invalid Authorization header"
  {
    if !StartsWith(header, "Bearer ") then Fail(Unauthorized, "Missing or invalid Authorization header")
    else
      match verify(header[7..])
      case None => Fail(Unauthorized, "Invalid or expired token")
      case Some(p) => Ok(p)
  }

  /** The token after the prefix is exactly what was appended to "Bearer ". */
  lemma AuthenticateBearer(token: string, verify: Verifier)
    ensures Authenticate("Bearer " + token, verify) ==
      match verify(token) case None => Fail(Unauthorized, "Invalid or expired token") case Some(p) => Ok(p)
  {
    assert ("Bearer " + token)[..7] == "Bearer ";
    assert ("Bearer " + token)[7..] == token;
  }

  /** The email each draft matches: server.js trims and lowercases it, the controller only lowercases. */
  function TokenEmail(d: Draft, email: string): string {
    if d == Server then ToLower(Trim(email)) else ToLower(email)
  }

  /** The filter `{ buyerEmail: e }`. */
  function OwnedBy(e: string): Order -> bool {
    (o: Order) => o.buyerEmail == e
  }

  /** GET /api/orders/my: the caller's orders, newest first, at most 100; 400 without an email. */
  function MyOrders(d: Draft, orders: seq<Order>, email: string): Reply<seq<Order>> {
    var e := TokenEmail(d, email);
    if e == "" then Fail(BadRequest, if d == Server then "User email missing from token" else "User email missing in token")
    else Ok(Take(SortDesc(Filter(orders, OwnedBy(e)), CreatedAt), 100))
  }

  /**
   * Only orders of the normalised token email are listed, newest first: the 100 newest of them,
   * or all of them when there are at most 100. Every order of the caller's left off the page is
   * no newer than the page's last row. An email that normalises to "" gets 400.
   */
  lemma MyOrdersPage(d: Draft, orders: seq<Order>, email: string)
    ensures var r := MyOrders(d, orders, email);
      var mine := Filter(orders, OwnedBy(TokenEmail(d, email)));
      && (r.Fail? <==> TokenEmail(d, email) == "")
      && (r.Fail? ==> r.status == BadRequest)
      && (r.Ok? ==>
            && (forall i :: 0 <= i < |r.body| ==> r.body[i].buyerEmail == TokenEmail(d, email))
            && SortedDesc(r.body, CreatedAt)
            && |r.body| == (if |mine| <= 100 then |mine| else 100)
            && multiset(r.body) <= multiset(mine)
            && (|mine| <= 100 ==> multiset(r.body) == multiset(mine))
            && (r.body != [] ==>
                  forall o :: o in multiset(mine) - multiset(r.body) ==> o.createdAt <= r.body[|r.body| - 1].createdAt))
  {
    var e := TokenEmail(d, email);
    if e != "" {
      var page := Take(SortDesc(Filter(orders, OwnedBy(e)), CreatedAt), 100);
      assert MyOrders(d, orders, email) == Ok(page);
      PageOf(orders, OwnedBy(e), CreatedAt, 100);
      forall i | 0 <= i < |page| ensures page[i].buyerEmail == e {
        assert OwnedBy(e)(page[i]);
      }
    }
  }

  /** A blank token email is refused by server.js but queried as is by the controller. */
  lemma BlankEmailDiffers(orders: seq<Order>)
    ensures MyOrders(Server, orders, " ").Fail?
    ensures MyOrders(Controller, orders, " ").Ok?
  {
    assert TrimStart(" ") == "";
    assert ToLower(" ") == " ";
  }

  /** server.js GET /api/orders/my behind `authMiddleware`. */
  function ServerMyOrders(orders: seq<Order>, header: string, verify: Verifier): (r: Reply<seq<Order>>)
    ensures Authenticate(header, verify).Fail? ==> r == Fail(Unauthorized, Authenticate(header, verify).error)
    ensures Authenticate(header, verify).Ok? ==> r == MyOrders(Server, orders, Authenticate(header, verify).body.email)
    ensures r.Ok? <==> Authenticate(header, verify).Ok? && TokenEmail(Server, Authenticate(header, verify).body.email) != ""
  {
    match Authenticate(header, verify)
    case Fail(s, e) => Fail(s, e)
    case Ok(p) => MyOrders(Server, orders, p.email)
  }
}
