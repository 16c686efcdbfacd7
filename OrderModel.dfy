/**
 * The `Order` record of models/Order.js and the orders collection that holds it.
 *
 * The schema declares `status` and `paymentMethod` as free strings; the closed types below
 * hold exactly the literals that the handlers of this repository write. A field the request
 * leaves out is the empty string, an empty list or 0, which every reader of the field in the
 * code treats alike. The document `_id` is `docId`, the position at which the store
 * inserted the document (the modelled code never deletes orders).
 */
module OrderModel {
  import opened Wrappers
  import opened Query

  datatype Status =
    | Created                 // "Created"
    | PaymentSuccess          // "Payment Success"
    | PaymentSuccessOnline    // "Payment Success (Online)"
    | PendingCod              // "Pending (COD)"
    | Pending                 // the admin values
    | Processing
    | Shipped
    | Delivered
    | Cancelled
  {
    /** The string stored in the document. */
    function Literal(): string {
      match this
      case Created => "Created"
      case PaymentSuccess => "Payment Success"
      case PaymentSuccessOnline => "Payment Success (Online)"
      case PendingCod => "Pending (COD)"
      case Pending => "Pending"
      case Processing => "Processing"
      case Shipped => "Shipped"
      case Delivered => "Delivered"
      case Cancelled => "Cancelled"
    }
  }

  datatype PaymentMethod =
    | Razorpay                 // "Razorpay"
    | CashOnDelivery           // "Cash on Delivery"
    | RazorpayOnlinePayment    // "Razorpay Online Payment"
  {
    function Literal(): string {
      match this
      case Razorpay => "Razorpay"
      case CashOnDelivery => "Cash on Delivery"
      case RazorpayOnlinePayment => "Razorpay Online Payment"
    }
  }

  /** The product reference of a cart line, as the client sent it: a number, a string or nothing. */
  datatype ItemProductId = NumberId(n: real) | TextId(s: string) | NoId

  /** A cart line, stored as sent; only its product reference is ever read back. */
  datatype Item = Item(productId: ItemProductId, name: string, quantity: real, price: real)

  /** `metadata: { couponCode }`; the default `{}` has no coupon code. */
  datatype Metadata = Metadata(couponCode: Option<string>)

  const EmptyMetadata := Metadata(None)

  datatype Order = Order(
    docId: nat,
    orderId: string,
    createdAt: int,
    buyerEmail: string,
    name: string,
    phone: string,
    shippingAddress: string,
    items: seq<Item>,
    subtotal: real,
    discount: real,
    total: real,
    paymentMethod: PaymentMethod,
    status: Status,
    razorpay_payment_id: Option<string>,
    razorpay_order_id: Option<string>,
    razorpay_signature: Option<string>,
    metadata: Metadata)

  /** `orderId` is unique: no two documents share one. */
  predicate UniqueOrderIds(orders: seq<Order>) {
    forall i, j :: 0 <= i < j < |orders| ==> orders[i].orderId != orders[j].orderId
  }

  /** What the collection guarantees of its documents: required fields, unique index, `_id`. */
  predicate WellFormed(orders: seq<Order>) {
    && UniqueOrderIds(orders)
    && forall i :: 0 <= i < |orders| ==>
         && orders[i].docId == i
         && orders[i].orderId != ""
         && orders[i].buyerEmail != ""
  }

  /**
   * `save()` of a new document succeeds when the required `orderId` and `buyerEmail` are
   * non-empty (Mongoose's required check refuses an empty string) and the unique index on
   * `orderId` has no entry for it.
   */
  predicate Accepts(orders: seq<Order>, o: Order) {
    && o.orderId != ""
    && o.buyerEmail != ""
    && forall i :: 0 <= i < |orders| ==> orders[i].orderId != o.orderId
  }

  /** The collection after inserting o, which receives the next `_id`. */
  function Inserted(orders: seq<Order>, o: Order): (r: seq<Order>)
    ensures |r| == |orders| + 1 && r[..|orders|] == orders
    ensures r[|orders|] == o.(docId := |orders|)
  {
    orders + [o.(docId := |orders|)]
  }

  /** Inserting an accepted document keeps every guarantee of the collection. */
  lemma InsertKeepsWellFormed(orders: seq<Order>, o: Order)
    requires WellFormed(orders) && Accepts(orders, o)
    ensures WellFormed(Inserted(orders, o))
  {
    var r := Inserted(orders, o);
    forall i, j | 0 <= i < j < |r| ensures r[i].orderId != r[j].orderId {
      if j == |orders| {
        assert r[i] == orders[i];
      } else {
        assert r[i] == orders[i] && r[j] == orders[j];
      }
    }
  }

  /** A second document with an `orderId` already stored is refused. */
  lemma DuplicateRejected(orders: seq<Order>, o: Order, i: nat)
    requires i < |orders| && orders[i].orderId == o.orderId
    ensures !Accepts(orders, o)
  {
  }

  /** The payment fields a verified callback writes (`findOneAndUpdate` in server.js and the controller). */
  function WithPayment(o: Order, status: Status, paymentId: string, signature: string): (r: Order)
    ensures r.status == status && r.razorpay_payment_id == Some(paymentId) && r.razorpay_signature == Some(signature)
    ensures r.(status := o.status, razorpay_payment_id := o.razorpay_payment_id, razorpay_signature := o.razorpay_signature) == o
  {
    o.(status := status, razorpay_payment_id := Some(paymentId), razorpay_signature := Some(signature))
  }

  /** Overwriting one stored document's status, as `findByIdAndUpdate(id, { status })` does. */
  function WithStatusAt(orders: seq<Order>, i: nat, status: Status): (r: seq<Order>)
    requires i < |orders|
    ensures |r| == |orders| && r[i] == orders[i].(status := status)
    ensures forall j :: 0 <= j < |orders| && j != i ==> r[j] == orders[j]
  {
    orders[i := orders[i].(status := status)]
  }

  /** Changing anything but `orderId`, `docId` and `buyerEmail` of one document keeps the guarantees. */
  lemma ReplaceKeepsWellFormed(orders: seq<Order>, i: nat, o: Order)
    requires WellFormed(orders) && i < |orders|
    requires o.docId == orders[i].docId && o.orderId == orders[i].orderId && o.buyerEmail == orders[i].buyerEmail
    ensures WellFormed(orders[i := o])
  {
    var r := orders[i := o];
    forall a, b | 0 <= a < b < |r| ensures r[a].orderId != r[b].orderId {
      assert r[a].orderId == orders[a].orderId && r[b].orderId == orders[b].orderId;
    }
  }

  /** `findOne({ razorpay_order_id })`: the first document bound to that gateway order. */
  function FindByGatewayOrder(orders: seq<Order>, gatewayOrderId: string): (r: Option<nat>)
    ensures r.None? <==> forall i :: 0 <= i < |orders| ==> orders[i].razorpay_order_id != Some(gatewayOrderId)
    ensures r.Some? ==> r.value < |orders| && orders[r.value].razorpay_order_id == Some(gatewayOrderId)
  {
    FirstIndex(orders, (o: Order) => o.razorpay_order_id == Some(gatewayOrderId))
  }

  /** `findById(id)`: documents are found by `_id`, which is their position. */
  function FindById(orders: seq<Order>, id: nat): (r: Option<nat>)
    requires WellFormed(orders)
    ensures r.Some? <==> exists i :: 0 <= i < |orders| && orders[i].docId == id
    ensures r.Some? ==> r.value == id && orders[id].docId == id
  {
    if id < |orders| then
      assert orders[id].docId == id;
      Some(id)
    else None
  }

  /** Creation time, the sort key of every "newest first" query. */
  function CreatedAt(o: Order): int { o.createdAt }

  /**
   * The orders collection. Every handler runs as one step; `orders` is in insertion order.
   */
  class OrderStore {
    var orders: seq<Order>

    ghost predicate Valid()
      reads this
    {
      WellFormed(orders)
    }

    constructor ()
      ensures Valid() && orders == []
    {
      orders := [];
    }

    /** `new Order(doc).save()` / `Order.create(doc)`: insert, or refuse and change nothing. */
    method Save(o: Order) returns (ok: bool)
      requires Valid()
      modifies this
      ensures Valid()
      ensures ok == Accepts(old(orders), o)
      ensures orders == if ok then Inserted(old(orders), o) else old(orders)
    {
      ok := o.orderId != "" && o.buyerEmail != "";
      var i := 0;
      while ok && i < |orders|
        invariant 0 <= i <= |orders|
        invariant ok ==> o.orderId != "" && o.buyerEmail != ""
        invariant ok ==> forall j :: 0 <= j < i ==> orders[j].orderId != o.orderId
        invariant !ok ==> !Accepts(orders, o)
      {
        if orders[i].orderId == o.orderId {
          ok := false;
        }
        i := i + 1;
      }
      if ok {
        InsertKeepsWellFormed(orders, o);
        orders := orders + [o.(docId := |orders|)];
      }
    }

    /** Write back a fetched document whose identity fields are unchanged. */
    method Replace(i: nat, o: Order)
      requires Valid() && i < |orders|
      requires o.docId == orders[i].docId && o.orderId == orders[i].orderId && o.buyerEmail == orders[i].buyerEmail
      modifies this
      ensures Valid()
      ensures orders == old(orders)[i := o]
    {
      ReplaceKeepsWellFormed(orders, i, o);
      orders := orders[i := o];
    }
  }
}
