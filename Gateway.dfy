/**
 * The payment gateway as the handlers see it: `razorpay.orders.create(options)` either
 * returns a gateway order or throws. Its reply is an input of every handler that calls it.
 */
module Gateway {
  import opened Wrappers

  /** The `options` passed to `orders.create`: amount in paise, currency, receipt and the optional notes email. */
  datatype GatewayRequest = GatewayRequest(amount: real, currency: string, receipt: string, notesEmail: Option<string>)

  /** What `orders.create` yields: a gateway order with its id and echoed amount, or an error. */
  datatype GatewayReply = GatewayOrder(id: string, amount: real) | GatewayError
}
