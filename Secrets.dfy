/**
 * The cryptographic collaborators, abstracted.
 * - bcrypt: `bcrypt.hash(plain, 10)` is a salted digest, and `bcrypt.compare(plain, digest)`
 *   holds exactly when the digest was made from that plain text. The salt is the random draw.
 * - HMAC-SHA256 (RFC 2104 over FIPS 180-4) is a parameter of type `Hmac`, about which nothing
 *   is known: every property of the model holds whatever function it is.
 * - JSON Web Tokens (RFC 7519): `jwt.verify` is a parameter of type `Verifier` that yields the
 *   decoded claims or refuses the token; signing is left out.
 */
module Secrets {
  import opened Wrappers

  /** A bcrypt digest, idealised: it determines its plain text; the salt comes from chance. */
  datatype Digest = Bcrypt(plain: string, salt: nat)

  /** `bcrypt.hash(plain, 10)` with the salt drawn by the caller. */
  function Hash(plain: string, salt: nat): (d: Digest)
    ensures Compare(plain, d)
  {
    Bcrypt(plain, salt)
  }

  /** `bcrypt.compare(plain, digest)`. */
  predicate Compare(plain: string, d: Digest) {
    d.plain == plain
  }

  lemma CompareOnlyOwnText(plain: string, other: string, salt: nat)
    requires other != plain
    ensures !Compare(other, Hash(plain, salt))
  {
  }

  /** `crypto.createHmac('sha256', secret).update(message).digest('hex')`. */
  type Hmac = (string, string) -> string

  /** The text Razorpay signs for a payment: `order_id + "|" + payment_id`. */
  function SignedText(gatewayOrderId: string, paymentId: string): (t: string)
    ensures |t| == |gatewayOrderId| + 1 + |paymentId|
    ensures t[|gatewayOrderId|] == '|'
  {
    gatewayOrderId + "|" + paymentId
  }

  /**
   * Both ids are recovered from the signed text when the order id has no '|', as
   * Razorpay's ids never do: the signature binds the pair, not just the concatenation.
   */
  lemma SignedTextSplits(o1: string, p1: string, o2: string, p2: string)
    requires '|' !in o1 && '|' !in o2
    requires SignedText(o1, p1) == SignedText(o2, p2)
    ensures o1 == o2 && p1 == p2
  {
    var t := SignedText(o1, p1);
    assert |o1| == |o2| by {
      if |o1| < |o2| {
        assert false;
      } else if |o2| < |o1| {
        assert false;
      }
    }
    assert o1 == t[..|o1|] == o2;
    assert p1 == t[|o1| + 1..] == p2;
  }

  /** The signature the server expects for a callback. */
  function ExpectedSignature(hmac: Hmac, secret: string, gatewayOrderId: string, paymentId: string): string {
    hmac(secret, SignedText(gatewayOrderId, paymentId))
  }

  /** The claims a handler reads from a decoded token; an absent claim is "" or false. */
  datatype Payload = Payload(userId: string, email: string, isAdmin: bool, role: string)

  /** `jwt.verify(token, secret)`: the decoded claims, or None when it throws. */
  type Verifier = string -> Option<Payload>
}
