/** The request body as the JSON parser leaves it, and the two gate stages
    that routes put in front of their handlers: the API-key check and the
    product-body validation. */
module Middleware {
  import opened Products

  /** A JSON value as far as `typeof` can tell it apart. `Compound` is a
      nested object or array, whose contents no stage looks at; `Missing` is
      a key the body does not have (`undefined`). */
  datatype JsonValue =
    | Str(s: string)
    | Num(n: Number)
    | Bool(b: bool)
    | Null
    | Compound
    | Missing

  /** JavaScript's `typeof` on a parsed JSON value. */
  function TypeOf(v: JsonValue): (t: string)
    ensures t == "string" <==> v.Str?
    ensures t == "number" <==> v.Num?
    ensures t == "boolean" <==> v.Bool?
    ensures t == "object" <==> v.Null? || v.Compound?
    ensures t == "undefined" <==> v.Missing?
  {
    match v
    case Str(_) => "string"
    case Num(_) => "number"
    case Bool(_) => "boolean"
    case Null => "object"
    case Compound => "object"
    case Missing => "undefined"
  }

  /** The five keys the validation stage destructures from the body; other
      keys of the body are ignored by every stage and handler. */
  datatype Body = Body(
    name: JsonValue,
    description: JsonValue,
    price: JsonValue,
    category: JsonValue,
    inStock: JsonValue)

  /** The body a client sends for a product with the given fields. */
  function Encode(d: Draft): Body {
    Body(Str(d.name), Str(d.description), Num(d.price), Str(d.category), Bool(d.inStock))
  }

  /** The API-key stage: a request passes exactly when its `x-api-key` header
      is present and equal to the configured key; any other value, or no
      header, is answered with 401. */
  function Authenticate(apiKey: Option<string>): (v: Verdict)
    ensures v == Continue <==> apiKey == Some(API_KEY)
    ensures v.Stop? ==> v.response == Respond(401, Message(INVALID_API_KEY))
  {
    if apiKey.None? || apiKey.value != API_KEY then
      Stop(Respond(401, Message(INVALID_API_KEY)))
    else
      Continue
  }

  /** The validation stage: it lets a body through exactly when the body is
      the encoding of some well-typed product draft, and answers 400 otherwise. */
  function ValidateProduct(body: Body): (v: Verdict)
    ensures v == Continue <==> exists d :: Encode(d) == body
    ensures v.Stop? ==> v.response == Respond(400, Error(INVALID_PRODUCT))
  {
    if TypeOf(body.name) != "string"
       || TypeOf(body.description) != "string"
       || TypeOf(body.price) != "number"
       || TypeOf(body.category) != "string"
       || TypeOf(body.inStock) != "boolean"
    then
      Stop(Respond(400, Error(INVALID_PRODUCT)))
    else
      assert Encode(Draft(body.name.s, body.description.s, body.price.n, body.category.s, body.inStock.b)) == body;
      Continue
  }

  /** The fields a handler reads from a body that passed validation. */
  function Decode(body: Body): (d: Draft)
    requires ValidateProduct(body) == Continue
    ensures Encode(d) == body
  {
    Draft(body.name.s, body.description.s, body.price.n, body.category.s, body.inStock.b)
  }

  /** Validation and decoding invert encoding: any well-typed draft a client
      sends passes the stage and reaches the handler unchanged. */
  lemma DecodeEncode(d: Draft)
    ensures ValidateProduct(Encode(d)) == Continue
    ensures Decode(Encode(d)) == d
  {
  }
}
