/** The product record, the responses the handlers send, and the facts about
    a collection of products that the store keeps true. */
module Products {

  datatype Option<+T> = None | Some(value: T) {
    function GetOr(default: T): T {
      match this
      case Some(v) => v
      case None => default
    }
  }

  /** Ids are opaque strings generated server-side (a v4 uuid in the service). */
  type Id = string

  /** A JavaScript number. The model never computes with prices: it only
      stores them and tests their type tag. */
  type Number = real

  datatype Product = Product(
    id: Id,
    name: string,
    description: string,
    price: Number,
    category: string,
    inStock: bool)

  /** The five caller-supplied fields of a product, already known to carry the
      right types (what a request body holds once validation let it through). */
  datatype Draft = Draft(
    name: string,
    description: string,
    price: Number,
    category: string,
    inStock: bool)

  /** The record built from a draft and an id: the object literal of the create
      handler, and the spread-then-override of the update handler. */
  function Attach(id: Id, d: Draft): (p: Product)
    ensures p.id == id
    ensures Draft(p.name, p.description, p.price, p.category, p.inStock) == d
  {
    Product(id, d.name, d.description, d.price, d.category, d.inStock)
  }

  ghost predicate HasId(ps: seq<Product>, id: Id) {
    exists i :: 0 <= i < |ps| && ps[i].id == id
  }

  /** No two products of the store share an id. */
  ghost predicate UniqueIds(ps: seq<Product>) {
    forall i, j :: 0 <= i < j < |ps| ==> ps[i].id != ps[j].id
  }

  /** The three products the service starts with; their ids are generated at
      start-up and are given here as parameters. */
  function Seed(laptopId: Id, phoneId: Id, coffeeId: Id): (r: seq<Product>)
    ensures |r| == 3 && r[0].id == laptopId && r[1].id == phoneId && r[2].id == coffeeId
    ensures laptopId != phoneId && laptopId != coffeeId && phoneId != coffeeId ==> UniqueIds(r)
  {
    [ Product(laptopId, "Laptop", "High-performance laptop with 16GB RAM", 1200.0, "electronics", true),
      Product(phoneId, "Smartphone", "Latest model with 128GB storage", 800.0, "electronics", true),
      Product(coffeeId, "Coffee Maker", "Programmable coffee maker with timer", 50.0, "kitchen", false) ]
  }

  /** The JSON document a handler sends back. `Message` and `Error` are the
      one-key objects `{message: ...}` and `{error: ...}`. */
  datatype Payload =
    | Item(product: Product)
    | Items(products: seq<Product>)
    | PageOf(total: nat, page: int, limit: int, products: seq<Product>)
    | Counts(stats: map<string, nat>)
    | Message(message: string)
    | Error(error: string)
    | Empty

  /** What a handler does with the response: send a status and a body, or
      send nothing at all (the request is then left hanging). */
  datatype Response = Respond(status: nat, body: Payload) | NoResponse

  /** The outcome of a middleware stage: call the next stage, or answer and stop. */
  datatype Verdict = Continue | Stop(response: Response)

  const NOT_FOUND := "Product not found"
  const INVALID_PRODUCT := "Invalid Product data"
  const INVALID_API_KEY := "Unauthorized-Invalid API key"
  const QUERY_REQUIRED := "Query parameter is required"
  const API_KEY := "1234567"
}
