/** The module-level `products` array and the handlers that change it in
    place: create (`push`), update (indexed assignment) and delete (`splice`),
    each also shown behind the middleware stage its route declares. */
module Store {
  import opened Products
  import opened Middleware
  import opened Lookup

  class ProductStore {
    var products: seq<Product>

    /** Ids are unique: every handler's lookup then names one product. */
    ghost predicate Valid()
      reads this
    {
      UniqueIds(products)
    }

    /** The store as the service starts: the three seeded products, whose
        start-up ids are distinct. */
    constructor (laptopId: Id, phoneId: Id, coffeeId: Id)
      requires laptopId != phoneId && laptopId != coffeeId && phoneId != coffeeId
      ensures Valid()
      ensures products == Seed(laptopId, phoneId, coffeeId)
    {
      products := Seed(laptopId, phoneId, coffeeId);
    }

    /** The create handler: builds the product from the fresh id and the
        body's five fields, appends it, and answers 201 with it. */
    method Create(draft: Draft, freshId: Id) returns (resp: Response)
      requires Valid() && !HasId(products, freshId)
      modifies this
      ensures Valid()
      ensures products == old(products) + [Attach(freshId, draft)]
      ensures resp == Respond(201, Item(Attach(freshId, draft)))
    {
      var newProduct := Attach(freshId, draft);
      AppendKeepsUnique(products, newProduct);
      products := products + [newProduct];
      resp := Respond(201, Item(newProduct));
    }

    /** The update handler: 404 and no change when no product has the id;
        otherwise the first product with the id keeps its id, takes the other
        five fields from the body, and is sent back with 200. */
    method Update(id: Id, draft: Draft) returns (resp: Response)
      requires Valid()
      modifies this
      ensures Valid()
      ensures !HasId(old(products), id) ==>
        products == old(products) && resp == Respond(404, Message(NOT_FOUND))
      ensures HasId(old(products), id) ==>
        var k := IndexOf(old(products), id);
        && products == old(products)[k := Attach(id, draft)]
        && resp == Respond(200, Item(Attach(id, draft)))
    {
      var productIndex := IndexOf(products, id);
      if productIndex == -1 {
        return Respond(404, Message(NOT_FOUND));
      }
      var current := products[productIndex];
      var updated := Attach(current.id, draft);
      ReplaceKeepsUnique(products, productIndex, updated);
      products := products[productIndex := updated];
      resp := Respond(200, Item(products[productIndex]));
    }

    /** The delete handler: 404 and no change when no product has the id;
        otherwise the first product with the id is spliced out and the answer
        is 204 with an empty body. */
    method Delete(id: Id) returns (resp: Response)
      requires Valid()
      modifies this
      ensures Valid()
      ensures !HasId(old(products), id) ==>
        products == old(products) && resp == Respond(404, Message(NOT_FOUND))
      ensures HasId(old(products), id) ==>
        products == RemoveAt(old(products), IndexOf(old(products), id)) && resp == Respond(204, Empty)
    {
      var productIndex := IndexOf(products, id);
      if productIndex == -1 {
        return Respond(404, Message(NOT_FOUND));
      }
      RemoveKeepsUnique(products, productIndex);
      products := RemoveAt(products, productIndex);
      resp := Respond(204, Empty);
    }

    /** POST with the validation stage in front of the create handler: an
        ill-typed body is answered with 400 and the store is unchanged;
        otherwise the decoded body is created under the fresh id. */
    method Post(body: Body, freshId: Id) returns (resp: Response)
      requires Valid() && !HasId(products, freshId)
      modifies this
      ensures Valid()
      ensures ValidateProduct(body).Stop? ==>
        products == old(products) && resp == Respond(400, Error(INVALID_PRODUCT))
      ensures ValidateProduct(body) == Continue ==>
        var p := Attach(freshId, Decode(body));
        products == old(products) + [p] && resp == Respond(201, Item(p))
    {
      var verdict := ValidateProduct(body);
      if verdict.Stop? {
        return verdict.response;
      }
      resp := Create(Decode(body), freshId);
    }

    /** PUT with the validation stage in front of the update handler. */
    method Put(id: Id, body: Body) returns (resp: Response)
      requires Valid()
      modifies this
      ensures Valid()
      ensures ValidateProduct(body).Stop? ==>
        products == old(products) && resp == Respond(400, Error(INVALID_PRODUCT))
      ensures ValidateProduct(body) == Continue && !HasId(old(products), id) ==>
        products == old(products) && resp == Respond(404, Error(NOT_FOUND))
      ensures ValidateProduct(body) == Continue && HasId(old(products), id) ==>
        var p := Attach(id, Decode(body));
        products == old(products)[IndexOf(old(products), id) := p] && resp == Respond(200, Item(p))
    {
      var verdict := ValidateProduct(body);
      if verdict.Stop? {
        return verdict.response;
      }
      if IndexOf(products, id) == -1 {
        return Respond(404, Error(NOT_FOUND));
      }
      resp := Update(id, Decode(body));
    }

    /** DELETE with the API-key stage in front of the delete handler: without
        the right key the answer is 401 and the store is unchanged. */
    method Remove(apiKey: Option<string>, id: Id) returns (resp: Response)
      requires Valid()
      modifies this
      ensures Valid()
      ensures apiKey != Some(API_KEY) ==>
        products == old(products) && resp == Respond(401, Message(INVALID_API_KEY))
      ensures apiKey == Some(API_KEY) && !HasId(old(products), id) ==>
        products == old(products) && resp == Respond(404, Message(NOT_FOUND))
      ensures apiKey == Some(API_KEY) && HasId(old(products), id) ==>
        products == RemoveAt(old(products), IndexOf(old(products), id)) && resp == Respond(204, Empty)
    {
      var verdict := Authenticate(apiKey);
      if verdict.Stop? {
        return verdict.response;
      }
      resp := Delete(id);
    }

    /** The application-level delete handler as written: its `splice` and
        204 reply sit inside the not-found branch after the `return`, so it
        answers 404 for an absent id, sends nothing for a present one, and
        never changes the store (it needs no `modifies` clause). */
    method DeleteAsWritten(id: Id) returns (resp: Response)
      ensures resp == NoResponse <==> HasId(products, id)
      ensures resp != NoResponse ==> resp == Respond(404, Message(NOT_FOUND))
    {
      var productIndex := IndexOf(products, id);
      if productIndex == -1 {
        return Respond(404, Message(NOT_FOUND));
      }
      resp := NoResponse;
    }

    /** The router's update handler as written: behind the validation stage
        it answers 404 with an `error` key for an absent id; for a present id
        it sends nothing and never changes the store. */
    method PutAsWritten(id: Id, body: Body) returns (resp: Response)
      ensures ValidateProduct(body).Stop? ==> resp == Respond(400, Error(INVALID_PRODUCT))
      ensures ValidateProduct(body) == Continue ==>
        (resp == NoResponse <==> HasId(products, id)) &&
        (resp != NoResponse ==> resp == Respond(404, Error(NOT_FOUND)))
    {
      var verdict := ValidateProduct(body);
      if verdict.Stop? {
        return verdict.response;
      }
      var productIndex := IndexOf(products, id);
      if productIndex == -1 {
        return Respond(404, Error(NOT_FOUND));
      }
      resp := NoResponse;
    }
  }

  /** A client's round trip: a product created through POST is found by id;
      the application-level delete as written leaves it in place and sends
      nothing; the router's delete with the right key removes it, after which
      get-by-id answers 404 and the store is back to what it was. */
  method CreateDeleteScenario(store: ProductStore, body: Body, freshId: Id)
    requires store.Valid() && !HasId(store.products, freshId)
    requires ValidateProduct(body) == Continue
    modifies store
    ensures store.Valid()
    ensures store.products == old(store.products)
  {
    var before := store.products;
    var created := store.Post(body, freshId);
    assert created.status == 201;
    CreateThenGet(before, freshId, Decode(body));
    assert GetByIdIntended(store.products, freshId) == Respond(200, Item(Attach(freshId, Decode(body))));
    var afterCreate := store.products;
    var silent := store.DeleteAsWritten(freshId);
    assert silent == NoResponse && store.products == afterCreate;
    var removed := store.Remove(Some(API_KEY), freshId);
    assert removed == Respond(204, Empty);
    DeleteThenGetIsNotFound(afterCreate, freshId);
    assert GetByIdIntended(store.products, freshId).status == 404;
    assert store.products == RemoveAt(before + [Attach(freshId, Decode(body))], |before|);
    assert store.products == before;
  }
}
