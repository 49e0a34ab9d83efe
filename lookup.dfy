/** Finding a product by id (`find` and `findIndex` on the store), the
    get-by-id handler, and what lookups see after the store changes. */
module Lookup {
  import opened Products

  /** `findIndex(p => p.id === id)`: the position of the first product with
      the id, or -1 when there is none. */
  function IndexOf(ps: seq<Product>, id: Id): (k: int)
    ensures -1 <= k < |ps|
    ensures k == -1 <==> !HasId(ps, id)
    ensures 0 <= k ==> ps[k].id == id && forall i :: 0 <= i < k ==> ps[i].id != id
  {
    if ps == [] then -1
    else if ps[0].id == id then 0
    else
      var k := IndexOf(ps[1..], id);
      assert forall i :: 0 < i < |ps| ==> ps[i] == ps[1..][i - 1];
      if k == -1 then -1 else k + 1
  }

  /** `find(p => p.id === id)`: the first product with the id, if any. */
  function Find(ps: seq<Product>, id: Id): (r: Option<Product>)
    ensures r.None? <==> !HasId(ps, id)
    ensures r.Some? ==> r.value.id == id && r.value in ps
    ensures r.Some? ==> exists k :: 0 <= k < |ps| && r.value == ps[k] && forall i :: 0 <= i < k ==> ps[i].id != id
  {
    var k := IndexOf(ps, id);
    if k == -1 then None else Some(ps[k])
  }

  /** The get-by-id handler as written: it answers 404 when the id is absent,
      and when the product is found it sends no response at all. */
  function GetById(ps: seq<Product>, id: Id): (r: Response)
    ensures r == NoResponse <==> HasId(ps, id)
    ensures r != NoResponse ==> r == Respond(404, Message(NOT_FOUND))
  {
    var product := Find(ps, id);
    if product.None? then Respond(404, Message(NOT_FOUND)) else NoResponse
  }

  /** The get-by-id handler with the missing success reply added: 200 with
      the first product carrying the id, or 404 when there is none. */
  function GetByIdIntended(ps: seq<Product>, id: Id): (r: Response)
    ensures !HasId(ps, id) ==> r == Respond(404, Message(NOT_FOUND))
    ensures HasId(ps, id) ==> r.Respond? && r.status == 200 && r.body.Item?
    ensures HasId(ps, id) ==> r.body.product.id == id && r.body.product in ps
    ensures HasId(ps, id) ==> exists k :: 0 <= k < |ps| && r.body.product == ps[k] && forall i :: 0 <= i < k ==> ps[i].id != id
  {
    var product := Find(ps, id);
    if product.None? then Respond(404, Message(NOT_FOUND)) else Respond(200, Item(product.value))
  }

  /** `splice(k, 1)`: the store without its element at position k. */
  function RemoveAt(ps: seq<Product>, k: nat): (r: seq<Product>)
    requires k < |ps|
    ensures |r| == |ps| - 1
    ensures forall i :: 0 <= i < k ==> r[i] == ps[i]
    ensures forall i :: k <= i < |r| ==> r[i] == ps[i + 1]
  {
    ps[..k] + ps[k + 1..]
  }

  /** Appending a product whose id is fresh keeps ids unique. */
  lemma AppendKeepsUnique(ps: seq<Product>, p: Product)
    requires UniqueIds(ps) && !HasId(ps, p.id)
    ensures UniqueIds(ps + [p])
  {
  }

  /** Replacing a product by one with the same id keeps ids unique. */
  lemma ReplaceKeepsUnique(ps: seq<Product>, k: nat, p: Product)
    requires UniqueIds(ps) && k < |ps| && p.id == ps[k].id
    ensures UniqueIds(ps[k := p])
  {
  }

  /** Removing a product keeps ids unique. */
  lemma RemoveKeepsUnique(ps: seq<Product>, k: nat)
    requires UniqueIds(ps) && k < |ps|
    ensures UniqueIds(RemoveAt(ps, k))
  {
    var r := RemoveAt(ps, k);
    forall i, j | 0 <= i < j < |r| ensures r[i].id != r[j].id {
      var i', j' := if i < k then i else i + 1, if j < k then j else j + 1;
      assert r[i] == ps[i'] && r[j] == ps[j'];
    }
  }

  /** A product created with a fresh id is what get-by-id finds afterwards,
      and every other id is looked up exactly as before. */
  lemma {:induction false} FindAfterAppend(ps: seq<Product>, p: Product, id: Id)
    requires !HasId(ps, p.id)
    ensures Find(ps + [p], id) == if id == p.id then Some(p) else Find(ps, id)
  {
    var k, k' := IndexOf(ps, id), IndexOf(ps + [p], id);
    if k == -1 {
      if id == p.id {
        assert (ps + [p])[|ps|] == p;
        assert k' == |ps|;
      } else {
        assert forall i :: 0 <= i < |ps| + 1 ==> (ps + [p])[i].id != id;
      }
    } else {
      assert (ps + [p])[k] == ps[k];
      assert k' == k;
    }
  }

  /** After a product is updated in place, get-by-id on its id finds the
      replacement, because no earlier product has that id. */
  lemma FindAfterReplace(ps: seq<Product>, id: Id, p: Product)
    requires IndexOf(ps, id) != -1 && p.id == id
    ensures Find(ps[IndexOf(ps, id) := p], id) == Some(p)
  {
    var k := IndexOf(ps, id);
    var qs := ps[k := p];
    assert qs[k].id == id;
    assert IndexOf(qs, id) == k;
  }

  /** Deleting the product with an id from a store with unique ids makes
      get-by-id answer 404 for that id. */
  lemma DeleteThenGetIsNotFound(ps: seq<Product>, id: Id)
    requires UniqueIds(ps) && IndexOf(ps, id) != -1
    ensures GetByIdIntended(RemoveAt(ps, IndexOf(ps, id)), id) == Respond(404, Message(NOT_FOUND))
    ensures GetById(RemoveAt(ps, IndexOf(ps, id)), id) == Respond(404, Message(NOT_FOUND))
  {
    var k := IndexOf(ps, id);
    var r := RemoveAt(ps, k);
    forall i | 0 <= i < |r| ensures r[i].id != id {
      if i < k { assert r[i] == ps[i]; } else { assert r[i] == ps[i + 1]; }
    }
  }

  /** Creating a product and then fetching it by its id returns exactly that
      product. */
  lemma CreateThenGet(ps: seq<Product>, id: Id, d: Draft)
    requires !HasId(ps, id)
    ensures GetByIdIntended(ps + [Attach(id, d)], id) == Respond(200, Item(Attach(id, d)))
  {
    FindAfterAppend(ps, Attach(id, d), id);
  }
}
