/**
 * The product record both the browse page and the admin editor work on, and
 * the `find` / `findIndex` look-ups by id that both use.
 */
module Products {
  import opened Wrappers

  /** One entry of the `products` array of `products.json`. */
  datatype Product = Product(
    id: string,
    title: string,
    description: string,
    category: string,
    status: string,
    condition: string,
    price: real,
    tags: seq<string>,
    images: seq<string>,
    marketplaceLink: Option<string>)

  /** `ps.findIndex(p => p.id === id)`: the first index holding `id`, or -1 when there is none. */
  function FindIndex(ps: seq<Product>, id: string): (k: int)
    ensures -1 <= k < |ps|
    ensures k == -1 <==> forall i :: 0 <= i < |ps| ==> ps[i].id != id
    ensures 0 <= k ==> ps[k].id == id && forall i :: 0 <= i < k ==> ps[i].id != id
    decreases |ps|
  {
    if ps == [] then -1
    else if ps[0].id == id then 0
    else
      var k := FindIndex(ps[1..], id);
      if k == -1 then -1 else k + 1
  }

  /** `ps.find(p => p.id === id)`: the first product holding `id`, or none. */
  function FindById(ps: seq<Product>, id: string): (r: Option<Product>)
    ensures r.None? <==> forall i :: 0 <= i < |ps| ==> ps[i].id != id
    ensures r.Some? ==> exists k :: 0 <= k < |ps| && ps[k] == r.value && r.value.id == id &&
                                    forall i :: 0 <= i < k ==> ps[i].id != id
  {
    var k := FindIndex(ps, id);
    if k == -1 then None else Some(ps[k])
  }

  /** No two products share an id. */
  predicate UniqueIds(ps: seq<Product>) {
    forall i, j :: 0 <= i < j < |ps| ==> ps[i].id != ps[j].id
  }
}
