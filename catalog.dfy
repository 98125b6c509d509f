/**
 * The catalog filter store of the browse page (`DataService`): the product
 * list, the six filter criteria, the filtered view, the distinct values of a
 * field, the look-up by id and the image-path rewriting.
 */
module Catalog {
  import opened Wrappers
  import opened Text
  import opened StringOrder
  import opened Products

  const BaseResourceUrl: string := "http://localhost:3000/data/er/v73"
  const LocalResourcePath: string := "product-management-app/data/er/v73"
  const PlaceholderImage: string := "resources/images/placeholder.jpg"
  const ResourcesPrefix: string := "resources/"

  /** The filter criteria; an empty string or `None` imposes no constraint. */
  datatype Criteria = Criteria(
    searchTerm: string,
    category: string,
    status: string,
    condition: string,
    priceMin: Option<real>,
    priceMax: Option<real>)

  /** The criteria the constructor installs and `resetFilters` restores. */
  const DefaultCriteria: Criteria := Criteria("", "", "", "", None, None)

  /**
   * The argument of `setFilters`: for each key, `None` when the object does
   * not carry it. The price keys may be carried with the value `null`.
   */
  datatype CriteriaUpdate = CriteriaUpdate(
    searchTerm: Option<string>,
    category: Option<string>,
    status: Option<string>,
    condition: Option<string>,
    priceMin: Option<Option<real>>,
    priceMax: Option<Option<real>>)

  function Pick<T>(supplied: Option<T>, current: T): T {
    if supplied.Some? then supplied.value else current
  }

  /** `{ ...c, ...u }`. */
  function Merge(c: Criteria, u: CriteriaUpdate): Criteria {
    Criteria(
      Pick(u.searchTerm, c.searchTerm),
      Pick(u.category, c.category),
      Pick(u.status, c.status),
      Pick(u.condition, c.condition),
      Pick(u.priceMin, c.priceMin),
      Pick(u.priceMax, c.priceMax))
  }

  /** An update that carries no key changes nothing. */
  lemma MergeNothing(c: Criteria)
    ensures Merge(c, CriteriaUpdate(None, None, None, None, None, None)) == c
  {
  }

  /** An update that carries all six keys replaces the whole record, whatever it was. */
  lemma MergeEverything(c: Criteria, d: Criteria)
    ensures Merge(c, CriteriaUpdate(Some(d.searchTerm), Some(d.category), Some(d.status),
                                    Some(d.condition), Some(d.priceMin), Some(d.priceMax))) == d
  {
  }

  /** Merging the same update twice is merging it once. */
  lemma MergeIdempotent(c: Criteria, u: CriteriaUpdate)
    ensures Merge(Merge(c, u), u) == Merge(c, u)
  {
  }

  /** The text search: empty, or found in the lower-cased title or the lower-cased description. */
  predicate SearchMatches(term: string, p: Product) {
    || term == ""
    || Includes(ToLower(p.title), ToLower(term))
    || Includes(ToLower(p.description), ToLower(term))
  }

  /** A category, status or condition criterion: empty, or exactly the product's value. */
  predicate DiscreteMatches(wanted: string, actual: string) {
    wanted == "" || actual == wanted
  }

  /** Both price bounds are inclusive; an absent bound does not constrain. */
  predicate PriceMatches(c: Criteria, price: real) {
    && (c.priceMin.None? || !(price < c.priceMin.value))
    && (c.priceMax.None? || !(price > c.priceMax.value))
  }

  /** The predicate `filterProducts` hands to `Array.prototype.filter`. */
  predicate Matches(c: Criteria, p: Product) {
    && SearchMatches(c.searchTerm, p)
    && DiscreteMatches(c.category, p.category)
    && DiscreteMatches(c.status, p.status)
    && DiscreteMatches(c.condition, p.condition)
    && PriceMatches(c, p.price)
  }

  /** `ps.filter(p => Matches(c, p))`. */
  function Select(ps: seq<Product>, c: Criteria): seq<Product>
    decreases |ps|
  {
    if ps == [] then []
    else (if Matches(c, ps[0]) then [ps[0]] else []) + Select(ps[1..], c)
  }

  /** `r` is `s` with some elements left out and the rest in their original order. */
  predicate SubsequenceOf<T(==)>(r: seq<T>, s: seq<T>)
    decreases |s|
  {
    r == [] || (s != [] && ((r[0] == s[0] && SubsequenceOf(r[1..], s[1..])) || SubsequenceOf(r, s[1..])))
  }

  /** Filtering keeps the order of the product list: the view is a subsequence of it. */
  lemma {:induction false} SelectSubsequence(ps: seq<Product>, c: Criteria)
    ensures SubsequenceOf(Select(ps, c), ps)
    decreases |ps|
  {
    if ps != [] {
      SelectSubsequence(ps[1..], c);
      var r := Select(ps, c);
      if Matches(c, ps[0]) {
        assert r[0] == ps[0] && r[1..] == Select(ps[1..], c);
      } else {
        assert r == Select(ps[1..], c);
      }
    }
  }

  /** A product is in the view exactly when it is in the list and meets every criterion. */
  lemma {:induction false} SelectMembership(ps: seq<Product>, c: Criteria)
    ensures forall p :: p in Select(ps, c) <==> p in ps && Matches(c, p)
    decreases |ps|
  {
    if ps != [] {
      SelectMembership(ps[1..], c);
      assert ps == [ps[0]] + ps[1..];
    }
  }

  /** A product that meets the criteria appears in the view as often as in the list. */
  lemma {:induction false} SelectMultiplicity(ps: seq<Product>, c: Criteria)
    ensures forall p :: multiset(Select(ps, c))[p] == if Matches(c, p) then multiset(ps)[p] else 0
    decreases |ps|
  {
    if ps != [] {
      SelectMultiplicity(ps[1..], c);
      assert ps == [ps[0]] + ps[1..];
    }
  }

  /** When every product meets the criteria the view is the whole list. */
  lemma {:induction false} SelectAll(ps: seq<Product>, c: Criteria)
    requires forall i :: 0 <= i < |ps| ==> Matches(c, ps[i])
    ensures Select(ps, c) == ps
    decreases |ps|
  {
    if ps != [] {
      SelectAll(ps[1..], c);
    }
  }

  /** When no product meets the criteria the view is empty. */
  lemma {:induction false} SelectNone(ps: seq<Product>, c: Criteria)
    requires forall i :: 0 <= i < |ps| ==> !Matches(c, ps[i])
    ensures Select(ps, c) == []
    decreases |ps|
  {
    if ps != [] {
      SelectNone(ps[1..], c);
    }
  }

  /** With the default criteria the view is the whole product list. */
  lemma DefaultSelectsAll(ps: seq<Product>)
    ensures Select(ps, DefaultCriteria) == ps
  {
    SelectAll(ps, DefaultCriteria);
  }

  /** A minimum above the maximum gives an empty view, not an error. */
  lemma InvertedPriceRange(ps: seq<Product>, c: Criteria)
    requires c.priceMin.Some? && c.priceMax.Some? && c.priceMin.value > c.priceMax.value
    ensures Select(ps, c) == []
  {
    SelectNone(ps, c);
  }

  /** A product priced exactly at a bound passes that bound. */
  lemma {:induction false} BoundsInclusive(ps: seq<Product>, lo: real, hi: real)
    requires forall i :: 0 <= i < |ps| ==> ps[i].price == lo || ps[i].price == hi
    requires lo <= hi
    ensures Select(ps, DefaultCriteria.(priceMin := Some(lo), priceMax := Some(hi))) == ps
  {
    SelectAll(ps, DefaultCriteria.(priceMin := Some(lo), priceMax := Some(hi)));
  }

  /** The string value of a product field, the argument of `getUniqueValues`. */
  datatype Field = Id | Title | Description | Category | Status | Condition

  function FieldValue(p: Product, f: Field): string {
    match f
    case Id => p.id
    case Title => p.title
    case Description => p.description
    case Category => p.category
    case Status => p.status
    case Condition => p.condition
  }

  /** `ps.map(p => p[f])`. */
  function FieldValues(ps: seq<Product>, f: Field): (r: seq<string>)
    ensures forall v :: v in r <==> exists i :: 0 <= i < |ps| && FieldValue(ps[i], f) == v
  {
    var r := seq(|ps|, i requires 0 <= i < |ps| => FieldValue(ps[i], f));
    assert forall i :: 0 <= i < |ps| ==> r[i] == FieldValue(ps[i], f);
    r
  }

  /** Where `fetchProducts` got the product list from, if anywhere. */
  datatype FetchOutcome =
    | RemoteLoaded(remoteProducts: seq<Product>)
    | LocalLoaded(localProducts: seq<Product>)
    | BothFailed

  class DataService {
    var products: seq<Product>
    var currentResourceBase: string
    var filters: Criteria

    constructor ()
      ensures products == [] && currentResourceBase == LocalResourcePath && filters == DefaultCriteria
    {
      products := [];
      currentResourceBase := LocalResourcePath;
      filters := DefaultCriteria;
    }

    /**
     * The state `fetchProducts` leaves behind once its requests have settled:
     * a remote list switches images to the remote base, a local list to the
     * local path, and a double failure changes nothing and yields `[]`.
     */
    method ApplyFetchOutcome(outcome: FetchOutcome) returns (loaded: seq<Product>)
      modifies this
      ensures filters == old(filters)
      ensures outcome.RemoteLoaded? ==>
        products == outcome.remoteProducts && currentResourceBase == BaseResourceUrl && loaded == products
      ensures outcome.LocalLoaded? ==>
        products == outcome.localProducts && currentResourceBase == LocalResourcePath && loaded == products
      ensures outcome.BothFailed? ==>
        products == old(products) && currentResourceBase == old(currentResourceBase) && loaded == []
    {
      match outcome
      case RemoteLoaded(ps) =>
        products := ps;
        currentResourceBase := BaseResourceUrl;
        loaded := products;
      case LocalLoaded(ps) =>
        products := ps;
        currentResourceBase := LocalResourcePath;
        loaded := products;
      case BothFailed =>
        loaded := [];
    }

    /** The URL an image path resolves to under the current resource base. */
    function GetResourceUrl(resourcePath: Option<string>): (r: string)
      reads this
      ensures resourcePath == None || resourcePath == Some("") ==> r == PlaceholderImage
      ensures resourcePath.Some? && StartsWith(resourcePath.value, ResourcesPrefix) ==>
        r == currentResourceBase + "/" + resourcePath.value
      ensures resourcePath.Some? && resourcePath.value != "" && !StartsWith(resourcePath.value, ResourcesPrefix) ==>
        r == resourcePath.value
    {
      if resourcePath == None || resourcePath == Some("") then PlaceholderImage
      else if StartsWith(resourcePath.value, ResourcesPrefix) then
        var pathWithoutPrefix := resourcePath.value[|ResourcesPrefix|..];
        assert resourcePath.value == ResourcesPrefix + pathWithoutPrefix;
        currentResourceBase + "/resources/" + pathWithoutPrefix
      else resourcePath.value
    }

    /**
     * The distinct values of `field`, sorted: nothing for an empty list,
     * otherwise a strictly ascending list of exactly the values that occur.
     */
    function GetUniqueValues(field: Field): (r: seq<string>)
      reads this
      ensures products == [] ==> r == []
      ensures StrictlyAscending(r)
      ensures forall v :: v in r <==> exists i :: 0 <= i < |products| && FieldValue(products[i], field) == v
    {
      if |products| == 0 then [] else SortedUnique(FieldValues(products, field))
    }

    /**
     * The products meeting the current criteria, in list order: a
     * subsequence of `products` holding each matching product as often as
     * the list does and nothing else.
     */
    function FilterProducts(): (r: seq<Product>)
      reads this
      ensures SubsequenceOf(r, products)
      ensures forall p :: p in r <==> p in products && Matches(filters, p)
      ensures forall p :: multiset(r)[p] == if Matches(filters, p) then multiset(products)[p] else 0
    {
      SelectSubsequence(products, filters);
      SelectMembership(products, filters);
      SelectMultiplicity(products, filters);
      Select(products, filters)
    }

    /** The first product with the given id, or none. */
    function GetProductById(id: string): (r: Option<Product>)
      reads this
      ensures r.None? <==> forall i :: 0 <= i < |products| ==> products[i].id != id
      ensures r.Some? ==> exists k :: 0 <= k < |products| && products[k] == r.value && r.value.id == id &&
                                      forall i :: 0 <= i < k ==> products[i].id != id
    {
      FindById(products, id)
    }

    /** Overwrites the criteria the update carries and keeps the others. */
    method SetFilters(update: CriteriaUpdate)
      modifies this
      ensures filters == Merge(old(filters), update)
      ensures products == old(products) && currentResourceBase == old(currentResourceBase)
    {
      filters := Merge(filters, update);
    }

    /** Restores the constructor's criteria. */
    method ResetFilters()
      modifies this
      ensures filters == DefaultCriteria
      ensures products == old(products) && currentResourceBase == old(currentResourceBase)
    {
      filters := DefaultCriteria;
    }
  }

  /** Resetting twice leaves the same state as resetting once. */
  method ResetIsIdempotent(s: DataService)
    modifies s
    ensures s.filters == DefaultCriteria && s.products == old(s.products)
    ensures s.FilterProducts() == s.products
  {
    s.ResetFilters();
    var once := s.filters;
    s.ResetFilters();
    assert s.filters == once;
    DefaultSelectsAll(s.products);
  }
}
