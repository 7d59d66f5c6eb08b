/** The server-side product filter of the HTTP API: keep, in order, the
    products whose effective price lies within the requested bounds and whose
    category matches the requested one, ignoring ASCII case. */
module Api {
  import opened Base
  import opened Strings

  /** A product's `category` entry: missing, JSON `null`, or a text. */
  datatype CategoryField = Absent | NullCategory | CategoryText(s: string)

  /** The parts of a stored product the filter reads. */
  datatype Listing = Listing(priceCurrent: Option<real>, priceOriginal: Option<real>, category: CategoryField)

  /** The query parameters; `None` means the parameter was not given. */
  datatype Query = Query(minPrice: Option<real>, maxPrice: Option<real>, category: Option<string>)

  /** The current price, or the original price when there is no current one. */
  function EffectivePrice(p: Listing): (r: Option<real>)
    ensures p.priceCurrent.Some? ==> r == p.priceCurrent
    ensures p.priceCurrent.None? ==> r == p.priceOriginal
  {
    if p.priceCurrent.Some? then p.priceCurrent else p.priceOriginal
  }

  /** Python's `str(product.get("category", ""))`. */
  function CategoryString(c: CategoryField): string {
    match c
    case Absent => ""
    case NullCategory => "None"
    case CategoryText(s) => s
  }

  /** The category filter is on when the parameter is a non-empty text. */
  predicate FiltersCategory(q: Query) {
    q.category.Some? && |q.category.value| > 0
  }

  /** What a kept product satisfies: each bound that is set holds of a
      present effective price, and a requested category matches. */
  predicate Passes(p: Listing, q: Query) {
    && (q.minPrice.Some? ==> EffectivePrice(p).Some? && EffectivePrice(p).value >= q.minPrice.value)
    && (q.maxPrice.Some? ==> EffectivePrice(p).Some? && EffectivePrice(p).value <= q.maxPrice.value)
    && (FiltersCategory(q) ==> Lower(CategoryString(p.category)) == Lower(q.category.value))
  }

  /** The passing products, in order. */
  function Select(ps: seq<Listing>, q: Query): seq<Listing> {
    if |ps| == 0 then [] else Select(ps[..|ps| - 1], q) + (if Passes(ps[|ps| - 1], q) then [ps[|ps| - 1]] else [])
  }

  /** `_filter_products`: one pass over the products, each one skipped at
      the first check it fails. */
  method FilterProducts(products: seq<Listing>, q: Query) returns (result: seq<Listing>)
    ensures result == Select(products, q)
    ensures forall k | 0 <= k < |result| :: Passes(result[k], q)
  {
    result := [];
    var i := 0;
    while i < |products|
      invariant 0 <= i <= |products|
      invariant result == Select(products[..i], q)
      invariant forall k | 0 <= k < |result| :: Passes(result[k], q)
    {
      var product := products[i];
      assert products[..i + 1][..i] == products[..i];
      i := i + 1;
      var price := product.priceCurrent;
      if price.None? {
        price := product.priceOriginal;
      }
      if q.minPrice.Some? && (price.None? || price.value < q.minPrice.value) {
        continue;
      }
      if q.maxPrice.Some? && (price.None? || price.value > q.maxPrice.value) {
        continue;
      }
      if q.category.Some? && |q.category.value| > 0
         && Lower(CategoryString(product.category)) != Lower(q.category.value) {
        continue;
      }
      result := result + [product];
    }
    assert products[..i] == products;
  }

  /** The filter keeps exactly the passing products, in their order: the
      result is the products at the increasing positions `idx`, and a
      position is listed exactly when its product passes. */
  lemma {:induction false} SelectIsOrderedFilter(ps: seq<Listing>, q: Query) returns (idx: seq<nat>)
    ensures |idx| == |Select(ps, q)|
    ensures forall k | 0 <= k < |idx| :: idx[k] < |ps| && Select(ps, q)[k] == ps[idx[k]]
    ensures forall k, k' | 0 <= k < k' < |idx| :: idx[k] < idx[k']
    ensures forall i | 0 <= i < |ps| :: Passes(ps[i], q) <==> i in idx
  {
    if |ps| == 0 {
      idx := [];
    } else {
      var n := |ps| - 1;
      var init := SelectIsOrderedFilter(ps[..n], q);
      assert forall i | 0 <= i < n :: ps[..n][i] == ps[i];
      if Passes(ps[n], q) {
        idx := init + [n];
      } else {
        idx := init;
      }
    }
  }

  /** Without a bound or a category, every product is kept. */
  lemma {:induction false} NoFilterKeepsAll(ps: seq<Listing>, q: Query)
    requires q.minPrice.None? && q.maxPrice.None? && !FiltersCategory(q)
    ensures Select(ps, q) == ps
  {
    if |ps| > 0 {
      NoFilterKeepsAll(ps[..|ps| - 1], q);
    }
  }

  /** Filtering twice with the same query is filtering once. */
  lemma {:induction false} FilterIdempotent(ps: seq<Listing>, q: Query)
    ensures Select(Select(ps, q), q) == Select(ps, q)
  {
    if |ps| > 0 {
      var n := |ps| - 1;
      FilterIdempotent(ps[..n], q);
      var init := Select(ps[..n], q);
      if Passes(ps[n], q) {
        var s := init + [ps[n]];
        assert s[..|s| - 1] == init && s[|s| - 1] == ps[n];
        assert Select(s, q) == Select(init, q) + [ps[n]];
      } else {
        assert Select(ps, q) == init + [] == init;
      }
    }
  }
}
