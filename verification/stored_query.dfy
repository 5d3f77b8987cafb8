/** How MongoDB reads the filter document the handlers actually send, where that differs from
    the intended reading in `Listing`. When neither price bound applies the handlers still send
    `price: {}` (index.js:116, index.js:159). A field condition that is a document with no
    `$`-operator is an equality test, so `{}` asks for records whose price IS the empty document,
    and no numeric price is. */
module StoredQuery {
  import opened Wrappers
  import opened QueryBuilder
  import opened Listing

  /** The price clause as the store reads it: an operator document when a bound is present,
      equality with `{}` otherwise. */
  predicate StoredPriceMatches(c: PriceClause, price: real) {
    if c.gte.None? && c.lte.None? then false else PriceMatches(c, price)
  }

  predicate StoredMatches(f: Filter, x: Product, rx: Matcher) {
    && TextMatches(f.name, x.name, rx)
    && TextMatches(f.brand, x.brand, rx)
    && TextMatches(f.category, x.category, rx)
    && StoredPriceMatches(f.price, x.price)
  }

  /** `find(filter)` as the store evaluates the document the handlers send. */
  function FindAsSent(f: Filter, coll: seq<Product>, rx: Matcher): (r: seq<Product>)
    ensures forall x :: x in r <==> x in coll && StoredMatches(f, x, rx)
    ensures forall x :: multiset(r)[x] == if StoredMatches(f, x, rx) then multiset(coll)[x] else 0
  {
    if coll == [] then []
    else
      var rest := FindAsSent(f, coll[1..], rx);
      assert coll == [coll[0]] + coll[1..];
      assert multiset(coll) == multiset{coll[0]} + multiset(coll[1..]);
      if StoredMatches(f, coll[0], rx) then [coll[0]] + rest else rest
  }

  /** `GET /docCount` as written (index.js:144-169). */
  function CountDocsAsSent(p: FilterParams, coll: seq<Product>, rx: Matcher): (r: seq<Product>)
    ensures forall x :: multiset(r)[x] == if StoredMatches(BuildFilter(p), x, rx) then multiset(coll)[x] else 0
  {
    FindAsSent(BuildFilter(p), coll, rx)
  }

  /** `GET /products` as written (index.js:97-142): the same sort and window over the matches
      of the document actually sent. */
  function ListProductsAsSent(p: ListParams, coll: seq<Product>, rx: Matcher): (r: Option<seq<Product>>)
    ensures r.Some? <==> BuildWindow(p.page, p.limit).Some?
    ensures r.Some? ==> Ordered(BuildSort(p.sorting), r.value)
    ensures r.Some? ==> multiset(r.value) <= multiset(CountDocsAsSent(p.filter, coll, rx))
    ensures r.Some? ==> |r.value| == PageLength(BuildWindow(p.page, p.limit).value, |CountDocsAsSent(p.filter, coll, rx)|)
  {
    match BuildWindow(p.page, p.limit)
    case None => None
    case Some(w) =>
      var matches := CountDocsAsSent(p.filter, coll, rx);
      var sorted := SortBy(BuildSort(p.sorting), matches);
      AdmissiblePage(BuildSort(p.sorting), matches, sorted, w);
      Some(Page(sorted, w))
  }

  /** As written, a request whose `min` and `max` are absent, non-numeric or 0 matches nothing,
      whatever the collection holds. */
  lemma UnboundedRequestFindsNothingAsSent(p: FilterParams, coll: seq<Product>, rx: Matcher)
    requires !IsTruthyNumber(ParseParam(p.min)) && !IsTruthyNumber(ParseParam(p.max))
    ensures CountDocsAsSent(p, coll, rx) == []
  {
    EmptyPriceClauseFindsNothing(BuildFilter(p), coll, rx);
  }

  /** As written, `/products` with no applicable price bound answers every valid page with an
      empty list. */
  lemma UnboundedListFindsNothingAsSent(p: ListParams, coll: seq<Product>, rx: Matcher)
    requires !IsTruthyNumber(ParseParam(p.filter.min)) && !IsTruthyNumber(ParseParam(p.filter.max))
    requires BuildWindow(p.page, p.limit).Some?
    ensures ListProductsAsSent(p, coll, rx) == Some([])
  {
    UnboundedRequestFindsNothingAsSent(p.filter, coll, rx);
  }

  lemma {:induction false} EmptyPriceClauseFindsNothing(f: Filter, coll: seq<Product>, rx: Matcher)
    requires f.price == PriceClause(None, None)
    ensures FindAsSent(f, coll, rx) == []
  {
    if coll != [] {
      EmptyPriceClauseFindsNothing(f, coll[1..], rx);
    }
  }

  /** A concrete case: `GET /docCount` with no parameters over a one-product collection returns
      that product under the intended reading and nothing as sent. */
  lemma NoParameterCountExample(rx: Matcher)
    ensures var p := FilterParams(None, None, None, None, None);
      var coll := [Product("Inspiron 15", "Dell", "Laptop", 699.99, 1)];
      && CountDocs(p, coll, rx) == coll
      && CountDocsAsSent(p, coll, rx) == []
  {
    var p := FilterParams(None, None, None, None, None);
    var coll := [Product("Inspiron 15", "Dell", "Laptop", 699.99, 1)];
    UnboundedRequestFindsNothingAsSent(p, coll, rx);
    assert coll[1..] == [];
  }

  /** The intended reading: with no price bound the price clause constrains nothing, so the
      `/docCount` result is exactly the records whose text fields match. */
  lemma UnboundedRequestKeepsTextMatches(p: FilterParams, coll: seq<Product>, rx: Matcher, x: Product)
    requires !IsTruthyNumber(ParseParam(p.min)) && !IsTruthyNumber(ParseParam(p.max))
    ensures x in CountDocs(p, coll, rx) <==>
      && x in coll
      && TextMatches(TextClause(p.search), x.name, rx)
      && TextMatches(TextClause(p.brand), x.brand, rx)
      && TextMatches(TextClause(p.category), x.category, rx)
  {
  }

  /** Once a bound applies, the store's reading and the intended one agree. */
  lemma BoundedRequestAsSentAgrees(p: FilterParams, coll: seq<Product>, rx: Matcher, x: Product)
    requires IsTruthyNumber(ParseParam(p.min)) || IsTruthyNumber(ParseParam(p.max))
    ensures x in CountDocsAsSent(p, coll, rx) <==> x in CountDocs(p, coll, rx)
  {
  }

  /** With a bound in the price clause, the store's `find` is the intended one. */
  lemma {:induction false} BoundedFindAsSentAgrees(f: Filter, coll: seq<Product>, rx: Matcher)
    requires f.price.gte.Some? || f.price.lte.Some?
    ensures FindAsSent(f, coll, rx) == Find(f, coll, rx)
  {
    if coll != [] {
      BoundedFindAsSentAgrees(f, coll[1..], rx);
    }
  }

  /** Once a bound applies, `/products` as written returns the intended page. */
  lemma BoundedListAsSentAgrees(p: ListParams, coll: seq<Product>, rx: Matcher)
    requires IsTruthyNumber(ParseParam(p.filter.min)) || IsTruthyNumber(ParseParam(p.filter.max))
    ensures ListProductsAsSent(p, coll, rx) == ListProducts(p, coll, rx)
  {
    BoundedFindAsSentAgrees(BuildFilter(p.filter), coll, rx);
    if BuildWindow(p.page, p.limit).Some? {
      PageIsSliceOfSortedCount(p, coll, rx);
    }
  }
}
