/** What the two handlers return: `/products` runs find, sort, skip and limit over the product
    collection (index.js:140), `/docCount` runs find alone and returns every match (index.js:166). */
module Listing {
  import opened Wrappers
  import opened QueryBuilder

  /** The fields of a product record the filter and sort options read. The price is a number
      that may have a fractional part; the creation date is the timestamp it is ordered by. */
  datatype Product = Product(name: string, brand: string, category: string, price: real, createdDate: int)

  /** How the document store tests a case-insensitive regular expression against a text field.
      JavaScript/MongoDB regular expression semantics are not part of this model, so every
      statement below holds for any matcher. */
  type Matcher = (Pattern, string) -> bool

  predicate TextMatches(clause: Option<Pattern>, field: string, rx: Matcher) {
    clause.None? || rx(clause.value, field)
  }

  /** The intended reading of the price clause: each bound present is checked, and a clause with
      no bound constrains nothing. */
  predicate PriceMatches(c: PriceClause, price: real) {
    (c.gte.None? || price >= c.gte.value as real) && (c.lte.None? || price <= c.lte.value as real)
  }

  predicate Matches(f: Filter, x: Product, rx: Matcher) {
    && TextMatches(f.name, x.name, rx)
    && TextMatches(f.brand, x.brand, rx)
    && TextMatches(f.category, x.category, rx)
    && PriceMatches(f.price, x.price)
  }

  /** `find(filter)`: the matching records, in collection order. */
  function Find(f: Filter, coll: seq<Product>, rx: Matcher): (r: seq<Product>)
    ensures |r| <= |coll|
    ensures multiset(r) <= multiset(coll)
    ensures forall x :: x in r <==> x in coll && Matches(f, x, rx)
    ensures forall x :: multiset(r)[x] == if Matches(f, x, rx) then multiset(coll)[x] else 0
  {
    if coll == [] then []
    else
      var rest := Find(f, coll[1..], rx);
      assert coll == [coll[0]] + coll[1..];
      assert multiset(coll) == multiset{coll[0]} + multiset(coll[1..]);
      if Matches(f, coll[0], rx) then [coll[0]] + rest else rest
  }

  /** `a` may come before `b` under the sort option. */
  predicate Before(order: Sort, a: Product, b: Product) {
    match order
    case NoSort => true
    case ByCreatedDesc => a.createdDate >= b.createdDate
    case ByPrice(ascending) => if ascending then a.price <= b.price else a.price >= b.price
  }

  predicate Ordered(order: Sort, s: seq<Product>) {
    forall i, j :: 0 <= i < j < |s| ==> Before(order, s[i], s[j])
  }

  /** Places `x` in front of the first element it may precede. */
  function Insert(order: Sort, x: Product, s: seq<Product>): (r: seq<Product>)
    requires Ordered(order, s)
    ensures Ordered(order, r)
    ensures multiset(r) == multiset(s) + multiset{x}
    ensures |r| == |s| + 1
    ensures r != [] && (r[0] == x || (s != [] && r[0] == s[0]))
  {
    if s == [] || Before(order, x, s[0]) then
      [x] + s
    else
      var rest := Insert(order, x, s[1..]);
      assert Before(order, s[0], rest[0]);
      LowerBoundOfOrdered(order, s[0], rest);
      assert s == [s[0]] + s[1..];
      [s[0]] + rest
  }

  /** In an ordered sequence, whatever may precede the first element may precede them all. */
  lemma LowerBoundOfOrdered(order: Sort, y: Product, r: seq<Product>)
    requires Ordered(order, r) && r != [] && Before(order, y, r[0])
    ensures forall k :: 0 <= k < |r| ==> Before(order, y, r[k])
  {
  }

  /** The order the store returns the matches in: unchanged without a sort option, otherwise
      ordered by the sort key. Records with equal keys keep their relative order here; the store
      promises no particular order among them, and the statements about pages below hold for any
      ordering of the matches. */
  function SortBy(order: Sort, s: seq<Product>): (r: seq<Product>)
    ensures Ordered(order, r)
    ensures multiset(r) == multiset(s)
    ensures |r| == |s|
    ensures order == NoSort ==> r == s
  {
    if order == NoSort || s == [] then s
    else
      assert s == [s[0]] + s[1..];
      Insert(order, s[0], SortBy(order, s[1..]))
  }

  function Min(a: int, b: int): int {
    if a <= b then a else b
  }

  /** How many of `total` ordered matches a window yields: none past the end, otherwise the rest
      of the matches, cut at `limit` unless the limit is 0. */
  function PageLength(w: Window, total: nat): nat {
    if w.skip >= total then 0
    else if w.limit == 0 then total - w.skip
    else Min(w.limit, total - w.skip)
  }

  /** `.skip(w.skip).limit(w.limit)` over an already filtered and ordered sequence. A limit of 0
      is MongoDB's "no limit". */
  function Page<T>(s: seq<T>, w: Window): (r: seq<T>)
    ensures |r| == PageLength(w, |s|)
    ensures r == [] <==> w.skip >= |s|
    ensures forall i :: 0 <= i < |r| ==> r[i] == s[w.skip + i]
  {
    if w.skip >= |s| then []
    else if w.limit == 0 then s[w.skip..]
    else s[w.skip..Min(w.skip + w.limit, |s|)]
  }

  /** `find(filter, {sort}).skip(...).limit(...)`: the window of the ordered matches. */
  function RunList(f: Filter, order: Sort, w: Window, coll: seq<Product>, rx: Matcher): (r: seq<Product>)
    ensures Ordered(order, r)
    ensures w.limit > 0 ==> |r| <= w.limit
    ensures forall i :: 0 <= i < |r| ==> Matches(f, r[i], rx)
    ensures multiset(r) <= multiset(Find(f, coll, rx))
    ensures |r| == PageLength(w, |Find(f, coll, rx)|)
  {
    var matches := Find(f, coll, rx);
    var sorted := SortBy(order, matches);
    AdmissiblePage(order, matches, sorted, w);
    SameElements(sorted, matches);
    PageElements(sorted, w);
    Page(sorted, w)
  }

  /** `GET /products`: the page of matches, or `None` when the store rejects a negative skip. */
  function ListProducts(p: ListParams, coll: seq<Product>, rx: Matcher): (r: Option<seq<Product>>)
    ensures r.Some? <==> BuildWindow(p.page, p.limit).Some?
    ensures r.Some? ==> Ordered(BuildSort(p.sorting), r.value)
    ensures r.Some? && p.limit.GetOr(DefaultLimit) > 0 ==> |r.value| <= p.limit.GetOr(DefaultLimit)
    ensures r.Some? ==> forall i :: 0 <= i < |r.value| ==> Matches(BuildFilter(p.filter), r.value[i], rx)
    ensures r.Some? ==> multiset(r.value) <= multiset(CountDocs(p.filter, coll, rx))
    ensures r.Some? ==> |r.value| == PageLength(BuildWindow(p.page, p.limit).value, |CountDocs(p.filter, coll, rx)|)
  {
    match BuildWindow(p.page, p.limit)
    case None => None
    case Some(w) => Some(RunList(BuildFilter(p.filter), BuildSort(p.sorting), w, coll, rx))
  }

  /** `GET /docCount`: every match, unsorted and unpaginated; the client takes its length. */
  function CountDocs(p: FilterParams, coll: seq<Product>, rx: Matcher): (r: seq<Product>)
    ensures |r| <= |coll|
    ensures forall x :: x in r <==> x in coll && Matches(BuildFilter(p), x, rx)
    ensures forall x :: multiset(r)[x] == if Matches(BuildFilter(p), x, rx) then multiset(coll)[x] else 0
  {
    Find(BuildFilter(p), coll, rx)
  }

  lemma SameElements(a: seq<Product>, b: seq<Product>)
    requires multiset(a) == multiset(b)
    ensures forall x :: x in a ==> x in b
  {
    forall x | x in a
      ensures x in b
    {
      assert x in multiset(a);
    }
  }

  lemma PageElements(s: seq<Product>, w: Window)
    ensures forall i :: 0 <= i < |Page(s, w)| ==> Page(s, w)[i] in s
  {
  }

  lemma SliceOfOrderedIsOrdered(order: Sort, s: seq<Product>, w: Window)
    requires Ordered(order, s)
    ensures Ordered(order, Page(s, w))
  {
    var r := Page(s, w);
    forall i, j | 0 <= i < j < |r|
      ensures Before(order, r[i], r[j])
    {
      assert r[i] == s[w.skip + i] && r[j] == s[w.skip + j];
    }
  }

  /** Membership in the `/docCount` result in terms of the raw parameters: each text parameter,
      when non-empty, must match its field; each price bound, when it parses to a non-zero
      integer, must hold. */
  lemma CountDocsMembership(p: FilterParams, coll: seq<Product>, rx: Matcher, x: Product)
    ensures x in CountDocs(p, coll, rx) <==>
      && x in coll
      && (IsTruthyText(p.search) ==> rx(Pattern(p.search.value, true), x.name))
      && (IsTruthyText(p.brand) ==> rx(Pattern(p.brand.value, true), x.brand))
      && (IsTruthyText(p.category) ==> rx(Pattern(p.category.value, true), x.category))
      && (IsTruthyNumber(ParseParam(p.min)) ==> x.price >= ParseParam(p.min).value as real)
      && (IsTruthyNumber(ParseParam(p.max)) ==> x.price <= ParseParam(p.max).value as real)
  {
  }

  lemma MultisetOfPage(s: seq<Product>, w: Window)
    ensures multiset(Page(s, w)) <= multiset(s)
  {
    var r := Page(s, w);
    if w.skip < |s| {
      var hi := if w.limit == 0 then |s| else Min(w.skip + w.limit, |s|);
      assert r == s[w.skip..hi];
      assert s == s[..w.skip] + s[w.skip..];
      assert s[w.skip..] == r + s[hi..];
      assert multiset(s) == multiset(s[..w.skip]) + multiset(r) + multiset(s[hi..]);
    }
  }

  /** Every `/products` page draws its records from the `/docCount` result for the same filter
      parameters, so it is never longer than that result. */
  lemma PageWithinCount(p: ListParams, coll: seq<Product>, rx: Matcher)
    requires BuildWindow(p.page, p.limit).Some?
    ensures multiset(ListProducts(p, coll, rx).value) <= multiset(CountDocs(p.filter, coll, rx))
    ensures |ListProducts(p, coll, rx).value| <= |CountDocs(p.filter, coll, rx)|
  {
  }

  /** An ordering the store may return the matches in under a sort option: a permutation of the
      matches, ordered by the key, and the matches themselves when there is no sort option. Among
      equal keys it may be any order. */
  predicate Admissible(order: Sort, matches: seq<Product>, sorted: seq<Product>) {
    && multiset(sorted) == multiset(matches)
    && Ordered(order, sorted)
    && (order == NoSort ==> sorted == matches)
  }

  /** `SortBy` is one admissible ordering. */
  lemma SortByIsAdmissible(order: Sort, matches: seq<Product>)
    ensures Admissible(order, matches, SortBy(order, matches))
  {
  }

  /** Whatever admissible ordering the store picks, a page is ordered, is drawn from the matches,
      and has the length the window and the number of matches determine. */
  lemma AdmissiblePage(order: Sort, matches: seq<Product>, sorted: seq<Product>, w: Window)
    requires Admissible(order, matches, sorted)
    ensures Ordered(order, Page(sorted, w))
    ensures multiset(Page(sorted, w)) <= multiset(matches)
    ensures |Page(sorted, w)| == PageLength(w, |matches|)
  {
    SliceOfOrderedIsOrdered(order, sorted, w);
    MultisetOfPage(sorted, w);
    assert |sorted| == |multiset(sorted)| == |multiset(matches)| == |matches|;
  }

  /** A `/products` page is the window of the `/docCount` result once that is put in the order
      the sort option asks for. */
  lemma PageIsSliceOfSortedCount(p: ListParams, coll: seq<Product>, rx: Matcher)
    requires BuildWindow(p.page, p.limit).Some?
    ensures ListProducts(p, coll, rx)
      == Some(Page(SortBy(BuildSort(p.sorting), CountDocs(p.filter, coll, rx)), BuildWindow(p.page, p.limit).value))
  {
  }

  /** Without a sort option a `/products` page is a contiguous slice of the `/docCount` result. */
  lemma UnsortedPageIsSliceOfCount(p: ListParams, coll: seq<Product>, rx: Matcher)
    requires !IsTruthyText(p.sorting)
    requires BuildWindow(p.page, p.limit).Some?
    ensures ListProducts(p, coll, rx) == Some(Page(CountDocs(p.filter, coll, rx), BuildWindow(p.page, p.limit).value))
  {
  }

  /** `sorting=newest` lists newest first; `low` cheapest first; any other non-empty value
      dearest first. */
  lemma PageOrderBySorting(p: ListParams, coll: seq<Product>, rx: Matcher)
    requires BuildWindow(p.page, p.limit).Some?
    ensures var r := ListProducts(p, coll, rx).value;
      && (p.sorting == Some("newest") ==>
            forall i, j :: 0 <= i < j < |r| ==> r[i].createdDate >= r[j].createdDate)
      && (p.sorting == Some("low") ==>
            forall i, j :: 0 <= i < j < |r| ==> r[i].price <= r[j].price)
      && (IsTruthyText(p.sorting) && p.sorting.value != "newest" && p.sorting.value != "low" ==>
            forall i, j :: 0 <= i < j < |r| ==> r[i].price >= r[j].price)
  {
    var r := ListProducts(p, coll, rx).value;
    assert Ordered(BuildSort(p.sorting), r);
  }

  /** `limit=0` is MongoDB's "no limit": the skip is then 0 whatever the page, and `/products`
      returns every match, like `/docCount` but ordered. */
  lemma ZeroLimitListsEverything(p: ListParams, coll: seq<Product>, rx: Matcher)
    requires p.limit == Some(0)
    ensures ListProducts(p, coll, rx) == Some(SortBy(BuildSort(p.sorting), CountDocs(p.filter, coll, rx)))
  {
    var s := SortBy(BuildSort(p.sorting), CountDocs(p.filter, coll, rx));
    assert s[0..] == s;
  }

  /** The first `n` pages of size `limit`, concatenated, each page's window built from its
      page number as the handler does. */
  function FirstPages<T>(s: seq<T>, limit: nat, n: nat): seq<T> {
    if n == 0 then [] else FirstPages(s, limit, n - 1) + Page(s, BuildWindow(Some(n), Some(limit)).value)
  }

  /** Pages 1, 2, ... of size `limit > 0` tile a fixed ordering of the matches with no gap and no
      overlap: together the first `n` pages are exactly its first `n * limit` elements. */
  lemma {:induction false} PagesTile<T>(s: seq<T>, limit: nat, n: nat)
    requires limit > 0
    ensures FirstPages(s, limit, n) == s[..Min(PagesSpan(n, limit), |s|)]
  {
    if n > 0 {
      PagesTile(s, limit, n - 1);
      assert BuildWindow(Some(n), Some(limit)).value == Window((n - 1) * limit, limit);
      NextMultiple(n, limit);
      AppendPage(s, (n - 1) * limit, limit);
    }
  }

  /** How many records `n` full pages of size `limit` hold. */
  function PagesSpan(n: nat, limit: nat): nat {
    n * limit
  }

  lemma NextMultiple(n: nat, limit: nat)
    requires n > 0
    ensures PagesSpan(n, limit) == (n - 1) * limit + limit
  {
  }

  /** The prefix up to `skip`, followed by the page at `skip`, is the prefix up to `skip + limit`. */
  lemma AppendPage<T>(s: seq<T>, skip: nat, limit: nat)
    requires limit > 0
    ensures s[..Min(skip, |s|)] + Page(s, Window(skip, limit)) == s[..Min(skip + limit, |s|)]
  {
    if skip < |s| {
      assert s[..Min(skip + limit, |s|)] == s[..skip] + s[skip..Min(skip + limit, |s|)];
    }
  }

  /** A list of pages, concatenated. */
  function Concat<T>(pages: seq<seq<T>>): seq<T> {
    if pages == [] then [] else Concat(pages[..|pages| - 1]) + pages[|pages| - 1]
  }

  /** The `/products` answers for pages 1, 2, ..., `|answers|` of one request, with a non-zero
      limit, concatenate to the first `|answers| * limit` sorted matches, each once. */
  lemma ListedPagesTile(p: ListParams, coll: seq<Product>, rx: Matcher, answers: seq<seq<Product>>)
    requires p.limit.GetOr(DefaultLimit) > 0
    requires forall k :: 0 <= k < |answers| ==> ListProducts(p.(page := Some(k + 1)), coll, rx) == Some(answers[k])
    ensures var sorted := SortBy(BuildSort(p.sorting), CountDocs(p.filter, coll, rx));
      Concat(answers) == sorted[..Min(PagesSpan(|answers|, p.limit.GetOr(DefaultLimit)), |sorted|)]
  {
    var sorted := SortBy(BuildSort(p.sorting), CountDocs(p.filter, coll, rx));
    var limit := p.limit.GetOr(DefaultLimit);
    forall k | 0 <= k < |answers|
      ensures answers[k] == Page(sorted, BuildWindow(Some(k + 1), Some(limit)).value)
    {
      ListedPage(p, coll, rx, k + 1, sorted, limit);
    }
    ConcatOfPages(sorted, limit, answers);
    PagesTile(sorted, limit, |answers|);
  }

  lemma {:induction false} ConcatOfPages<T>(s: seq<T>, limit: nat, answers: seq<seq<T>>)
    requires forall k :: 0 <= k < |answers| ==> answers[k] == Page(s, BuildWindow(Some(k + 1), Some(limit)).value)
    ensures Concat(answers) == FirstPages(s, limit, |answers|)
  {
    if answers != [] {
      ConcatOfPages(s, limit, answers[..|answers| - 1]);
    }
  }

  /** Page `n` of a request is the `n`-th window of the sorted `/docCount` result. */
  lemma ListedPage(p: ListParams, coll: seq<Product>, rx: Matcher, n: nat, sorted: seq<Product>, limit: nat)
    requires n > 0
    requires sorted == SortBy(BuildSort(p.sorting), CountDocs(p.filter, coll, rx))
    requires limit == p.limit.GetOr(DefaultLimit)
    ensures ListProducts(p.(page := Some(n)), coll, rx).value == Page(sorted, BuildWindow(Some(n), Some(limit)).value)
  {
    var q := p.(page := Some(n));
    assert q.filter == p.filter && q.sorting == p.sorting;
    PageIsSliceOfSortedCount(q, coll, rx);
    assert BuildWindow(q.page, q.limit) == BuildWindow(Some(n), Some(limit));
  }
}
