/** Translation of the request parameters of `GET /products` and `GET /docCount` into a
    MongoDB filter document, a sort specification and a skip/limit window (index.js:97-169). */
module QueryBuilder {
  import opened Wrappers
  import JsNumbers

  /** `new RegExp(text, 'i')`: the raw parameter text, unescaped, and the case-insensitive flag.
      How such a pattern matches a field is left to the document store. */
  datatype Pattern = Pattern(source: string, ignoreCase: bool)

  /** The `price` entry of the filter: an object that always exists, with `$gte` and `$lte`
      filled in only when the corresponding bound applies. */
  datatype PriceClause = PriceClause(gte: Option<int>, lte: Option<int>)

  /** The filter document handed to `find`. */
  datatype Filter = Filter(
    name: Option<Pattern>,
    brand: Option<Pattern>,
    category: Option<Pattern>,
    price: PriceClause)

  /** The `sort` option: none, `{created_date: -1}`, or `{price: 1}` / `{price: -1}`. */
  datatype Sort = NoSort | ByCreatedDesc | ByPrice(ascending: bool)

  /** Arguments of `.skip(...)` and `.limit(...)`. */
  datatype Window = Window(skip: nat, limit: nat)

  /** The query-string parameters both handlers read to build the filter; `None` is a parameter
      that is absent from the request. */
  datatype FilterParams = FilterParams(
    search: Option<string>,
    brand: Option<string>,
    category: Option<string>,
    min: Option<string>,
    max: Option<string>)

  /** The parameters of `/products`: the filter parameters plus sorting and paging. `page` and
      `limit` are the numbers the arithmetic `(page - 1) * limit` sees. */
  datatype ListParams = ListParams(
    filter: FilterParams,
    sorting: Option<string>,
    page: Option<int>,
    limit: Option<nat>)

  const DefaultPage: int := 1
  const DefaultLimit: nat := 10

  /** JavaScript truthiness of a parameter string: present and non-empty. */
  predicate IsTruthyText(s: Option<string>) {
    s.Some? && s.value != ""
  }

  /** JavaScript truthiness of a parsed number: NaN (`None`) and 0 are both falsy. */
  predicate IsTruthyNumber(n: Option<int>) {
    n.Some? && n.value != 0
  }

  /** `parseInt(param)`; an absent parameter is `undefined`, whose text "undefined" parses to
      NaN. */
  function ParseParam(param: Option<string>): (r: Option<int>)
    ensures param.None? ==> r.None?
    ensures r.Some? ==> param.Some? && JsNumbers.StartsNumeral(JsNumbers.TrimStart(param.value))
  {
    match param
    case None => None
    case Some(s) => JsNumbers.ParseInt(s)
  }

  /** `if (param) query.field = new RegExp(param, 'i')`. */
  function TextClause(param: Option<string>): Option<Pattern> {
    if IsTruthyText(param) then Some(Pattern(param.value, true)) else None
  }

  /** `if (bound) query.price.$op = Number(bound)`. */
  function BoundClause(parsed: Option<int>): Option<int> {
    if IsTruthyNumber(parsed) then parsed else None
  }

  /** The filter shared by both handlers (index.js:100-122 and index.js:147-165). */
  function BuildFilter(p: FilterParams): (f: Filter)
    ensures f.name.Some? <==> IsTruthyText(p.search)
    ensures f.name.Some? ==> f.name.value == Pattern(p.search.value, true)
    ensures f.brand.Some? <==> IsTruthyText(p.brand)
    ensures f.brand.Some? ==> f.brand.value == Pattern(p.brand.value, true)
    ensures f.category.Some? <==> IsTruthyText(p.category)
    ensures f.category.Some? ==> f.category.value == Pattern(p.category.value, true)
    ensures f.price.gte.Some? <==> IsTruthyNumber(ParseParam(p.min))
    ensures f.price.gte.Some? ==> f.price.gte == ParseParam(p.min)
    ensures f.price.lte.Some? <==> IsTruthyNumber(ParseParam(p.max))
    ensures f.price.lte.Some? ==> f.price.lte == ParseParam(p.max)
  {
    Filter(
      TextClause(p.search),
      TextClause(p.brand),
      TextClause(p.category),
      PriceClause(BoundClause(ParseParam(p.min)), BoundClause(ParseParam(p.max))))
  }

  /** The sort option of `/products` (index.js:123-139). */
  function BuildSort(sorting: Option<string>): (s: Sort)
    ensures s == NoSort <==> !IsTruthyText(sorting)
    ensures s == ByCreatedDesc <==> sorting == Some("newest")
    ensures s == ByPrice(true) <==> sorting == Some("low")
    ensures s == ByPrice(false) <==>
              IsTruthyText(sorting) && sorting.value != "newest" && sorting.value != "low"
  {
    if !IsTruthyText(sorting) then NoSort
    else if sorting.value == "newest" then ByCreatedDesc
    else ByPrice(sorting.value == "low")
  }

  /** `skip = (page - 1) * limit` with the defaults `page = 1` and `limit = 10`
      (index.js:98, index.js:103). */
  function BuildWindow(page: Option<int>, limit: Option<nat>): (w: Option<Window>)
    ensures w.Some? <==> page.GetOr(DefaultPage) >= 1 || limit.GetOr(DefaultLimit) == 0
    ensures w.Some? ==> w.value.limit == limit.GetOr(DefaultLimit)
    ensures w.Some? ==> w.value.skip == (page.GetOr(DefaultPage) - 1) * w.value.limit
  {
    var pg := page.GetOr(DefaultPage);
    var lim := limit.GetOr(DefaultLimit);
    if pg >= 1 || lim == 0 then Some(Window((pg - 1) * lim, lim)) else None
  }

  /** With no paging parameters the window is the first ten matches. */
  lemma DefaultWindowIsFirstTen(page: Option<int>, limit: Option<nat>)
    requires page.None? && limit.None?
    ensures BuildWindow(page, limit) == Some(Window(0, 10))
  {
  }

  /** `min=0` is dropped like an absent or non-numeric `min`: all three give the same filter. */
  lemma ZeroMinIsNoMin(p: FilterParams)
    requires ParseParam(p.min) == Some(0) || ParseParam(p.min) == None
    ensures BuildFilter(p) == BuildFilter(p.(min := None))
  {
  }

  /** Likewise `max=0`. */
  lemma ZeroMaxIsNoMax(p: FilterParams)
    requires ParseParam(p.max) == Some(0) || ParseParam(p.max) == None
    ensures BuildFilter(p) == BuildFilter(p.(max := None))
  {
  }

  /** A bound written as the decimal numeral of a non-zero integer becomes that bound exactly. */
  lemma NumericBoundsAreKept(p: FilterParams, lo: int, hi: int)
    requires lo != 0 && hi != 0
    requires p.min == Some(JsNumbers.IntToDecimal(lo)) && p.max == Some(JsNumbers.IntToDecimal(hi))
    ensures BuildFilter(p).price == PriceClause(Some(lo), Some(hi))
  {
    JsNumbers.ParseIntRoundTrip(lo);
    JsNumbers.ParseIntRoundTrip(hi);
  }
}
