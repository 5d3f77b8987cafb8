# Product listing query model

A Dafny model of how the product-catalogue server turns the query string of
`GET /products` and `GET /docCount` into a MongoDB request, and of what those two
endpoints return. There are three parts:

- **`JsNumbers`** models JavaScript's `parseInt` without a radix, which is applied to `min` and
  `max`. It skips leading white space, reads one optional sign, switches to radix 16 after
  `0x`/`0X`, and reads the longest run of digits. NaN is `None`.
- **`QueryBuilder`** models the filter document, the sort option and the skip/limit window.
  - The filter has an optional case-insensitive pattern for each of name, brand and category.
    Each pattern is the raw parameter text. The filter also has a price clause that is always
    present. Its `$gte`/`$lte` bounds are set only when `min`/`max` parse to a number that is
    truthy, which rules out both NaN and 0.
  - Both handlers build their filter with the one function `BuildFilter`.
- **`Listing`** models what the endpoints return.
  - `/products` is find → sort → skip → limit over the product collection.
  - `/docCount` is find alone.
  - The semantics of MongoDB regular expressions are a parameter (`Matcher`), so every
    statement holds whatever that matcher does.
- **`StoredQuery`** models how MongoDB actually reads the empty price clause `{}` (see Findings).

`page` and `limit` are the numbers `(page - 1) * limit` works on. When either parameter is
absent, it takes its default (1 and 10).
Some behaviour comes from MongoDB rather than from the handlers. The model includes it as
follows:
- A negative skip is rejected by the store. The model returns `None` for it.
- `limit(0)` means "no limit" in MongoDB.
- Without a sort option, results come back in collection order.

## Model

| member | source | states |
|---|---|---|
| JsNumbers.ParseInt | index.js:100-101 | parseInt with no radix (section 19.2.5 of ECMA-262): a number comes out only when the first character after leading white space is a decimal digit, or a sign followed by one. It is not positive after a `-` and not negative otherwise |
| QueryBuilder.ParseParam | index.js:147-148 | an absent parameter is `undefined` and parses to NaN. A present one yields a number only when its text, after white space, opens with a digit or a sign and a digit |
| JsNumbers.ParseIntReadsDecimalPrefix | index.js:100-101 | parseInt reads back the decimal numeral of any integer. It stops at the first character that cannot continue the numeral, so "12.9" and "12x" give 12. Only after the numeral `0` does an `x` start a hexadecimal prefix |
| JsNumbers.ParseIntReadsHexPrefix | index.js:100-101 | after "0x" or "0X", parseInt reads any non-empty run of hexadecimal digits of either case, up to the first non-hexadecimal character, as its value. So "0x1F" and "0x1f" both give 31 |
| JsNumbers.ParseIntHexRoundTrip | index.js:100-101 | after "0x", parseInt inverts the hexadecimal numeral of every natural number |
| JsNumbers.ParseIntRoundTrip | index.js:100-101 | parseInt inverts the decimal numeral of every integer |
| JsNumbers.ParseIntWithoutDigitsIsNaN | index.js:147-148 | a parameter with no decimal digit, including the empty string, parses to NaN |
| JsNumbers.ParseIntSkipsWhiteSpace | index.js:100-101 | leading white space does not change the parsed bound |
| QueryBuilder.BuildFilter | index.js:104-122 | each text clause is present iff its parameter is non-empty. It is then the raw text with the case-insensitive flag. The price clause is always present. Each bound is set iff its parameter parses to a non-zero integer, and it then equals that integer |
| QueryBuilder.BuildSort | index.js:123-139 | no sort iff `sorting` is absent or empty. `newest` gives created_date descending, `low` gives price ascending, and any other non-empty value gives price descending |
| QueryBuilder.BuildWindow | index.js:98-103 | the limit defaults to 10 and the page to 1. The skip is (page - 1) × limit. A window exists iff that skip is non-negative |
| QueryBuilder.DefaultWindowIsFirstTen | index.js:98-103 | with no paging parameters the window is skip 0, limit 10 |
| QueryBuilder.ZeroMinIsNoMin | index.js:117-119 | `min` parsing to 0 gives the same filter as an absent `min`, and so does `min` parsing to NaN |
| QueryBuilder.ZeroMaxIsNoMax | index.js:120-122 | `max` parsing to 0 gives the same filter as an absent `max`, and so does `max` parsing to NaN |
| QueryBuilder.NumericBoundsAreKept | index.js:160-165 | non-zero decimal `min`/`max` become exactly `$gte`/`$lte` |
| Listing.Find | index.js:166 | the matches are exactly the collection's records that satisfy every clause. Each matching record appears as many times as in the collection, and no other record appears |
| Listing.SortBy | index.js:123-139 | the result is a permutation of the matches, ordered by the sort key. With no sort option it is left unchanged |
| Listing.Page | index.js:140 | the page is elements [skip, skip + limit) of the ordered matches. It holds at most `limit` records, and none when skip ≥ the number of matches. A limit of 0 means no limit |
| Listing.RunList | index.js:140 | a listed page is ordered, within the limit, made of matching records, and drawn from the matches. Its length is fixed by the window and the number of matches: empty iff skip ≥ that number |
| Listing.ListProducts | index.js:97-142 | `/products` answers iff the window is valid. Its page is ordered by the sort option and holds at most `limit` records. It is drawn from the `/docCount` result for the same filter parameters. Its length is fixed by the window and that count, so it is empty iff skip ≥ the count |
| Listing.CountDocs | index.js:144-169 | `/docCount` returns the records that match the shared filter, each as many times as it occurs in the collection, so its length is the number of matching records |
| Listing.CountDocsMembership | index.js:149-165 | a record is counted iff it is in the collection, each non-empty text parameter matches its field, and each non-zero numeric bound holds |
| Listing.PageWithinCount | index.js:97-169 | every `/products` page is a sub-multiset of the `/docCount` result for the same filter parameters, and is never longer |
| Listing.AdmissiblePage | index.js:123-140 | for every ordering the store may pick under the sort option, whatever it does with ties, a page is ordered, drawn from the matches, and as long as the window and the number of matches determine |
| Listing.PageIsSliceOfSortedCount | index.js:123-169 | a `/products` page is the [skip, skip + limit) window of the `/docCount` result, sorted by the sort option |
| Listing.UnsortedPageIsSliceOfCount | index.js:123-140 | without a sort option a `/products` page is a contiguous slice of the `/docCount` result |
| Listing.PageOrderBySorting | index.js:123-140 | `newest` pages are non-increasing in created_date, `low` pages are non-decreasing in price, and pages for other non-empty values are non-increasing in price |
| Listing.ZeroLimitListsEverything | index.js:103-140 | `limit=0` lists every match in order, whatever the page |
| Listing.PagesTile | index.js:103-140 | over one fixed ordering of the matches, the windows that (page - 1) × limit gives for pages 1..n, with limit > 0, concatenate to its first n × limit elements. There is no gap and no overlap |
| Listing.ListedPagesTile | index.js:97-142 | the `/products` answers for pages 1..n of one request, with a non-zero limit, concatenate to the first n × limit sorted matches, so each match is listed once |
| StoredQuery.FindAsSent | index.js:166 | under the store's reading of the filter sent, the matches are exactly the records that satisfy it |
| StoredQuery.CountDocsAsSent | index.js:144-169 | `/docCount` as written returns each record satisfying the store's reading of the filter sent, as often as it occurs in the collection |
| StoredQuery.ListProductsAsSent | index.js:97-142 | `/products` as written answers iff the window is valid. The page is ordered, drawn from the as-written `/docCount` result, and as long as the window and that count determine |
| StoredQuery.UnboundedListFindsNothingAsSent | index.js:116-142 | as sent, `/products` with no applicable price bound returns an empty list for every valid page |
| StoredQuery.BoundedFindAsSentAgrees | index.js:116-122 | with a bound in the price clause, the store's `find` returns exactly the intended matches |
| StoredQuery.BoundedListAsSentAgrees | index.js:116-142 | once a bound applies, `/products` as written returns the intended page |
| StoredQuery.UnboundedRequestFindsNothingAsSent | index.js:159-166 | as sent, a request with no applicable price bound matches nothing |
| StoredQuery.NoParameterCountExample | index.js:144-169 | for a one-product collection, a request with no parameters counts that product under the intended reading and nothing as sent |
| StoredQuery.UnboundedRequestKeepsTextMatches | index.js:116-122 | intended reading: with no applicable bound, only the text clauses constrain the result |
| StoredQuery.BoundedRequestAsSentAgrees | index.js:159-165 | once a bound applies, the store's reading agrees with the intended one |

## Findings

| source | as written | input that shows it | evidently intended | confidence | as-written member | corrected member |
|---|---|---|---|---|---|---|
| index.js:116 | The handler always sends `price: {}`. When no bound is added it stays empty. MongoDB reads an operator-free document as an equality test, so no numeric price matches | `GET /docCount` or `GET /products` with no `min`/`max`, or with `min=0&max=0` | an empty price clause constrains nothing | not executed; medium, because it rests on MongoDB's reading of an empty embedded document | StoredQuery.UnboundedRequestFindsNothingAsSent | StoredQuery.UnboundedRequestKeepsTextMatches |

The same clause is built at index.js:159 for `/docCount`. For `/products` the as-written half is
`StoredQuery.UnboundedListFindsNothingAsSent`. The rest of the model uses the intended reading
(`Listing.PriceMatches`).

## Left out

- JWT issuance and verification (index.js:26-43, 63-77) are calls into `jsonwebtoken`. `verifyToken` still calls `next()` after sending a 401 on a bad signature (index.js:34-40). That is not modelled either.
- Cookie flags, the production/development split (index.js:70-75, 80-87) and the CORS allow-list (index.js:11-20) are framework configuration.
- The MongoDB client, connection string, `/all-products` passthrough, liveness route and `listen` (index.js:45-55, 91-95, 186-190) are I/O plumbing.
- How a regular expression matches a field is left to the `Matcher` parameter. A `search`, `brand` or `category` that is not valid regular-expression syntax makes `new RegExp` throw. The handler then never answers, and the model does not capture this.
- Express can deliver a repeated query parameter as an array or an object. Parameters are modelled as plain strings.
- `page` and `limit` are modelled as the integers that the coercion in `(page - 1) * limit` and `Number(...)` produces. Non-numeric strings (NaN), fractions and a negative `limit` are left out because they involve floating-point coercion.
- JsNumbers.ParseInt returns exact integers. It does not model rounding to a double for magnitudes above 2^53, and it reads a `-0` result as 0, which JavaScript also treats as falsy.
- Listing.SortBy: ties keep their collection order. MongoDB promises no order among equal keys. `Listing.AdmissiblePage` states the per-page facts for every ordering the sort option allows. `ListProducts`, the lemmas about it and `ListedPagesTile` use this one ordering.
- Listing.ListedPagesTile: the tiling across separate `/products` requests holds only if every request returns equal keys in the same order. MongoDB does not promise that for a key that is not unique, such as `price`.
- `created_date` is modelled as an integer timestamp, and only its order matters to the model. Prices are real numbers, but the `min`/`max` bounds are the integers `parseInt` yields.
- Without a sort option, results come in collection order. MongoDB's natural order is storage behaviour.
- The `/docCount` result is the full match list, as in the source. A server-side count is not modelled.
- Storage failures and the asynchronous driver calls are not modelled.
