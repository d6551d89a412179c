/**
 * The listing request's parameters (server/server.js lines 115-152): search
 * and city fragments, page and limit clamps, the sort-key whitelist, the
 * direction, and the WHERE clauses built from them.
 */
module Query {
  import opened Wrappers
  import opened Text
  import opened SqlOrder
  import opened Schema

  /**
   * The query string of GET /api/customers. `page` and `limit` hold what
   * `parseInt(x, 10)` returns, None standing for NaN (absent or not a number).
   */
  datatype ListQuery = ListQuery(
    q: Option<string>, city: Option<string>, sort: Option<string>, order: Option<string>,
    page: Option<int>, limit: Option<int>)

  datatype SortKey = ById | ByFirstName | ByLastName | ByPhoneNumber | ByCity

  datatype Direction = Asc | Desc

  /** The parameters after normalisation, as the two SQL statements use them. */
  datatype ListParams = ListParams(
    q: string, city: string, key: SortKey, dir: Direction, page: int, limit: int, offset: int)

  function Max(a: int, b: int): int { if a < b then b else a }

  function Min(a: int, b: int): int { if a < b then a else b }

  /** `parseInt(x, 10) || fallback`: NaN and 0 are falsy. */
  function ParsedOr(parsed: Option<int>, fallback: int): int {
    if parsed.None? || parsed.value == 0 then fallback else parsed.value
  }

  /** `Math.max(1, parseInt(page, 10) || 1)` */
  function PageNumber(page: Option<int>): (r: int)
    ensures r >= 1
    ensures page.Some? && page.value >= 1 ==> r == page.value
    ensures page.None? || page.value < 1 ==> r == 1
  {
    Max(1, ParsedOr(page, 1))
  }

  /** `Math.min(50, Math.max(1, parseInt(limit, 10) || 10))` */
  function PageSize(limit: Option<int>): (r: int)
    ensures 1 <= r <= 50
    ensures limit.Some? && 1 <= limit.value <= 50 ==> r == limit.value
    ensures limit.Some? && limit.value > 50 ==> r == 50
    ensures limit.Some? && limit.value < 0 ==> r == 1
    ensures limit.None? || limit.value == 0 ==> r == 10
  {
    Min(50, Max(1, ParsedOr(limit, 10)))
  }

  /** The names the sort whitelist accepts, one per key. */
  function KeyName(k: SortKey): string {
    match k
    case ById => "id"
    case ByFirstName => "first_name"
    case ByLastName => "last_name"
    case ByPhoneNumber => "phone_number"
    case ByCity => "city"
  }

  /** An own property of the `allowedSort` object. */
  function Whitelisted(name: string): (k: Option<SortKey>)
    ensures k.Some? ==> KeyName(k.value) == name
  {
    if name == "id" then Some(ById)
    else if name == "first_name" then Some(ByFirstName)
    else if name == "last_name" then Some(ByLastName)
    else if name == "phone_number" then Some(ByPhoneNumber)
    else if name == "city" then Some(ByCity)
    else None
  }

  /** The whitelist finds exactly the key names, each to its own key. */
  lemma WhitelistExact(name: string, k: SortKey)
    ensures Whitelisted(name) == Some(k) <==> name == KeyName(k)
  {
  }

  /** `req.query.sort || "id"` */
  function SortParam(sort: Option<string>): string {
    if sort.None? || sort.value == [] then "id" else sort.value
  }

  /** The sort key, falling back to `id` for any name outside the whitelist. */
  function ResolveSort(sort: Option<string>): (k: SortKey)
    ensures sort.Some? && Whitelisted(sort.value).Some? ==> KeyName(k) == sort.value
    ensures !(sort.Some? && Whitelisted(sort.value).Some?) ==> k == ById
  {
    Whitelisted(SortParam(sort)).GetOr(ById)
  }

  /**
   * The members every plain JavaScript object inherits from
   * `Object.prototype`. Looking one of them up in `allowedSort` yields a
   * function (or, for `__proto__`, an object), which is truthy.
   */
  const InheritedMembers: set<string> := {
    "constructor", "__defineGetter__", "__defineSetter__", "hasOwnProperty",
    "__lookupGetter__", "__lookupSetter__", "isPrototypeOf", "propertyIsEnumerable",
    "toString", "valueOf", "__proto__", "toLocaleString"
  }

  /**
   * `allowedSort[sortParam] || allowedSort.id` as written. None: the lookup
   * found an inherited member, its text is spliced into ORDER BY, SQLite
   * rejects the statement and the handler answers 400 with SQLite's message.
   */
  function ResolveSortAsWritten(sort: Option<string>): (k: Option<SortKey>)
    ensures k.None? <==> SortParam(sort) in InheritedMembers
  {
    var name := SortParam(sort);
    if Whitelisted(name).Some? then Whitelisted(name)
    else if name in InheritedMembers then None
    else Some(ById)
  }

  /** `sort=toString` breaks the listing as written, while the whitelist intends `id`. */
  lemma InheritedSortKeyBreaksListing()
    ensures ResolveSortAsWritten(Some("toString")).None?
    ensures ResolveSort(Some("toString")) == ById
  {
  }

  /** Apart from the inherited names, the code as written resolves as intended. */
  lemma AsWrittenAgreesOtherwise(sort: Option<string>)
    ensures SortParam(sort) !in InheritedMembers ==> ResolveSortAsWritten(sort) == Some(ResolveSort(sort))
  {
  }

  /** `(order || "asc").toLowerCase() === "desc" ? "DESC" : "ASC"` */
  function ResolveOrder(order: Option<string>): (d: Direction)
    ensures d == Desc <==> order.Some? && LowerAscii(order.value) == "desc"
  {
    if LowerAscii(order.GetOr("asc")) == "desc" then Desc else Asc
  }

  /** The direction ignores letter case: `order=DESC`, `Desc` and `desc` agree. */
  lemma ResolveOrderIgnoresCase(o: string)
    ensures ResolveOrder(Some(o)) == ResolveOrder(Some(LowerAscii(o)))
  {
    assert LowerAscii(LowerAscii(o)) == LowerAscii(o);
  }

  /** Anything but a case variant of "desc" sorts ascending. */
  lemma OrderExamples()
    ensures ResolveOrder(Some("DESC")) == Desc && ResolveOrder(Some("dEsC")) == Desc
    ensures ResolveOrder(Some("descending")) == Asc && ResolveOrder(Some("asc")) == Asc
    ensures ResolveOrder(None) == Asc
  {
    assert LowerAscii("DESC") == "desc";
    assert LowerAscii("dEsC") == "desc";
  }

  /** `(page - 1) * limit`: the number of rows the requested page skips. */
  function Offset(page: int, limit: int): (r: int)
    requires page >= 1 && limit >= 1
    ensures r >= 0 && r + limit == page * limit
  {
    MulNonNegative(page - 1, limit);
    (page - 1) * limit
  }

  lemma MulNonNegative(a: int, b: int)
    requires a >= 0 && b >= 0
    ensures a * b >= 0
  {
  }

  /** The parameter block of the handler, lines 115-134. */
  function Normalize(query: ListQuery): (p: ListParams)
    ensures p.page >= 1 && 1 <= p.limit <= 50
    ensures p.offset >= 0 && p.offset + p.limit == p.page * p.limit
    ensures p.q == Trim(query.q.GetOr("")) && p.city == Trim(query.city.GetOr(""))
  {
    var page := PageNumber(query.page);
    var limit := PageSize(query.limit);
    ListParams(
      Trim(query.q.GetOr("")), Trim(query.city.GetOr("")),
      ResolveSort(query.sort), ResolveOrder(query.order),
      page, limit, Offset(page, limit))
  }

  /** A WHERE clause with its bound pattern (`%` + fragment + `%`). */
  datatype Filter = NameOrPhoneLike(pattern: string) | CityLike(pattern: string)

  /** `whereClauses`: one clause per non-empty fragment, in this order. */
  function Filters(q: string, city: string): seq<Filter> {
    (if q != [] then [NameOrPhoneLike(q)] else []) + (if city != [] then [CityLike(city)] else [])
  }

  /** `whereClauses` as the handler builds it, pushing a clause for each non-empty fragment. */
  method BuildFilters(q: string, city: string) returns (fs: seq<Filter>)
    ensures fs == Filters(q, city)
  {
    fs := [];
    if q != [] {
      fs := fs + [NameOrPhoneLike(q)];
    }
    if city != [] {
      fs := fs + [CityLike(city)];
    }
  }

  /** One clause on one joined row; a NULL city (no address) fails `a.city LIKE ?`. */
  predicate FilterHolds(f: Filter, c: Customer, a: Option<Address>) {
    match f
    case NameOrPhoneLike(p) => Like(c.first_name, p) || Like(c.last_name, p) || Like(c.phone_number, p)
    case CityLike(p) => a.Some? && Like(a.value.city, p)
  }

  /** `WHERE c1 AND c2 ...` on a joined row. */
  predicate RowPasses(fs: seq<Filter>, c: Customer, a: Option<Address>) {
    forall i :: 0 <= i < |fs| ==> FilterHolds(fs[i], c, a)
  }

  /** The search fragment (if any) occurs in a name or in the phone number. */
  predicate SearchMatches(c: Customer, q: string) {
    q == [] || Like(c.first_name, q) || Like(c.last_name, q) || Like(c.phone_number, q)
  }

  /** The city fragment (if any) occurs in the row's address city. */
  predicate CityMatches(a: Option<Address>, city: string) {
    city == [] || (a.Some? && Like(a.value.city, city))
  }

  /** An empty fragment adds no clause, and the clauses are AND-combined. */
  lemma FiltersMeaning(q: string, city: string, c: Customer, a: Option<Address>)
    ensures RowPasses(Filters(q, city), c, a) <==> SearchMatches(c, q) && CityMatches(a, city)
  {
    var fs := Filters(q, city);
    if q != [] {
      assert fs[0] == NameOrPhoneLike(q);
    }
    if city != [] {
      assert fs[|fs| - 1] == CityLike(city);
    }
  }
}
