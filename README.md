# Customer details backend, modelled in Dafny

This project models the REST backend of the customer-details application:
an Express server over two SQLite tables, `customers` and `addresses`.

The model has two layers.

- **Pure layer.** It covers:
  - the phone and pin-code rules;
  - the normalisation of the listing's query parameters (page, limit, offset, sort key, direction, filters);
  - the listing itself as a function of the two tables: filter, group, order, slice and count;
  - the address aggregate, which the listing query builds as text and the handler splits back into objects.
- **Stateful layer.** `Store.CustomerStore` is a class. Its fields are:
  - the two tables, as maps from id to row;
  - the two AUTOINCREMENT counters.

  Its eight methods are the eight route handlers. Each method answers what the handler answers, with the same messages and status codes. Each changes the tables as the handler's SQL statements do, in one atomic step.

The class invariant (`Valid`) comes from the CREATE TABLE statements:
- ids are issued between 1 and the counter;
- phone numbers are unique;
- the NOT NULL text columns hold the non-empty values the handlers let through;
- stored phones and pins satisfy their rules;
- every address names a stored customer.

Modules:

| module | file | contents |
|---|---|---|
| Wrappers | wrappers.dfy | `Option`, `Result` |
| Text | text.dfy | JavaScript `trim`, ASCII lower-casing, `split`/`join`, decimal text of an integer |
| Rules | rules.dfy | the two regular expressions as bounded character-class matches; JavaScript truthiness |
| Errors | errors.dfy | `AppError`, handler outcomes, the error middleware's status rule, the error constants |
| SqlOrder | sqlorder.dfy | `LIKE '%x%'`, SQLite's ordering of NULL, INTEGER and TEXT values, `MIN` over text |
| Schema | schema.dfy | the two row types, the table invariants, `SELECT ... WHERE customer_id = ?`, the cascade |
| Query | query.dfy | the listing parameters and the WHERE clauses |
| AddressCodec | addresscodec.dfy | the `GROUP_CONCAT` aggregate and its decoding |
| Listing | listing.dfy | the listing result and its properties |
| Handlers | handlers.dfy | the body checks of the create and patch handlers, and the field assignments of an UPDATE |
| Store | store.dfy | `CustomerStore` and the field-collecting loops of the patch handlers |

The handlers' not-found answers are not uniform, and the model reproduces them:
- "not found" is 404 only for POST address and for both DELETEs;
- GET and PATCH of a customer answer 400;
- PATCH of an address whose row is missing answers 500, because its error carries no status code.

The listing falls back to sorting by id for an unknown sort name. A sort name that is a member every JavaScript object inherits makes the listing fail with 400 instead (see Findings). Store.CustomerStore.ListCustomers answers that 400 as the code does.

## Model

| member | source | states |
|---|---|---|
| Text.TrimStart | server/server.js:115-116 | the result is a suffix of the input; everything dropped is whitespace; the result does not start with whitespace |
| Text.TrimEnd | server/server.js:115-116 | the result is a prefix of the input; everything dropped is whitespace; the result does not end with whitespace |
| Text.TrimIsSlice | server/server.js:115-116 | `trim()` returns a contiguous slice of its input |
| Text.BlankIffAllWhitespace | server/server.js:257-259 | `!s.trim()` holds exactly when every character of `s` is whitespace |
| Text.LowerAscii | server/server.js:133-134 | `toLowerCase()` keeps the length and maps each character on its own; non-letters stay as they are |
| Text.Split | server/server.js:185-187 | `split` always yields at least one part |
| Text.JoinSplit | server/server.js:185-187 | joining the parts of a split with the separator gives back the text |
| Text.SplitJoin | server/server.js:185-187 | splitting a join of parts that are free of the separator's first character gives back the parts |
| Text.SplitCount | server/server.js:185 | splitting on one character yields one more part than there are occurrences of it |
| Text.IntText | server/server.js:157 | an id turned into text is a non-empty run of digits and minus signs |
| Rules.MatchesRepeatSpec | server/server.js:30 | a `[class]{lo,hi}` pattern anchored at both ends accepts exactly the texts of lo to hi characters, each in the class |
| Rules.PhoneRuleSpec | server/server.js:30 | `/^\d{10}$/` accepts exactly the texts of ten ASCII digits |
| Rules.PinRuleSpec | server/server.js:72 | `/^[A-Za-z0-9\s-]{3,10}$/` accepts exactly the texts of 3 to 10 letters, digits, whitespace or dashes |
| Rules.PhoneAcceptsTenDigits | server/server.js:30 | a ten-digit phone number passes |
| Rules.PhoneRejectsWrongLength | server/server.js:30 | nine or eleven digits fail |
| Rules.PhoneRejectsDash | server/server.js:30 | a dash inside the number fails |
| Rules.PinAcceptsSpace | server/server.js:72 | a pin code with a space passes |
| Rules.PinAcceptsDash | server/server.js:72 | a pin code with a dash passes |
| Rules.PinRejectsWrongLength | server/server.js:72 | two or eleven characters fail |
| Rules.PinRejectsHash | server/server.js:72 | a `#` fails |
| Errors.HttpStatus | server/server.js:454-456 | an error without a status code is answered with 500; otherwise with its status code |
| Errors.ErrorStatuses | server/server.js:379-381 | "Address not found for this customer" becomes 500; the two "Customer not found" errors are 404 and 400; "Address not found" is 404; both phone conflicts and the refused listing query are 400 |
| SqlOrder.LikeFindsOccurrence | server/server.js:139-148 | `x LIKE '%p%'` holds when `p` occurs in `x` |
| SqlOrder.LikeIgnoresAsciiCase | server/server.js:139-148 | LIKE ignores the case of ASCII letters on both sides |
| SqlOrder.LexLeqTotal | server/server.js:164 | SQLite's binary text order is total |
| SqlOrder.LexLeqTransitive | server/server.js:164 | SQLite's binary text order is transitive |
| SqlOrder.LexLeqAntisymmetric | server/server.js:164 | two texts ordered both ways are equal |
| SqlOrder.SqlLeqTotal | server/server.js:164 | NULL, INTEGER and TEXT values are totally ordered |
| SqlOrder.SqlLeqTransitive | server/server.js:164 | that order is transitive |
| SqlOrder.MinText | server/server.js:159 | `MIN(a.city)` is NULL over no rows; otherwise it is one of the cities and no city is below it |
| Schema.SortedIdsSpec | server/db/db.js:17 | a table's ids enumerated in ascending order: each id once, nothing else |
| Schema.AddressesOf | server/server.js:223-241 | `SELECT * FROM addresses WHERE customer_id = ?` returns exactly the rows that name the customer, in id order |
| Schema.AddressesOfCount | server/server.js:232 | that query returns one row per owned address |
| Schema.Cascade | server/db/db.js:32 | what survives the cascade is unchanged and belongs to another customer |
| Schema.CascadeRemovesOwned | server/db/db.js:32 | the cascade keeps every address of other customers and removes exactly the customer's own addresses |
| Schema.CascadeLeavesNoAddresses | server/db/db.js:32 | after the cascade the customer has no addresses |
| Schema.UpdateKeepsCustomersTable | server/db/db.js:15-22 | replacing a customer by a well-formed row with a free phone number keeps both table invariants |
| Schema.UpdateKeepsAddressesTable | server/db/db.js:24-34 | replacing an address by a well-formed row of a stored customer keeps the addresses invariant |
| Query.PageNumber | server/server.js:117 | the page is at least 1; a parsed page of 1 or more is kept; NaN, 0 and negative pages give 1 |
| Query.PageSize | server/server.js:118-121 | the limit lies in [1, 50]; values in range are kept; larger ones give 50; negative ones give 1; NaN and 0 give 10 |
| Query.Offset | server/server.js:122 | the offset is non-negative and is the number of rows the pages before the requested one hold |
| Query.Whitelisted | server/server.js:124-130 | an own property of `allowedSort` is found only under its own name |
| Query.WhitelistExact | server/server.js:124-130 | exactly the five column names are whitelisted, each for its own key |
| Query.ResolveSort | server/server.js:131-132 | a whitelisted name sorts by that column; anything else sorts by id |
| Query.ResolveSortAsWritten | server/server.js:131-132 | the lookup as written fails exactly for the names of `Object.prototype` members |
| Query.InheritedSortKeyBreaksListing | server/server.js:132 | `sort=toString` makes the listing fail as written, where the whitelist intends `id` |
| Query.AsWrittenAgreesOtherwise | server/server.js:131-132 | for every other name, the code as written and the corrected lookup agree |
| Query.ResolveOrder | server/server.js:133-134 | the order is DESC exactly when the lower-cased parameter is "desc" |
| Query.ResolveOrderIgnoresCase | server/server.js:133-134 | the direction does not depend on letter case |
| Query.OrderExamples | server/server.js:133-134 | "DESC" and "dEsC" give DESC; "descending", "asc" and no parameter give ASC |
| Query.Normalize | server/server.js:115-134 | the normalised parameters satisfy the page, limit and offset bounds; `q` and `city` are trimmed |
| Query.BuildFilters | server/server.js:136-148 | the clauses pushed are one per non-empty fragment, search first |
| Query.FiltersMeaning | server/server.js:139-152 | a joined row passes the WHERE clause exactly when the search fragment (if any) matches and the city fragment (if any) matches the row's city |
| AddressCodec.EncodeItemIsJoin | server/server.js:157 | an item is the five fields joined with `::` |
| AddressCodec.EncodeAll | server/server.js:156-158 | one item per address row, in row order |
| AddressCodec.Decode | server/server.js:184-190 | a NULL aggregate decodes to no addresses |
| AddressCodec.Views | server/server.js:186-188 | one address object per row, in row order |
| AddressCodec.ItemRoundTrip | server/server.js:157-187 | an item with no `,` or `:` in its fields decodes to the object of its row, and has no comma |
| AddressCodec.RoundTrip | server/server.js:156-190 | decoding the aggregate of rows free of `,` and `:` gives one object per row, field for field |
| AddressCodec.CommaInDetailsSplitsAddress | server/server.js:185 | one address whose details hold a comma decodes to two or more objects |
| Listing.JoinedRows | server/server.js:161 | LEFT JOIN: a customer without addresses contributes one row with NULL address columns |
| Listing.IncludedMeaning | server/server.js:139-163 | a customer forms a group exactly when the search matches and, given a city fragment, one of its addresses matches it |
| Listing.MatchedMeaning | server/server.js:156-158 | the addresses aggregated for a customer are exactly its addresses whose city matches the fragment |
| Listing.MatchedAreOwn | server/server.js:161 | every aggregated address belongs to the customer |
| Listing.MatchingIdsMeaning | server/server.js:139-163 | the selected customers are the stored customers that pass both filters |
| Listing.MatchesSpec | server/server.js:163 | GROUP BY gives one group per selected customer, and nothing else |
| Listing.SortEntriesSorted | server/server.js:164 | the groups come out ordered by the resolved key and direction |
| Listing.SortEntries | server/server.js:164 | ordering is a permutation of the groups |
| Listing.OrderedSpec | server/server.js:163-164 | the ordered groups are sorted, have distinct ids and are exactly the selected customers' groups |
| Listing.TotalPagesIsCeiling | server/server.js:208 | `totalPages` is the least page count whose pages hold `total` items |
| Listing.Page | server/server.js:165 | `LIMIT ? OFFSET ?` keeps the rows from `offset` on, at most `limit` of them, in order |
| Listing.Respond | server/server.js:183-211 | the response holds the items of the page and the metadata `{total, page, limit, totalPages}` |
| Listing.TotalCountsSelectedCustomers | server/server.js:168-173 | `COUNT(DISTINCT c.id)` counts the selected customers |
| Listing.NoFiltersSelectsEveryone | server/server.js:150-152 | with no fragments every stored customer is selected and counted |
| Listing.ListingTotal | server/server.js:178-207 | `total` is the number of selected customers; `page` and `limit` are echoed |
| Listing.ListingTotalPages | server/server.js:208 | `totalPages * limit >= total > (totalPages - 1) * limit` |
| Listing.ListingPage | server/server.js:165-203 | the page holds what is left of `total` after `offset`, at most `limit` |
| Listing.ListedCustomersSpec | server/server.js:183-198 | every listed customer is selected, listed once, with its stored columns and the decoded aggregate of its matched addresses |
| Listing.ListedInOrder | server/server.js:164-165 | the listed customers are the page of the ordered groups, in that order |
| Listing.ListedAddressesDecoded | server/server.js:183-190 | when no stored field holds `,` or `:`, each listed customer carries exactly its matched addresses |
| Listing.PagePastLastIsEmpty | server/server.js:165-208 | a page beyond `totalPages` lists no customers |
| Listing.TwelveAtFiveMakeThreePages | server/server.js:208 | 12 matches at limit 5 give 3 pages |
| Listing.TwelveAtFiveThirdPage | server/server.js:165 | page 3 of those holds 2 customers |
| Listing.TwelveAtFiveFourthPage | server/server.js:165 | page 4 of those holds none |
| Listing.TotalIgnoresPaging | server/server.js:168-178 | `total` does not depend on page, limit, sort key or direction |
| Listing.SortCityIsLeastMatchedCity | server/server.js:159 | the city a customer is sorted by is the least of its matched cities, NULL exactly when none matched |
| Handlers.NewCustomer | server/server.js:21-32 | presence is checked first, then the phone rule; accepted bodies become a well-formed customer with exactly the submitted fields |
| Handlers.CreateAcceptsBlankNames | server/server.js:21 | creation does not trim: names made of blanks pass |
| Handlers.CreateRejectsEmptyName | server/server.js:21-28 | an empty first name is a missing field, whatever the rest |
| Handlers.CreateRejectsSpacedPhone | server/server.js:30-32 | a phone number with a space is refused with the format error |
| Handlers.NewAddress | server/server.js:63-79 | presence is checked first, then the pin rule; accepted bodies become a well-formed address of that customer with exactly the submitted fields |
| Handlers.CustomerPatchChecks | server/server.js:254-282 | the first blank name or bad phone is reported, in field order; success exactly when every supplied field is valid and one is supplied |
| Handlers.CustomerPatchSetsSuppliedFields | server/server.js:284-287 | the UPDATE sets exactly the supplied fields and keeps a well-formed customer well-formed |
| Handlers.AddressPatchChecks | server/server.js:323-363 | the first blank text field or bad pin is reported, in field order; success exactly when every supplied field is valid and one is supplied |
| Handlers.AddressPatchSetsSuppliedFields | server/server.js:370-373 | the UPDATE sets exactly the supplied fields and keeps a well-formed address well-formed |
| Store.CollectCustomerFields | server/server.js:254-282 | the field-pushing sequence yields the checked assignment list or the first error |
| Store.CollectAddressFields | server/server.js:323-363 | the field-pushing sequence yields the checked assignment list or the first error |
| Store.CustomerStore.constructor | server/db/db.js:14-35 | the tables start empty, with both counters at 0 |
| Store.CustomerStore.CreateCustomer | server/server.js:16-54 | body errors and a taken phone leave the store unchanged; otherwise 201 with the next id and the submitted fields, and only that row is added |
| Store.CustomerStore.CreateAddress | server/server.js:57-109 | body errors and an unknown customer (404) leave the store unchanged; otherwise 201 with the next id, and only that row is added |
| Store.CustomerStore.ListCustomers | server/server.js:112-215 | a sort name that the lookup resolves to an inherited member is answered with 400; otherwise 200 with the listing of the current tables under the normalised parameters, sorted by the column the lookup found |
| Store.CustomerStore.GetCustomer | server/server.js:218-245 | a stored customer with exactly its addresses in id order; otherwise "Customer not found" with 400 |
| Store.CustomerStore.UpdateCustomer | server/server.js:248-314 | body errors, an unknown id (400) and a phone conflict leave the store unchanged; otherwise only the supplied fields of that customer change |
| Store.CustomerStore.UpdateAddress | server/server.js:317-396 | body errors, an unknown customer (400) and an address not of that customer (500) leave the store unchanged; otherwise only the supplied fields of that address change |
| Store.CustomerStore.DeleteCustomer | server/server.js:399-422 | an unknown id is 404 and changes nothing; otherwise the customer and exactly its addresses are removed |
| Store.CustomerStore.DeleteAddress | server/server.js:425-448 | an unknown id is 404 and changes nothing; otherwise exactly that address is removed |

## Left out

- Express wiring: `cors`, `express.json`, `app.listen` and the unused imports are not modelled. The route parameters and the body reach the model as already-parsed values.
- `catchAsync` and the asynchronous callbacks are not modelled. Each handler is one atomic step, so the race between the customer lookup and the INSERT or UPDATE is out of scope.
- server/utils/appError.js and server/utils/catchAsync.js are not part of this model. An `AppError` is modelled as a message with an optional status code.
- server/db/helpers.js is folded into the store: `checkCustomerExists` is the test `id in customers`.
- The response envelope is not modelled: the `status` field and the JSON shape. One consequence: the PATCH customer response (server/server.js:306-309) lacks the `{status, data}` envelope, and the model does not show that.
- Storage errors of SQLite (I/O, locking) are not modelled. The model does not reach the `err.message` answers for them, except the UNIQUE violation on phone numbers.
- JSON `null` and non-string body values are not modelled. Body fields are text or absent. A non-string field would make `trim` throw.
- Non-numeric route parameters are not modelled. Ids are integers, and a parameter that matches no row is an id absent from the maps.
- `parseInt` text parsing is not modelled. The model receives the parsed page and limit, with None for NaN.
- Repeated query parameters are not modelled. `?q=a&q=b` or `?order=asc&order=desc` reach the handler as arrays, so `.trim()` (server/server.js:115-116) or `.toLowerCase()` (line 134) throws and the error middleware answers 500. The model takes `q`, `city`, `sort` and `order` as single texts.
- Query.Offset: computes `(page - 1) * limit` on unbounded integers. In JavaScript, `page`, `limit` and `offset` are IEEE doubles, so a page of 2^53 + 1 or more is rounded and the offset is inexact. The model does not capture that rounding.
- Store.CustomerStore.ListCustomers: the message of the refused listing query is one fixed text. SQLite's exact wording is not modelled.
- `LIKE` wildcards typed into `q` or `city` (`%`, `_`) are not modelled. The fragment is matched as a plain substring.
- Unicode case mapping is not modelled. LIKE and `toLowerCase` fold ASCII letters only.
- Listing.SortEntries: orders ties by insertion (SQL leaves tie order unspecified). The contracts state only "sorted by the key".
- AddressCodec.EncodeAll: concatenates in ascending address id order (SQL leaves GROUP_CONCAT order unspecified).
- 64-bit limits on ids and AUTOINCREMENT exhaustion are not modelled.
- The address `id` field is kept as text in decoded listing objects, as the code leaves it. The create-address response echoes `customerId` as the route's text, and the model reports the integer id instead.
- `addresses.customer_id` is a nullable column, but the handlers always supply an existing customer. The store invariant therefore requires every address to name a stored customer.
- Store.CustomerStore.DeleteCustomer: carries out the cascade declared at server/db/db.js:32. That declaration references a table `customer`, not `customers`, and foreign keys are never switched on, so SQLite may not enforce it. The model follows the declared and advertised behaviour.
- AddressCodec.RoundTrip: holds only for fields free of `,` and `:`. The encoding escapes neither, and AddressCodec.CommaInDetailsSplitsAddress shows the failure.
- All client files (React pages and components) are not modelled. Their phone check duplicates the server rule, and their page clamps are view logic.

## Findings

| source | as written | input that shows it | evidently intended | confidence | as-written member | corrected member |
|---|---|---|---|---|---|---|
| server/server.js:131-132 | `allowedSort[sortParam] \|\| allowedSort.id` also finds the members every object inherits from `Object.prototype`. Their text is spliced into `ORDER BY`, and the query fails with SQLite's error and status 400. | `GET /api/customers?sort=toString` (also `constructor`, `valueOf`, `hasOwnProperty`, ...) | any name outside the five columns falls back to `c.id` | not executed | Query.ResolveSortAsWritten, Query.InheritedSortKeyBreaksListing | Query.ResolveSort |
