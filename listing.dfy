/**
 * GET /api/customers (server/server.js lines 112-215): the customers joined
 * to their addresses, filtered, grouped to one entry per customer, ordered,
 * cut to the requested page, and counted for the pagination metadata. The
 * effect of the two SQL statements is modelled, not their text.
 */
module Listing {
  import opened Wrappers
  import opened Text
  import opened SqlOrder
  import opened Schema
  import opened Query
  import opened AddressCodec

  /**
   * One group of the result: the customer's columns, the addresses of its
   * joined rows that passed the WHERE clause (what GROUP_CONCAT sees), and
   * `MIN(a.city)` over them.
   */
  datatype Entry = Entry(id: int, customer: Customer, matched: seq<AddressRow>, cityForSort: Option<string>)

  /** One customer of the response. */
  datatype ListItem = ListItem(
    id: int, first_name: string, last_name: string, phone_number: string, addresses: seq<AddressView>)

  datatype Pagination = Pagination(total: int, page: int, limit: int, totalPages: int)

  datatype ListPage = ListPage(customers: seq<ListItem>, pagination: Pagination)

  /** LEFT JOIN: one row per address of the customer, or one row with NULL address columns. */
  function JoinedRows(own: seq<AddressRow>): (rows: seq<Option<AddressRow>>)
    ensures own == [] ==> rows == [None]
    ensures own != [] ==> |rows| == |own| && forall i :: 0 <= i < |own| ==> rows[i] == Some(own[i])
  {
    if own == [] then [None] else seq(|own|, i requires 0 <= i < |own| => Some(own[i]))
  }

  function Columns(row: Option<AddressRow>): Option<Address> {
    if row.Some? then Some(row.value.address) else None
  }

  /** The joined rows of one customer that pass the WHERE clause. */
  function Passing(fs: seq<Filter>, c: Customer, rows: seq<Option<AddressRow>>): seq<Option<AddressRow>> {
    if rows == [] then []
    else if RowPasses(fs, c, Columns(rows[0])) then [rows[0]] + Passing(fs, c, rows[1..])
    else Passing(fs, c, rows[1..])
  }

  /** The rows kept are the rows that pass. */
  lemma {:induction false} PassingMembers(fs: seq<Filter>, c: Customer, rows: seq<Option<AddressRow>>)
    ensures forall x :: x in Passing(fs, c, rows) <==> x in rows && RowPasses(fs, c, Columns(x))
  {
    if rows != [] {
      PassingMembers(fs, c, rows[1..]);
      assert forall x :: x in rows <==> x == rows[0] || x in rows[1..];
    }
  }

  /** The non-NULL address parts of rows: what GROUP_CONCAT and MIN aggregate. */
  function NonNull(rows: seq<Option<AddressRow>>): seq<AddressRow> {
    if rows == [] then []
    else if rows[0].Some? then [rows[0].value] + NonNull(rows[1..])
    else NonNull(rows[1..])
  }

  /** The addresses kept are those of the non-NULL rows. */
  lemma {:induction false} NonNullMembers(rows: seq<Option<AddressRow>>)
    ensures forall a :: a in NonNull(rows) <==> Some(a) in rows
  {
    if rows != [] {
      NonNullMembers(rows[1..]);
      assert forall x :: x in rows <==> x == rows[0] || x in rows[1..];
    }
  }

  function Cities(rows: seq<AddressRow>): (cs: seq<string>)
    ensures |cs| == |rows|
    ensures forall i :: 0 <= i < |rows| ==> cs[i] == rows[i].address.city
  {
    seq(|rows|, i requires 0 <= i < |rows| => rows[i].address.city)
  }

  /** The customer's joined rows that pass the WHERE clause. */
  function PassingRows(customers: map<int, Customer>, addresses: map<int, Address>, fs: seq<Filter>, id: int): seq<Option<AddressRow>>
    requires id in customers
  {
    Passing(fs, customers[id], JoinedRows(AddressesOf(addresses, id)))
  }

  /** The customer has a group in the result: at least one of its joined rows passed. */
  predicate Included(customers: map<int, Customer>, addresses: map<int, Address>, fs: seq<Filter>, id: int)
    requires id in customers
  {
    PassingRows(customers, addresses, fs, id) != []
  }

  /** The customer's group. */
  function EntryFor(customers: map<int, Customer>, addresses: map<int, Address>, fs: seq<Filter>, id: int): Entry
    requires id in customers
  {
    var matched := NonNull(PassingRows(customers, addresses, fs, id));
    Entry(id, customers[id], matched, MinText(Cities(matched)))
  }

  lemma IncludedSound(customers: map<int, Customer>, addresses: map<int, Address>, q: string, city: string, id: int)
    requires id in customers && Included(customers, addresses, Filters(q, city), id)
    ensures SearchMatches(customers[id], q)
    ensures city != [] ==> exists a :: a in AddressesOf(addresses, id) && Like(a.address.city, city)
  {
    var own := AddressesOf(addresses, id);
    var rows := JoinedRows(own);
    PassingMembers(Filters(q, city), customers[id], rows);
    var x := PassingRows(customers, addresses, Filters(q, city), id)[0];
    assert x in rows && RowPasses(Filters(q, city), customers[id], Columns(x));
    FiltersMeaning(q, city, customers[id], Columns(x));
    if city != [] {
      var k :| 0 <= k < |rows| && rows[k] == x;
      assert own != [];
      assert own[k] in own && Like(own[k].address.city, city);
    }
  }

  lemma IncludedComplete(customers: map<int, Customer>, addresses: map<int, Address>, q: string, city: string, id: int, a: Option<AddressRow>)
    requires id in customers && SearchMatches(customers[id], q)
    requires city == [] ==> a == None && AddressesOf(addresses, id) == []
    requires city != [] ==> a.Some? && a.value in AddressesOf(addresses, id) && Like(a.value.address.city, city)
    ensures Included(customers, addresses, Filters(q, city), id)
  {
    var own := AddressesOf(addresses, id);
    var rows := JoinedRows(own);
    if a.Some? {
      var k :| 0 <= k < |own| && own[k] == a.value;
      assert rows[k] == a;
    }
    assert a in rows;
    PassingMembers(Filters(q, city), customers[id], rows);
    FiltersMeaning(q, city, customers[id], Columns(a));
    assert a in PassingRows(customers, addresses, Filters(q, city), id);
  }

  lemma IncludedWithoutCity(customers: map<int, Customer>, addresses: map<int, Address>, q: string, id: int)
    requires id in customers && SearchMatches(customers[id], q)
    ensures Included(customers, addresses, Filters(q, []), id)
  {
    var own := AddressesOf(addresses, id);
    if own == [] {
      IncludedComplete(customers, addresses, q, [], id, None);
    } else {
      var rows := JoinedRows(own);
      assert rows[0] in rows;
      PassingMembers(Filters(q, []), customers[id], rows);
      FiltersMeaning(q, [], customers[id], Columns(rows[0]));
      assert rows[0] in PassingRows(customers, addresses, Filters(q, []), id);
    }
  }

  /**
   * A customer is listed exactly when the search fragment is empty or occurs
   * in a name or the phone number, and the city fragment is empty or occurs
   * in the city of one of its addresses. A customer without addresses is
   * listed when there is no city fragment.
   */
  lemma IncludedMeaning(customers: map<int, Customer>, addresses: map<int, Address>, q: string, city: string, id: int)
    requires id in customers
    ensures Included(customers, addresses, Filters(q, city), id) <==>
      SearchMatches(customers[id], q) &&
      (city == [] || exists a :: a in AddressesOf(addresses, id) && Like(a.address.city, city))
  {
    if Included(customers, addresses, Filters(q, city), id) {
      IncludedSound(customers, addresses, q, city, id);
    } else if SearchMatches(customers[id], q) {
      if city == [] {
        IncludedWithoutCity(customers, addresses, q, id);
      } else if a :| a in AddressesOf(addresses, id) && Like(a.address.city, city) {
        IncludedComplete(customers, addresses, q, city, id, Some(a));
      }
    }
  }

  /**
   * The addresses attached to a listed customer are its addresses whose city
   * matches the city fragment (all of them when there is none).
   */
  lemma MatchedMeaning(customers: map<int, Customer>, addresses: map<int, Address>, q: string, city: string, id: int, a: AddressRow)
    requires id in customers && SearchMatches(customers[id], q)
    ensures a in EntryFor(customers, addresses, Filters(q, city), id).matched <==>
      a in AddressesOf(addresses, id) && (city == [] || Like(a.address.city, city))
  {
    var own := AddressesOf(addresses, id);
    var rows := JoinedRows(own);
    PassingMembers(Filters(q, city), customers[id], rows);
    NonNullMembers(PassingRows(customers, addresses, Filters(q, city), id));
    FiltersMeaning(q, city, customers[id], Some(a.address));
    if a in own {
      var k :| 0 <= k < |own| && own[k] == a;
      assert rows[k] == Some(a);
    }
    if Some(a) in rows {
      var k :| 0 <= k < |rows| && rows[k] == Some(a);
      assert own != [] && own[k] == a;
    }
  }

  /** Ids in ascending order. */
  predicate IncreasingIds(s: seq<Entry>) {
    forall i, j :: 0 <= i < j < |s| ==> s[i].id < s[j].id
  }

  /** The group of every selected customer, by customer id (`GROUP BY c.id` after the WHERE clause). */
  function Groups(customers: map<int, Customer>, addresses: map<int, Address>, fs: seq<Filter>): map<int, Entry> {
    map id | id in customers && Included(customers, addresses, fs, id) :: EntryFor(customers, addresses, fs, id)
  }

  /** Every group is filed under its own customer id. */
  predicate KeyedById(groups: map<int, Entry>) {
    forall id :: id in groups ==> groups[id].id == id
  }

  /** The groups of the given ids, in the order of the ids. */
  function InOrder(ids: seq<int>, groups: map<int, Entry>): seq<Entry> {
    if ids == [] then []
    else (if ids[0] in groups then [groups[ids[0]]] else []) + InOrder(ids[1..], groups)
  }

  /** Every group listed is the group of one of the ids. */
  lemma {:induction false} InOrderSound(ids: seq<int>, groups: map<int, Entry>)
    requires KeyedById(groups)
    ensures forall k :: 0 <= k < |InOrder(ids, groups)| ==>
      InOrder(ids, groups)[k].id in ids && InOrder(ids, groups)[k].id in groups &&
      InOrder(ids, groups)[k] == groups[InOrder(ids, groups)[k].id]
  {
    if ids != [] {
      var rest := InOrder(ids[1..], groups);
      var head: seq<Entry> := if ids[0] in groups then [groups[ids[0]]] else [];
      assert InOrder(ids, groups) == head + rest;
      InOrderSound(ids[1..], groups);
      forall k | 0 <= k < |head + rest|
        ensures (head + rest)[k].id in ids && (head + rest)[k].id in groups
        ensures (head + rest)[k] == groups[(head + rest)[k].id]
      {
        if k < |head| {
          assert (head + rest)[k] == groups[ids[0]];
          assert groups[ids[0]].id == ids[0] && ids[0] in ids;
        } else {
          assert (head + rest)[k] == rest[k - |head|];
          assert rest[k - |head|].id in ids[1..];
          var j :| 0 <= j < |ids[1..]| && ids[1..][j] == rest[k - |head|].id;
          assert ids[j + 1] == rest[k - |head|].id;
        }
      }
    }
  }

  /** Every id that has a group has it listed. */
  lemma {:induction false} InOrderComplete(ids: seq<int>, groups: map<int, Entry>)
    ensures forall i :: 0 <= i < |ids| && ids[i] in groups ==> groups[ids[i]] in InOrder(ids, groups)
  {
    if ids != [] {
      InOrderComplete(ids[1..], groups);
      assert forall i :: 1 <= i < |ids| ==> ids[i] == ids[1..][i - 1];
    }
  }

  /** Groups are listed in the order of increasing ids. */
  lemma {:induction false} InOrderIncreasing(ids: seq<int>, groups: map<int, Entry>)
    requires KeyedById(groups) && Increasing(ids)
    ensures IncreasingIds(InOrder(ids, groups))
  {
    if ids != [] {
      var rest := InOrder(ids[1..], groups);
      InOrderIncreasing(ids[1..], groups);
      InOrderSound(ids[1..], groups);
      forall k | 0 <= k < |rest| ensures ids[0] < rest[k].id {
        var j :| 0 <= j < |ids[1..]| && ids[1..][j] == rest[k].id;
        assert ids[j + 1] == rest[k].id;
      }
    }
  }

  /** The key a group is ordered by: `c.id`, a text column, or `MIN(a.city)` (NULL without addresses). */
  function SortValue(e: Entry, key: SortKey): SqlValue {
    match key
    case ById => IntValue(e.id)
    case ByFirstName => TextValue(e.customer.first_name)
    case ByLastName => TextValue(e.customer.last_name)
    case ByPhoneNumber => TextValue(e.customer.phone_number)
    case ByCity => if e.cityForSort.None? then NullValue else TextValue(e.cityForSort.value)
  }

  /** `a` may come before `b` in `ORDER BY key dir`. */
  predicate Before(a: Entry, b: Entry, key: SortKey, dir: Direction) {
    if dir == Asc then SqlLeq(SortValue(a, key), SortValue(b, key))
    else SqlLeq(SortValue(b, key), SortValue(a, key))
  }

  lemma BeforeTotal(a: Entry, b: Entry, key: SortKey, dir: Direction)
    ensures Before(a, b, key, dir) || Before(b, a, key, dir)
  {
    SqlLeqTotal(SortValue(a, key), SortValue(b, key));
  }

  lemma BeforeTransitive(a: Entry, b: Entry, c: Entry, key: SortKey, dir: Direction)
    requires Before(a, b, key, dir) && Before(b, c, key, dir)
    ensures Before(a, c, key, dir)
  {
    if dir == Asc {
      SqlLeqTransitive(SortValue(a, key), SortValue(b, key), SortValue(c, key));
    } else {
      SqlLeqTransitive(SortValue(c, key), SortValue(b, key), SortValue(a, key));
    }
  }

  /** Ordered by the key in the direction; ties are left in any order. */
  predicate SortedBy(s: seq<Entry>, key: SortKey, dir: Direction) {
    forall i, j :: 0 <= i < j < |s| ==> Before(s[i], s[j], key, dir)
  }

  predicate DistinctIds(s: seq<Entry>) {
    forall i, j :: 0 <= i < j < |s| ==> s[i].id != s[j].id
  }

  function Insert(e: Entry, s: seq<Entry>, key: SortKey, dir: Direction): (r: seq<Entry>)
    ensures |r| == |s| + 1
    ensures multiset(r) == multiset(s) + multiset{e}
  {
    if s == [] || Before(e, s[0], key, dir) then [e] + s
    else
      assert s == [s[0]] + s[1..];
      [s[0]] + Insert(e, s[1..], key, dir)
  }

  /** ORDER BY: an insertion sort, a permutation of its input. */
  function SortEntries(s: seq<Entry>, key: SortKey, dir: Direction): (r: seq<Entry>)
    ensures multiset(r) == multiset(s)
  {
    if s == [] then []
    else
      assert s == [s[0]] + s[1..];
      Insert(s[0], SortEntries(s[1..], key, dir), key, dir)
  }

  lemma ConsSorted(x: Entry, t: seq<Entry>, key: SortKey, dir: Direction)
    requires SortedBy(t, key, dir)
    requires forall j :: 0 <= j < |t| ==> Before(x, t[j], key, dir)
    ensures SortedBy([x] + t, key, dir)
  {
    var r := [x] + t;
    forall i, j | 0 <= i < j < |r| ensures Before(r[i], r[j], key, dir) {
      assert r[j] == t[j - 1];
      if i > 0 {
        assert r[i] == t[i - 1];
      }
    }
  }

  /** An entry that may precede `e` and all of `s` may precede all of `Insert(e, s)`. */
  lemma {:induction false} InsertLowerBound(x: Entry, e: Entry, s: seq<Entry>, key: SortKey, dir: Direction)
    requires Before(x, e, key, dir)
    requires forall k :: 0 <= k < |s| ==> Before(x, s[k], key, dir)
    ensures forall j :: 0 <= j < |Insert(e, s, key, dir)| ==> Before(x, Insert(e, s, key, dir)[j], key, dir)
  {
    if s != [] && !Before(e, s[0], key, dir) {
      InsertLowerBound(x, e, s[1..], key, dir);
      var tail := Insert(e, s[1..], key, dir);
      assert Insert(e, s, key, dir) == [s[0]] + tail;
    }
  }

  lemma {:induction false} InsertSorted(e: Entry, s: seq<Entry>, key: SortKey, dir: Direction)
    requires SortedBy(s, key, dir)
    ensures SortedBy(Insert(e, s, key, dir), key, dir)
  {
    if s == [] {
    } else if Before(e, s[0], key, dir) {
      forall j | 0 <= j < |s| ensures Before(e, s[j], key, dir) {
        if j > 0 {
          BeforeTransitive(e, s[0], s[j], key, dir);
        }
      }
      ConsSorted(e, s, key, dir);
    } else {
      BeforeTotal(e, s[0], key, dir);
      InsertSorted(e, s[1..], key, dir);
      InsertLowerBound(s[0], e, s[1..], key, dir);
      ConsSorted(s[0], Insert(e, s[1..], key, dir), key, dir);
    }
  }

  /** The result of the sort is ordered by the key. */
  lemma {:induction false} SortEntriesSorted(s: seq<Entry>, key: SortKey, dir: Direction)
    ensures SortedBy(SortEntries(s, key, dir), key, dir)
  {
    if s != [] {
      SortEntriesSorted(s[1..], key, dir);
      InsertSorted(s[0], SortEntries(s[1..], key, dir), key, dir);
    }
  }

  lemma ConsDistinct(x: Entry, t: seq<Entry>)
    requires DistinctIds(t)
    requires forall j :: 0 <= j < |t| ==> t[j].id != x.id
    ensures DistinctIds([x] + t)
  {
    var r := [x] + t;
    forall i, j | 0 <= i < j < |r| ensures r[i].id != r[j].id {
      assert r[j] == t[j - 1];
      if i > 0 {
        assert r[i] == t[i - 1];
      }
    }
  }

  /** Inserting an entry whose id differs from `id` into entries whose ids all differ from it. */
  lemma {:induction false} InsertAvoidsId(id: int, e: Entry, s: seq<Entry>, key: SortKey, dir: Direction)
    requires e.id != id
    requires forall k :: 0 <= k < |s| ==> s[k].id != id
    ensures forall j :: 0 <= j < |Insert(e, s, key, dir)| ==> Insert(e, s, key, dir)[j].id != id
  {
    if s != [] && !Before(e, s[0], key, dir) {
      InsertAvoidsId(id, e, s[1..], key, dir);
      assert Insert(e, s, key, dir) == [s[0]] + Insert(e, s[1..], key, dir);
    }
  }

  lemma {:induction false} InsertDistinct(e: Entry, s: seq<Entry>, key: SortKey, dir: Direction)
    requires DistinctIds(s)
    requires forall i :: 0 <= i < |s| ==> s[i].id != e.id
    ensures DistinctIds(Insert(e, s, key, dir))
  {
    if s == [] {
    } else if Before(e, s[0], key, dir) {
      ConsDistinct(e, s);
    } else {
      InsertDistinct(e, s[1..], key, dir);
      InsertAvoidsId(s[0].id, e, s[1..], key, dir);
      ConsDistinct(s[0], Insert(e, s[1..], key, dir));
    }
  }

  /** Ids of a sorted sequence are ids of its input. */
  lemma {:induction false} SortEntriesAvoidsId(id: int, s: seq<Entry>, key: SortKey, dir: Direction)
    requires forall k :: 0 <= k < |s| ==> s[k].id != id
    ensures forall j :: 0 <= j < |SortEntries(s, key, dir)| ==> SortEntries(s, key, dir)[j].id != id
  {
    if s != [] {
      SortEntriesAvoidsId(id, s[1..], key, dir);
      InsertAvoidsId(id, s[0], SortEntries(s[1..], key, dir), key, dir);
    }
  }

  /** Sorting keeps one entry per customer. */
  lemma {:induction false} SortEntriesDistinct(s: seq<Entry>, key: SortKey, dir: Direction)
    requires DistinctIds(s)
    ensures DistinctIds(SortEntries(s, key, dir))
  {
    if s != [] {
      SortEntriesDistinct(s[1..], key, dir);
      SortEntriesAvoidsId(s[0].id, s[1..], key, dir);
      InsertDistinct(s[0], SortEntries(s[1..], key, dir), key, dir);
    }
  }

  /** `LIMIT limit OFFSET offset` */
  function Page(s: seq<Entry>, offset: int, limit: int): (r: seq<Entry>)
    requires offset >= 0 && limit >= 1
    ensures |r| == if offset >= |s| then 0 else Min(limit, |s| - offset)
    ensures forall i :: 0 <= i < |r| ==> r[i] == s[offset + i]
  {
    if offset >= |s| then [] else s[offset..Min(|s|, offset + limit)]
  }

  /** `Math.ceil(total / limit)`, exact here because both are integers and limit >= 1. */
  function TotalPages(total: nat, limit: int): int
    requires limit >= 1
  {
    (total + limit - 1) / limit
  }

  /** The number of pages is the least that hold `total` items at `limit` per page. */
  lemma TotalPagesIsCeiling(total: nat, limit: int)
    requires limit >= 1
    ensures TotalPages(total, limit) >= 0
    ensures TotalPages(total, limit) * limit >= total
    ensures TotalPages(total, limit) * limit < total + limit
  {
    var n := (total + limit - 1) / limit;
    var rem := (total + limit - 1) % limit;
    assert n * limit + rem == total + limit - 1;
    assert 0 <= rem < limit;
  }

  /** The response object for one group: the address aggregate is decoded from its text. */
  function Item(e: Entry): ListItem {
    ListItem(e.id, e.customer.first_name, e.customer.last_name, e.customer.phone_number,
      Decode(Aggregate(e.matched)))
  }

  /** Parameters as normalisation leaves them. */
  predicate ValidParams(p: ListParams) {
    p.page >= 1 && 1 <= p.limit <= 50 && p.offset >= 0
  }

  /** The offset is that of the page: `(page - 1) * limit`. */
  predicate OffsetOfPage(p: ListParams) {
    p.offset + p.limit == p.page * p.limit
  }

  /** The groups of the result in customer-id order, before ORDER BY: what the count query counts. */
  function Matches(customers: map<int, Customer>, addresses: map<int, Address>, p: ListParams): seq<Entry> {
    InOrder(SortedIds(customers.Keys), Groups(customers, addresses, Filters(p.q, p.city)))
  }

  /** The groups in the requested order. */
  function Ordered(customers: map<int, Customer>, addresses: map<int, Address>, p: ListParams): seq<Entry> {
    SortEntries(Matches(customers, addresses, p), p.key, p.dir)
  }

  /**
   * The response for groups already ordered and counted: the items of the
   * page from `offset` on, at most `limit` of them, and the metadata.
   */
  function Respond(ordered: seq<Entry>, total: nat, p: ListParams): (r: ListPage)
    requires ValidParams(p)
    ensures r.pagination == Pagination(total, p.page, p.limit, TotalPages(total, p.limit))
    ensures |r.customers| == if p.offset >= |ordered| then 0 else Min(p.limit, |ordered| - p.offset)
    ensures forall i :: 0 <= i < |r.customers| ==>
      p.offset + i < |ordered| && r.customers[i] == Item(ordered[p.offset + i])
  {
    var page := Page(ordered, p.offset, p.limit);
    ListPage(
      seq(|page|, i requires 0 <= i < |page| => Item(page[i])),
      Pagination(total, p.page, p.limit, TotalPages(total, p.limit)))
  }

  /** The listing response: the page of the ordered groups and the count of all groups. */
  function ListResult(customers: map<int, Customer>, addresses: map<int, Address>, p: ListParams): ListPage
    requires ValidParams(p)
  {
    Respond(Ordered(customers, addresses, p), |Matches(customers, addresses, p)|, p)
  }

  /** The ids of the customers the filters select: those that have a group. */
  function MatchingIds(customers: map<int, Customer>, addresses: map<int, Address>, p: ListParams): set<int> {
    Groups(customers, addresses, Filters(p.q, p.city)).Keys
  }

  /** Every group of the sequence is the group filed under its id. */
  predicate FromGroups(s: seq<Entry>, groups: map<int, Entry>) {
    forall k :: 0 <= k < |s| ==> s[k].id in groups && s[k] == groups[s[k].id]
  }

  /** Every group filed appears in the sequence. */
  predicate CoversGroups(s: seq<Entry>, groups: map<int, Entry>) {
    forall id :: id in groups ==> groups[id] in s
  }

  /** Listing the groups of a superset of their ids in increasing order lists each group once, in id order. */
  lemma InOrderSpec(ids: seq<int>, groups: map<int, Entry>)
    requires KeyedById(groups) && Increasing(ids)
    requires forall id :: id in groups ==> id in ids
    ensures IncreasingIds(InOrder(ids, groups))
    ensures FromGroups(InOrder(ids, groups), groups) && CoversGroups(InOrder(ids, groups), groups)
  {
    InOrderSound(ids, groups);
    InOrderComplete(ids, groups);
    InOrderIncreasing(ids, groups);
    forall id | id in groups ensures groups[id] in InOrder(ids, groups) {
      var i :| 0 <= i < |ids| && ids[i] == id;
    }
  }

  /** The groups are filed under the selected customers' ids, each the group of its customer. */
  lemma GroupsMeaning(customers: map<int, Customer>, addresses: map<int, Address>, fs: seq<Filter>)
    ensures KeyedById(Groups(customers, addresses, fs))
    ensures forall id :: id in Groups(customers, addresses, fs) <==> id in customers && Included(customers, addresses, fs, id)
    ensures forall id :: id in Groups(customers, addresses, fs) ==> Groups(customers, addresses, fs)[id] == EntryFor(customers, addresses, fs, id)
  {
  }

  /**
   * The selected customers are the stored customers that match the search
   * fragment and, when there is a city fragment, have an address in a
   * matching city.
   */
  lemma MatchingIdsMeaning(customers: map<int, Customer>, addresses: map<int, Address>, p: ListParams, id: int)
    ensures id in MatchingIds(customers, addresses, p) <==>
      id in customers && SearchMatches(customers[id], p.q) &&
      (p.city == [] || exists a :: a in AddressesOf(addresses, id) && Like(a.address.city, p.city))
  {
    if id in customers {
      IncludedMeaning(customers, addresses, p.q, p.city, id);
    }
  }

  /** The grouped result before ordering: one group per selected customer, in id order, and nothing else. */
  lemma MatchesSpec(customers: map<int, Customer>, addresses: map<int, Address>, p: ListParams)
    ensures var groups := Groups(customers, addresses, Filters(p.q, p.city));
      && IncreasingIds(Matches(customers, addresses, p))
      && FromGroups(Matches(customers, addresses, p), groups)
      && CoversGroups(Matches(customers, addresses, p), groups)
  {
    var ids := SortedIds(customers.Keys);
    var groups := Groups(customers, addresses, Filters(p.q, p.city));
    SortedIdsSpec(customers.Keys);
    forall id | id in groups ensures groups[id].id == id && id in ids {
    }
    InOrderSpec(ids, groups);
  }

  /** Sorting keeps the groups a sequence holds, and their number. */
  lemma SortKeepsGroups(s: seq<Entry>, key: SortKey, dir: Direction, groups: map<int, Entry>)
    requires FromGroups(s, groups) && CoversGroups(s, groups)
    ensures |SortEntries(s, key, dir)| == |s|
    ensures FromGroups(SortEntries(s, key, dir), groups) && CoversGroups(SortEntries(s, key, dir), groups)
  {
    var o := SortEntries(s, key, dir);
    assert |o| == |multiset(o)| == |multiset(s)| == |s|;
    forall k | 0 <= k < |o| ensures o[k].id in groups && o[k] == groups[o[k].id] {
      assert o[k] in multiset(s);
      var j :| 0 <= j < |s| && s[j] == o[k];
    }
    forall id | id in groups ensures groups[id] in o {
      assert groups[id] in multiset(s);
    }
  }

  /**
   * The ordered groups: sorted by the requested key and direction, one per
   * customer, exactly the selected customers' groups.
   */
  lemma OrderedSpec(customers: map<int, Customer>, addresses: map<int, Address>, p: ListParams)
    ensures var groups := Groups(customers, addresses, Filters(p.q, p.city));
      && SortedBy(Ordered(customers, addresses, p), p.key, p.dir)
      && DistinctIds(Ordered(customers, addresses, p))
      && |Ordered(customers, addresses, p)| == |Matches(customers, addresses, p)|
      && FromGroups(Ordered(customers, addresses, p), groups)
      && CoversGroups(Ordered(customers, addresses, p), groups)
  {
    var m := Matches(customers, addresses, p);
    MatchesSpec(customers, addresses, p);
    SortEntriesSorted(m, p.key, p.dir);
    SortEntriesDistinct(m, p.key, p.dir);
    SortKeepsGroups(m, p.key, p.dir, Groups(customers, addresses, Filters(p.q, p.city)));
  }

  /** A sequence of groups with increasing ids has one group per id of the set it covers. */
  lemma IdsCount(m: seq<Entry>, ids: set<int>)
    requires IncreasingIds(m)
    requires forall k :: 0 <= k < |m| ==> m[k].id in ids
    requires forall x :: x in ids ==> exists k :: 0 <= k < |m| && m[k].id == x
    ensures |m| == |ids|
  {
    var es := seq(|m|, i requires 0 <= i < |m| => m[i].id);
    assert Increasing(es);
    IncreasingCard(es);
    var listed := set x | x in es;
    forall x | x in ids ensures x in listed {
      var k :| 0 <= k < |m| && m[k].id == x;
      assert es[k] == x;
    }
    forall x | x in listed ensures x in ids {
      var k :| 0 <= k < |es| && es[k] == x;
      assert m[k].id == x;
    }
    assert listed == ids;
  }

  /** Listing the groups of a superset of their ids in increasing order lists as many groups as there are. */
  lemma InOrderCount(ids: seq<int>, groups: map<int, Entry>)
    requires KeyedById(groups) && Increasing(ids)
    requires forall id :: id in groups ==> id in ids
    ensures |InOrder(ids, groups)| == |groups|
  {
    var m := InOrder(ids, groups);
    InOrderSpec(ids, groups);
    forall x | x in groups.Keys ensures exists k :: 0 <= k < |m| && m[k].id == x {
      var k :| 0 <= k < |m| && m[k] == groups[x];
    }
    IdsCount(m, groups.Keys);
  }

  /** The `total` of the count query is the number of selected customers. */
  lemma TotalCountsSelectedCustomers(customers: map<int, Customer>, addresses: map<int, Address>, p: ListParams)
    ensures |Matches(customers, addresses, p)| == |MatchingIds(customers, addresses, p)|
  {
    var ids := SortedIds(customers.Keys);
    var groups := Groups(customers, addresses, Filters(p.q, p.city));
    SortedIdsSpec(customers.Keys);
    forall id | id in groups ensures groups[id].id == id && id in ids {
    }
    InOrderCount(ids, groups);
  }

  /** Without fragments every customer is listed, including those without addresses. */
  lemma NoFiltersSelectsEveryone(customers: map<int, Customer>, addresses: map<int, Address>, p: ListParams)
    requires p.q == [] && p.city == []
    ensures MatchingIds(customers, addresses, p) == customers.Keys
    ensures |Matches(customers, addresses, p)| == |customers|
  {
    forall id | id in customers ensures id in MatchingIds(customers, addresses, p) {
      IncludedWithoutCity(customers, addresses, p.q, id);
      assert Filters(p.q, p.city) == Filters(p.q, []);
    }
    assert MatchingIds(customers, addresses, p) == customers.Keys;
    TotalCountsSelectedCustomers(customers, addresses, p);
  }

  lemma OrderedLength(customers: map<int, Customer>, addresses: map<int, Address>, p: ListParams)
    ensures |Ordered(customers, addresses, p)| == |Matches(customers, addresses, p)|
  {
    var m := Matches(customers, addresses, p);
    assert |SortEntries(m, p.key, p.dir)| == |multiset(SortEntries(m, p.key, p.dir))| == |multiset(m)| == |m|;
  }

  /** `total` counts the selected customers; `page` and `limit` are echoed. */
  lemma ListingTotal(customers: map<int, Customer>, addresses: map<int, Address>, p: ListParams)
    requires ValidParams(p)
    ensures var r := ListResult(customers, addresses, p);
      r.pagination.total == |MatchingIds(customers, addresses, p)| &&
      r.pagination.page == p.page && r.pagination.limit == p.limit
  {
    TotalCountsSelectedCustomers(customers, addresses, p);
  }

  /** `totalPages` is the ceiling of `total / limit`. */
  lemma ListingTotalPages(customers: map<int, Customer>, addresses: map<int, Address>, p: ListParams)
    requires ValidParams(p)
    ensures var r := ListResult(customers, addresses, p);
      var total := |MatchingIds(customers, addresses, p)|;
      r.pagination.totalPages * p.limit >= total && r.pagination.totalPages * p.limit < total + p.limit
  {
    TotalCountsSelectedCustomers(customers, addresses, p);
    TotalPagesIsCeiling(|Matches(customers, addresses, p)|, p.limit);
  }

  /** Counted groups fill the page up to `limit` with what is left after `offset`. */
  lemma RespondSize(ordered: seq<Entry>, total: nat, p: ListParams)
    requires ValidParams(p) && |ordered| == total
    ensures var r := Respond(ordered, total, p);
      |r.customers| == (if p.offset >= r.pagination.total then 0 else Min(p.limit, r.pagination.total - p.offset))
  {
  }

  /**
   * The page holds as many customers as are left of the `total` after
   * `offset`, and at most `limit`.
   */
  lemma ListingPage(customers: map<int, Customer>, addresses: map<int, Address>, p: ListParams)
    requires ValidParams(p)
    ensures var r := ListResult(customers, addresses, p);
      |r.customers| == (if p.offset >= r.pagination.total then 0 else Min(p.limit, r.pagination.total - p.offset))
  {
    OrderedLength(customers, addresses, p);
    RespondSize(Ordered(customers, addresses, p), |Matches(customers, addresses, p)|, p);
  }


  /** Items of groups with distinct ids have distinct ids. */
  lemma RespondDistinct(ordered: seq<Entry>, total: nat, p: ListParams)
    requires ValidParams(p) && DistinctIds(ordered)
    ensures var items := Respond(ordered, total, p).customers;
      forall i, j :: 0 <= i < j < |items| ==> items[i].id != items[j].id
  {
    var items := Respond(ordered, total, p).customers;
    forall i, j | 0 <= i < j < |items| ensures items[i].id != items[j].id {
      assert items[i].id == ordered[p.offset + i].id && items[j].id == ordered[p.offset + j].id;
    }
  }

  /** Every item of a page of filed groups is the item of the group filed under its id. */
  lemma RespondFromGroups(ordered: seq<Entry>, total: nat, p: ListParams, groups: map<int, Entry>)
    requires ValidParams(p) && FromGroups(ordered, groups)
    ensures var items := Respond(ordered, total, p).customers;
      forall i :: 0 <= i < |items| ==> items[i].id in groups && items[i] == Item(groups[items[i].id])
  {
    var items := Respond(ordered, total, p).customers;
    forall i | 0 <= i < |items| ensures items[i].id in groups && items[i] == Item(groups[items[i].id]) {
      assert items[i] == Item(ordered[p.offset + i]);
    }
  }

  /**
   * Every listed customer is a selected, stored customer, listed once, as
   * the item of its group: its stored columns and the decoded aggregate of
   * the addresses that passed the city filter.
   */
  lemma ListedCustomersSpec(customers: map<int, Customer>, addresses: map<int, Address>, p: ListParams)
    requires ValidParams(p)
    ensures var items := ListResult(customers, addresses, p).customers;
      && (forall i, j :: 0 <= i < j < |items| ==> items[i].id != items[j].id)
      && forall i :: 0 <= i < |items| ==>
        && items[i].id in MatchingIds(customers, addresses, p)
        && items[i] == Item(EntryFor(customers, addresses, Filters(p.q, p.city), items[i].id))
  {
    var fs := Filters(p.q, p.city);
    var groups := Groups(customers, addresses, fs);
    var o := Ordered(customers, addresses, p);
    var items := ListResult(customers, addresses, p).customers;
    OrderedSpec(customers, addresses, p);
    RespondDistinct(o, |Matches(customers, addresses, p)|, p);
    RespondFromGroups(o, |Matches(customers, addresses, p)|, p, groups);
    forall i | 0 <= i < |items|
      ensures items[i].id in MatchingIds(customers, addresses, p)
      ensures items[i] == Item(EntryFor(customers, addresses, fs, items[i].id))
    {
      assert items[i].id in groups;
    }
  }

  /** A slice of a sorted sequence is sorted. */
  lemma PageSorted(s: seq<Entry>, offset: int, limit: int, key: SortKey, dir: Direction)
    requires offset >= 0 && limit >= 1 && SortedBy(s, key, dir)
    ensures SortedBy(Page(s, offset, limit), key, dir)
  {
    var page := Page(s, offset, limit);
    forall i, j | 0 <= i < j < |page| ensures Before(page[i], page[j], key, dir) {
      assert page[i] == s[offset + i] && page[j] == s[offset + j];
    }
  }

  /** The response lists the items of the page, in the order of the page. */
  lemma RespondIsPage(ordered: seq<Entry>, total: nat, p: ListParams)
    requires ValidParams(p)
    ensures var page := Page(ordered, p.offset, p.limit);
      Respond(ordered, total, p).customers == seq(|page|, i requires 0 <= i < |page| => Item(page[i]))
  {
  }

  /** The page follows the requested order. */
  lemma ListedInOrder(customers: map<int, Customer>, addresses: map<int, Address>, p: ListParams)
    requires ValidParams(p)
    ensures var page := Page(Ordered(customers, addresses, p), p.offset, p.limit);
      SortedBy(page, p.key, p.dir) &&
      ListResult(customers, addresses, p).customers == seq(|page|, i requires 0 <= i < |page| => Item(page[i]))
  {
    var o := Ordered(customers, addresses, p);
    OrderedSpec(customers, addresses, p);
    PageSorted(o, p.offset, p.limit, p.key, p.dir);
    RespondIsPage(o, |Matches(customers, addresses, p)|, p);
  }

  /** The addresses a group holds are addresses of its customer. */
  lemma MatchedAreOwn(customers: map<int, Customer>, addresses: map<int, Address>, fs: seq<Filter>, id: int)
    requires id in customers
    ensures forall a :: a in EntryFor(customers, addresses, fs, id).matched ==> a in AddressesOf(addresses, id)
  {
    var own := AddressesOf(addresses, id);
    var rows := JoinedRows(own);
    PassingMembers(fs, customers[id], rows);
    NonNullMembers(PassingRows(customers, addresses, fs, id));
    forall a | Some(a) in rows ensures a in own {
      var k :| 0 <= k < |rows| && rows[k] == Some(a);
      assert own != [] && own[k] == a;
    }
  }

  /** When every stored address is free of the separators, the decoded addresses are the matched rows. */
  lemma ListedAddressesDecoded(customers: map<int, Customer>, addresses: map<int, Address>, p: ListParams, id: int)
    requires id in customers
    requires forall aid :: aid in addresses ==> Clean(AddressRow(aid, addresses[aid]))
    ensures var e := EntryFor(customers, addresses, Filters(p.q, p.city), id);
      Item(e).addresses == Views(e.matched)
  {
    var matched := EntryFor(customers, addresses, Filters(p.q, p.city), id).matched;
    MatchedAreOwn(customers, addresses, Filters(p.q, p.city), id);
    forall i | 0 <= i < |matched| ensures Clean(matched[i]) {
      var a := matched[i];
      assert a in matched;
      assert a.id in addresses && a == AddressRow(a.id, addresses[a.id]);
    }
    RoundTrip(matched);
  }

  lemma PastLastOffset(page: int, limit: int, offset: int, n: int, total: int)
    requires limit >= 1 && offset + limit == page * limit
    requires n * limit >= total && page > n
    ensures offset >= total
  {
    MulNonNegative(page - n - 1, limit);
    assert (page - n - 1) * limit == page * limit - n * limit - limit;
  }

  /** A page past the last one is empty. */
  lemma PagePastLastIsEmpty(customers: map<int, Customer>, addresses: map<int, Address>, p: ListParams)
    requires ValidParams(p) && OffsetOfPage(p)
    requires p.page > ListResult(customers, addresses, p).pagination.totalPages
    ensures ListResult(customers, addresses, p).customers == []
  {
    var r := ListResult(customers, addresses, p);
    var total := |Matches(customers, addresses, p)|;
    OrderedLength(customers, addresses, p);
    TotalPagesIsCeiling(total, p.limit);
    PastLastOffset(p.page, p.limit, p.offset, r.pagination.totalPages, total);
  }

  lemma ThreePages(n: int)
    requires n * 5 >= 12 && n * 5 < 17
    ensures n == 3
  {
  }

  /** Twelve selected customers at five per page make three pages. */
  lemma TwelveAtFiveMakeThreePages(customers: map<int, Customer>, addresses: map<int, Address>, p: ListParams)
    requires ValidParams(p) && p.limit == 5
    requires |MatchingIds(customers, addresses, p)| == 12
    ensures ListResult(customers, addresses, p).pagination.totalPages == 3
  {
    var n := ListResult(customers, addresses, p).pagination.totalPages;
    ListingTotalPages(customers, addresses, p);
    assert n * 5 >= 12 && n * 5 < 17;
    ThreePages(n);
  }

  lemma RespondThirdOfTwelve(ordered: seq<Entry>, p: ListParams)
    requires ValidParams(p) && OffsetOfPage(p) && p.limit == 5 && p.page == 3 && |ordered| == 12
    ensures |Respond(ordered, 12, p).customers| == 2
  {
    assert p.offset == 10;
  }

  lemma RespondFourthOfTwelve(ordered: seq<Entry>, p: ListParams)
    requires ValidParams(p) && OffsetOfPage(p) && p.limit == 5 && p.page == 4 && |ordered| == 12
    ensures Respond(ordered, 12, p).customers == []
  {
    assert p.offset == 15;
  }

  /** ... of which the third holds the last two customers ... */
  lemma TwelveAtFiveThirdPage(customers: map<int, Customer>, addresses: map<int, Address>, p: ListParams)
    requires ValidParams(p) && OffsetOfPage(p) && p.limit == 5 && p.page == 3
    requires |MatchingIds(customers, addresses, p)| == 12
    ensures |ListResult(customers, addresses, p).customers| == 2
  {
    TotalCountsSelectedCustomers(customers, addresses, p);
    OrderedLength(customers, addresses, p);
    RespondThirdOfTwelve(Ordered(customers, addresses, p), p);
  }

  /** ... and the fourth none. */
  lemma TwelveAtFiveFourthPage(customers: map<int, Customer>, addresses: map<int, Address>, p: ListParams)
    requires ValidParams(p) && OffsetOfPage(p) && p.limit == 5 && p.page == 4
    requires |MatchingIds(customers, addresses, p)| == 12
    ensures ListResult(customers, addresses, p).customers == []
  {
    TotalCountsSelectedCustomers(customers, addresses, p);
    OrderedLength(customers, addresses, p);
    RespondFourthOfTwelve(Ordered(customers, addresses, p), p);
  }

  /** `total` depends on the filters only, not on the page, the page size or the order. */
  lemma TotalIgnoresPaging(customers: map<int, Customer>, addresses: map<int, Address>, p1: ListParams, p2: ListParams)
    requires ValidParams(p1) && ValidParams(p2)
    requires p1.q == p2.q && p1.city == p2.city
    ensures ListResult(customers, addresses, p1).pagination.total == ListResult(customers, addresses, p2).pagination.total
  {
    ListingTotal(customers, addresses, p1);
    ListingTotal(customers, addresses, p2);
    assert MatchingIds(customers, addresses, p1) == MatchingIds(customers, addresses, p2);
  }

  /**
   * The city a group is ordered by is the least city among its matched
   * addresses, and NULL exactly when it has none (no addresses at all).
   */
  lemma SortCityIsLeastMatchedCity(customers: map<int, Customer>, addresses: map<int, Address>, fs: seq<Filter>, id: int)
    requires id in customers
    ensures var e := EntryFor(customers, addresses, fs, id);
      && (e.cityForSort.None? <==> e.matched == [])
      && (e.cityForSort.Some? ==>
        (exists k :: 0 <= k < |e.matched| && e.matched[k].address.city == e.cityForSort.value) &&
        forall k :: 0 <= k < |e.matched| ==> LexLeq(e.cityForSort.value, e.matched[k].address.city))
  {
    var e := EntryFor(customers, addresses, fs, id);
    var cs := Cities(e.matched);
    if e.cityForSort.Some? {
      var k :| 0 <= k < |cs| && cs[k] == e.cityForSort.value;
      forall j | 0 <= j < |e.matched| ensures LexLeq(e.cityForSort.value, e.matched[j].address.city) {
        assert cs[j] in cs;
      }
    }
  }
}
