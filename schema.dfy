/**
 * The two tables of server/db/db.js as maps from id to row, the constraints
 * their declarations and the handlers impose, and the queries by id that the
 * handlers run against them.
 */
module Schema {
  import opened Wrappers
  import opened Rules

  /** The columns of a `customers` row besides its id (server/db/db.js:16-21). */
  datatype Customer = Customer(first_name: string, last_name: string, phone_number: string)

  /** The columns of an `addresses` row besides its id (server/db/db.js:25-33). */
  datatype Address = Address(customer_id: int, address_details: string, city: string, state: string, pin_code: string)

  /** A row as `SELECT *` returns it: the id with the other columns. */
  datatype CustomerRow = CustomerRow(id: int, customer: Customer)
  datatype AddressRow = AddressRow(id: int, address: Address)

  /** `INTEGER PRIMARY KEY AUTOINCREMENT`: every id present was issued, between 1 and the last id issued. */
  predicate IdsIssued<T>(table: map<int, T>, lastId: int) {
    forall id :: id in table ==> 1 <= id <= lastId
  }

  /** `phone_number TEXT NOT NULL UNIQUE` */
  predicate PhoneUnique(customers: map<int, Customer>) {
    forall i, j :: i in customers && j in customers && i != j ==> customers[i].phone_number != customers[j].phone_number
  }

  /** Some customer other than `except` already has the phone number. */
  predicate PhoneTaken(customers: map<int, Customer>, phone: string, except: Option<int>) {
    exists id :: id in customers && Some(id) != except && customers[id].phone_number == phone
  }

  /**
   * What every stored customer satisfies: the NOT NULL columns hold the
   * non-empty strings the handlers let through, and the phone rule holds.
   */
  predicate CustomerOk(c: Customer) {
    c.first_name != [] && c.last_name != [] && PhoneRule(c.phone_number)
  }

  /** What every stored address satisfies: non-empty text columns and the pin-code rule. */
  predicate AddressOk(a: Address) {
    a.address_details != [] && a.city != [] && a.state != [] && PinRule(a.pin_code)
  }

  /** The invariant of the `customers` table. */
  ghost predicate CustomersTable(customers: map<int, Customer>, lastId: int) {
    && IdsIssued(customers, lastId)
    && PhoneUnique(customers)
    && forall id :: id in customers ==> CustomerOk(customers[id])
  }

  /**
   * The invariant of the `addresses` table. Every address belongs to an
   * existing customer: the handlers check the parent before inserting, and the
   * declared ON DELETE CASCADE removes the children with the parent.
   */
  ghost predicate AddressesTable(addresses: map<int, Address>, lastId: int, customers: map<int, Customer>) {
    && IdsIssued(addresses, lastId)
    && forall id :: id in addresses ==> AddressOk(addresses[id]) && addresses[id].customer_id in customers
  }

  predicate Increasing(xs: seq<int>) {
    forall i, j :: 0 <= i < j < |xs| ==> xs[i] < xs[j]
  }

  lemma {:induction false} MinExists(s: set<int>)
    requires s != {}
    ensures exists m :: m in s && forall x :: x in s ==> m <= x
  {
    if forall x :: x !in s {
      assert false;
    }
    var y :| y in s;
    if s - {y} != {} {
      MinExists(s - {y});
      var m :| m in s - {y} && forall x :: x in s - {y} ==> m <= x;
      var least := if y < m then y else m;
      forall x | x in s ensures least <= x {
        if x != y {
          assert x in s - {y};
        }
      }
    } else {
      forall x | x in s ensures y <= x {
        assert x !in s - {y};
      }
    }
  }

  /** The least element of a non-empty set of ids. */
  function SetMin(s: set<int>): (m: int)
    requires s != {}
    ensures m in s && forall x :: x in s ==> m <= x
  {
    MinExists(s);
    var m :| m in s && forall x :: x in s ==> m <= x;
    m
  }

  /** The ids of a table in ascending order, the order SQLite visits its rowids. */
  function SortedIds(s: set<int>): seq<int>
    decreases |s|
  {
    if s == {} then [] else [SetMin(s)] + SortedIds(s - {SetMin(s)})
  }

  /** The sorted ids are the ids of the set. */
  lemma {:induction false} SortedIdsMembers(s: set<int>)
    ensures forall x :: x in SortedIds(s) <==> x in s
    decreases |s|
  {
    if s != {} {
      var m := SetMin(s);
      var rest := SortedIds(s - {m});
      SortedIdsMembers(s - {m});
      forall x ensures x in SortedIds(s) <==> x in s {
        assert x in SortedIds(s) <==> x == m || x in rest;
      }
    }
  }

  /** The sorted ids increase, so each id appears once. */
  lemma {:induction false} SortedIdsIncreasing(s: set<int>)
    ensures Increasing(SortedIds(s))
    decreases |s|
  {
    if s != {} {
      var m := SetMin(s);
      var rest := SortedIds(s - {m});
      var r := [m] + rest;
      SortedIdsIncreasing(s - {m});
      SortedIdsMembers(s - {m});
      forall i, j | 0 <= i < j < |r| ensures r[i] < r[j] {
        assert r[j] == rest[j - 1];
        assert r[j] in s - {m};
        if i > 0 {
          assert r[i] == rest[i - 1];
        }
      }
    }
  }

  /** The sorted ids are as many as the ids of the set. */
  lemma {:induction false} SortedIdsSpec(s: set<int>)
    ensures |SortedIds(s)| == |s|
    ensures forall x :: x in SortedIds(s) <==> x in s
    ensures Increasing(SortedIds(s))
    decreases |s|
  {
    SortedIdsMembers(s);
    SortedIdsIncreasing(s);
    if s != {} {
      var m := SetMin(s);
      SortedIdsSpec(s - {m});
      assert |s - {m}| == |s| - 1;
    }
  }

  /** The ids of a sequence of address rows, in order. */
  function RowIds(rows: seq<AddressRow>): (ids: seq<int>)
    ensures |ids| == |rows|
    ensures forall i :: 0 <= i < |rows| ==> ids[i] == rows[i].id
  {
    seq(|rows|, i requires 0 <= i < |rows| => rows[i].id)
  }

  /** The rows of the given ids that belong to customer `cid`, in the order of the ids. */
  function SelectOwned(ids: seq<int>, addresses: map<int, Address>, cid: int): seq<AddressRow>
    requires forall i :: 0 <= i < |ids| ==> ids[i] in addresses
  {
    if ids == [] then []
    else
      var rest := SelectOwned(ids[1..], addresses, cid);
      var a := addresses[ids[0]];
      if a.customer_id == cid then [AddressRow(ids[0], a)] + rest else rest
  }

  /** The selection holds exactly the owned rows of the ids. */
  lemma {:induction false} SelectOwnedMembers(ids: seq<int>, addresses: map<int, Address>, cid: int)
    requires forall i :: 0 <= i < |ids| ==> ids[i] in addresses
    ensures forall a :: a in SelectOwned(ids, addresses, cid) <==>
      a.id in ids && a.id in addresses && addresses[a.id] == a.address && a.address.customer_id == cid
  {
    if ids != [] {
      SelectOwnedMembers(ids[1..], addresses, cid);
      assert forall x :: x in ids <==> x == ids[0] || x in ids[1..];
    }
  }

  /** A bound below every id is a bound below every selected row's id. */
  lemma {:induction false} SelectOwnedAbove(ids: seq<int>, addresses: map<int, Address>, cid: int, lo: int)
    requires forall i :: 0 <= i < |ids| ==> ids[i] in addresses && lo < ids[i]
    ensures forall k :: 0 <= k < |SelectOwned(ids, addresses, cid)| ==> lo < SelectOwned(ids, addresses, cid)[k].id
  {
    if ids != [] {
      SelectOwnedAbove(ids[1..], addresses, cid, lo);
    }
  }

  /** The selection follows increasing ids. */
  lemma {:induction false} SelectOwnedIncreasing(ids: seq<int>, addresses: map<int, Address>, cid: int)
    requires forall i :: 0 <= i < |ids| ==> ids[i] in addresses
    requires Increasing(ids)
    ensures Increasing(RowIds(SelectOwned(ids, addresses, cid)))
  {
    if ids != [] {
      var rest := SelectOwned(ids[1..], addresses, cid);
      var a := addresses[ids[0]];
      SelectOwnedIncreasing(ids[1..], addresses, cid);
      if a.customer_id == cid {
        SelectOwnedAbove(ids[1..], addresses, cid, ids[0]);
        var r := [AddressRow(ids[0], a)] + rest;
        forall i, j | 0 <= i < j < |r| ensures r[i].id < r[j].id {
          assert r[j] == rest[j - 1];
          if i > 0 {
            assert r[i] == rest[i - 1];
            assert RowIds(rest)[i - 1] < RowIds(rest)[j - 1];
          }
        }
      }
    }
  }

  /** `SELECT * FROM addresses WHERE customer_id = ?`, in ascending id order. */
  function AddressesOf(addresses: map<int, Address>, cid: int): (r: seq<AddressRow>)
    ensures forall a :: a in r <==> a.id in addresses && addresses[a.id] == a.address && a.address.customer_id == cid
    ensures Increasing(RowIds(r))
  {
    var ids := SortedIds(addresses.Keys);
    SortedIdsSpec(addresses.Keys);
    SelectOwnedMembers(ids, addresses, cid);
    SelectOwnedIncreasing(ids, addresses, cid);
    SelectOwned(ids, addresses, cid)
  }

  /** ON DELETE CASCADE for one deleted customer: its addresses go, the others stay. */
  function Cascade(addresses: map<int, Address>, cid: int): (r: map<int, Address>)
    ensures forall id :: id in r ==> id in addresses && r[id] == addresses[id] && r[id].customer_id != cid
  {
    map id | id in addresses && addresses[id].customer_id != cid :: addresses[id]
  }

  lemma {:induction false} IncreasingCard(xs: seq<int>)
    requires Increasing(xs)
    ensures |set x | x in xs| == |xs|
  {
    if xs != [] {
      IncreasingCard(xs[1..]);
      assert (set x | x in xs) == {xs[0]} + (set x | x in xs[1..]);
      assert xs[0] !in (set x | x in xs[1..]);
    }
  }

  /** The ids of the addresses that belong to customer `cid`. */
  function OwnedIds(addresses: map<int, Address>, cid: int): set<int> {
    set id | id in addresses && addresses[id].customer_id == cid
  }

  /** Every owned address has its id listed. */
  lemma OwnedAreListed(addresses: map<int, Address>, cid: int)
    ensures forall x :: x in OwnedIds(addresses, cid) ==> x in RowIds(AddressesOf(addresses, cid))
  {
    var owned := AddressesOf(addresses, cid);
    forall x | x in OwnedIds(addresses, cid) ensures x in RowIds(owned) {
      assert AddressRow(x, addresses[x]) in owned;
      var k :| 0 <= k < |owned| && owned[k] == AddressRow(x, addresses[x]);
      assert RowIds(owned)[k] == x;
    }
  }

  /** Every listed id is that of an owned address. */
  lemma ListedAreOwned(addresses: map<int, Address>, cid: int)
    ensures forall x :: x in RowIds(AddressesOf(addresses, cid)) ==> x in OwnedIds(addresses, cid)
  {
    var owned := AddressesOf(addresses, cid);
    forall x | x in RowIds(owned) ensures x in OwnedIds(addresses, cid) {
      var k :| 0 <= k < |owned| && RowIds(owned)[k] == x;
      assert owned[k] in owned;
    }
  }

  /** `SELECT * FROM addresses WHERE customer_id = ?` returns one row per owned address. */
  lemma AddressesOfCount(addresses: map<int, Address>, cid: int)
    ensures |AddressesOf(addresses, cid)| == |OwnedIds(addresses, cid)|
  {
    var ids := RowIds(AddressesOf(addresses, cid));
    IncreasingCard(ids);
    OwnedAreListed(addresses, cid);
    ListedAreOwned(addresses, cid);
    assert (set x | x in ids) == OwnedIds(addresses, cid);
  }

  /** After the cascade, no address names the deleted customer. */
  lemma CascadeLeavesNoAddresses(addresses: map<int, Address>, cid: int)
    ensures AddressesOf(Cascade(addresses, cid), cid) == []
  {
    AddressesOfCount(Cascade(addresses, cid), cid);
    assert OwnedIds(Cascade(addresses, cid), cid) == {};
  }

  /**
   * Deleting a customer that owns N addresses removes exactly those N rows:
   * every other address stays and the table has N rows fewer.
   */
  lemma CascadeRemovesOwned(addresses: map<int, Address>, cid: int)
    ensures forall id :: id in addresses && addresses[id].customer_id != cid ==> id in Cascade(addresses, cid)
    ensures |Cascade(addresses, cid)| == |addresses| - |AddressesOf(addresses, cid)|
  {
    var kept := Cascade(addresses, cid);
    var ownedIds := OwnedIds(addresses, cid);
    AddressesOfCount(addresses, cid);
    assert addresses.Keys == kept.Keys + ownedIds;
    assert kept.Keys !! ownedIds;
    assert |addresses.Keys| == |kept.Keys| + |ownedIds|;
  }

  /**
   * Replacing a stored customer by a well-formed one whose phone number no
   * other customer has keeps both tables' constraints.
   */
  lemma UpdateKeepsCustomersTable(customers: map<int, Customer>, addresses: map<int, Address>,
                                  lastCustomerId: int, lastAddressId: int, id: int, updated: Customer)
    requires CustomersTable(customers, lastCustomerId) && AddressesTable(addresses, lastAddressId, customers)
    requires id in customers && CustomerOk(updated) && !PhoneTaken(customers, updated.phone_number, Some(id))
    ensures CustomersTable(customers[id := updated], lastCustomerId)
    ensures AddressesTable(addresses, lastAddressId, customers[id := updated])
  {
    var next := customers[id := updated];
    assert next.Keys == customers.Keys;
    forall i, j | i in next && j in next && i != j ensures next[i].phone_number != next[j].phone_number {
      if i == id {
        assert !(j in customers && Some(j) != Some(id) && customers[j].phone_number == updated.phone_number);
      } else if j == id {
        assert !(i in customers && Some(i) != Some(id) && customers[i].phone_number == updated.phone_number);
      }
    }
  }

  /** Replacing a stored address by a well-formed one of the same customer keeps the table's constraints. */
  lemma UpdateKeepsAddressesTable(addresses: map<int, Address>, lastAddressId: int, customers: map<int, Customer>,
                                  id: int, updated: Address)
    requires AddressesTable(addresses, lastAddressId, customers)
    requires id in addresses && AddressOk(updated) && updated.customer_id == addresses[id].customer_id
    ensures AddressesTable(addresses[id := updated], lastAddressId, customers)
  {
  }
}
