/**
 * The server as a store object: the two tables of server/db/db.js and their
 * AUTOINCREMENT counters, and the eight route handlers of server/server.js as
 * methods that answer what the handler answers and change the tables as its
 * statements do. Each handler runs as one atomic step.
 */
module Store {
  import opened Wrappers
  import opened Text
  import opened Rules
  import opened Errors
  import opened Schema
  import opened Query
  import opened Listing
  import opened Handlers

  /** A customer with its addresses, as GET and PATCH /api/customers/:id answer it. */
  datatype CustomerDetail = CustomerDetail(row: CustomerRow, addresses: seq<AddressRow>)

  const CustomerDeleted := "Customer and associated addresses deleted successfully"
  const AddressDeleted := "Address deleted successfully"

  /**
   * The field checks of PATCH /api/customers/:id (server/server.js:254-282),
   * pushing one assignment per supplied field as the handler pushes onto
   * `fields`.
   */
  method CollectCustomerFields(body: CustomerBody) returns (r: Result<seq<CustomerAssignment>, AppError>)
    ensures r == CustomerPatch(body)
  {
    var fields: seq<CustomerAssignment> := [];
    if body.first_name.Some? {
      if IsBlank(body.first_name.value) {
        return Failure(EmptyFirstName);
      }
      fields := fields + [SetFirstName(body.first_name.value)];
    }
    assert fields == FirstNameField(body.first_name);
    if body.last_name.Some? {
      if IsBlank(body.last_name.value) {
        return Failure(EmptyLastName);
      }
      fields := fields + [SetLastName(body.last_name.value)];
    }
    assert fields == FirstNameField(body.first_name) + LastNameField(body.last_name);
    if body.phone_number.Some? {
      if !PhoneRule(body.phone_number.value) {
        return Failure(PhoneFormatOnUpdate);
      }
      fields := fields + [SetPhoneNumber(body.phone_number.value)];
    }
    assert fields == FirstNameField(body.first_name) + LastNameField(body.last_name) + PhoneNumberField(body.phone_number);
    if |fields| == 0 {
      return Failure(NoCustomerFields);
    }
    r := Success(fields);
  }

  /**
   * The field checks of PATCH /api/customers/:customerId/addresses/:addressId
   * (server/server.js:323-363), pushing one assignment per supplied field.
   */
  method CollectAddressFields(body: AddressBody) returns (r: Result<seq<AddressAssignment>, AppError>)
    ensures r == AddressPatch(body)
  {
    var fields: seq<AddressAssignment> := [];
    if body.address_details.Some? {
      if IsBlank(body.address_details.value) {
        return Failure(EmptyAddressDetails);
      }
      fields := fields + [SetAddressDetails(body.address_details.value)];
    }
    assert fields == AddressDetailsField(body.address_details);
    if body.city.Some? {
      if IsBlank(body.city.value) {
        return Failure(EmptyCity);
      }
      fields := fields + [SetCity(body.city.value)];
    }
    assert fields == AddressDetailsField(body.address_details) + CityField(body.city);
    if body.state.Some? {
      if IsBlank(body.state.value) {
        return Failure(EmptyState);
      }
      fields := fields + [SetState(body.state.value)];
    }
    assert fields == AddressDetailsField(body.address_details) + CityField(body.city) + StateField(body.state);
    if body.pin_code.Some? {
      if !PinRule(body.pin_code.value) {
        return Failure(PinFormat);
      }
      fields := fields + [SetPinCode(body.pin_code.value)];
    }
    assert fields == AddressDetailsField(body.address_details) + CityField(body.city)
      + StateField(body.state) + PinCodeField(body.pin_code);
    if |fields| == 0 {
      return Failure(NoAddressFields);
    }
    r := Success(fields);
  }

  class CustomerStore {
    /** The `customers` table by id. */
    var customers: map<int, Customer>
    /** The `addresses` table by id. */
    var addresses: map<int, Address>
    /** The largest customer id ever issued (SQLite's `sqlite_sequence` entry). */
    var lastCustomerId: int
    /** The largest address id ever issued. */
    var lastAddressId: int

    /** The table constraints, and every address belongs to a stored customer. */
    ghost predicate Valid()
      reads this
    {
      && 0 <= lastCustomerId && 0 <= lastAddressId
      && CustomersTable(customers, lastCustomerId)
      && AddressesTable(addresses, lastAddressId, customers)
    }

    /** The database as the CREATE TABLE statements leave it. */
    constructor()
      ensures Valid()
      ensures customers == map[] && addresses == map[]
      ensures lastCustomerId == 0 && lastAddressId == 0
    {
      customers := map[];
      addresses := map[];
      lastCustomerId := 0;
      lastAddressId := 0;
    }

    /**
     * POST /api/customers. After the body checks, a phone number that is
     * already stored is refused; otherwise the customer is inserted under the
     * next id, which exceeds every id issued before.
     */
    method CreateCustomer(body: CustomerBody) returns (o: Outcome<CustomerRow>)
      requires Valid()
      modifies this
      ensures Valid()
      ensures NewCustomer(body).Failure? ==> o == Fail(NewCustomer(body).error) && unchanged(this)
      ensures NewCustomer(body).Success? && PhoneTaken(old(customers), body.phone_number.value, None) ==>
        o == Fail(PhoneExists) && unchanged(this)
      ensures NewCustomer(body).Success? && !PhoneTaken(old(customers), body.phone_number.value, None) ==>
        && o == Ok(201, CustomerRow(old(lastCustomerId) + 1, NewCustomer(body).value))
        && customers == old(customers)[o.value.id := NewCustomer(body).value]
        && lastCustomerId == old(lastCustomerId) + 1
        && addresses == old(addresses) && lastAddressId == old(lastAddressId)
      ensures o.Ok? ==> o.value.id !in old(customers) && forall id :: id in old(customers) ==> id < o.value.id
    {
      var checked := NewCustomer(body);
      if checked.Failure? {
        return Fail(checked.error);
      }
      var c := checked.value;
      if PhoneTaken(customers, c.phone_number, None) {
        return Fail(PhoneExists);
      }
      lastCustomerId := lastCustomerId + 1;
      customers := customers[lastCustomerId := c];
      o := Ok(201, CustomerRow(lastCustomerId, c));
    }

    /**
     * POST /api/customers/:customerId/addresses. After the body checks, an
     * unknown customer is answered with 404; otherwise the address is inserted
     * under the next id for that customer.
     */
    method CreateAddress(customerId: int, body: AddressBody) returns (o: Outcome<AddressRow>)
      requires Valid()
      modifies this
      ensures Valid()
      ensures NewAddress(customerId, body).Failure? ==> o == Fail(NewAddress(customerId, body).error) && unchanged(this)
      ensures NewAddress(customerId, body).Success? && customerId !in old(customers) ==>
        o == Fail(CustomerNotFound404) && unchanged(this)
      ensures NewAddress(customerId, body).Success? && customerId in old(customers) ==>
        && o == Ok(201, AddressRow(old(lastAddressId) + 1, NewAddress(customerId, body).value))
        && addresses == old(addresses)[o.value.id := NewAddress(customerId, body).value]
        && lastAddressId == old(lastAddressId) + 1
        && customers == old(customers) && lastCustomerId == old(lastCustomerId)
      ensures o.Ok? ==> o.value.id !in old(addresses) && forall id :: id in old(addresses) ==> id < o.value.id
    {
      var checked := NewAddress(customerId, body);
      if checked.Failure? {
        return Fail(checked.error);
      }
      if customerId !in customers {
        return Fail(CustomerNotFound404);
      }
      lastAddressId := lastAddressId + 1;
      addresses := addresses[lastAddressId := checked.value];
      o := Ok(201, AddressRow(lastAddressId, checked.value));
    }

    /**
     * GET /api/customers. A sort name that the `allowedSort` lookup resolves
     * to an inherited member makes SQLite refuse the listing query, answered
     * with 400; otherwise the answer is the page the listing query selects
     * with the normalised parameters, sorted by the column the lookup found.
     */
    method ListCustomers(query: ListQuery) returns (o: Outcome<ListPage>)
      ensures ResolveSortAsWritten(query.sort).None? ==> o == Fail(SortColumnRejected)
      ensures ResolveSortAsWritten(query.sort).Some? ==>
        && o == Ok(200, ListResult(customers, addresses, Normalize(query)))
        && Normalize(query).key == ResolveSortAsWritten(query.sort).value
    {
      var p := Normalize(query);
      var sortCol := ResolveSortAsWritten(query.sort);
      if sortCol.None? {
        return Fail(SortColumnRejected);
      }
      AsWrittenAgreesOtherwise(query.sort);
      o := Ok(200, ListResult(customers, addresses, p));
    }

    /**
     * GET /api/customers/:id: the stored customer with every address that
     * names it, in id order, or "Customer not found" with status 400.
     */
    method GetCustomer(id: int) returns (o: Outcome<CustomerDetail>)
      ensures o.Ok? <==> id in customers
      ensures o.Fail? ==> o.error == CustomerNotFound400
      ensures o.Ok? ==> o.code == 200 && o.value.row == CustomerRow(id, customers[id])
      ensures o.Ok? ==> forall a :: a in o.value.addresses <==>
        a.id in addresses && addresses[a.id] == a.address && a.address.customer_id == id
      ensures o.Ok? ==> Increasing(RowIds(o.value.addresses))
    {
      if id !in customers {
        return Fail(CustomerNotFound400);
      }
      o := Ok(200, CustomerDetail(CustomerRow(id, customers[id]), AddressesOf(addresses, id)));
    }

    /**
     * PATCH /api/customers/:id. The supplied fields are checked and collected
     * into `fields` one by one; then an unknown id is answered with 400, and
     * an update that would give the customer another customer's phone number
     * fails on the UNIQUE constraint. Otherwise exactly the supplied fields of
     * that one customer change.
     */
    method UpdateCustomer(id: int, body: CustomerBody) returns (o: Outcome<CustomerDetail>)
      requires Valid()
      modifies this
      ensures Valid()
      ensures CustomerPatch(body).Failure? ==> o == Fail(CustomerPatch(body).error) && unchanged(this)
      ensures CustomerPatch(body).Success? && id !in old(customers) ==> o == Fail(CustomerNotFound400) && unchanged(this)
      ensures CustomerPatch(body).Success? && id in old(customers) ==>
        var updated := ApplyCustomer(old(customers)[id], CustomerPatch(body).value);
        if PhoneTaken(old(customers), updated.phone_number, Some(id)) then
          o == Fail(PhoneUniqueViolation) && unchanged(this)
        else
          && o == Ok(200, CustomerDetail(CustomerRow(id, updated), AddressesOf(old(addresses), id)))
          && customers == old(customers)[id := updated]
          && addresses == old(addresses)
          && lastCustomerId == old(lastCustomerId) && lastAddressId == old(lastAddressId)
    {
      var checked := CollectCustomerFields(body);
      if checked.Failure? {
        return Fail(checked.error);
      }
      var fields := checked.value;
      if id !in customers {
        return Fail(CustomerNotFound400);
      }
      var updated := ApplyCustomer(customers[id], fields);
      if PhoneTaken(customers, updated.phone_number, Some(id)) {
        return Fail(PhoneUniqueViolation);
      }
      CustomerPatchSetsSuppliedFields(body, customers[id]);
      UpdateKeepsCustomersTable(customers, addresses, lastCustomerId, lastAddressId, id, updated);
      customers := customers[id := updated];
      o := Ok(200, CustomerDetail(CustomerRow(id, updated), AddressesOf(addresses, id)));
    }

    /**
     * PATCH /api/customers/:customerId/addresses/:addressId. The supplied
     * fields are checked and collected one by one; then an unknown customer is
     * answered with 400, and an address that does not exist or belongs to
     * another customer with an error that has no status code (hence 500).
     * Otherwise exactly the supplied fields of that one address change.
     */
    method UpdateAddress(customerId: int, addressId: int, body: AddressBody) returns (o: Outcome<AddressRow>)
      requires Valid()
      modifies this
      ensures Valid()
      ensures AddressPatch(body).Failure? ==> o == Fail(AddressPatch(body).error) && unchanged(this)
      ensures AddressPatch(body).Success? && customerId !in old(customers) ==>
        o == Fail(CustomerNotFound400) && unchanged(this)
      ensures (AddressPatch(body).Success? && customerId in old(customers) &&
        !(addressId in old(addresses) && old(addresses)[addressId].customer_id == customerId)) ==>
        o == Fail(AddressNotForCustomer) && unchanged(this)
      ensures (AddressPatch(body).Success? && customerId in old(customers) &&
        addressId in old(addresses) && old(addresses)[addressId].customer_id == customerId) ==>
        var updated := ApplyAddress(old(addresses)[addressId], AddressPatch(body).value);
        && o == Ok(200, AddressRow(addressId, updated))
        && addresses == old(addresses)[addressId := updated]
        && customers == old(customers)
        && lastCustomerId == old(lastCustomerId) && lastAddressId == old(lastAddressId)
    {
      var checked := CollectAddressFields(body);
      if checked.Failure? {
        return Fail(checked.error);
      }
      var fields := checked.value;
      if customerId !in customers {
        return Fail(CustomerNotFound400);
      }
      if addressId !in addresses || addresses[addressId].customer_id != customerId {
        return Fail(AddressNotForCustomer);
      }
      var updated := ApplyAddress(addresses[addressId], fields);
      AddressPatchSetsSuppliedFields(body, addresses[addressId]);
      UpdateKeepsAddressesTable(addresses, lastAddressId, customers, addressId, updated);
      addresses := addresses[addressId := updated];
      o := Ok(200, AddressRow(addressId, updated));
    }

    /**
     * DELETE /api/customers/:id. An unknown id is answered with 404 and
     * changes nothing; otherwise the customer goes and, by the declared
     * ON DELETE CASCADE, so do its addresses. (The declaration at
     * server/db/db.js:32 names a table `customer`, and foreign keys are not
     * switched on, so SQLite itself may not carry the cascade out; the model
     * follows the declared and advertised behaviour.)
     */
    method DeleteCustomer(id: int) returns (o: Outcome<string>)
      requires Valid()
      modifies this
      ensures Valid()
      ensures id !in old(customers) ==> o == Fail(CustomerNotFound404) && unchanged(this)
      ensures id in old(customers) ==>
        && o == Ok(200, CustomerDeleted)
        && customers == old(customers) - {id}
        && addresses == Cascade(old(addresses), id)
        && lastCustomerId == old(lastCustomerId) && lastAddressId == old(lastAddressId)
    {
      if id !in customers {
        return Fail(CustomerNotFound404);
      }
      customers := customers - {id};
      addresses := Cascade(addresses, id);
      o := Ok(200, CustomerDeleted);
    }

    /** DELETE /api/addresses/:id: an unknown id is answered with 404; otherwise that one address goes. */
    method DeleteAddress(id: int) returns (o: Outcome<string>)
      requires Valid()
      modifies this
      ensures Valid()
      ensures id !in old(addresses) ==> o == Fail(AddressNotFound) && unchanged(this)
      ensures id in old(addresses) ==>
        && o == Ok(200, AddressDeleted)
        && addresses == old(addresses) - {id}
        && customers == old(customers)
        && lastCustomerId == old(lastCustomerId) && lastAddressId == old(lastAddressId)
    {
      if id !in addresses {
        return Fail(AddressNotFound);
      }
      addresses := addresses - {id};
      o := Ok(200, AddressDeleted);
    }
  }
}
