/**
 * The request checks of the create and patch handlers of server/server.js,
 * as functions of the request body: what each handler rejects, with which
 * error, and what it writes when it accepts. The handlers themselves, which
 * run these checks and then change the tables, are the methods of
 * Store.CustomerStore.
 */
module Handlers {
  import opened Wrappers
  import opened Text
  import opened Rules
  import opened Errors
  import opened Schema

  /** The fields of a customer request body; None is a field the JSON body leaves undefined. */
  datatype CustomerBody = CustomerBody(first_name: Option<string>, last_name: Option<string>, phone_number: Option<string>)

  /** The fields of an address request body. */
  datatype AddressBody = AddressBody(
    address_details: Option<string>, city: Option<string>, state: Option<string>, pin_code: Option<string>)

  /** The checks of POST /api/customers: presence first, then the phone rule; no trimming. */
  function NewCustomer(b: CustomerBody): (r: Result<Customer, AppError>)
    ensures r.Success? <==>
      Truthy(b.first_name) && Truthy(b.last_name) && Truthy(b.phone_number) && PhoneRule(b.phone_number.value)
    ensures !(Truthy(b.first_name) && Truthy(b.last_name) && Truthy(b.phone_number)) ==>
      r == Failure(MissingCustomerFields)
    ensures Truthy(b.first_name) && Truthy(b.last_name) && Truthy(b.phone_number) && !PhoneRule(b.phone_number.value) ==>
      r == Failure(PhoneFormatOnCreate)
    ensures r.Success? ==>
      CustomerOk(r.value) &&
      r.value == Customer(b.first_name.value, b.last_name.value, b.phone_number.value)
  {
    if !Truthy(b.first_name) || !Truthy(b.last_name) || !Truthy(b.phone_number) then Failure(MissingCustomerFields)
    else if !PhoneRule(b.phone_number.value) then Failure(PhoneFormatOnCreate)
    else Success(Customer(b.first_name.value, b.last_name.value, b.phone_number.value))
  }

  /** Creation does not trim: names of blanks are accepted ... */
  lemma CreateAcceptsBlankNames(blanks: string, phone: string)
    requires blanks != [] && IsBlank(blanks) && PhoneRule(phone)
    ensures NewCustomer(CustomerBody(Some(blanks), Some(blanks), Some(phone))).Success?
  {
  }

  /** ... but an empty name counts as missing, whatever else is wrong ... */
  lemma CreateRejectsEmptyName(last: Option<string>, phone: Option<string>)
    ensures NewCustomer(CustomerBody(Some(""), last, phone)) == Failure(MissingCustomerFields)
  {
  }

  /** ... and a phone number with a space in it is refused. */
  lemma CreateRejectsSpacedPhone(first: string, last: string, phone: string, i: int)
    requires first != [] && last != []
    requires 0 <= i < |phone| && phone[i] == ' '
    ensures NewCustomer(CustomerBody(Some(first), Some(last), Some(phone))) == Failure(PhoneFormatOnCreate)
  {
    PhoneRuleSpec(phone);
  }

  /** The checks of POST /api/customers/:customerId/addresses that precede the customer lookup. */
  function NewAddress(customerId: int, b: AddressBody): (r: Result<Address, AppError>)
    ensures r.Success? <==>
      Truthy(b.address_details) && Truthy(b.city) && Truthy(b.state) && Truthy(b.pin_code) && PinRule(b.pin_code.value)
    ensures !(Truthy(b.address_details) && Truthy(b.city) && Truthy(b.state) && Truthy(b.pin_code)) ==>
      r == Failure(MissingAddressFields)
    ensures Truthy(b.address_details) && Truthy(b.city) && Truthy(b.state) && Truthy(b.pin_code) && !PinRule(b.pin_code.value) ==>
      r == Failure(PinFormat)
    ensures r.Success? ==>
      AddressOk(r.value) && r.value.customer_id == customerId &&
      r.value == Address(customerId, b.address_details.value, b.city.value, b.state.value, b.pin_code.value)
  {
    if !Truthy(b.address_details) || !Truthy(b.city) || !Truthy(b.state) || !Truthy(b.pin_code) then Failure(MissingAddressFields)
    else if !PinRule(b.pin_code.value) then Failure(PinFormat)
    else Success(Address(customerId, b.address_details.value, b.city.value, b.state.value, b.pin_code.value))
  }

  /** `field !== undefined && !field.trim()`: a supplied field that is empty once trimmed. */
  predicate BlankField(f: Option<string>) {
    f.Some? && IsBlank(f.value)
  }

  /** A non-blank string is not empty. */
  lemma NotBlankNotEmpty(s: string)
    ensures !IsBlank(s) ==> s != []
  {
    if s == [] {
      assert Trim(s) == [];
    }
  }

  /** One `column = ?` of the UPDATE statement with its bound value. */
  datatype CustomerAssignment = SetFirstName(value: string) | SetLastName(value: string) | SetPhoneNumber(value: string)

  datatype AddressAssignment =
    | SetAddressDetails(value: string) | SetCity(value: string) | SetState(value: string) | SetPinCode(value: string)

  // The assignment each supplied field contributes to `fields`.
  function FirstNameField(f: Option<string>): seq<CustomerAssignment> { if f.Some? then [SetFirstName(f.value)] else [] }
  function LastNameField(f: Option<string>): seq<CustomerAssignment> { if f.Some? then [SetLastName(f.value)] else [] }
  function PhoneNumberField(f: Option<string>): seq<CustomerAssignment> { if f.Some? then [SetPhoneNumber(f.value)] else [] }
  function AddressDetailsField(f: Option<string>): seq<AddressAssignment> { if f.Some? then [SetAddressDetails(f.value)] else [] }
  function CityField(f: Option<string>): seq<AddressAssignment> { if f.Some? then [SetCity(f.value)] else [] }
  function StateField(f: Option<string>): seq<AddressAssignment> { if f.Some? then [SetState(f.value)] else [] }
  function PinCodeField(f: Option<string>): seq<AddressAssignment> { if f.Some? then [SetPinCode(f.value)] else [] }

  /**
   * The `fields` of PATCH /api/customers/:id: one assignment per supplied
   * field, or the error of the first failing check. Names must be non-blank,
   * the phone must satisfy the creation rule, and at least one field must be
   * supplied.
   */
  function CustomerPatch(b: CustomerBody): Result<seq<CustomerAssignment>, AppError>
  {
    if BlankField(b.first_name) then Failure(EmptyFirstName)
    else if BlankField(b.last_name) then Failure(EmptyLastName)
    else if b.phone_number.Some? && !PhoneRule(b.phone_number.value) then Failure(PhoneFormatOnUpdate)
    else
      var fields := FirstNameField(b.first_name) + LastNameField(b.last_name)
        + PhoneNumberField(b.phone_number);
      if fields == [] then Failure(NoCustomerFields) else Success(fields)
  }

  /**
   * The checks of a partial customer update, in the order the handler runs
   * them: the first failing check decides the error, and the patch is
   * accepted exactly when every supplied field passes and at least one is
   * supplied.
   */
  lemma CustomerPatchChecks(b: CustomerBody)
    ensures BlankField(b.first_name) ==> CustomerPatch(b) == Failure(EmptyFirstName)
    ensures !BlankField(b.first_name) && BlankField(b.last_name) ==> CustomerPatch(b) == Failure(EmptyLastName)
    ensures (!BlankField(b.first_name) && !BlankField(b.last_name) &&
      b.phone_number.Some? && !PhoneRule(b.phone_number.value)) ==> CustomerPatch(b) == Failure(PhoneFormatOnUpdate)
    ensures (!BlankField(b.first_name) && !BlankField(b.last_name) &&
      b.first_name.None? && b.last_name.None? && b.phone_number.None?) ==> CustomerPatch(b) == Failure(NoCustomerFields)
    ensures CustomerPatch(b).Success? <==>
      !BlankField(b.first_name) && !BlankField(b.last_name) &&
      (b.phone_number.Some? ==> PhoneRule(b.phone_number.value)) &&
      (b.first_name.Some? || b.last_name.Some? || b.phone_number.Some?)
    ensures CustomerPatch(b).Success? ==> 1 <= |CustomerPatch(b).value| <= 3
  {
  }


  function AssignCustomer(c: Customer, a: CustomerAssignment): Customer {
    match a
    case SetFirstName(v) => c.(first_name := v)
    case SetLastName(v) => c.(last_name := v)
    case SetPhoneNumber(v) => c.(phone_number := v)
  }

  /** `UPDATE customers SET ...` on one row: the assignments in order. */
  function ApplyCustomer(c: Customer, s: seq<CustomerAssignment>): Customer
    decreases |s|
  {
    if s == [] then c else ApplyCustomer(AssignCustomer(c, s[0]), s[1..])
  }

  lemma {:induction false} ApplyCustomerConcat(c: Customer, s: seq<CustomerAssignment>, t: seq<CustomerAssignment>)
    ensures ApplyCustomer(c, s + t) == ApplyCustomer(ApplyCustomer(c, s), t)
    decreases |s|
  {
    if s != [] {
      assert (s + t)[1..] == s[1..] + t;
      ApplyCustomerConcat(AssignCustomer(c, s[0]), s[1..], t);
    } else {
      assert s + t == t;
    }
  }

  /** Applying the assignments of the supplied fields sets exactly those fields. */
  lemma ApplyCustomerFields(c: Customer, b: CustomerBody)
    ensures ApplyCustomer(c, FirstNameField(b.first_name) + LastNameField(b.last_name)
      + PhoneNumberField(b.phone_number)) ==
      c.(first_name := b.first_name.GetOr(c.first_name), last_name := b.last_name.GetOr(c.last_name),
         phone_number := b.phone_number.GetOr(c.phone_number))
  {
    var f1 := FirstNameField(b.first_name);
    var f2 := LastNameField(b.last_name);
    var f3 := PhoneNumberField(b.phone_number);
    var c1 := c.(first_name := b.first_name.GetOr(c.first_name));
    var c2 := c1.(last_name := b.last_name.GetOr(c.last_name));
    var c3 := c2.(phone_number := b.phone_number.GetOr(c.phone_number));
    assert ApplyCustomer(c, f1) == c1 by { if f1 != [] { assert f1[1..] == []; } }
    assert ApplyCustomer(c1, f2) == c2 by { if f2 != [] { assert f2[1..] == []; } }
    assert ApplyCustomer(c2, f3) == c3 by { if f3 != [] { assert f3[1..] == []; } }
    ApplyCustomerConcat(c, f1, f2);
    ApplyCustomerConcat(c, f1 + f2, f3);
  }

  /**
   * An accepted patch sets exactly the supplied fields and keeps the others,
   * and a well-formed customer stays well-formed.
   */
  lemma CustomerPatchSetsSuppliedFields(b: CustomerBody, c: Customer)
    requires CustomerPatch(b).Success?
    ensures var n := ApplyCustomer(c, CustomerPatch(b).value);
      && n.first_name == b.first_name.GetOr(c.first_name)
      && n.last_name == b.last_name.GetOr(c.last_name)
      && n.phone_number == b.phone_number.GetOr(c.phone_number)
    ensures CustomerOk(c) ==> CustomerOk(ApplyCustomer(c, CustomerPatch(b).value))
  {
    assert CustomerPatch(b).value == FirstNameField(b.first_name) + LastNameField(b.last_name)
      + PhoneNumberField(b.phone_number);
    ApplyCustomerFields(c, b);
    if b.first_name.Some? {
      NotBlankNotEmpty(b.first_name.value);
    }
    if b.last_name.Some? {
      NotBlankNotEmpty(b.last_name.value);
    }
  }

  /**
   * The `fields` of PATCH /api/customers/:customerId/addresses/:addressId:
   * one assignment per supplied field, or the error of the first failing
   * check. Texts must be non-blank, the pin code must satisfy the creation
   * rule, and at least one field must be supplied.
   */
  function AddressPatch(b: AddressBody): Result<seq<AddressAssignment>, AppError>
  {
    if BlankField(b.address_details) then Failure(EmptyAddressDetails)
    else if BlankField(b.city) then Failure(EmptyCity)
    else if BlankField(b.state) then Failure(EmptyState)
    else if b.pin_code.Some? && !PinRule(b.pin_code.value) then Failure(PinFormat)
    else
      var fields := AddressDetailsField(b.address_details) + CityField(b.city)
        + StateField(b.state) + PinCodeField(b.pin_code);
      if fields == [] then Failure(NoAddressFields) else Success(fields)
  }

  /**
   * The checks of a partial address update, in the order the handler runs
   * them: the first failing check decides the error, and the patch is
   * accepted exactly when every supplied field passes and at least one is
   * supplied.
   */
  lemma AddressPatchChecks(b: AddressBody)
    ensures BlankField(b.address_details) ==> AddressPatch(b) == Failure(EmptyAddressDetails)
    ensures !BlankField(b.address_details) && BlankField(b.city) ==> AddressPatch(b) == Failure(EmptyCity)
    ensures !BlankField(b.address_details) && !BlankField(b.city) && BlankField(b.state) ==> AddressPatch(b) == Failure(EmptyState)
    ensures (!BlankField(b.address_details) && !BlankField(b.city) && !BlankField(b.state) &&
      b.pin_code.Some? && !PinRule(b.pin_code.value)) ==> AddressPatch(b) == Failure(PinFormat)
    ensures (!BlankField(b.address_details) && !BlankField(b.city) && !BlankField(b.state) &&
      b.address_details.None? && b.city.None? && b.state.None? && b.pin_code.None?) ==> AddressPatch(b) == Failure(NoAddressFields)
    ensures AddressPatch(b).Success? <==>
      !BlankField(b.address_details) && !BlankField(b.city) && !BlankField(b.state) &&
      (b.pin_code.Some? ==> PinRule(b.pin_code.value)) &&
      (b.address_details.Some? || b.city.Some? || b.state.Some? || b.pin_code.Some?)
    ensures AddressPatch(b).Success? ==> 1 <= |AddressPatch(b).value| <= 4
  {
  }


  function AssignAddress(a: Address, s: AddressAssignment): Address {
    match s
    case SetAddressDetails(v) => a.(address_details := v)
    case SetCity(v) => a.(city := v)
    case SetState(v) => a.(state := v)
    case SetPinCode(v) => a.(pin_code := v)
  }

  /** `UPDATE addresses SET ...` on one row: the assignments in order. */
  function ApplyAddress(a: Address, s: seq<AddressAssignment>): Address
    decreases |s|
  {
    if s == [] then a else ApplyAddress(AssignAddress(a, s[0]), s[1..])
  }

  lemma {:induction false} ApplyAddressConcat(a: Address, s: seq<AddressAssignment>, t: seq<AddressAssignment>)
    ensures ApplyAddress(a, s + t) == ApplyAddress(ApplyAddress(a, s), t)
    decreases |s|
  {
    if s != [] {
      assert (s + t)[1..] == s[1..] + t;
      ApplyAddressConcat(AssignAddress(a, s[0]), s[1..], t);
    } else {
      assert s + t == t;
    }
  }

  /** Applying the assignments of the supplied fields sets exactly those fields. */
  lemma ApplyAddressFields(a: Address, b: AddressBody)
    ensures ApplyAddress(a, AddressDetailsField(b.address_details) + CityField(b.city)
      + StateField(b.state) + PinCodeField(b.pin_code)) ==
      a.(address_details := b.address_details.GetOr(a.address_details), city := b.city.GetOr(a.city),
         state := b.state.GetOr(a.state), pin_code := b.pin_code.GetOr(a.pin_code))
  {
    var f1 := AddressDetailsField(b.address_details);
    var f2 := CityField(b.city);
    var f3 := StateField(b.state);
    var f4 := PinCodeField(b.pin_code);
    var a1 := a.(address_details := b.address_details.GetOr(a.address_details));
    var a2 := a1.(city := b.city.GetOr(a.city));
    var a3 := a2.(state := b.state.GetOr(a.state));
    var a4 := a3.(pin_code := b.pin_code.GetOr(a.pin_code));
    assert ApplyAddress(a, f1) == a1 by { if f1 != [] { assert f1[1..] == []; } }
    assert ApplyAddress(a1, f2) == a2 by { if f2 != [] { assert f2[1..] == []; } }
    assert ApplyAddress(a2, f3) == a3 by { if f3 != [] { assert f3[1..] == []; } }
    assert ApplyAddress(a3, f4) == a4 by { if f4 != [] { assert f4[1..] == []; } }
    ApplyAddressConcat(a, f1, f2);
    ApplyAddressConcat(a, f1 + f2, f3);
    ApplyAddressConcat(a, f1 + f2 + f3, f4);
  }

  /**
   * An accepted patch sets exactly the supplied fields, never moves the
   * address to another customer, and a well-formed address stays well-formed.
   */
  lemma AddressPatchSetsSuppliedFields(b: AddressBody, a: Address)
    requires AddressPatch(b).Success?
    ensures var n := ApplyAddress(a, AddressPatch(b).value);
      && n.customer_id == a.customer_id
      && n.address_details == b.address_details.GetOr(a.address_details)
      && n.city == b.city.GetOr(a.city)
      && n.state == b.state.GetOr(a.state)
      && n.pin_code == b.pin_code.GetOr(a.pin_code)
    ensures AddressOk(a) ==> AddressOk(ApplyAddress(a, AddressPatch(b).value))
  {
    var fields := AddressDetailsField(b.address_details) + CityField(b.city)
      + StateField(b.state) + PinCodeField(b.pin_code);
    assert AddressPatch(b).value == fields;
    ApplyAddressFields(a, b);
    if b.address_details.Some? {
      NotBlankNotEmpty(b.address_details.value);
    }
    if b.city.Some? {
      NotBlankNotEmpty(b.city.value);
    }
    if b.state.Some? {
      NotBlankNotEmpty(b.state.value);
    }
  }
}
