/**
 * Errors raised by the handlers (`new AppError(message, statusCode)`) and the
 * error middleware (server/server.js lines 454-462) that turns them into an
 * HTTP status. server/utils/appError.js is not part of this model: an AppError
 * is taken to carry its second argument as `statusCode`, or none when it is
 * omitted.
 */
module Errors {
  import opened Wrappers

  datatype AppError = AppError(message: string, statusCode: Option<int>)

  /** What a handler answers: a success status with a payload, or an error. */
  datatype Outcome<+T> = Ok(code: int, value: T) | Fail(error: AppError)

  /** `err.statusCode || 500`: an error without a (non-zero) status code becomes 500. */
  function HttpStatus(e: AppError): (code: int)
    ensures e.statusCode.None? ==> code == 500
    ensures e.statusCode.Some? && e.statusCode.value != 0 ==> code == e.statusCode.value
  {
    if e.statusCode.None? || e.statusCode.value == 0 then 500 else e.statusCode.value
  }

  function StatusOf<T>(o: Outcome<T>): int {
    match o
    case Ok(code, _) => code
    case Fail(e) => HttpStatus(e)
  }

  // The errors the handlers raise, with their messages and status codes.
  const MissingCustomerFields := AppError("All fields (first_name, last_name, phone_number) are required", Some(400))
  const PhoneFormatOnCreate := AppError("Phone number must be 10 digit number", Some(400))
  const PhoneExists := AppError("Phone number already exists", Some(400))
  const MissingAddressFields := AppError("All fields (address_details, city, state, pin_code) are required", Some(400))
  const PinFormat := AppError("pin code must be a 3-10 characters (letters, numbers, spaces, or dashes)", Some(400))
  const CustomerNotFound404 := AppError("Customer not found", Some(404))
  const CustomerNotFound400 := AppError("Customer not found", Some(400))
  const EmptyFirstName := AppError("first name cannot be empty", Some(400))
  const EmptyLastName := AppError("last name cannot be empty", Some(400))
  const PhoneFormatOnUpdate := AppError("Phone number must be 1 10-digit number", Some(400))
  const NoCustomerFields := AppError("No fields provided to update", Some(400))
  const EmptyAddressDetails := AppError("Address details cannot be empty", Some(400))
  const EmptyCity := AppError("city cannot be empty", Some(400))
  const EmptyState := AppError("State cannot be empty", Some(400))
  const NoAddressFields := AppError("No field provided to update", Some(400))
  /** Raised without a status code (server/server.js:380), so it is answered with 500. */
  const AddressNotForCustomer := AppError("Address not found for this customer", None)
  const AddressNotFound := AppError("Address not found", Some(404))
  /** SQLite's message for an UPDATE that would duplicate a phone number, passed on with 400. */
  const PhoneUniqueViolation := AppError("SQLITE_CONSTRAINT: UNIQUE constraint failed: customers.phone_number", Some(400))
  /**
   * The listing query refused by SQLite because an inherited member's text
   * reached ORDER BY (server/server.js:180-181), passed on with 400. SQLite's
   * exact wording is not modelled.
   */
  const SortColumnRejected := AppError("SQLITE_ERROR: syntax error", Some(400))

  /** The status codes the handlers' errors are answered with, including the inconsistent ones. */
  lemma ErrorStatuses()
    ensures HttpStatus(CustomerNotFound404) == 404 && HttpStatus(CustomerNotFound400) == 400
    ensures HttpStatus(AddressNotForCustomer) == 500 && HttpStatus(AddressNotFound) == 404
    ensures HttpStatus(PhoneExists) == 400 && HttpStatus(PhoneUniqueViolation) == 400
    ensures HttpStatus(SortColumnRejected) == 400
  {
  }
}
