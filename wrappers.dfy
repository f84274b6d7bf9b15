/** Failure-carrying results shared by the services: every exception the
    services throw becomes one of the Error constructors. */
module Wrappers {

  datatype Option<+T> = None | Some(value: T)

  /** The exception kinds of the services. The first five are the service's
      own exception classes; the last four stand for failures raised by
      collaborators (the database's unique constraint, the exchange-rate
      HTTP call, Spring's PageRequest, the foreign keys to an account). */
  datatype Error =
    | NotFound              // ResourceNotFoundException
    | Unauthorized          // UnauthorizedAccessException
    | InsufficientFunds     // InsufficientFundsException
    | CurrencyExists        // AccountCurrencyAlreadyExistsException
    | EmailExists           // EmailAlreadyExistsException
    | DuplicateAccountNumber // unique constraint on Account.accountNumber
    | ConversionFailed      // IOException from the exchange-rate lookup
    | IllegalArgument       // PageRequest.of with a negative page or a page size below one
    | AccountReferenced     // foreign key from a transaction or a favourite to a deleted account

  /** The result of an operation that returns a value or throws. */
  datatype Result<+T> = Ok(value: T) | Err(error: Error)

  /** The result of a `void` operation that may throw. */
  datatype Outcome = Pass | Fail(error: Error)
}
