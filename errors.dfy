/** The failures the wallet services raise, and the Option/Result wrappers
    that carry them instead of Java's null and exceptions. */
module Errors {

  /** `null` of the source, for values that may be absent. */
  datatype Option<+T> = None | Some(value: T)

  /** Either a value or the exception that the service would have thrown. */
  datatype Result<+T> = Ok(value: T) | Err(error: Error)

  /** Entity kinds named in "not found" messages. */
  datatype Resource = CustomerResource | WalletResource

  /** Why a request is a bad request (BadRequestException). */
  datatype BadRequestReason =
    | AmountRequired        // "amount is required"
    | AmountNotPositive     // "amount must be > 0"
    | WalletsMustDiffer     // "from and to wallet must be different"

  /** What was duplicated (DuplicateResourceException). */
  datatype Duplicate =
    | WalletExistsFor(customerId: int)
    | TransferIdProcessed(transferId: string)
    | EmailInUse(email: string)

  /** The exception classes of the services, one constructor each. */
  datatype Error =
    | BadRequest(reason: BadRequestReason)
    | NotFound(kind: Resource, id: int)
    | DuplicateResource(what: Duplicate)
    | InsufficientFunds(walletId: int)
    | EmailRequired                       // IllegalArgumentException("email is required")
}
