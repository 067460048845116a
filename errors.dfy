/** Expected failures, as tagged values. The thrown `ArgumentInvalidException` of the
    value-object hooks and the `DomainError` subclasses of the IAM module each become
    one variant carrying what the original message is built from. */
module Errors {

  datatype DomainError =
      /** `ArgumentInvalidException` raised by a value-object `validate` hook. */
    | ArgumentInvalid(message: string)
      /** `InvalidExternalIdError`, carrying the rejected raw id. */
    | InvalidExternalId(id: string)
      /** `UserAlreadyActiveError`, carrying the user id. */
    | UserAlreadyActive(userId: string)
      /** `UserAlreadyInactiveError`, carrying the user id. */
    | UserAlreadyInactive(userId: string)
      /** `UserAlreadyExistsError`, carrying the colliding identifier. */
    | UserAlreadyExists(identifier: string)
}
