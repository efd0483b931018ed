/** Option and Result types used across the model.
    `Option` stands for a nullable SQL column or an absent request field;
    `Result` is the outcome of a service call that may throw. */
module Wrappers {

  datatype Option<+T> = None | Some(value: T) {

    /** The value, or `default` for NULL / absent. */
    function GetOr(default: T): T {
      match this
      case Some(v) => v
      case None => default
    }
  }

  /** The errors the services throw (the message each stands for is in the comment),
      plus the storage-level foreign-key rejection. */
  datatype Failure =
    | MoveNotFound            // "Move not found or access denied"
    | RoomNotFound            // "Room not found or access denied"
    | DestinationRoomNotFound // "Destination room not found or access denied"
    | BoxNotFound             // "Box not found or access denied"
    | ItemNotFound            // "Item not found or access denied"
    | BoxInOtherMove          // "Box and item must belong to the same move"
    | ForeignKeyViolation     // the store rejects a row referring to a row that does not exist
    | EmptyUpdate             // the query builder refuses an UPDATE that sets no column
    | InvalidJson             // JSON.parse throws on a stored properties text
    | UnknownColumn           // ORDER BY names a column the table does not have

  datatype Result<+T> = Ok(value: T) | Err(error: Failure) {

    predicate IsFailure() {
      Err?
    }

    function PropagateFailure<U>(): Result<U>
      requires Err?
    {
      Err(error)
    }

    function Extract(): T
      requires Ok?
    {
      value
    }
  }
}
