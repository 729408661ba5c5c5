/** Value types shared by every part of the backend model. */
module Common {

  datatype Option<+T> = None | Some(value: T)

  /** A call that either yields a value or fails with an error (a thrown Error in the source). */
  datatype Result<+T, +E> = Success(value: T) | Failure(error: E)

  /** A check that either passes or fails with an error. */
  datatype Outcome<+E> = Pass | Fail(error: E)

  /** User ids, socket ids, room names and document ids are all strings in the source. */
  type UserId = string
  type SocketId = string
  type RoomId = string

  /** An optional string that is present and non-empty: JavaScript truthiness,
      and what Mongoose's `required` accepts for a string path. */
  predicate Truthy(o: Option<string>)
  {
    o.Some? && o.value != ""
  }

  /** A calendar date as the validators read it: getFullYear, getMonth and getDate. */
  datatype Date = Date(year: int, month: int, day: int)
}
