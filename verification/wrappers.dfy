/** Optional values and error-carrying results, standing for `null` returns and thrown
    NestJS exceptions. */
module Wrappers {

  datatype Option<+T> = None | Some(value: T)

  /** The HTTP exceptions the services throw. `Internal` stands for a failure the source does
      not throw on purpose: a database constraint the save or delete violates, or a dereference
      of a relation that did not load. */
  datatype HttpError = NotFound | Forbidden | Conflict | Internal

  datatype Result<+T> = Ok(value: T) | Err(error: HttpError)

  /** One field of a partial update request: left out (`undefined`), an explicit `null`, or a
      value. */
  datatype Field<+T> = Unset | Null | Set(value: T)

  /** The value of a NOT NULL column after `Object.assign`: a supplied value overwrites, a field
      left out keeps the column. (A null there makes the save fail before this matters.) */
  function Assign<T>(f: Field<T>, current: T): T
  {
    if f.Set? then f.value else current
  }

  /** The value of a nullable column after `Object.assign`: a supplied value overwrites, a null
      clears, a field left out keeps the column. */
  function AssignNullable<T>(f: Field<T>, current: Option<T>): Option<T>
  {
    match f
    case Unset => current
    case Null => None
    case Set(v) => Some(v)
  }
}
