/** A TypeScript `T | null` value: the record fields, the current record and
    the user may all be null in the application. */
module Nullable {

  datatype Option<+T> = None | Some(value: T)

}
