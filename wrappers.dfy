/** Small value wrappers shared by the whole model. */
module Wrappers {

  /** A value that may be absent: `null` / `undefined` in the source. */
  datatype Option<+T> = None | Some(value: T) {
    function GetOr(default: T): T {
      match this
      case Some(v) => v
      case None => default
    }
  }

  /** One field of an update payload: left out of the payload (the
      column keeps its value, as Prisma ignores `undefined`) or supplied. */
  datatype Field<+T> = Keep | Set(value: T) {
    function Or(current: T): T {
      match this
      case Set(v) => v
      case Keep => current
    }
  }
}
