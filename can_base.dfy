/** Small value types shared by the rest of the model. */
module CanBase {

  /** Stands for a Java reference that may be `null`. */
  datatype Option<+T> = None | Some(value: T)

  /**
   * One byte of a Java `byte[]`, written as its unsigned bit pattern
   * (Java's signed value `b` is `b % 256` here).
   */
  newtype byte = x: int | 0 <= x < 256

  /** What a UI listener does when it finishes. */
  datatype HandlerResult =
    | Done
      /** A `NullPointerException` escaped the listener: the application dies. */
    | Crashed
}
