/** Option and Result values shared by every module of the model, and JavaScript truthiness of optional values. */
module Wrappers {

  /** A value that may be missing: `undefined`/`null` on the TypeScript side. */
  datatype Option<+T> = None | Some(value: T) {
    function GetOr(default: T): T {
      match this
      case Some(v) => v
      case None => default
    }
  }

  /** The outcome of an operation that either returns a value or throws. */
  datatype Result<+T, +E> = Ok(value: T) | Err(error: E)

  /** The outcome of a check that either passes or throws. */
  datatype Outcome<+E> = Pass | Fail(error: E)

  /** JavaScript truthiness of an optional number: present and not 0. */
  predicate TruthyInt(o: Option<int>) {
    o.Some? && o.value != 0
  }

  /** JavaScript truthiness of an optional string: present and not empty. */
  predicate TruthyString(o: Option<string>) {
    o.Some? && o.value != ""
  }
}
