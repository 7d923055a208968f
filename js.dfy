/** JavaScript truthiness, as the route guards apply it to request-body fields. */
module Js {
  import opened Wrappers

  /** `!!v` for a numeric body field: falsy when absent or 0 (NaN is not modelled). */
  predicate TruthyNumber(v: Option<int>) {
    v.Some? && v.value != 0
  }

  /** `!!v` for a string body field: falsy when absent or empty. */
  predicate TruthyString(v: Option<string>) {
    v.Some? && v.value != ""
  }
}
