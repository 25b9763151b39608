/** Values as custom.js sees them: a string that may be missing (`undefined` or `null`)
    and JavaScript's truthiness test on it. */
module JsValues {

  /** A value that may be missing: `None` stands for `undefined` or `null`. */
  datatype Option<T> = None | Some(value: T)

  /** `!!s` for a string that may be missing: false for a missing value and for "". */
  predicate Truthy(s: Option<string>) {
    s.Some? && s.value != ""
  }
}
