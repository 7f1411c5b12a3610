/** The optional values the program passes around: a step either yields a
    string (an identifier, a token) or Python's `None`. */
module Options {

  datatype Option<+T> = None | Some(value: T)

  /** Python truthiness of a value that is `None` or a `str`: only a
      non-empty string is true. */
  predicate Truthy(o: Option<string>) {
    o.Some? && o.value != ""
  }
}
