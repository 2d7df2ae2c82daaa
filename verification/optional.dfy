/** Python's `None`-or-value convention, as used by `dict.get(key, None)`
    and `dict.pop(key, None)`. */
module Optional {

  datatype Option<+T> = None | Some(value: T)

  /** Python truthiness of an optional string: `None` and `""` are falsy,
      every other string is truthy. */
  predicate Truthy(s: Option<string>) {
    s.Some? && s.value != ""
  }
}
