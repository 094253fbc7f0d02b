/** Values that the source leaves `undefined` or `null`. */
module Options {
  datatype Option<+T> = None | Some(value: T)

  /** JavaScript truthiness of an optional number: absent and zero are both falsy. */
  predicate TruthyNumber(o: Option<int>) {
    o.Some? && o.value != 0
  }

  /** JavaScript truthiness of an optional string: absent and empty are both falsy. */
  predicate TruthyText(o: Option<string>) {
    o.Some? && o.value != ""
  }
}
