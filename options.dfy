/** An optional value: a missing query parameter, an absent completion, a
    regular-expression search with no match. */
module Options {

  datatype Option<T> = None | Some(value: T)
}
