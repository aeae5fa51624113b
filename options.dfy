/** The optional values the model uses for JavaScript's null/undefined and for "did not succeed". */
module Options {

  datatype Option<+T> = None | Some(value: T)
}
