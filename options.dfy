/** The optional value used wherever the program has `null`, a missing answer or NaN. */
module Options {

  datatype Option<+T> = None | Some(value: T)
}
