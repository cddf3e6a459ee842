/** The "no parent" marker of a parent table: Python's None. */
module Options {

  datatype Option<+T> = None | Some(value: T)
}
