/** An optional value, for "no actor found" and "no fallback direction". */
module Options {

  datatype Option<+T> = None | Some(value: T)
}
