/** An optional value: the null pointer a lookup returns when nothing is
    found, a regular expression that does not match, a header filter a
    plugin does not override. */
module Options {

  datatype Option<+T> = None | Some(value: T)
}
