/** An optional value: `None` stands for an absent regex group and for a
    Python run that stops with an exception. */
module Optional {

  datatype Option<+T> = None | Some(value: T)
}
