/** The optional value used for empty squares and for probes that leave the board. */
module Options {

  datatype Option<+T> = None | Some(value: T)
}
