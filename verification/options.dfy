/** The optional value used wherever the wheel's code may find nothing:
    a weighted pick that reaches no reward, a slice search with no match,
    a colour string the engine cannot parse. */
module Options {

  datatype Option<+T> = None | Some(value: T)
}
