/** A value that may be absent: the model's way of saying that a Python call
    raised instead of returning. */
module Optional {

  datatype Option<+T> = None | Some(value: T)
}
