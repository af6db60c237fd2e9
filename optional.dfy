/** The conventional Some/None datatype, used for the not-a-number sentinel
    of an output slot and for a derived-field computation that raised. */
module Optional {

  datatype Option<+T> = None | Some(value: T)
}
