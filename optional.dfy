/** The conventional Some/None datatype, used for values that may be absent
    (a missing JSON field, a missing local-storage slot, a translator call
    that raised). */
module Optional {

  datatype Option<+T> = None | Some(value: T)
}
