/** The nullable values of the connection manager: a missing ring, a failed connect,
    a null address or a null selection are all `None`. */
module Options {

  datatype Option<+T> = None | Some(value: T)

}
