/** Option and Result, the two failure-carrying types the Rust code uses.
    Every error of the pipeline is a rendered message string, as in the source. */
module Results {

  datatype Option<+T> = None | Some(value: T)

  datatype Result<+T> = Ok(value: T) | Error(msg: string)
}
