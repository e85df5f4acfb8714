/** The error taxonomy of the device crate (crates/dverf_device/src/err.rs). */
module Errors {
  import opened Transport

  datatype Error =
    | Transfer(cause: TransferError)  // the transport reported a failed status
    | Resp                            // the device answered with fewer bytes than needed
    | Param(name: string)             // the device rejected a parameter value

  datatype Result<T> = Ok(value: T) | Err(error: Error)
}
