/**
 * The USB transport the driver is written against (nusb), reduced to what the
 * driver builds and what it gets back: a vendor control request record and
 * the status and data of its completion. Submitting a request and waiting for
 * it happen outside the model; every operation is handed the outcome.
 */
module Transport {
  import opened Uints

  /** Why a transfer failed. */
  datatype TransferError = Cancelled | Stall | Disconnected | Fault | Unknown

  /** The status of a completed transfer. */
  datatype Status = Complete | Failed(error: TransferError)

  datatype ControlType = Standard | Class | Vendor

  datatype Recipient = Device | Interface | Endpoint | Other

  /**
   * A control request as handed to the transport: an IN request names the
   * number of bytes it expects back, an OUT request carries its payload.
   */
  datatype ControlRequest =
    | In(controlType: ControlType, recipient: Recipient, request: u8, index: u16, value: u16, length: u16)
    | Out(controlType: ControlType, recipient: Recipient, request: u8, index: u16, value: u16, data: seq<u8>)

  /** The completion of an IN control request: its status and the bytes received. */
  datatype InResponse = InResponse(status: Status, data: seq<u8>)

  /** One control call: the request that was sent and what the operation returned. */
  datatype Exchange<R> = Exchange(request: ControlRequest, result: R)
}
