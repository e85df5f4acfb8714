/**
 * The earlier device crate, crates/dverf_hackrf/src/device.rs: board identity
 * and revision queries over its own `request` primitive, with its own error
 * type and its own copies of the request-code and board tables. Its board
 * enums have the same variants and discriminants as the ones in
 * crates/dverf_device/src/ty.rs, so the model decodes into the Ty datatypes;
 * the tables themselves are written out again here and proved to agree.
 */
module Hackrf {
  import opened Uints
  import opened Transport
  import Ty
  import Control

  /** The error type of crates/dverf_hackrf/src/err.rs. */
  datatype Error = Usb(cause: TransferError) | Resp

  datatype Result<T> = Ok(value: T) | Err(error: Error)

  /** The request codes this crate sends. */
  datatype VendorRequest = BoardIdRead | BoardRevRead {
    /** The `repr(u8)` request code: the same code the device crate uses for the same request. */
    function Code(): (r: u8)
      ensures BoardIdRead? ==> r == Control.VendorRequest.BoardIdRead.Code()
      ensures BoardRevRead? ==> r == Control.VendorRequest.BoardRevRead.Code()
    {
      match this
      case BoardIdRead => 14
      case BoardRevRead => 45
    }
  }

  /**
   * `request`: a vendor IN request to the device; a failed status is the
   * error, otherwise every received byte is returned.
   */
  function Request(vrid: VendorRequest, index: u16, value: u16, length: u16, resp: InResponse): (r: Exchange<Result<seq<u8>>>)
    ensures r.request == In(Vendor, Device, vrid.Code(), index, value, length)
    ensures r.result.Ok? <==> resp.status.Complete?
    ensures resp.status.Failed? ==> r.result.error == Usb(resp.status.error)
    ensures r.result.Ok? ==> r.result.value == resp.data
  {
    var request := ControlRequest.In(Vendor, Device, vrid.Code(), index, value, length);
    match resp.status
    case Failed(e) => Exchange(request, Err(Usb(e)))
    case Complete => Exchange(request, Ok(resp.data))
  }

  /** Named board identities in discriminant order. */
  const BoardIds: seq<Ty.BoardId> := [Ty.Jellybean, Ty.Jawbreaker, Ty.HackrfOneOg, Ty.Rad10, Ty.HackrfOneR9]

  /** Named revisions 0..=5. */
  const Revisions: seq<Ty.BoardRev> := [Ty.Old, Ty.R6, Ty.R7, Ty.R8, Ty.R9, Ty.R10]

  /** Named revisions 0x81..=0x85. */
  const GsgRevisions: seq<Ty.BoardRev> := [Ty.GsgR6, Ty.GsgR7, Ty.GsgR8, Ty.GsgR9, Ty.GsgR10]

  /** This crate's `BoardId::from(u8)`: the same decoding as the device crate's. */
  function BoardIdFromU8(b: u8): (r: Ty.BoardId)
    ensures r == Ty.BoardIdFromU8(b)
  {
    if b < |BoardIds| then BoardIds[b] else Ty.BoardId.Unrecognized
  }

  /** This crate's `BoardRev::from(u8)`: the same decoding as the device crate's. */
  function BoardRevFromU8(b: u8): (r: Ty.BoardRev)
    ensures r == Ty.BoardRevFromU8(b)
  {
    if b < |Revisions| then Revisions[b]
    else if 0x81 <= b < 0x81 + |GsgRevisions| then GsgRevisions[b - 0x81]
    else Ty.BoardRev.Unrecognized
  }

  /** `board_id`: request 14 for one byte; an empty answer is `Resp`, otherwise the first byte is decoded. */
  function BoardId(resp: InResponse): (r: Exchange<Result<Ty.BoardId>>)
    ensures r.request == In(Vendor, Device, 14, 0, 0, 1)
    ensures resp.status.Failed? ==> r.result == Err(Usb(resp.status.error))
    ensures resp.status.Complete? && resp.data == [] ==> r.result == Err(Resp)
    ensures resp.status.Complete? && resp.data != [] ==> r.result == Ok(Ty.BoardIdFromU8(resp.data[0]))
  {
    var x := Request(BoardIdRead, 0, 0, 1, resp);
    match x.result
    case Err(e) => Exchange(x.request, Err(e))
    case Ok(data) => Exchange(x.request, if data == [] then Err(Resp) else Ok(BoardIdFromU8(data[0])))
  }

  /** `board_rev`: request 45 for one byte; an empty answer is `Resp`, otherwise the first byte is decoded. */
  function BoardRev(resp: InResponse): (r: Exchange<Result<Ty.BoardRev>>)
    ensures r.request == In(Vendor, Device, 45, 0, 0, 1)
    ensures resp.status.Failed? ==> r.result == Err(Usb(resp.status.error))
    ensures resp.status.Complete? && resp.data == [] ==> r.result == Err(Resp)
    ensures resp.status.Complete? && resp.data != [] ==> r.result == Ok(Ty.BoardRevFromU8(resp.data[0]))
  {
    var x := Request(BoardRevRead, 0, 0, 1, resp);
    match x.result
    case Err(e) => Exchange(x.request, Err(e))
    case Ok(data) => Exchange(x.request, if data == [] then Err(Resp) else Ok(BoardRevFromU8(data[0])))
  }
}
