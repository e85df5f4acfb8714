/**
 * The control operations of crates/dverf_device/src/device.rs. Each operation
 * builds one vendor control request addressed to the device and turns the
 * transport's answer into a result. The answer is a parameter: an IN request
 * gets a status and the received bytes, an OUT request a status. A failed
 * status is returned as `Transfer` before any received byte is looked at.
 */
module Control {
  import opened Uints
  import opened Transport
  import opened Errors
  import Ty

  /** The vendor request codes the control operations send. */
  datatype VendorRequest =
    | SetTransceiverMode | SetSampleRate | SetBasebandFilterBandwidth | BoardIdRead | VersionStringRead
    | SetFreq | SetLnaGain | SetVgaGain | Reset | BoardRevRead
  {
    /** The `repr(u8)` request code, within the protocol's numbering 1..=48. */
    function Code(): (r: u8)
      ensures 1 <= r <= 48
    {
      match this
      case SetTransceiverMode => 1
      case SetSampleRate => 6
      case SetBasebandFilterBandwidth => 7
      case BoardIdRead => 14
      case VersionStringRead => 15
      case SetFreq => 16
      case SetLnaGain => 19
      case SetVgaGain => 20
      case Reset => 30
      case BoardRevRead => 45
    }
  }

  /** Distinct requests have distinct codes. */
  lemma VendorRequestCodeInjective(a: VendorRequest, b: VendorRequest)
    ensures a.Code() == b.Code() ==> a == b
  {
  }

  // ---------------------------------------------------------------- wire format

  /** `u32::to_le_bytes`: the low byte first, each next byte from the quotient by 256. */
  function LeBytes(x: u32): (r: seq<u8>)
    ensures |r| == 4
    ensures FromLeBytes(r) == x
  {
    var q1 := x / 0x100;
    var q2 := q1 / 0x100;
    var q3 := q2 / 0x100;
    [x % 0x100, q1 % 0x100, q2 % 0x100, q3]
  }

  /** `u32::from_le_bytes`: how the device reads a little-endian word. */
  function FromLeBytes(b: seq<u8>): u32
    requires |b| == 4
  {
    b[0] as int + 0x100 * (b[1] as int + 0x100 * (b[2] as int + 0x100 * b[3] as int))
  }

  /** Splitting `lo + 256 * hi` by 256 gives back `hi` and `lo`. */
  lemma SplitByte(lo: u8, hi: nat)
    ensures (lo + 0x100 * hi) / 0x100 == hi && (lo + 0x100 * hi) % 0x100 == lo
  {
  }

  /** Every 4-byte word is the encoding of the value it denotes. */
  lemma LeBytesFromLeBytes(b: seq<u8>)
    requires |b| == 4
    ensures LeBytes(FromLeBytes(b)) == b
  {
    var w2 := b[2] as int + 0x100 * b[3] as int;
    var w1 := b[1] as int + 0x100 * w2;
    SplitByte(b[0], w1);
    SplitByte(b[1], w2);
    SplitByte(b[2], b[3]);
  }

  // ---------------------------------------------------------------- primitives

  /**
   * `control_in`: a vendor IN request to the device; a failed status is the
   * error, otherwise every received byte is returned.
   */
  function ControlIn(vrid: VendorRequest, index: u16, value: u16, length: u16, resp: InResponse): (r: Exchange<Result<seq<u8>>>)
    ensures r.request == In(Vendor, Device, vrid.Code(), index, value, length)
    ensures r.result.Ok? <==> resp.status.Complete?
    ensures resp.status.Failed? ==> r.result.error == Transfer(resp.status.error)
    ensures r.result.Ok? ==> r.result.value == resp.data
  {
    var request := ControlRequest.In(Vendor, Device, vrid.Code(), index, value, length);
    match resp.status
    case Failed(e) => Exchange(request, Err(Transfer(e)))
    case Complete => Exchange(request, Ok(resp.data))
  }

  /** `control_out`: a vendor OUT request to the device carrying `data`; only the status matters. */
  function ControlOut(vrid: VendorRequest, index: u16, value: u16, data: seq<u8>, status: Status): (r: Exchange<Result<()>>)
    ensures r.request == Out(Vendor, Device, vrid.Code(), index, value, data)
    ensures r.result.Ok? <==> status.Complete?
    ensures status.Failed? ==> r.result.error == Transfer(status.error)
  {
    var request := ControlRequest.Out(Vendor, Device, vrid.Code(), index, value, data);
    match status
    case Failed(e) => Exchange(request, Err(Transfer(e)))
    case Complete => Exchange(request, Ok(()))
  }

  /** The first byte of a successful IN answer, or `Resp` when the device sent nothing. */
  function FirstByte(r: Result<seq<u8>>): Result<u8> {
    match r
    case Err(e) => Err(e)
    case Ok(data) => if data == [] then Err(Resp) else Ok(data[0])
  }

  // ---------------------------------------------------------------- operations

  /** `reset`: OUT request 30 with an empty payload. */
  function DeviceReset(status: Status): (r: Exchange<Result<()>>)
    ensures r.request == Out(Vendor, Device, 30, 0, 0, [])
    ensures r.result.Ok? <==> status.Complete?
    ensures status.Failed? ==> r.result.error == Transfer(status.error)
  {
    ControlOut(VendorRequest.Reset, 0, 0, [], status)
  }

  /** `board_id`: IN request 14 for one byte; only the first received byte is decoded. */
  function BoardId(resp: InResponse): (r: Exchange<Result<Ty.BoardId>>)
    ensures r.request == In(Vendor, Device, 14, 0, 0, 1)
    ensures resp.status.Failed? ==> r.result == Err(Transfer(resp.status.error))
    ensures resp.status.Complete? && resp.data == [] ==> r.result == Err(Resp)
    ensures resp.status.Complete? && resp.data != [] ==> r.result == Ok(Ty.BoardIdFromU8(resp.data[0]))
  {
    var x := ControlIn(BoardIdRead, 0, 0, 1, resp);
    match FirstByte(x.result)
    case Err(e) => Exchange(x.request, Err(e))
    case Ok(first) => Exchange(x.request, Ok(Ty.BoardIdFromU8(first)))
  }

  /** `board_rev`: IN request 45 for one byte; only the first received byte is decoded. */
  function BoardRev(resp: InResponse): (r: Exchange<Result<Ty.BoardRev>>)
    ensures r.request == In(Vendor, Device, 45, 0, 0, 1)
    ensures resp.status.Failed? ==> r.result == Err(Transfer(resp.status.error))
    ensures resp.status.Complete? && resp.data == [] ==> r.result == Err(Resp)
    ensures resp.status.Complete? && resp.data != [] ==> r.result == Ok(Ty.BoardRevFromU8(resp.data[0]))
  {
    var x := ControlIn(BoardRevRead, 0, 0, 1, resp);
    match FirstByte(x.result)
    case Err(e) => Exchange(x.request, Err(e))
    case Ok(first) => Exchange(x.request, Ok(Ty.BoardRevFromU8(first)))
  }

  /** Bytes after the first one never change what `board_id` and `board_rev` report. */
  lemma BoardDecodingIgnoresTail(status: Status, first: u8, tail: seq<u8>)
    ensures BoardId(InResponse(status, [first] + tail)).result == BoardId(InResponse(status, [first])).result
    ensures BoardRev(InResponse(status, [first] + tail)).result == BoardRev(InResponse(status, [first])).result
  {
  }

  /**
   * `version`: IN request 15 for up to 255 bytes. The model returns the raw
   * bytes, all of them; the lossy UTF-8 decoding applied to them is not modelled.
   */
  function VersionBytes(resp: InResponse): (r: Exchange<Result<seq<u8>>>)
    ensures r.request == In(Vendor, Device, 15, 0, 0, 255)
    ensures resp.status.Failed? ==> r.result == Err(Transfer(resp.status.error))
    ensures resp.status.Complete? ==> r.result == Ok(resp.data)
  {
    ControlIn(VersionStringRead, 0, 0, 255, resp)
  }

  /** `set_transceiver_mode`: IN request 1 with the mode code as value and length 0; received bytes are dropped. */
  function SetTransceiverModeOp(mode: Ty.TransceiverMode, resp: InResponse): (r: Exchange<Result<()>>)
    ensures r.request == In(Vendor, Device, 1, 0, mode.Code(), 0)
    ensures r.result.Ok? <==> resp.status.Complete?
    ensures resp.status.Failed? ==> r.result.error == Transfer(resp.status.error)
  {
    var x := ControlIn(VendorRequest.SetTransceiverMode, 0, mode.Code(), 0, resp);
    match x.result
    case Err(e) => Exchange(x.request, Err(e))
    case Ok(_) => Exchange(x.request, Ok(()))
  }

  /** `set_freq`: OUT request 16 whose 8-byte payload is `mhz` then `hz`, each little-endian. */
  function SetFreqOp(mhz: u32, hz: u32, status: Status): (r: Exchange<Result<()>>)
    ensures r.request.Out? && r.request == Out(Vendor, Device, 16, 0, 0, r.request.data)
    ensures |r.request.data| == 8
    ensures FromLeBytes(r.request.data[..4]) == mhz && FromLeBytes(r.request.data[4..]) == hz
    ensures r.result.Ok? <==> status.Complete?
    ensures status.Failed? ==> r.result.error == Transfer(status.error)
  {
    var payload := LeBytes(mhz) + LeBytes(hz);
    assert payload[..4] == LeBytes(mhz) && payload[4..] == LeBytes(hz);
    ControlOut(VendorRequest.SetFreq, 0, 0, payload, status)
  }

  /** The payload `set_freq(446, 68750)` sends. */
  lemma SetFreqPayloadExample(status: Status)
    ensures SetFreqOp(446, 68750, status).request.data == [0xBE, 0x01, 0x00, 0x00, 0x8E, 0x0C, 0x01, 0x00]
  {
  }

  /** `set_baseband_filter_bandwidth`: OUT request 7, empty payload, `hz` split into a high half (index) and a low half (value). */
  function SetBasebandFilterBandwidthOp(hz: u32, status: Status): (r: Exchange<Result<()>>)
    ensures r.request.Out? && r.request == Out(Vendor, Device, 7, r.request.index, r.request.value, [])
    ensures r.request.index * 0x1_0000 + r.request.value == hz
    ensures r.result.Ok? <==> status.Complete?
    ensures status.Failed? ==> r.result.error == Transfer(status.error)
  {
    ControlOut(VendorRequest.SetBasebandFilterBandwidth, hz / 0x1_0000, hz % 0x1_0000, [], status)
  }

  /** The request `set_baseband_filter_bandwidth(17_000_000)` sends. */
  lemma BandwidthExample(status: Status)
    ensures SetBasebandFilterBandwidthOp(17_000_000, status).request.index == 0x0103
    ensures SetBasebandFilterBandwidthOp(17_000_000, status).request.value == 0x6640
  {
  }

  /** `set_sample_rate`: OUT request 6 whose 8-byte payload is `hz` then `divider`, each little-endian. */
  function SetSampleRateOp(hz: u32, divider: u32, status: Status): (r: Exchange<Result<()>>)
    ensures r.request.Out? && r.request == Out(Vendor, Device, 6, 0, 0, r.request.data)
    ensures |r.request.data| == 8
    ensures FromLeBytes(r.request.data[..4]) == hz && FromLeBytes(r.request.data[4..]) == divider
    ensures r.result.Ok? <==> status.Complete?
    ensures status.Failed? ==> r.result.error == Transfer(status.error)
  {
    var payload := LeBytes(hz) + LeBytes(divider);
    assert payload[..4] == LeBytes(hz) && payload[4..] == LeBytes(divider);
    ControlOut(VendorRequest.SetSampleRate, 0, 0, payload, status)
  }

  /** The verdict on a gain setting: the device must answer with first byte 1. */
  function GainVerdict(name: string, x: Result<seq<u8>>): Result<()> {
    match FirstByte(x)
    case Err(e) => Err(e)
    case Ok(first) => if first != 1 then Err(Param(name)) else Ok(())
  }

  /** `set_lna_gain`: IN request 19 with the gain as index and length 1; accepted only when the first byte is 1. */
  function SetLnaGainOp(gain: u16, resp: InResponse): (r: Exchange<Result<()>>)
    ensures r.request == In(Vendor, Device, 19, gain, 0, 1)
    ensures resp.status.Failed? ==> r.result == Err(Transfer(resp.status.error))
    ensures resp.status.Complete? && resp.data == [] ==> r.result == Err(Resp)
    ensures resp.status.Complete? && resp.data != [] && resp.data[0] != 1 ==> r.result == Err(Param("Lna Gain"))
    ensures r.result.Ok? <==> resp.status.Complete? && resp.data != [] && resp.data[0] == 1
  {
    var x := ControlIn(VendorRequest.SetLnaGain, gain, 0, 1, resp);
    Exchange(x.request, GainVerdict("Lna Gain", x.result))
  }

  /** `set_vga_gain`: IN request 20 with the gain as index and length 1; accepted only when the first byte is 1. */
  function SetVgaGainOp(gain: u16, resp: InResponse): (r: Exchange<Result<()>>)
    ensures r.request == In(Vendor, Device, 20, gain, 0, 1)
    ensures resp.status.Failed? ==> r.result == Err(Transfer(resp.status.error))
    ensures resp.status.Complete? && resp.data == [] ==> r.result == Err(Resp)
    ensures resp.status.Complete? && resp.data != [] && resp.data[0] != 1 ==> r.result == Err(Param("Vga Gain"))
    ensures r.result.Ok? <==> resp.status.Complete? && resp.data != [] && resp.data[0] == 1
  {
    var x := ControlIn(VendorRequest.SetVgaGain, gain, 0, 1, resp);
    Exchange(x.request, GainVerdict("Vga Gain", x.result))
  }
}
