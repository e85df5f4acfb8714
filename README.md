# dverf core in Dafny

A model of the host-side core of the dverf HackRF driver:

- the reinterpretation between raw bytes and IQ samples (`dverf/src/common.rs`, `dverf/src/internals.rs`);
- the vendor control requests the device handle sends, and how it decodes the device's answers (`crates/dverf_device/src/device.rs`, and the earlier `crates/dverf_hackrf/src/device.rs`);
- the board and mode enums (`crates/dverf_device/src/ty.rs`);
- the receive stream `poll_next`, which keeps a window of bulk IN transfers in flight.

Files, one module each:

| file | module | models |
|---|---|---|
| `uints.dfy` | `Uints` | `u8`, `u16`, `u32` as bounded integers |
| `transport.dfy` | `Transport` | the USB transport's request record and completion, as data |
| `errors.dfy` | `Errors` | the device crate's `Error` / `Result` |
| `codec.dfy` | `Codec` | `Sample`, `as_samples`, `as_bytes`, `into_samples`, `to_samples` |
| `internals.dfy` | `Internals` | `samples_as_bytes`, `bytes_as_samples`, `bytes_into_samples`, `bytes_to_samples` |
| `ty.dfy` | `Ty` | `BoardId`, `BoardRev`, `TransceiverMode` |
| `control.dfy` | `Control` | `control_in`, `control_out` and every control operation of the device crate |
| `receive.dfy` | `Receive` | `Device::poll_next` as a class holding the FIFO of pending bulk IN requests |
| `hackrf.dfy` | `Hackrf` | the hackrf crate's `request`, `board_id`, `board_rev` and its tables |

How the model is built:

- A byte is a `u8` (an integer in 0..=255).
- Sample k of a byte buffer is `Sample(bytes[2k], bytes[2k+1])`, following the field order of the `repr(C)` struct.
- An odd length given to an asserting conversion is a precondition, because the source panics on it.
- A `Vec` is its elements plus its capacity.
- Each control operation is a function of its arguments and of the transport's answer. The answer is a status, plus the received bytes for an IN request.
- Each control operation returns an `Exchange`: the request record it builds, and the `Result` it returns.
- The receive stream is a class `Receive.ReceiveStream`. Its field `pending` is the FIFO of submitted bulk IN requests.
- `PollNext` takes the completion of the oldest pending request as a parameter, or `None` when it is still outstanding.
- `TRANSFER_SIZE` and `TRANSFERS_NUM` are arbitrary positive constructor arguments. `consts.rs` is not part of this model.
- `Sample::new(i, q)` in both `common.rs` and `ty.rs` is the datatype constructor `Codec.Sample(i, q)`, so it stores exactly `i` and `q`.
- `Sample::zero()` is `Codec.Zero()`, which is `Sample(0, 0)`.
- Every byte decodes to some `BoardId` and `BoardRev`, because the decoding functions are total Dafny functions on `u8`.

Facts about the code that the model records:

- `set_freq(446, 68750)` sends `BE 01 00 00 8E 0C 01 00` (68750 is `0x10C8E`).
- `set_baseband_filter_bandwidth(17_000_000)` sends index `0x0103` and value `0x6640` (17_000_000 is `0x01036640`).
- The gain setters put the gain in the index field, with value 0.
- `BoardId::Unrecognized` and `BoardRev::Unrecognized` do not keep the byte they were decoded from.

## Model

| member | source | states |
|---|---|---|
| `Codec.AsSamples` | dverf/src/common.rs:26-35 | an even-length byte slice views as `len / 2` samples, and sample k is bytes 2k and 2k+1 |
| `Codec.AsBytes` | dverf/src/common.rs:74-80 | `n` samples view as `2n` bytes, with byte 2k the `i` and byte 2k+1 the `q` of sample k |
| `Codec.BytesSamplesBytes` | dverf/src/common.rs:30-34 | for every even-length `b`, `as_bytes(as_samples(b)) == b` |
| `Codec.SamplesBytesSamples` | dverf/src/common.rs:75-79 | for every `s`, `as_samples(as_bytes(s)) == s` |
| `Codec.Zero` | dverf/src/common.rs:15-17 | the zero sample's byte view is two zero bytes |
| `Codec.IntoSamples` | dverf/src/common.rs:44-54 | an even-length vector becomes samples whose byte view is the original contents; the capacity is halved; a well-formed vector stays well-formed (length within capacity) |
| `Codec.ToSamples` | dverf/src/common.rs:63-65 | the copy becomes samples whose byte view is the input, with capacity equal to length |
| `Internals.SamplesAsBytes` | dverf/src/internals.rs:6-11 | `2n` bytes; byte 2k is `i` and byte 2k+1 is `q` of sample k |
| `Internals.BytesAsSamples` | dverf/src/internals.rs:28-37 | on even length, `len / 2` samples whose byte view is exactly the input |
| `Internals.BytesIntoSamples` | dverf/src/internals.rs:13-25 | on even length, the byte view of the result is the input; the capacity is halved; the result is well-formed |
| `Internals.BytesToSamples` | dverf/src/internals.rs:40-44 | same contents as `bytes_as_samples`, with capacity equal to its `len / 2` length |
| `Internals.SamplesBytesSamples` | dverf/src/internals.rs:6-37 | `bytes_as_samples(samples_as_bytes(s)) == s` |
| `Internals.SamplesAsBytesAgrees` | dverf/src/internals.rs:6-11 | `samples_as_bytes` gives exactly what `as_bytes` of common.rs gives |
| `Internals.BytesAsSamplesAgrees` | dverf/src/internals.rs:28-37 | `bytes_as_samples` gives exactly what `as_samples` of common.rs gives |
| `Ty.BoardId.Discriminant` | crates/dverf_device/src/ty.rs:5-12 | named boards have discriminants 0..=4, and `Unrecognized`, and only it, has 0xFE |
| `Ty.BoardIdFromU8` | crates/dverf_device/src/ty.rs:3-13 | a byte decodes to a named board exactly when it is 0..=4, and the named board's discriminant is that byte; any other byte gives `Unrecognized` |
| `Ty.BoardIdDiscriminantRoundTrip` | crates/dverf_device/src/ty.rs:5-12 | decoding a variant's discriminant gives that variant, so no two variants share a byte |
| `Ty.BoardRev.Discriminant` | crates/dverf_device/src/ty.rs:17-30 | named revisions have discriminants 0..=5 or 0x81..=0x85, and `Unrecognized`, and only it, has 0xFE |
| `Ty.BoardRevFromU8` | crates/dverf_device/src/ty.rs:15-31 | a byte decodes to a named revision exactly when it is 0..=5 or 0x81..=0x85, and the revision's discriminant is that byte; any other byte gives `Unrecognized` |
| `Ty.BoardRevDiscriminantRoundTrip` | crates/dverf_device/src/ty.rs:17-30 | decoding a variant's discriminant gives that variant |
| `Ty.TransceiverMode.Code` | crates/dverf_device/src/ty.rs:33-42 | the body is the `repr(u16)` table (Off=0 … RxSweep=5); the contract bounds every code by 5 |
| `Ty.TransceiverModeCodeInjective` | crates/dverf_device/src/ty.rs:33-42 | distinct modes have distinct codes |
| `Control.VendorRequest.Code` | crates/dverf_device/src/device.rs:199-249 | every request the driver sends has a code in the protocol's numbering 1..=48 |
| `Control.VendorRequestCodeInjective` | crates/dverf_device/src/device.rs:199-249 | distinct vendor requests have distinct codes |
| `Control.LeBytes` | crates/dverf_device/src/device.rs:84-86 | `to_le_bytes` gives 4 bytes that read back as the same `u32` |
| `Control.LeBytesFromLeBytes` | crates/dverf_device/src/device.rs:84-86 | every 4-byte word is the little-endian encoding of the value it reads as |
| `Control.ControlIn` | crates/dverf_device/src/device.rs:134-147 | a vendor, device-recipient IN request with the given code, index, value and length; a failed status becomes `Transfer`, otherwise all received bytes are returned |
| `Control.ControlOut` | crates/dverf_device/src/device.rs:149-162 | a vendor, device-recipient OUT request carrying the payload; success exactly when the status is complete, else `Transfer` |
| `Control.DeviceReset` | crates/dverf_device/src/device.rs:49-51 | OUT request 30, index 0, value 0, empty payload; only the status decides the result |
| `Control.BoardId` | crates/dverf_device/src/device.rs:53-61 | IN request 14 for 1 byte; failed status gives `Transfer`, an empty answer gives `Resp`, otherwise the decoded first byte |
| `Control.BoardRev` | crates/dverf_device/src/device.rs:63-71 | IN request 45 for 1 byte; failed status gives `Transfer`, an empty answer gives `Resp`, otherwise the decoded first byte |
| `Control.BoardDecodingIgnoresTail` | crates/dverf_device/src/device.rs:56-60 | bytes after the first never change what `board_id` and `board_rev` return |
| `Control.VersionBytes` | crates/dverf_device/src/device.rs:73-76 | IN request 15 for up to 255 bytes; on success the whole answer, untrimmed |
| `Control.SetTransceiverModeOp` | crates/dverf_device/src/device.rs:78-80 | IN request 1 with the mode's code as value and length 0; success exactly when the status is complete, whatever bytes came back |
| `Control.SetFreqOp` | crates/dverf_device/src/device.rs:82-91 | OUT request 16, index 0, value 0, 8-byte payload whose first four bytes read back as `mhz` and last four as `hz` |
| `Control.SetFreqPayloadExample` | crates/dverf_device/src/device.rs:82-88 | `set_freq(446, 68750)` sends `BE 01 00 00 8E 0C 01 00` |
| `Control.SetBasebandFilterBandwidthOp` | crates/dverf_device/src/device.rs:93-102 | OUT request 7 with empty payload, with `index * 65536 + value == hz` (index is the high half, value the low half) |
| `Control.BandwidthExample` | crates/dverf_device/src/device.rs:93-101 | `set_baseband_filter_bandwidth(17_000_000)` sends index `0x0103` and value `0x6640` |
| `Control.SetSampleRateOp` | crates/dverf_device/src/device.rs:104-111 | OUT request 6, 8-byte payload whose halves read back as `hz` and `divider` |
| `Control.SetLnaGainOp` | crates/dverf_device/src/device.rs:113-121 | IN request 19 with the gain as index, value 0, length 1; `Transfer` on failed status, `Resp` on an empty answer, `Param("Lna Gain")` unless the first byte is 1, and success exactly when it is |
| `Control.SetVgaGainOp` | crates/dverf_device/src/device.rs:123-131 | IN request 20 with the gain as index, value 0, length 1; `Transfer`, `Resp`, `Param("Vga Gain")` as for the LNA gain, success exactly when the first byte is 1 |
| `Receive.Chunk` | crates/dverf_device/src/device.rs:176-183 | completed bytes become `floor(len / 2)` samples pairing bytes 2k and 2k+1, with half the capacity; an odd trailing byte is dropped |
| `Receive.TopUp` | crates/dverf_device/src/device.rs:166-168 | submitting until `n` are pending keeps the old requests in front, appends requests of the transfer size, and never submits when the window is already full |
| `Receive.ResubmitRestoresWindow` | crates/dverf_device/src/device.rs:176-185 | consuming the oldest of a full window and resubmitting one request gives back the full window |
| `Receive.ReceiveStream.constructor` | crates/dverf_device/src/device.rs:37-43 | a new handle has nothing pending on its IN queue |
| `Receive.ReceiveStream.PollNext` | crates/dverf_device/src/device.rs:165-188 | tops the window up first; with no completion yet it is `Pending` with a full window; a failed completion gives `Ready(Some(Err(Transfer)))` and no resubmission (window one short); a successful one gives the samples of `Chunk`, submits exactly one request and leaves the window full; never `Ready(None)` |
| `Hackrf.VendorRequest.Code` | crates/dverf_hackrf/src/device.rs:69-118 | this crate's board-id and board-revision requests have the same codes as the device crate's |
| `Hackrf.Request` | crates/dverf_hackrf/src/device.rs:48-67 | a vendor, device-recipient IN request; a failed status becomes `Usb` before the data is used, otherwise all received bytes |
| `Hackrf.BoardIdFromU8` | crates/dverf_hackrf/src/device.rs:120-130 | this crate's board table decodes every byte exactly as the device crate's `BoardId` does |
| `Hackrf.BoardRevFromU8` | crates/dverf_hackrf/src/device.rs:132-148 | this crate's revision table decodes every byte exactly as the device crate's `BoardRev` does |
| `Hackrf.BoardId` | crates/dverf_hackrf/src/device.rs:27-35 | request 14, index 0, value 0, length 1; `Usb` on failed status, `Resp` on an empty answer, otherwise the decoded first byte |
| `Hackrf.BoardRev` | crates/dverf_hackrf/src/device.rs:37-45 | request 45, index 0, value 0, length 1; `Usb` on failed status, `Resp` on an empty answer, otherwise the decoded first byte |

## Left out

- The USB transport and the async machinery (`nusb::Interface`, `Queue`, `Context`, `Waker`, `Poll` scheduling, `await`) are foreign calls. Each control call receives its outcome as a parameter, and `PollNext` receives the oldest completion as a parameter.
- Memory handling is not modelled: `ManuallyDrop`, raw-pointer casts, `from_raw_parts`, alignment and ownership transfer are left out. Reinterpretation is modelled as a mapping between sequences.
- `Codec.ToSamples`, `Internals.BytesToSamples`: the capacity of a fresh copy is taken to equal its length. The standard library only promises it is at least that.
- `Codec.IntoSamples`, `Internals.BytesIntoSamples`, `Receive.Chunk`: the new sample vector gets the byte capacity divided by 2, rounded down, as the source passes `cap / 2` to `Vec::from_raw_parts` (dverf/src/common.rs:53, dverf/src/internals.rs:22-25, crates/dverf_device/src/device.rs:180-183). For an odd byte capacity the stated capacity no longer matches the allocation, which is undefined behaviour in Rust when the vector is freed; the model does not capture allocations and does not flag this.
- `Control.VersionBytes` returns the raw answer bytes. The lossy UTF-8 decoding that `version` applies to them is a library call and is not modelled.
- `Receive.ReceiveStream.PollNext` accepts completed data of any length. The transport's guarantee that a completion never exceeds the requested size is not modelled.
- `Receive.ReceiveStream.PollNext` does not model that the resubmitted request reuses the buffer left in the completion. It records only that a request of the transfer size is submitted.
- The transmit path is left out: the bulk OUT queue, the buffer pool, the backlog, and `feed`/`flush`.
- `amp_enable` is left out.
- `from_interface`/`into_interface` are modelled only as the empty receive window. They otherwise just wrap the transport handle.
- The values of `TRANSFER_SIZE` and `TRANSFERS_NUM` are not modelled, because `consts.rs` is not part of this model. They are positive constructor arguments.
- The request codes the code never sends are not modelled; they are constants only.
- The `Debug` implementations and the error messages are formatting only.
- The signedness of `Sample` differs between `dverf/src/lib.rs` (`i8`) and `dverf/src/common.rs` (`u8`). Both are one byte per component, and the model uses `u8`.
