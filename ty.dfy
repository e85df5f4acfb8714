/**
 * The device enums of crates/dverf_device/src/ty.rs. Board identity and
 * revision are decoded from a byte the device reports; every byte decodes,
 * unknown ones to `Unrecognized`, which does not keep the byte.
 */
module Ty {
  import opened Uints

  datatype BoardId = Jellybean | Jawbreaker | HackrfOneOg | Rad10 | HackrfOneR9 | Unrecognized {
    /** The `repr(u8)` discriminant: 0..=4 for the named boards, 0xFE for `Unrecognized`. */
    function Discriminant(): (r: u8)
      ensures r <= 4 || r == 0xFE
      ensures this.Unrecognized? <==> r == 0xFE
    {
      match this
      case Jellybean => 0
      case Jawbreaker => 1
      case HackrfOneOg => 2
      case Rad10 => 3
      case HackrfOneR9 => 4
      case Unrecognized => 0xFE
    }
  }

  /** `BoardId::from(u8)`: a byte with a named variant decodes to it, any other byte to `Unrecognized`. */
  function BoardIdFromU8(b: u8): (r: BoardId)
    ensures r != BoardId.Unrecognized <==> b <= 4
    ensures r != BoardId.Unrecognized ==> r.Discriminant() == b
  {
    if b == 0 then Jellybean
    else if b == 1 then Jawbreaker
    else if b == 2 then HackrfOneOg
    else if b == 3 then Rad10
    else if b == 4 then HackrfOneR9
    else BoardId.Unrecognized
  }

  /** Decoding a variant's discriminant gives that variant back, so distinct variants never share a byte. */
  lemma BoardIdDiscriminantRoundTrip(id: BoardId)
    ensures BoardIdFromU8(id.Discriminant()) == id
  {
  }

  datatype BoardRev = Old | R6 | R7 | R8 | R9 | R10 | GsgR6 | GsgR7 | GsgR8 | GsgR9 | GsgR10 | Unrecognized {
    /** The `repr(u8)` discriminant: 0..=5 and 0x81..=0x85 for the named revisions, 0xFE for `Unrecognized`. */
    function Discriminant(): (r: u8)
      ensures r <= 5 || 0x81 <= r <= 0x85 || r == 0xFE
      ensures this.Unrecognized? <==> r == 0xFE
    {
      match this
      case Old => 0
      case R6 => 1
      case R7 => 2
      case R8 => 3
      case R9 => 4
      case R10 => 5
      case GsgR6 => 0x81
      case GsgR7 => 0x82
      case GsgR8 => 0x83
      case GsgR9 => 0x84
      case GsgR10 => 0x85
      case Unrecognized => 0xFE
    }
  }

  /** `BoardRev::from(u8)`: bytes 0..=5 and 0x81..=0x85 decode to named variants, any other byte to `Unrecognized`. */
  function BoardRevFromU8(b: u8): (r: BoardRev)
    ensures r != BoardRev.Unrecognized <==> b <= 5 || 0x81 <= b <= 0x85
    ensures r != BoardRev.Unrecognized ==> r.Discriminant() == b
  {
    if b == 0 then Old
    else if b == 1 then R6
    else if b == 2 then R7
    else if b == 3 then R8
    else if b == 4 then R9
    else if b == 5 then R10
    else if b == 0x81 then GsgR6
    else if b == 0x82 then GsgR7
    else if b == 0x83 then GsgR8
    else if b == 0x84 then GsgR9
    else if b == 0x85 then GsgR10
    else BoardRev.Unrecognized
  }

  /** Decoding a variant's discriminant gives that variant back, so distinct variants never share a byte. */
  lemma BoardRevDiscriminantRoundTrip(rev: BoardRev)
    ensures BoardRevFromU8(rev.Discriminant()) == rev
  {
  }

  datatype TransceiverMode = Off | Receive | Transmit | Ss | CpldUpdate | RxSweep {
    /** `u16::from(mode)`: the `repr(u16)` discriminant written to the device. */
    function Code(): (r: u16)
      ensures r <= 5
    {
      match this
      case Off => 0
      case Receive => 1
      case Transmit => 2
      case Ss => 3
      case CpldUpdate => 4
      case RxSweep => 5
    }
  }

  /** Distinct modes are written as distinct codes. */
  lemma TransceiverModeCodeInjective(m1: TransceiverMode, m2: TransceiverMode)
    ensures m1.Code() == m2.Code() ==> m1 == m2
  {
  }
}
