/**
 * Reinterpretation between raw bytes and IQ samples (dverf/src/common.rs).
 * The source views the same memory with half (or twice) the element count;
 * the model states the resulting element sequence: sample k is made of bytes
 * 2k (in-phase) and 2k+1 (quadrature), the field order of the repr(C) struct.
 */
module Codec {
  import opened Uints

  /** One IQ sample. `Sample::new(i, q)` is this constructor. */
  datatype Sample = Sample(i: u8, q: u8)

  /** `Sample::zero()`: the sample whose byte view is two zero bytes. */
  function Zero(): (r: Sample)
    ensures AsBytes([r]) == [0, 0]
  {
    Sample(0, 0)
  }

  /** A growable buffer: its elements and its allocated capacity (counted in elements). */
  datatype Vec<T> = Vec(data: seq<T>, cap: nat) {
    predicate Valid() {
      |data| <= cap
    }
  }

  /** `as_samples`: the sample view of an even-length byte slice. */
  function AsSamples(b: seq<u8>): (r: seq<Sample>)
    requires |b| % 2 == 0
    ensures |r| == |b| / 2
    ensures forall k :: 0 <= k < |r| ==> r[k] == Sample(b[2 * k], b[2 * k + 1])
    decreases |b|
  {
    if b == [] then [] else [Sample(b[0], b[1])] + AsSamples(b[2..])
  }

  /** `as_bytes`: the byte view of a sample slice. */
  function AsBytes(s: seq<Sample>): (r: seq<u8>)
    ensures |r| == 2 * |s|
    ensures forall k :: 0 <= k < |s| ==> r[2 * k] == s[k].i && r[2 * k + 1] == s[k].q
  {
    if s == [] then [] else [s[0].i, s[0].q] + AsBytes(s[1..])
  }

  /** Viewing bytes as samples and back gives the same bytes. */
  lemma {:induction false} BytesSamplesBytes(b: seq<u8>)
    requires |b| % 2 == 0
    ensures AsBytes(AsSamples(b)) == b
    decreases |b|
  {
    if b != [] {
      var s := AsSamples(b);
      assert s == [Sample(b[0], b[1])] + AsSamples(b[2..]);
      assert s[1..] == AsSamples(b[2..]);
      BytesSamplesBytes(b[2..]);
      assert b == [b[0], b[1]] + b[2..];
    }
  }

  /** Viewing samples as bytes and back gives the same samples. */
  lemma SamplesBytesSamples(s: seq<Sample>)
    ensures AsSamples(AsBytes(s)) == s
  {
  }

  /**
   * `into_samples`: takes over an even-length byte vector as a sample vector
   * with half its length and half its capacity.
   */
  function IntoSamples(v: Vec<u8>): (r: Vec<Sample>)
    requires |v.data| % 2 == 0
    ensures AsBytes(r.data) == v.data
    ensures r.cap == v.cap / 2
    ensures v.Valid() ==> r.Valid()
  {
    BytesSamplesBytes(v.data);
    Vec(AsSamples(v.data), v.cap / 2)
  }

  /**
   * `to_samples`: `into_samples` of a fresh copy of the input, whose capacity
   * is its length. The input is a value and is left as it was.
   */
  function ToSamples(b: seq<u8>): (r: Vec<Sample>)
    requires |b| % 2 == 0
    ensures AsBytes(r.data) == b
    ensures r.Valid() && r.cap == |r.data|
  {
    IntoSamples(Vec(b, |b|))
  }
}
