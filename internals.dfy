/**
 * The conversions of dverf/src/internals.rs. They do the same reinterpretation
 * as the Codec module but are written there on their own; here they get
 * definitions of their own (element by element) and are proved to agree with
 * the Codec ones.
 */
module Internals {
  import opened Uints
  import opened Codec

  /** `samples_as_bytes`: byte j is the in-phase byte of sample j/2 when j is even, else its quadrature byte. */
  function SamplesAsBytes(s: seq<Sample>): (r: seq<u8>)
    ensures |r| == 2 * |s|
    ensures forall k :: 0 <= k < |s| ==> r[2 * k] == s[k].i && r[2 * k + 1] == s[k].q
  {
    seq(2 * |s|, j requires 0 <= j < 2 * |s| => if j % 2 == 0 then s[j / 2].i else s[j / 2].q)
  }

  /** Samples that pair bytes (2k, 2k+1) of `b` have `b` as their byte view. */
  lemma PairedBytes(b: seq<u8>, r: seq<Sample>)
    requires |b| == 2 * |r|
    requires forall k :: 0 <= k < |r| ==> r[k] == Sample(b[2 * k], b[2 * k + 1])
    ensures SamplesAsBytes(r) == b
  {
    var t := SamplesAsBytes(r);
    forall j | 0 <= j < |b| ensures t[j] == b[j] {
      var k := j / 2;
      if j % 2 == 0 {
        assert j == 2 * k;
        assert t[2 * k] == r[k].i;
      } else {
        assert j == 2 * k + 1;
        assert t[2 * k + 1] == r[k].q;
      }
    }
  }

  /** `bytes_as_samples`: panics on an odd length, otherwise pairs bytes (2k, 2k+1). */
  function BytesAsSamples(b: seq<u8>): (r: seq<Sample>)
    requires |b| % 2 == 0
    ensures |r| == |b| / 2
    ensures SamplesAsBytes(r) == b
  {
    var r := seq(|b| / 2, k requires 0 <= k < |b| / 2 => Sample(b[2 * k], b[2 * k + 1]));
    PairedBytes(b, r);
    r
  }

  /** `bytes_into_samples`: panics on an odd length, otherwise halves length and capacity. */
  function BytesIntoSamples(v: Vec<u8>): (r: Vec<Sample>)
    requires |v.data| % 2 == 0
    ensures SamplesAsBytes(r.data) == v.data
    ensures r.cap == v.cap / 2
    ensures v.Valid() ==> r.Valid()
  {
    Vec(BytesAsSamples(v.data), v.cap / 2)
  }

  /** `bytes_to_samples`: an owned copy of `bytes_as_samples`, with capacity equal to its length. */
  function BytesToSamples(b: seq<u8>): (r: Vec<Sample>)
    requires |b| % 2 == 0
    ensures r.data == BytesAsSamples(b)
    ensures r.Valid() && r.cap == |r.data| == |b| / 2
  {
    var s := BytesAsSamples(b);
    Vec(s, |s|)
  }

  /** Viewing samples as bytes and back gives the same samples. */
  lemma SamplesBytesSamples(s: seq<Sample>)
    ensures BytesAsSamples(SamplesAsBytes(s)) == s
  {
  }

  /** The byte view agrees with `as_bytes` of dverf/src/common.rs. */
  lemma SamplesAsBytesAgrees(s: seq<Sample>)
    ensures SamplesAsBytes(s) == AsBytes(s)
  {
    var t := AsBytes(s);
    assert forall k :: 0 <= k < |s| ==> s[k] == Sample(t[2 * k], t[2 * k + 1]);
    PairedBytes(t, s);
  }

  /** The sample view agrees with `as_samples` of dverf/src/common.rs. */
  lemma BytesAsSamplesAgrees(b: seq<u8>)
    requires |b| % 2 == 0
    ensures BytesAsSamples(b) == AsSamples(b)
  {
  }
}
