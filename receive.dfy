/**
 * The receive side of crates/dverf_device/src/device.rs: `Device::poll_next`,
 * the stream of sample batches read from bulk IN endpoint 0x81. The transport
 * queue is represented by the FIFO of requests submitted and not yet
 * consumed; the completion of the oldest one (or its absence) is a parameter.
 * The window size and the transfer size come from consts.rs, which is not
 * part of this model: they are any positive numbers fixed at construction.
 */
module Receive {
  import opened Uints
  import opened Transport
  import opened Errors
  import opened Codec

  datatype Option<T> = None | Some(value: T)

  /** A bulk IN request asking for `requested` bytes. */
  datatype RequestBuffer = RequestBuffer(requested: nat)

  /** The completion of the oldest pending bulk IN request. */
  datatype Completion = Completion(status: Status, data: Vec<u8>)

  /** `Poll<Option<T>>`: not ready yet, or ready with the next item (`None` ends a stream). */
  datatype Poll<T> = Pending | Ready(item: Option<T>)

  /**
   * The batch handed out for completed bytes: the buffer taken over as samples
   * with half its length and half its capacity. No evenness check is made, so
   * an odd trailing byte is dropped.
   */
  function Chunk(data: Vec<u8>): (r: Vec<Sample>)
    ensures |r.data| == |data.data| / 2
    ensures forall k :: 0 <= k < |r.data| ==> r.data[k] == Sample(data.data[2 * k], data.data[2 * k + 1])
    ensures AsBytes(r.data) == data.data[..2 * |r.data|]
    ensures r.cap == data.cap / 2
    ensures data.Valid() ==> r.Valid()
  {
    var even := data.data[..|data.data| / 2 * 2];
    BytesSamplesBytes(even);
    Vec(AsSamples(even), data.cap / 2)
  }

  /** The queue after submitting requests of `size` bytes until `n` are pending. */
  function TopUp(pending: seq<RequestBuffer>, n: nat, size: nat): (r: seq<RequestBuffer>)
    ensures |pending| >= n ==> r == pending
    ensures |pending| < n ==> |r| == n
    ensures r[..|pending|] == pending
    ensures forall k :: |pending| <= k < |r| ==> r[k] == RequestBuffer(size)
    decreases n - |pending|
  {
    if |pending| >= n then pending else TopUp(pending + [RequestBuffer(size)], n, size)
  }

  /** Every pending request asks for `size` bytes. */
  ghost predicate Uniform(pending: seq<RequestBuffer>, size: nat) {
    forall k :: 0 <= k < |pending| ==> pending[k] == RequestBuffer(size)
  }

  /**
   * Consuming the oldest of a full window of uniform requests and submitting
   * one fresh request leaves the window exactly as it was.
   */
  lemma ResubmitRestoresWindow(pending: seq<RequestBuffer>, n: nat, size: nat)
    requires Uniform(pending, size) && |pending| <= n && n > 0
    ensures TopUp(pending, n, size)[1..] + [RequestBuffer(size)] == TopUp(pending, n, size)
  {
  }

  class ReceiveStream {
    /** TRANSFER_SIZE: the number of bytes every bulk IN request asks for. */
    const transferSize: nat
    /** TRANSFERS_NUM: the number of requests kept in flight. */
    const transfersNum: nat
    /** The bulk IN requests submitted and not yet consumed, oldest first. */
    var pending: seq<RequestBuffer>
    /** How many bulk IN requests have been submitted so far. */
    ghost var submitted: nat

    ghost predicate Valid()
      reads this
    {
      transferSize > 0 && transfersNum > 0 &&
      |pending| <= transfersNum && Uniform(pending, transferSize)
    }

    /** `Device::from_interface`: the IN queue starts with nothing submitted. */
    constructor (transferSize: nat, transfersNum: nat)
      requires transferSize > 0 && transfersNum > 0
      ensures Valid()
      ensures this.transferSize == transferSize && this.transfersNum == transfersNum
      ensures pending == [] && submitted == 0
    {
      this.transferSize := transferSize;
      this.transfersNum := transfersNum;
      pending := [];
      submitted := 0;
    }

    /**
     * `poll_next`: top the window up to `transfersNum` pending requests, then
     * consume the oldest one's completion if there is one. A failed transfer
     * is reported and not replaced; a successful one is handed out as samples
     * and replaced by exactly one fresh request. The stream never ends.
     */
    method PollNext(completion: Option<Completion>) returns (r: Poll<Result<Vec<Sample>>>)
      requires Valid()
      modifies this
      ensures Valid()
      ensures r != Ready(None)
      ensures completion.None? ==>
        r == Pending && pending == TopUp(old(pending), transfersNum, transferSize) &&
        |pending| == transfersNum && submitted == old(submitted) + (transfersNum - |old(pending)|)
      ensures completion.Some? && completion.value.status.Failed? ==>
        r == Ready(Some(Err(Transfer(completion.value.status.error)))) &&
        pending == TopUp(old(pending), transfersNum, transferSize)[1..] &&
        |pending| == transfersNum - 1 && submitted == old(submitted) + (transfersNum - |old(pending)|)
      ensures completion.Some? && completion.value.status.Complete? ==>
        r == Ready(Some(Ok(Chunk(completion.value.data)))) &&
        pending == TopUp(old(pending), transfersNum, transferSize) &&
        |pending| == transfersNum && submitted == old(submitted) + (transfersNum - |old(pending)|) + 1
    {
      while |pending| < transfersNum
        invariant |pending| <= transfersNum && Uniform(pending, transferSize)
        invariant TopUp(pending, transfersNum, transferSize) == TopUp(old(pending), transfersNum, transferSize)
        invariant submitted == old(submitted) + (|pending| - |old(pending)|)
        decreases transfersNum - |pending|
      {
        pending := pending + [RequestBuffer(transferSize)];
        submitted := submitted + 1;
      }

      if completion.None? {
        return Pending;
      }
      var c := completion.value;
      pending := pending[1..];
      if c.status.Failed? {
        return Ready(Some(Err(Transfer(c.status.error))));
      }
      var chunk := Chunk(c.data);
      pending := pending + [RequestBuffer(transferSize)];
      submitted := submitted + 1;
      ResubmitRestoresWindow(old(pending), transfersNum, transferSize);
      r := Ready(Some(Ok(chunk)));
    }
  }
}
