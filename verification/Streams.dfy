/** Byte streams with short reads, and the adapter that caps how much a bundle may decompress to. */
module Streams {
  import opened Foundation

  datatype IoError = ReadFailed | DecodedSizeLimitExceeded

  /**
   An input stream. Each read returns some number of bytes of its choice, at least one while any
   remain and the buffer is not empty. An unreliable stream may also fail, consuming nothing.
   */
  class ByteSource {
    const data: Bytes
    const reliable: bool
    var pos: nat

    constructor (data: Bytes, reliable: bool)
      ensures Valid() && this.data == data && this.reliable == reliable && pos == 0
    {
      this.data, this.reliable, pos := data, reliable, 0;
    }

    ghost predicate Valid()
      reads this
    {
      pos <= |data|
    }

    ghost function Rest(): Bytes
      requires Valid()
      reads this
    {
      data[pos..]
    }

    method Read(max: nat) returns (r: Result<Bytes, IoError>)
      requires Valid()
      modifies this
      ensures Valid() && pos >= old(pos)
      ensures r.Ok? ==> |r.value| <= max && old(Rest()) == r.value + Rest()
      ensures r.Ok? && max > 0 && old(Rest()) != [] ==> r.value != []
      ensures r.Err? ==> r.error == ReadFailed && !reliable && pos == old(pos)
    {
      if !reliable {
        if * {
          return Err(ReadFailed);
        }
      }
      var available := |data| - pos;
      var n: nat :| n <= max && n <= available && (max > 0 && available > 0 ==> n > 0);
      r := Ok(data[pos..pos + n]);
      pos := pos + n;
    }
  }

  lemma AdjacentSlices(data: Bytes, i: nat, j: nat, k: nat)
    requires i <= j <= k <= |data|
    ensures data[i..j] + data[j..k] == data[i..k]
  {
  }

  /**
   The decoded-size guard. `delivered` records what callers received; `swallowed` counts the bytes
   lost to probes that reported the limit.
   */
  class LimitedReader {
    const inner: ByteSource
    ghost const origin: nat
    ghost const limit: u64
    var remaining: u64
    ghost var delivered: Bytes
    ghost var swallowed: nat

    constructor (inner: ByteSource, limit: u64)
      requires inner.Valid()
      ensures Valid() && this.inner == inner && this.limit == limit && origin == inner.pos
      ensures delivered == [] && swallowed == 0
    {
      this.inner, remaining := inner, limit;
      origin, this.limit, delivered, swallowed := inner.pos, limit, [], 0;
    }

    /** Holds after every read of every run: callers hold a prefix of the stream within the limit. */
    ghost predicate Valid()
      reads this, inner
    {
      && inner.Valid()
      && origin + |delivered| + swallowed == inner.pos
      && delivered == inner.data[origin..origin + |delivered|]
      && |delivered| + remaining == limit
      && (swallowed > 0 ==> remaining == 0)
    }

    /** The whole wrapped stream, from where the guard was put on. */
    ghost function Stream(): Bytes
      requires Valid()
      reads this, inner
    {
      inner.data[origin..]
    }

    method Read(bufferLen: nat) returns (r: Result<Bytes, IoError>)
      requires Valid()
      modifies this, inner
      ensures Valid()
      ensures r.Ok? ==> |r.value| <= bufferLen && delivered == old(delivered) + r.value && swallowed == old(swallowed)
      ensures r.Err? ==> delivered == old(delivered) && bufferLen > 0
      ensures r.Err? && inner.reliable ==> r.error == DecodedSizeLimitExceeded
      // The limit is reported only at the limit, and only for a stream that is longer.
      ensures r == Err(DecodedSizeLimitExceeded) ==>
                |delivered| == limit < |Stream()| && swallowed == old(swallowed) + 1
      // End of stream accounts for every byte: delivered, or lost to an earlier limit report.
      ensures r == Ok([]) && bufferLen > 0 ==> |Stream()| == |delivered| + swallowed
      ensures r.Ok? && r.value != [] ==> inner.pos > old(inner.pos)
    {
      if bufferLen == 0 {
        return Ok([]);
      }
      if remaining == 0 {
        var probe := inner.Read(1);
        match probe {
          case Err(e) => return Err(e);
          case Ok(bytes) =>
            if bytes == [] {
              return Ok([]);
            }
            swallowed := swallowed + 1;
            return Err(DecodedSizeLimitExceeded);
        }
      }
      var cap := if bufferLen < remaining then bufferLen else remaining;
      ghost var before := inner.pos;
      var read := inner.Read(cap);
      match read {
        case Err(e) => return Err(e);
        case Ok(bytes) =>
          remaining := remaining - |bytes|;
          AdjacentSlices(inner.data, origin, before, inner.pos);
          delivered := delivered + bytes;
          return Ok(bytes);
      }
    }

    /** Reads the next `count` bytes, or what is left when the stream ends before. */
    method ReadUpTo(count: nat) returns (r: Result<Bytes, IoError>)
      requires Valid() && swallowed == 0
      modifies this, inner
      ensures Valid()
      ensures r.Ok? ==>
                && swallowed == 0 && delivered == old(delivered) + r.value && |r.value| <= count
                && (|r.value| < count ==> delivered == Stream())
      ensures r == Err(DecodedSizeLimitExceeded) ==> limit < |old(delivered)| + count && limit < |Stream()|
      ensures r.Err? && inner.reliable ==> r.error == DecodedSizeLimitExceeded
    {
      var out: Bytes := [];
      while |out| < count
        invariant Valid() && delivered == old(delivered) + out && swallowed == 0 && |out| <= count
        decreases |inner.data| - inner.pos
      {
        var wanted: nat :| 0 < wanted <= count - |out|;
        var chunk := Read(wanted);
        match chunk {
          case Err(e) => return Err(e);
          case Ok(bytes) =>
            if bytes == [] {
              assert delivered == Stream();
              return Ok(out);
            }
            out := out + bytes;
        }
      }
      return Ok(out);
    }

    /**
     Reads to the end with buffers of any size. A stream within the limit arrives whole; a longer
     one is always refused.
     */
    method ReadToEnd() returns (r: Result<Bytes, IoError>)
      requires Valid() && delivered == [] && swallowed == 0
      modifies this, inner
      ensures Valid()
      ensures inner.reliable ==> r == if |Stream()| <= limit then Ok(Stream()) else Err(DecodedSizeLimitExceeded)
      ensures r.Ok? ==> r.value == Stream() && |Stream()| <= limit
      ensures r == Err(DecodedSizeLimitExceeded) ==> |Stream()| > limit
    {
      var out: Bytes := [];
      while true
        invariant Valid() && delivered == out && swallowed == 0
        decreases |inner.data| - inner.pos
      {
        var bufferLen: nat :| bufferLen > 0;
        var chunk := Read(bufferLen);
        match chunk {
          case Err(e) => return Err(e);
          case Ok(bytes) =>
            if bytes == [] {
              assert Stream() == delivered;
              return Ok(out);
            }
            out := out + bytes;
        }
      }
    }
  }

  /**
   After a limit report the guard may still signal a clean end: the probe that found the extra byte
   consumed it. So end of stream means "all delivered" exactly while no limit has been reported.
   */
  method EndOfStreamAfterLimit()
    returns (reader: LimitedReader, first: Result<Bytes, IoError>, second: Result<Bytes, IoError>)
    ensures reader.Valid() && reader.limit == 0 && reader.Stream() == [7]
    ensures reader.delivered == [] && reader.swallowed == 1 && reader.inner.pos == 1
    ensures first == Err(DecodedSizeLimitExceeded) && second == Ok([])
  {
    var source := new ByteSource([7], true);
    reader := new LimitedReader(source, 0);
    first := reader.Read(1);
    assert reader.Stream() == [7];
    second := reader.Read(1);
  }
}
