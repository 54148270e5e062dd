/** Streaming an upload: a size-limited reader over the request body, and the
    copy that hashes every chunk before writing it. */
module Upload {
  import opened Prelude
  import opened Content

  const COPY_CHUNK_BYTES: nat := 64 * 1024

  datatype CopyError = UploadSizeLimitExceeded

  function Concat(chunks: seq<Bytes>): Bytes {
    if chunks == [] then [] else chunks[0] + Concat(chunks[1..])
  }

  /** The request body as it arrives, in chunks of any size. */
  class StreamReader {
    var chunks: seq<Bytes>

    constructor (chunks: seq<Bytes>)
      ensures this.chunks == chunks
    {
      this.chunks := chunks;
    }

    ghost function Remaining(): Bytes
      reads this
    {
      Concat(chunks)
    }

    /** At most `capacity` bytes of the next non-empty chunk; none at the end. */
    method Read(capacity: nat) returns (data: Bytes)
      requires capacity > 0
      modifies this
      ensures old(Remaining()) == data + Remaining()
      ensures |data| <= capacity
      ensures data == [] <==> old(Remaining()) == []
    {
      while chunks != [] && chunks[0] == []
        invariant Remaining() == old(Remaining())
        decreases |chunks|
      {
        chunks := chunks[1..];
      }
      if chunks == [] {
        return [];
      }
      var first := chunks[0];
      if |first| <= capacity {
        data := first;
        chunks := chunks[1..];
      } else {
        data := first[..capacity];
        assert first == data + first[capacity..];
        chunks := [first[capacity..]] + chunks[1..];
      }
    }
  }

  /** Fails once more than `limit` bytes have been read. */
  class LimitedReader {
    const inner: StreamReader
    const limit: nat
    var readSoFar: nat

    constructor (inner: StreamReader, limit: nat)
      ensures this.inner == inner && this.limit == limit && readSoFar == 0
    {
      this.inner, this.limit, readSoFar := inner, limit, 0;
    }

    method Read(capacity: nat) returns (r: Result<Bytes, CopyError>)
      requires capacity > 0
      modifies this, inner
      ensures |old(inner.Remaining())| - |inner.Remaining()| == readSoFar - old(readSoFar)
      ensures r.Ok? <==> readSoFar <= limit
      ensures r.Ok? ==> old(inner.Remaining()) == r.value + inner.Remaining() && |r.value| <= capacity
      ensures r.Ok? ==> (r.value == [] <==> old(inner.Remaining()) == [])
    {
      var data := inner.Read(capacity);
      readSoFar := readSoFar + |data|;
      if readSoFar > limit {
        return Err(UploadSizeLimitExceeded);
      }
      return Ok(data);
    }
  }

  /** A temporary file, written through the compressor for compressing kinds.
      What is on disk is known only after `Shutdown`. */
  class TempFile {
    const compression: Compression
    var received: Bytes
    var onDisk: Option<Bytes>

    constructor (compression: Compression)
      ensures this.compression == compression && received == [] && onDisk == None
    {
      this.compression, received, onDisk := compression, [], None;
    }

    method WriteAll(data: Bytes)
      modifies this
      ensures received == old(received) + data && onDisk == None
    {
      received, onDisk := received + data, None;
    }

    /** Writes the compressor's trailer, which a flush alone would not. */
    method Shutdown(k: Codec)
      modifies this
      ensures received == old(received) && onDisk == Some(k.Encode(compression, received))
    {
      onDisk := Some(k.Encode(compression, received));
    }
  }

  /** Copies the body into `writer`, hashing the original bytes.  Succeeds
      exactly when the body is within the limit; then file, digest and size are
      the body's.  On overflow the writer has received a prefix of the body no
      longer than the limit. */
  method CopyHashing(k: Codec, reader: LimitedReader, writer: TempFile) returns (r: Result<(string, nat), CopyError>)
    requires reader.readSoFar == 0 && writer.received == []
    modifies reader, reader.inner, writer
    ensures
      var body := old(reader.inner.Remaining());
      && (r.Ok? <==> |body| <= reader.limit)
      && (r.Ok? ==>
            && r.value == (k.sha256(body), |body|)
            && writer.received == body
            && writer.onDisk == Some(k.Encode(writer.compression, body)))
      && (r.Err? ==> writer.received <= body && |writer.received| <= reader.limit)
  {
    ghost var body := reader.inner.Remaining();
    var hashed: Bytes := [];
    var total := 0;
    while true
      invariant body == hashed + reader.inner.Remaining()
      invariant writer.received == hashed && total == |hashed| == reader.readSoFar
      invariant total <= reader.limit
      decreases |reader.inner.Remaining()|
    {
      var chunk := reader.Read(COPY_CHUNK_BYTES);
      if chunk.Err? {
        return Err(chunk.error);
      }
      if chunk.value == [] {
        break;
      }
      hashed := hashed + chunk.value;
      writer.WriteAll(chunk.value);
      total := total + |chunk.value|;
    }
    assert hashed == body;
    writer.Shutdown(k);
    return Ok((k.sha256(hashed), total));
  }
}
