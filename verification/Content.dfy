/** Artifact bytes, and the two algorithms applied to them. */
module Content {
  import opened Prelude

  type Byte = b: int | 0 <= b < 256
  type Bytes = seq<Byte>

  datatype Compression = Uncompressed | Zstd

  /** SHA-256 (as hexadecimal text) and Zstandard, known only by their laws. */
  datatype Codec = Codec(
    sha256: Bytes -> string,
    compress: Bytes -> Bytes,
    decompress: Bytes -> Option<Bytes>)
  {
    ghost predicate Lawful() {
      && (forall a, b :: sha256(a) == sha256(b) ==> a == b)
      && (forall c :: decompress(compress(c)) == Some(c))
    }

    /** The bytes a finished temporary file of this compression holds. */
    function Encode(compression: Compression, content: Bytes): Bytes {
      if compression.Zstd? then compress(content) else content
    }

    /** What reading a stored file back yields; `None` is a decoder error. */
    function Decode(compression: Compression, stored: Bytes): Option<Bytes> {
      if compression.Zstd? then decompress(stored) else Some(stored)
    }
  }
}
