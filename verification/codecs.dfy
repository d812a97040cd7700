/** The decompression libraries the decoder delegates to (brotli and
    libflate's gzip and zlib decoders), seen only through the calls the
    decoder makes on them. Their algorithms are not modelled: each call is a
    function supplied by the caller. */
module Codecs {
  import opened Wrappers
  import opened Http

  /** One `read` call on a brotli decompressor over `data`, into the buffer
      `buf`: either an I/O error, or the buffer after the call together with
      the number of bytes the call reports as written. */
  type BrotliRead = (Bytes, Bytes) -> Option<(Bytes, nat)>

  /** The promise every `std::io::Read` implementation makes: the buffer
      keeps its length and the reported count is at most that length. */
  ghost predicate HonoursReadContract(read: BrotliRead) {
    forall data: Bytes, buf: Bytes {:trigger read(data, buf)} ::
      read(data, buf).Some? ==> |read(data, buf).value.0| == |buf| && read(data, buf).value.1 <= |buf|
  }

  /** A libflate decoder over `data`: `open` says whether constructing it
      (which parses the stream header) succeeds, and `readToEnd` is the
      outcome of reading the decoder to end of stream. */
  datatype StreamDecoder = StreamDecoder(open: Bytes -> bool, readToEnd: Bytes -> Option<Bytes>)

  /** The three decoders available to the body decoder. */
  datatype Codecs = Codecs(brotli: BrotliRead, gzip: StreamDecoder, zlib: StreamDecoder) {
    ghost predicate Valid() {
      HonoursReadContract(brotli)
    }
  }
}
