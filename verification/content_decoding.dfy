/** Uncompressing a response body according to its `Content-Encoding`
    header: classify the header, then hand the body to the matching
    decoder or pass it through unchanged. */
module ContentDecoding {
  import opened Wrappers
  import opened Http
  import opened Codecs
  import Ascii

  /** The content codings the decoder recognises. */
  datatype Encoding = Brotli | Gzip | Deflate | Identity

  /** The two runner errors body decoding can produce. */
  datatype RunnerError =
    | UnsupportedContentEncoding(value: string)
    | CouldNotUncompressResponse(algorithm: string)

  /** The header name, in the lower case it is compared in. */
  const ContentEncodingName: string := "content-encoding"

  /** Size of the single buffer the brotli decoder reads into. */
  const BrotliBufferSize: nat := 4096

  /** The header value that names each encoding. */
  function Token(e: Encoding): string {
    match e
    case Brotli => "br"
    case Gzip => "gzip"
    case Deflate => "deflate"
    case Identity => "identity"
  }

  /** The algorithm name reported when decoding with `e` fails. */
  function AlgorithmTag(e: Encoding): string
    requires e != Identity
  {
    match e
    case Brotli => "brotli"
    case Gzip => "gzip"
    case Deflate => "zlib"
  }

  /** Reads a header value as an encoding. The comparison is exact: no case
      folding, no trimming, no splitting of comma-separated lists. */
  function ParseEncoding(v: string): (r: Result<Encoding, RunnerError>)
    ensures r.Ok? ==> Token(r.value) == v
    ensures r.Err? ==> r.error == UnsupportedContentEncoding(v)
    ensures r.Err? <==> forall e: Encoding :: Token(e) != v
  {
    match v
    case "br" => Ok(Brotli)
    case "gzip" => Ok(Gzip)
    case "deflate" => Ok(Deflate)
    case "identity" => Ok(Identity)
    case _ => Err(UnsupportedContentEncoding(v))
  }

  /** A header names the content encoding when its ASCII-lower-cased name is
      `content-encoding`. */
  predicate IsContentEncodingHeader(h: Header): (r: bool)
    ensures r <==> Ascii.IsCaseVariant(h.name, ContentEncodingName)
  {
    Ascii.ToLower(h.name) == ContentEncodingName
  }

  /** Index `i` holds the first content-encoding header of `headers`. */
  predicate IsFirstContentEncoding(headers: seq<Header>, i: int) {
    && 0 <= i < |headers|
    && IsContentEncodingHeader(headers[i])
    && forall j :: 0 <= j < i ==> !IsContentEncodingHeader(headers[j])
  }

  /** The classification a header value leads to, wrapped as the classifier returns it. */
  function Classification(v: string): Result<Option<Encoding>, RunnerError> {
    match ParseEncoding(v)
    case Ok(e) => Ok(Some(e))
    case Err(err) => Err(err)
  }

  /** The response's content encoding: the first content-encoding header,
      scanning in order, decides; with none, there is no encoding. */
  function ContentEncoding(headers: seq<Header>): (r: Result<Option<Encoding>, RunnerError>)
    ensures r == Ok(None) <==> forall j :: 0 <= j < |headers| ==> !IsContentEncodingHeader(headers[j])
    ensures forall i {:trigger IsFirstContentEncoding(headers, i)} ::
      IsFirstContentEncoding(headers, i) ==> r == Classification(headers[i].value)
  {
    if |headers| == 0 then Ok(None)
    else if IsContentEncodingHeader(headers[0]) then Classification(headers[0].value)
    else
      var r := ContentEncoding(headers[1..]);
      assert forall i :: 1 <= i < |headers| && IsFirstContentEncoding(headers, i) ==> IsFirstContentEncoding(headers[1..], i - 1);
      r
  }

  /** The brotli path: one read into a zeroed 4096-byte buffer, keeping the
      bytes the read reports. */
  function UncompressBrotli(read: BrotliRead, data: Bytes): (r: Result<Bytes, RunnerError>)
    requires HonoursReadContract(read)
    ensures r.Err? <==> read(data, Zeros(BrotliBufferSize)).None?
    ensures r.Err? ==> r.error == CouldNotUncompressResponse("brotli")
    ensures r.Ok? ==> |r.value| <= BrotliBufferSize && r.value <= read(data, Zeros(BrotliBufferSize)).value.0
    ensures r.Ok? ==> |r.value| == read(data, Zeros(BrotliBufferSize)).value.1
  {
    match read(data, Zeros(BrotliBufferSize))
    case None => Err(CouldNotUncompressResponse("brotli"))
    case Some((buf, n)) => Ok(buf[..n])
  }

  /** A zero-filled buffer of `n` bytes. */
  function Zeros(n: nat): (r: Bytes)
    ensures |r| == n
  {
    seq(n, _ => 0)
  }

  /** The shared shape of the gzip and zlib paths: construct the decoder,
      read it to the end, and report any failure under `tag`. */
  function UncompressStream(decoder: StreamDecoder, tag: string, data: Bytes): (r: Result<Bytes, RunnerError>)
    ensures r.Ok? <==> decoder.open(data) && decoder.readToEnd(data).Some?
    ensures r.Ok? ==> r.value == decoder.readToEnd(data).value
    ensures r.Err? ==> r.error == CouldNotUncompressResponse(tag)
  {
    if !decoder.open(data) then Err(CouldNotUncompressResponse(tag))
    else match decoder.readToEnd(data)
      case None => Err(CouldNotUncompressResponse(tag))
      case Some(out) => Ok(out)
  }

  /** The gzip path: failures are reported as `gzip`. */
  function UncompressGzip(decoder: StreamDecoder, data: Bytes): (r: Result<Bytes, RunnerError>)
    ensures r.Ok? <==> decoder.open(data) && decoder.readToEnd(data).Some?
    ensures r.Ok? ==> r.value == decoder.readToEnd(data).value
    ensures r.Err? ==> r.error == CouldNotUncompressResponse("gzip")
  {
    UncompressStream(decoder, "gzip", data)
  }

  /** The deflate path, decoded as zlib: failures are reported as `zlib`. */
  function UncompressZlib(decoder: StreamDecoder, data: Bytes): (r: Result<Bytes, RunnerError>)
    ensures r.Ok? <==> decoder.open(data) && decoder.readToEnd(data).Some?
    ensures r.Ok? ==> r.value == decoder.readToEnd(data).value
    ensures r.Err? ==> r.error == CouldNotUncompressResponse("zlib")
  {
    UncompressStream(decoder, "zlib", data)
  }

  /** The decoded body of `response`. */
  function UncompressBody(codecs: Codecs, response: Response): (r: Result<Bytes, RunnerError>)
    requires codecs.Valid()
    ensures ContentEncoding(response.headers).Err? ==> r == Err(ContentEncoding(response.headers).error)
    ensures ContentEncoding(response.headers) in {Ok(None), Ok(Some(Identity))} ==> r == Ok(response.body)
    ensures r.Err? && ContentEncoding(response.headers).Ok? ==>
      exists e :: ContentEncoding(response.headers) == Ok(Some(e)) && e != Identity && r.error == CouldNotUncompressResponse(AlgorithmTag(e))
    ensures ContentEncoding(response.headers) == Ok(Some(Gzip)) ==>
      (r.Ok? <==> codecs.gzip.open(response.body) && codecs.gzip.readToEnd(response.body).Some?)
    ensures ContentEncoding(response.headers) == Ok(Some(Deflate)) ==>
      (r.Ok? <==> codecs.zlib.open(response.body) && codecs.zlib.readToEnd(response.body).Some?)
    ensures ContentEncoding(response.headers) == Ok(Some(Brotli)) ==>
      (r.Ok? <==> codecs.brotli(response.body, Zeros(BrotliBufferSize)).Some?)
  {
    match ContentEncoding(response.headers)
    case Err(err) => Err(err)
    case Ok(Some(Identity)) => Ok(response.body)
    case Ok(Some(Gzip)) => UncompressGzip(codecs.gzip, response.body)
    case Ok(Some(Deflate)) => UncompressZlib(codecs.zlib, response.body)
    case Ok(Some(Brotli)) => UncompressBrotli(codecs.brotli, response.body)
    case Ok(None) => Ok(response.body)
  }
}
