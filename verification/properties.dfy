/** Properties of the body decoder that relate several calls, or a call
    and an independent description of what it should do. */
module DecodingProperties {
  import opened Wrappers
  import opened Http
  import opened Codecs
  import Ascii
  import opened ContentDecoding

  // ---------------------------------------------------------------------
  // The classifier

  /** Once a content-encoding header has been seen, headers appended after
      it, content-encoding ones included, change nothing. */
  lemma {:induction false} FirstHeaderWins(h: seq<Header>, t: seq<Header>)
    requires exists j :: 0 <= j < |h| && IsContentEncodingHeader(h[j])
    ensures ContentEncoding(h + t) == ContentEncoding(h)
  {
    if IsContentEncodingHeader(h[0]) {
      assert (h + t)[0] == h[0];
    } else {
      var j :| 0 <= j < |h| && IsContentEncodingHeader(h[j]);
      assert h[1..][j - 1] == h[j];
      FirstHeaderWins(h[1..], t);
      assert (h + t)[1..] == h[1..] + t;
    }
  }

  /** Headers that do not name the content encoding can be put in front of
      a header list without changing its classification. */
  lemma {:induction false} OtherHeadersIgnored(p: seq<Header>, h: seq<Header>)
    requires forall j :: 0 <= j < |p| ==> !IsContentEncodingHeader(p[j])
    ensures ContentEncoding(p + h) == ContentEncoding(h)
  {
    if |p| > 0 {
      assert (p + h)[0] == p[0];
      assert (p + h)[1..] == p[1..] + h;
      OtherHeadersIgnored(p[1..], h);
    } else {
      assert p + h == h;
    }
  }

  /** A header names the content encoding exactly when its name spells
      `content-encoding` in some ASCII casing (`Content-Encoding`,
      `CONTENT-ENCODING`, ...); nothing else, non-ASCII look-alikes
      included, qualifies. */
  lemma HeaderNameIsCaseInsensitive(h: Header)
    ensures IsContentEncodingHeader(h) <==> Ascii.IsCaseVariant(h.name, ContentEncodingName)
  {
  }

  /** Two header lists that differ only in the ASCII casing of their names. */
  predicate SameUpToNameCase(a: seq<Header>, b: seq<Header>) {
    && |a| == |b|
    && forall i :: 0 <= i < |a| ==>
         a[i].value == b[i].value && Ascii.ToLower(a[i].name) == Ascii.ToLower(b[i].name)
  }

  /** Re-casing header names never changes the classification. */
  lemma ClassificationIgnoresNameCase(a: seq<Header>, b: seq<Header>)
    requires SameUpToNameCase(a, b)
    ensures ContentEncoding(a) == ContentEncoding(b)
  {
  }

  /** The index of the first content-encoding header of `headers`. */
  function FirstIndex(headers: seq<Header>): (i: nat)
    requires exists j :: 0 <= j < |headers| && IsContentEncodingHeader(headers[j])
    ensures IsFirstContentEncoding(headers, i)
  {
    if IsContentEncodingHeader(headers[0]) then 0
    else
      var j :| 0 <= j < |headers| && IsContentEncodingHeader(headers[j]);
      assert headers[1..][j - 1] == headers[j];
      1 + FirstIndex(headers[1..])
  }

  /** Reading a value and writing the encoding back is the identity, in both
      directions: the four tokens are the only accepted values. */
  lemma ParseTokenRoundTrip(e: Encoding, v: string)
    ensures ParseEncoding(Token(e)) == Ok(e)
    ensures ParseEncoding(v) == Ok(e) <==> v == Token(e)
  {
  }

  /** Value matching is case-sensitive: capitalised tokens are rejected and
      carried back verbatim in the error. */
  lemma ValueIsCaseSensitive()
    ensures ParseEncoding("BR") == Err(UnsupportedContentEncoding("BR"))
    ensures ParseEncoding("Gzip") == Err(UnsupportedContentEncoding("Gzip"))
    ensures ParseEncoding("DEFLATE") == Err(UnsupportedContentEncoding("DEFLATE"))
  {
  }

  /** A comma-separated list of codings is one unsupported value, not a list. */
  lemma CodingListIsNotSplit()
    ensures ParseEncoding("gzip, br") == Err(UnsupportedContentEncoding("gzip, br"))
  {
  }

  /** The usual spelling `Content-Encoding` is recognised. */
  lemma CanonicalNameMatches()
    ensures Ascii.ToLower("Content-Encoding") == ContentEncodingName
  {
  }

  /** The classifier's unit tests: no headers, an unknown value, and `br`. */
  lemma ClassifierExamples()
    ensures ContentEncoding([]) == Ok(None)
    ensures ContentEncoding([Header("Content-Encoding", "xx")]) == Err(UnsupportedContentEncoding("xx"))
    ensures ContentEncoding([Header("Content-Encoding", "br")]) == Ok(Some(Brotli))
  {
  }

  // ---------------------------------------------------------------------
  // The dispatcher

  /** Without a content encoding, or with `identity`, the body comes back
      byte for byte, whatever it holds and whatever the codecs do. */
  lemma UnencodedBodyPassesThrough(codecs: Codecs, response: Response)
    requires codecs.Valid()
    requires forall j :: 0 <= j < |response.headers| ==> !IsContentEncodingHeader(response.headers[j])
    ensures UncompressBody(codecs, response) == Ok(response.body)
  {
  }

  /** A first content-encoding header of `identity` passes the body through. */
  lemma IdentityBodyPassesThrough(codecs: Codecs, response: Response, i: nat)
    requires codecs.Valid()
    requires IsFirstContentEncoding(response.headers, i) && response.headers[i].value == "identity"
    ensures UncompressBody(codecs, response) == Ok(response.body)
  {
  }

  /** A classification error comes back as it is, and no decoder is
      consulted: any other set of codecs gives the same answer. */
  lemma ClassifierErrorUsesNoCodec(c1: Codecs, c2: Codecs, response: Response)
    requires c1.Valid() && c2.Valid()
    requires ContentEncoding(response.headers).Err?
    ensures UncompressBody(c1, response) == UncompressBody(c2, response) == Err(ContentEncoding(response.headers).error)
  {
  }

  /** Each encoding reaches exactly one decoder: the result depends on the
      codec the encoding names and on no other. */
  lemma DispatchUsesOnlyItsDecoder(c1: Codecs, c2: Codecs, response: Response, e: Encoding)
    requires c1.Valid() && c2.Valid()
    requires ContentEncoding(response.headers) == Ok(Some(e))
    requires e == Brotli ==> c1.brotli == c2.brotli
    requires e == Gzip ==> c1.gzip == c2.gzip
    requires e == Deflate ==> c1.zlib == c2.zlib
    ensures UncompressBody(c1, response) == UncompressBody(c2, response)
  {
  }

  /** A successful decode returns the decoder's output unchanged: the whole
      stream for gzip and zlib, the reported prefix of one buffer for brotli. */
  lemma DecodedBodyIsDecoderOutput(codecs: Codecs, response: Response)
    requires codecs.Valid()
    requires UncompressBody(codecs, response).Ok?
    ensures ContentEncoding(response.headers) == Ok(Some(Gzip)) ==>
      UncompressBody(codecs, response).value == codecs.gzip.readToEnd(response.body).value
    ensures ContentEncoding(response.headers) == Ok(Some(Deflate)) ==>
      UncompressBody(codecs, response).value == codecs.zlib.readToEnd(response.body).value
    ensures ContentEncoding(response.headers) == Ok(Some(Brotli)) ==>
      var (buf, n) := codecs.brotli(response.body, Zeros(BrotliBufferSize)).value;
      n <= BrotliBufferSize && UncompressBody(codecs, response).value == buf[..n]
  {
  }

  /** A body in a compressed encoding decodes exactly when the decoder that
      encoding names succeeds on it. */
  lemma DecodeSucceedsIffDecoderDoes(codecs: Codecs, response: Response, e: Encoding)
    requires codecs.Valid()
    requires ContentEncoding(response.headers) == Ok(Some(e))
    ensures e == Gzip ==> (UncompressBody(codecs, response).Ok? <==>
      UncompressGzip(codecs.gzip, response.body).Ok?)
    ensures e == Deflate ==> (UncompressBody(codecs, response).Ok? <==>
      UncompressZlib(codecs.zlib, response.body).Ok?)
    ensures e == Brotli ==> (UncompressBody(codecs, response).Ok? <==>
      UncompressBrotli(codecs.brotli, response.body).Ok?)
  {
  }

  /** A brotli body decodes to at most one buffer's worth of bytes, however
      long the decompressed stream is. */
  lemma BrotliBodyFitsOneBuffer(codecs: Codecs, response: Response)
    requires codecs.Valid()
    requires ContentEncoding(response.headers) == Ok(Some(Brotli))
    requires UncompressBody(codecs, response).Ok?
    ensures |UncompressBody(codecs, response).value| <= BrotliBufferSize
  {
  }

  /** Every failure is either the first content-encoding header's value,
      rejected, or a decoder failure tagged `brotli`, `gzip` or `zlib`. */
  lemma DecodingErrorsAreTyped(codecs: Codecs, response: Response)
    requires codecs.Valid()
    requires UncompressBody(codecs, response).Err?
    ensures match UncompressBody(codecs, response).error
      case UnsupportedContentEncoding(v) =>
        exists i :: IsFirstContentEncoding(response.headers, i) && response.headers[i].value == v
      case CouldNotUncompressResponse(tag) =>
        tag in {"brotli", "gzip", "zlib"}
  {
    var h := response.headers;
    if ContentEncoding(h).Err? {
      assert exists j :: 0 <= j < |h| && IsContentEncodingHeader(h[j]);
      var i := FirstIndex(h);
      assert IsFirstContentEncoding(h, i);
    }
  }

  /** The decoder unit tests, stated against codecs that behave on the test
      vectors as the libraries do: the brotli, gzip and zlib streams of
      `Hello World!`, a body without headers, and a one-byte body that
      neither brotli nor gzip accepts. */
  lemma DecoderExamples(codecs: Codecs)
    requires codecs.Valid()
    requires codecs.brotli(BrotliHello, Zeros(BrotliBufferSize)) == Some((HelloWorld + Zeros(BrotliBufferSize - 12), 12))
    requires codecs.brotli([0x21], Zeros(BrotliBufferSize)).None?
    requires !codecs.gzip.open([0x21])
    requires codecs.gzip.open(GzipHello) && codecs.gzip.readToEnd(GzipHello) == Some(HelloWorld)
    requires codecs.zlib.open(ZlibHello) && codecs.zlib.readToEnd(ZlibHello) == Some(HelloWorld)
    ensures UncompressBody(codecs, Response([Header("Content-Encoding", "br")], BrotliHello)) == Ok(HelloWorld)
    ensures UncompressBody(codecs, Response([], HelloWorld)) == Ok(HelloWorld)
    ensures UncompressGzip(codecs.gzip, GzipHello) == Ok(HelloWorld)
    ensures UncompressZlib(codecs.zlib, ZlibHello) == Ok(HelloWorld)
    ensures UncompressBrotli(codecs.brotli, [0x21]) == Err(CouldNotUncompressResponse("brotli"))
    ensures UncompressGzip(codecs.gzip, [0x21]) == Err(CouldNotUncompressResponse("gzip"))
  {
  }

  /** `Hello World!` as bytes. */
  const HelloWorld: Bytes := [0x48, 0x65, 0x6c, 0x6c, 0x6f, 0x20, 0x57, 0x6f, 0x72, 0x6c, 0x64, 0x21]

  /** A brotli stream that decompresses to `Hello World!`. */
  const BrotliHello: Bytes := [0x21, 0x2c, 0x00, 0x04] + HelloWorld

  /** A gzip member (with file name `data.txt`) holding `Hello World!`. */
  const GzipHello: Bytes := [
    0x1f, 0x8b, 0x08, 0x08, 0xa7, 0x52, 0x85, 0x5f, 0x00, 0x03, 0x64, 0x61, 0x74, 0x61,
    0x2e, 0x74, 0x78, 0x74, 0x00, 0xf3, 0x48, 0xcd, 0xc9, 0xc9, 0x57, 0x08, 0xcf, 0x2f,
    0xca, 0x49, 0x51, 0x04, 0x00, 0xa3, 0x1c, 0x29, 0x1c, 0x0c, 0x00, 0x00, 0x00]

  /** A zlib stream holding `Hello World!`. */
  const ZlibHello: Bytes := [
    0x78, 0x9c, 0xf3, 0x48, 0xcd, 0xc9, 0xc9, 0x57, 0x08, 0xcf, 0x2f, 0xca, 0x49, 0x51,
    0x04, 0x00, 0x1c, 0x49, 0x04, 0x3e]
}
