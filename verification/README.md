# hurl response-body decoding, modelled in Dafny

This project models how hurl's runner uncompresses an HTTP response body
(`src/runner/content_decoding.rs`). It has two parts:

- **The encoding classifier** (`content_encoding`). It scans the response headers in order. The first header whose
  ASCII-lower-cased name is `content-encoding` decides the result. Its value is compared exactly with
  `br`, `gzip`, `deflate` and `identity`. Any other value is an `UnsupportedContentEncoding` error that
  carries the value. With no such header there is no encoding.
- **The dispatcher** (`uncompress_body`) and its three codec wrappers. A classifier error is passed
  on. No encoding or `identity` returns the body unchanged. `gzip` goes to the gzip decoder,
  `deflate` to the zlib decoder and `br` to the brotli decoder. A decoder failure becomes
  `CouldNotUncompressResponse` tagged `gzip`, `zlib` or `brotli`. The brotli wrapper makes a single read
  into a 4096-byte buffer, so it never returns more than 4096 bytes.

Files, one module each:

- `wrappers.dfy`: `Option` and `Result`.
- `ascii.dfy`: ASCII-only case mapping, as in Rust's `to_ascii_lowercase`. Only `A`..`Z` change.
- `http.dfy`: the response model: headers in order, and the body as bytes.
- `codecs.dfy`: the decompression libraries, reduced to the calls the decoder makes on them.
- `content_decoding.dfy`: the classifier, the wrappers and the dispatcher.
- `properties.dfy`: properties that relate several calls.

The decompression libraries (brotli, and libflate's gzip and zlib decoders) are not modelled. Each call
the decoder makes on them is a function passed in through the `Codecs` datatype:

- a brotli `read` of the input into a buffer;
- a gzip or zlib decoder's construction, which can fail;
- reading that decoder to the end, which can also fail.

The brotli read is assumed to keep one promise that every `std::io::Read` implementation makes: the
buffer keeps its length, and the reported count is at most that length (`Codecs.HonoursReadContract`).
Without that promise, the Rust code's `buf[..n]` would panic.

The value comparison follows the code rather than section 8.4.1 of RFC 9110. The RFC makes content
codings case-insensitive and allows a comma-separated list. The code matches the value exactly, so
`BR` and `gzip, br` are both unsupported values (`ValueIsCaseSensitive`, `CodingListIsNotSplit`).

## Model

| member | source | states |
|---|---|---|
| `ContentDecoding.ParseEncoding` | src/runner/content_decoding.rs:41-46 | A value is accepted exactly when it is one of the four encoding tokens, and then names the encoding with that token; any other value is rejected with `UnsupportedContentEncoding` carrying the value verbatim |
| `ContentDecoding.ContentEncoding` | src/runner/content_decoding.rs:38-51 | The result is `Ok(None)` exactly when no header's lower-cased name is `content-encoding`; otherwise it is the classification of the first such header's value |
| `ContentDecoding.UncompressBrotli` | src/runner/content_decoding.rs:65-77 | Fails exactly when the single read fails, and then with tag `brotli`; on success it returns exactly the first `n` bytes of the buffer the read filled, where `n` is the count the read reports, so at most 4096 bytes |
| `ContentDecoding.UncompressStream` | src/runner/content_decoding.rs:79-101 | Succeeds exactly when the decoder can be constructed and read to the end, and then returns the full decoded stream; every failure is reported under the given tag |
| `ContentDecoding.UncompressGzip` | src/runner/content_decoding.rs:79-89 | A failure in either the construction or the read of the gzip decoder is `CouldNotUncompressResponse("gzip")`; a success is the whole decoded stream |
| `ContentDecoding.UncompressZlib` | src/runner/content_decoding.rs:91-101 | A failure in either the construction or the read of the zlib decoder is `CouldNotUncompressResponse("zlib")`; a success is the whole decoded stream |
| `ContentDecoding.UncompressBody` | src/runner/content_decoding.rs:53-62 | A classifier error is returned unchanged; no encoding or `identity` returns the body; any other failure is a decoder failure tagged with the algorithm of the classified encoding; for `gzip`, `deflate` and `br` the body decodes exactly when the gzip decoder, the zlib decoder or the brotli read, respectively, succeeds on it |
| `Ascii.ToLower` | src/runner/content_decoding.rs:40 | The lower-cased string has the same length as the input, and each character is the input's character lower-cased |
| `ContentDecoding.IsContentEncodingHeader` | src/runner/content_decoding.rs:40 | A header is the content-encoding header exactly when its name spells `content-encoding` in some ASCII casing |
| `Ascii.ToLowerChar` | src/runner/content_decoding.rs:40 | Lower-casing a character leaves no capital; only `A`..`Z` change, and they become the matching lower-case letter |
| `Ascii.ToLowerIdempotent` | src/runner/content_decoding.rs:40 | The lower-cased name has no capital, and lower-casing it again changes nothing |
| `Ascii.ToLowerEqualsIff` | src/runner/content_decoding.rs:40 | A lower-cased string equals a lower-case word exactly when the string spells the word in some ASCII casing |
| `DecodingProperties.HeaderNameIsCaseInsensitive` | src/runner/content_decoding.rs:40 | A header counts as the content-encoding header exactly when its name is `content-encoding` in any ASCII casing |
| `DecodingProperties.CanonicalNameMatches` | src/runner/content_decoding.rs:40 | The spelling `Content-Encoding` used by servers and by the tests is recognised |
| `DecodingProperties.ClassificationIgnoresNameCase` | src/runner/content_decoding.rs:39-48 | Two header lists that differ only in the ASCII casing of their names classify the same |
| `DecodingProperties.FirstHeaderWins` | src/runner/content_decoding.rs:39-48 | Headers appended after a content-encoding header, later content-encoding headers included, do not change the classification |
| `DecodingProperties.OtherHeadersIgnored` | src/runner/content_decoding.rs:39-50 | Headers that are not content-encoding headers, placed in front, do not change the classification |
| `DecodingProperties.ParseTokenRoundTrip` | src/runner/content_decoding.rs:41-46 | Parsing an encoding's token gives back that encoding, and a value parses to an encoding only if it is that encoding's token |
| `DecodingProperties.ValueIsCaseSensitive` | src/runner/content_decoding.rs:41-46 | `BR`, `Gzip` and `DEFLATE` are unsupported values, carried verbatim in the error |
| `DecodingProperties.CodingListIsNotSplit` | src/runner/content_decoding.rs:41-46 | A comma-separated list such as `gzip, br` is one unsupported value |
| `DecodingProperties.ClassifierExamples` | src/runner/content_decoding.rs:107-144 | No headers give no encoding; `Content-Encoding: xx` is unsupported with value `xx`; `Content-Encoding: br` is brotli |
| `DecodingProperties.UnencodedBodyPassesThrough` | src/runner/content_decoding.rs:60 | Without a content-encoding header the body comes back byte for byte, whatever it holds and whatever the codecs do |
| `DecodingProperties.IdentityBodyPassesThrough` | src/runner/content_decoding.rs:56 | When the first content-encoding header is `identity`, the body comes back byte for byte |
| `DecodingProperties.ClassifierErrorUsesNoCodec` | src/runner/content_decoding.rs:54 | A classifier error is the result whatever codecs are supplied, so no decoder is consulted |
| `DecodingProperties.DispatchUsesOnlyItsDecoder` | src/runner/content_decoding.rs:57-59 | For a compressed encoding, the result depends only on the decoder that encoding names: brotli for `br`, gzip for `gzip`, zlib for `deflate` |
| `DecodingProperties.DecodedBodyIsDecoderOutput` | src/runner/content_decoding.rs:57-59 | A successful gzip or zlib decode is the decoder's full output, and a successful brotli decode is the prefix of the read buffer up to the reported count |
| `DecodingProperties.DecodeSucceedsIffDecoderDoes` | src/runner/content_decoding.rs:57-59 | For `gzip`, `deflate` and `br`, the body decodes exactly when the wrapper of the named decoder succeeds on it |
| `DecodingProperties.BrotliBodyFitsOneBuffer` | src/runner/content_decoding.rs:66-76 | A successfully decoded brotli body is at most 4096 bytes long |
| `DecodingProperties.DecodingErrorsAreTyped` | src/runner/content_decoding.rs:38-101 | Every failure is either the rejected value of the first content-encoding header, or a decoder failure tagged `brotli`, `gzip` or `zlib` |
| `DecodingProperties.DecoderExamples` | src/runner/content_decoding.rs:146-210 | Given codecs that decode the test vectors as the libraries do, hurl's decoding tests hold: `Hello World!` from brotli, gzip and zlib, an unencoded body passed through, and one-byte garbage rejected as `brotli` or `gzip` |

## Left out

- The brotli, gzip and zlib decompression algorithms. They are foreign library calls and are passed in as functions. The `Hello World!` test vectors can therefore only be stated as conditions on those functions (`DecodingProperties.DecoderExamples`), not proved.
- The reader and buffer mechanics of `std::io::Read`. The brotli decompressor's internal 4096-byte buffer-size argument is part of the opaque read. `headers.clone()` has no effect on the result and is not modelled.
- ContentDecoding.UncompressBrotli: requires the brotli read to keep the `std::io::Read` promise that its count is at most the buffer length. A read that reports more would make the Rust code's `buf[..n]` panic. That panic is not modelled, and the same requirement carries over to `ContentDecoding.UncompressBody`.
- The response's `version` and `status` fields, which decoding never reads.
- The other variants of hurl's `RunnerError`. This code produces only `UnsupportedContentEncoding` and `CouldNotUncompressResponse`.
- Unicode case folding. `to_ascii_lowercase` changes only `A`..`Z`, and so does the model.
- Determinism of decoding holds trivially, because every member here is a mathematical function.
