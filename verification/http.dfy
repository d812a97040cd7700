/** The parts of hurl's HTTP response model that body decoding reads:
    the ordered header list and the raw body bytes. */
module Http {

  /** An unsigned byte, Rust's `u8`. */
  newtype byte = x: int | 0 <= x < 256

  type Bytes = seq<byte>

  /** One header as received: name and value, both kept verbatim. */
  datatype Header = Header(name: string, value: string)

  /** A response: its headers in receipt order and its body as received. */
  datatype Response = Response(headers: seq<Header>, body: Bytes)
}
