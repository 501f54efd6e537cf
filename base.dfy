/** Opaque payloads of the TLS wire format: the unprefixed `Payload`, which takes the rest of
    the input, and the vectors with a one-, two- or three-byte length prefix (section 3.4 of
    RFC 8446): `PayloadU8`, `PayloadU16`, `PayloadU24` and a `Certificate` body, which is
    encoded like `PayloadU24`. */
module Base {
  import opened Wrappers
  import opened Codec

  datatype Payload = Payload(bytes: seq<byte>)
  datatype PayloadU8 = PayloadU8(bytes: seq<byte>)
  datatype PayloadU16 = PayloadU16(bytes: seq<byte>)
  datatype PayloadU24 = PayloadU24(bytes: seq<byte>)
  datatype Certificate = Certificate(bytes: seq<byte>)

  /** Widths, in bytes, of the length prefixes. */
  const U8_WIDTH: nat := 1
  const U16_WIDTH: nat := 2
  const U24_WIDTH: nat := 3

  /** What `encode` appends for a `width`-byte length prefix: the length cast to the prefix
      type (`len as u8`, `len as u16`, `u24(len as u32)`, all of which keep the low bits),
      big-endian, followed by the body. */
  function LengthPrefixed(width: nat, body: seq<byte>): (r: seq<byte>)
    ensures |r| == width + |body|
    ensures r[width..] == body
  {
    EncodeUint(Truncate(|body|, width), width) + body
  }

  /** What a prefixed `read` yields from `input`, and how many bytes it moved the reader. */
  datatype Decoded = Decoded(body: Option<seq<byte>>, consumed: nat)

  /** The prefixed read: the prefix, then a sub-reader over the announced length, then all of
      it. A missing prefix moves nothing; a present prefix with a short body still consumes
      the prefix. */
  function ReadPrefixed(width: nat, input: seq<byte>): (d: Decoded)
    ensures d.consumed <= |input|
  {
    if |input| < width then Decoded(None, 0)
    else
      var len := DecodeUint(input[..width]);
      if |input| - width < len then Decoded(None, width)
      else Decoded(Some(input[width..width + len]), width + len)
  }

  /** Reading a prefix that announces `n` bytes, followed by at least `n` bytes, yields those
      `n` bytes. */
  lemma ReadAnnounced(width: nat, n: nat, rest: seq<byte>)
    requires n < Pow256(width) && n <= |rest|
    ensures ReadPrefixed(width, EncodeUint(n, width) + rest) == Decoded(Some(rest[..n]), width + n)
  {
    var prefix := EncodeUint(n, width);
    var input := prefix + rest;
    assert input[..width] == prefix;
    DecodeEncodeUint(n, width);
    ReadLongEnough(width, input, n);
    assert input[width..width + n] == rest[..n];
  }

  /** A read whose prefix announces `n` bytes that are all present yields them. */
  lemma ReadLongEnough(width: nat, input: seq<byte>, n: nat)
    requires width + n <= |input| && DecodeUint(input[..width]) == n
    ensures ReadPrefixed(width, input) == Decoded(Some(input[width..width + n]), width + n)
  {
  }

  /** Round trip: whatever follows, a body whose length fits the prefix reads back unchanged,
      consuming exactly its encoding. */
  lemma RoundTrip(width: nat, body: seq<byte>, tail: seq<byte>)
    requires |body| < Pow256(width)
    ensures ReadPrefixed(width, LengthPrefixed(width, body) + tail) == Decoded(Some(body), width + |body|)
  {
    var rest := body + tail;
    assert LengthPrefixed(width, body) + tail == EncodeUint(|body|, width) + rest;
    ReadAnnounced(width, |body|, rest);
    assert rest[..|body|] == body;
  }

  /** A body too long for its prefix does not survive: the cast wraps the length and the read
      returns only the first `|body| mod 256^width` bytes. */
  lemma OverlongRoundTripFails(width: nat, body: seq<byte>)
    requires |body| >= Pow256(width)
    ensures var n := Truncate(|body|, width);
            n < |body| &&
            ReadPrefixed(width, LengthPrefixed(width, body)) == Decoded(Some(body[..n]), width + n)
    ensures ReadPrefixed(width, LengthPrefixed(width, body)).body != Some(body)
  {
    var n := Truncate(|body|, width);
    ReadAnnounced(width, n, body);
  }

  /** A successful read consumed exactly a canonical encoding of the body it returns: the bytes
      it moved over are the prefix of that body's encoding. */
  lemma ReadConsumesEncoding(width: nat, input: seq<byte>)
    requires ReadPrefixed(width, input).body.Some?
    ensures ReadPrefixed(width, input).consumed == width + |ReadPrefixed(width, input).body.value|
    ensures |ReadPrefixed(width, input).body.value| < Pow256(width)
    ensures input[..ReadPrefixed(width, input).consumed] ==
            LengthPrefixed(width, ReadPrefixed(width, input).body.value)
  {
    var prefix := input[..width];
    var b := input[width..width + DecodeUint(prefix)];
    LengthPrefixedOfDecoded(prefix, b);
    assert input[..width + |b|] == prefix + b;
  }

  lemma LengthPrefixedOfDecoded(prefix: seq<byte>, b: seq<byte>)
    requires |b| == DecodeUint(prefix)
    ensures LengthPrefixed(|prefix|, b) == prefix + b
  {
    EncodeDecodeUint(prefix);
  }

  /** Every prefixed read fails when the input is shorter than the prefix, or shorter than the
      prefix plus the length it announces; otherwise it succeeds. */
  lemma ReadFailsExactlyWhenShort(width: nat, input: seq<byte>)
    ensures ReadPrefixed(width, input).body.None? <==>
            |input| < width || |input| < width + DecodeUint(input[..width])
  {
  }

  /** Shared body of every prefixed `encode`: the cast length, then the body. */
  method EncodePrefixed(width: nat, body: seq<byte>, bytes: ByteVec)
    modifies bytes
    ensures bytes.data == old(bytes.data) + LengthPrefixed(width, body)
  {
    bytes.ExtendFromSlice(EncodeUint(Truncate(|body|, width), width));
    bytes.ExtendFromSlice(body);
  }

  /** Shared body of every prefixed `read`: `let len = uN::read(r)?; let mut sub = r.sub(len)?;
      sub.rest()`. */
  method ReadPrefixedFrom(width: nat, r: Reader) returns (body: Option<seq<byte>>)
    requires r.Valid()
    modifies r
    ensures r.Valid()
    ensures body == ReadPrefixed(width, old(r.Remaining())).body
    ensures r.offs == old(r.offs) + ReadPrefixed(width, old(r.Remaining())).consumed
  {
    ghost var input := r.Remaining();
    var len := r.ReadUint(width);
    if len.None? {
      return None;
    }
    assert len.value == DecodeUint(input[..width]);
    var sub := r.Sub(len.value);
    if sub.None? {
      return None;
    }
    var rest := sub.value.Rest();
    assert rest == input[width..width + len.value];
    body := Some(rest);
  }

  /** `Payload::encode`: the raw bytes, no prefix. */
  method EncodePayload(p: Payload, bytes: ByteVec)
    modifies bytes
    ensures bytes.data == old(bytes.data) + p.bytes
  {
    bytes.ExtendFromSlice(p.bytes);
  }

  /** `Payload::read` (and the `Codec` read wrapping it): the whole rest of the input. */
  method ReadPayload(r: Reader) returns (p: Option<Payload>)
    requires r.Valid()
    modifies r
    ensures r.Valid() && r.offs == |r.buf|
    ensures p == Some(Payload(old(r.Remaining())))
  {
    var rest := r.Rest();
    p := Some(Payload(rest));
  }

  /** Round trip of the unprefixed payload: read at the end of the input returns what encode wrote. */
  method PayloadRoundTrip(p: Payload) returns (q: Option<Payload>)
    ensures q == Some(p)
  {
    var out := new ByteVec([]);
    EncodePayload(p, out);
    var r := new Reader.Init(out.data);
    q := ReadPayload(r);
  }

  /** `PayloadU8::encode` */
  method EncodePayloadU8(p: PayloadU8, bytes: ByteVec)
    modifies bytes
    ensures bytes.data == old(bytes.data) + LengthPrefixed(U8_WIDTH, p.bytes)
  {
    EncodePrefixed(U8_WIDTH, p.bytes, bytes);
  }

  /** `PayloadU8::read` */
  method ReadPayloadU8(r: Reader) returns (p: Option<PayloadU8>)
    requires r.Valid()
    modifies r
    ensures r.Valid()
    ensures var d := ReadPrefixed(U8_WIDTH, old(r.Remaining()));
            r.offs == old(r.offs) + d.consumed &&
            p == if d.body.Some? then Some(PayloadU8(d.body.value)) else None
  {
    var body := ReadPrefixedFrom(U8_WIDTH, r);
    p := if body.Some? then Some(PayloadU8(body.value)) else None;
  }

  /** `PayloadU16::encode_slice`: the u16 length, then the slice. */
  method EncodeSlice(slice: seq<byte>, bytes: ByteVec)
    modifies bytes
    ensures bytes.data == old(bytes.data) + LengthPrefixed(U16_WIDTH, slice)
  {
    EncodePrefixed(U16_WIDTH, slice, bytes);
  }

  /** `PayloadU16::encode`, which delegates to `encode_slice` on its body. */
  method EncodePayloadU16(p: PayloadU16, bytes: ByteVec)
    modifies bytes
    ensures bytes.data == old(bytes.data) + LengthPrefixed(U16_WIDTH, p.bytes)
  {
    EncodeSlice(p.bytes, bytes);
  }

  /** `PayloadU16::read` */
  method ReadPayloadU16(r: Reader) returns (p: Option<PayloadU16>)
    requires r.Valid()
    modifies r
    ensures r.Valid()
    ensures var d := ReadPrefixed(U16_WIDTH, old(r.Remaining()));
            r.offs == old(r.offs) + d.consumed &&
            p == if d.body.Some? then Some(PayloadU16(d.body.value)) else None
  {
    var body := ReadPrefixedFrom(U16_WIDTH, r);
    p := if body.Some? then Some(PayloadU16(body.value)) else None;
  }

  /** `PayloadU24::encode` */
  method EncodePayloadU24(p: PayloadU24, bytes: ByteVec)
    modifies bytes
    ensures bytes.data == old(bytes.data) + LengthPrefixed(U24_WIDTH, p.bytes)
  {
    EncodePrefixed(U24_WIDTH, p.bytes, bytes);
  }

  /** `PayloadU24::read` */
  method ReadPayloadU24(r: Reader) returns (p: Option<PayloadU24>)
    requires r.Valid()
    modifies r
    ensures r.Valid()
    ensures var d := ReadPrefixed(U24_WIDTH, old(r.Remaining()));
            r.offs == old(r.offs) + d.consumed &&
            p == if d.body.Some? then Some(PayloadU24(d.body.value)) else None
  {
    var body := ReadPrefixedFrom(U24_WIDTH, r);
    p := if body.Some? then Some(PayloadU24(body.value)) else None;
  }

  /** `Codec for key::Certificate`, encode: a u24 length, then the certificate bytes. */
  method EncodeCertificate(c: Certificate, bytes: ByteVec)
    modifies bytes
    ensures bytes.data == old(bytes.data) + LengthPrefixed(U24_WIDTH, c.bytes)
  {
    EncodePrefixed(U24_WIDTH, c.bytes, bytes);
  }

  /** `Codec for key::Certificate`, read. */
  method ReadCertificate(r: Reader) returns (c: Option<Certificate>)
    requires r.Valid()
    modifies r
    ensures r.Valid()
    ensures var d := ReadPrefixed(U24_WIDTH, old(r.Remaining()));
            r.offs == old(r.offs) + d.consumed &&
            c == if d.body.Some? then Some(Certificate(d.body.value)) else None
  {
    var body := ReadPrefixedFrom(U24_WIDTH, r);
    c := if body.Some? then Some(Certificate(body.value)) else None;
  }

  /** A PayloadU8 body of at most 255 bytes, encoded and read back through a reader, comes back
      unchanged and leaves the reader exactly past it. */
  method PayloadU8RoundTrip(p: PayloadU8, tail: seq<byte>) returns (q: Option<PayloadU8>, used: nat)
    requires |p.bytes| < 256
    ensures q == Some(p) && used == 1 + |p.bytes|
  {
    var out := new ByteVec([]);
    EncodePayloadU8(p, out);
    out.ExtendFromSlice(tail);
    var r := new Reader.Init(out.data);
    assert Pow256(U8_WIDTH) == 256;
    RoundTrip(U8_WIDTH, p.bytes, tail);
    assert r.Remaining() == LengthPrefixed(U8_WIDTH, p.bytes) + tail;
    q := ReadPayloadU8(r);
    used := r.offs;
  }
}
