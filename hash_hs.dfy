/** The running handshake transcript hash. Before the hash function is known the transcript is
    buffered (`HandshakeHashBuffer`); afterwards it is hashed incrementally (`HandshakeHash`),
    optionally keeping a copy of the raw transcript for client authentication, and optionally
    reporting a fixed "override" value as its hash.

    A digest context is its algorithm together with every byte it has absorbed: finishing a
    context applies the hash function to that concatenation, which is what incremental hashing
    computes. The hash function itself is a parameter. */
module HashHs {
  import opened Wrappers
  import opened Codec
  import opened TlsTypes
  import Base

  /** A hash function: the digest of a byte string under an algorithm. */
  type Hasher = (HashAlgorithm, seq<byte>) -> seq<byte>

  /** `ring::digest::Context`: the algorithm and the bytes absorbed so far. */
  datatype Context = Context(alg: HashAlgorithm, absorbed: seq<byte>)

  function Finish(h: Hasher, ctx: Context): seq<byte>
  {
    h(ctx.alg, ctx.absorbed)
  }

  /** A record-layer message; a handshake message carries the wire encoding of its handshake
      payload, which is all the transcript sees of it. */
  datatype MessagePayload = HandshakePayload(encoding: seq<byte>) | OtherPayload
  datatype Message = Message(payload: MessagePayload)

  /** The bytes a message adds to the transcript: its handshake encoding, or nothing. */
  function TranscriptBytes(m: Message): seq<byte>
  {
    match m.payload
    case HandshakePayload(encoding) => encoding
    case OtherPayload => []
  }

  /** `HandshakeType::MessageHash` */
  const MESSAGE_HASH_TYPE: byte := 254

  /** The encoding of `build_handshake_hash(hash)`: a message_hash handshake message whose body is
      the hash (section 4.4.1 of RFC 8446): type 254, a 24-bit length, then the hash. */
  function MessageHashEncoding(hash: seq<byte>): (enc: seq<byte>)
    ensures |enc| == 4 + |hash|
  {
    [MESSAGE_HASH_TYPE] + Base.LengthPrefixed(Base.U24_WIDTH, hash)
  }

  /** A message_hash encoding starts with type 254 and its body reads back, as a 24-bit
      vector, to exactly the hash. */
  lemma MessageHashEncodingReadsBack(hash: seq<byte>)
    requires |hash| < 0x100_0000
    ensures MessageHashEncoding(hash)[0] == MESSAGE_HASH_TYPE
    ensures Base.ReadPrefixed(Base.U24_WIDTH, MessageHashEncoding(hash)[1..]) ==
            Base.Decoded(Some(hash), Base.U24_WIDTH + |hash|)
  {
    var body := Base.LengthPrefixed(Base.U24_WIDTH, hash);
    assert MessageHashEncoding(hash)[1..] == body;
    assert body + [] == body;
    Base.RoundTrip(Base.U24_WIDTH, hash, []);
  }

  /** `s` ends with `suffix`. */
  predicate EndsWith(s: seq<byte>, suffix: seq<byte>)
  {
    |suffix| <= |s| && s[|s| - |suffix|..] == suffix
  }

  /** Early-stage buffering of handshake messages. */
  class HandshakeHashBuffer {
    var buffer: seq<byte>
    var clientAuthEnabled: bool

    /** `HandshakeHashBuffer::new` */
    constructor ()
      ensures buffer == [] && !clientAuthEnabled
    {
      buffer := [];
      clientAuthEnabled := false;
    }

    /** `set_client_auth_enabled`: the full transcript will be kept. */
    method SetClientAuthEnabled()
      modifies this
      ensures clientAuthEnabled && buffer == old(buffer)
    {
      clientAuthEnabled := true;
    }

    /** `add_message`: handshake messages are buffered, other messages ignored. */
    method AddMessage(m: Message)
      modifies this
      ensures buffer == old(buffer) + TranscriptBytes(m)
      ensures clientAuthEnabled == old(clientAuthEnabled)
    {
      match m.payload {
        case HandshakePayload(encoding) =>
          buffer := buffer + encoding;
        case OtherPayload =>
      }
    }

    /** `update_raw` (test only) */
    method UpdateRaw(buf: seq<byte>)
      modifies this
      ensures buffer == old(buffer) + buf && clientAuthEnabled == old(clientAuthEnabled)
    {
      buffer := buffer + buf;
    }

    /** `get_hash_given`: the hash of the buffered transcript followed by `extra`; nothing changes. */
    method GetHashGiven(h: Hasher, alg: HashAlgorithm, extra: seq<byte>) returns (d: seq<byte>)
      ensures d == h(alg, buffer + extra)
    {
      var ctx := Context(alg, []);
      ctx := ctx.(absorbed := ctx.absorbed + buffer);
      ctx := ctx.(absorbed := ctx.absorbed + extra);
      assert ctx.absorbed == buffer + extra;
      d := Finish(h, ctx);
    }

    /** `start_hash`: a running hash that has absorbed the buffer, keeping the buffer for client
        authentication when that was enabled. */
    method StartHash(alg: HashAlgorithm) returns (hh: HandshakeHash)
      ensures fresh(hh) && hh.Valid()
      ensures hh.ctx == Context(alg, buffer)
      ensures hh.clientAuth == (if clientAuthEnabled then Some(buffer) else None)
      ensures hh.overrideBuffer == None
    {
      hh := new HandshakeHash.New(alg);
      hh.UpdateRaw(buffer);
      if clientAuthEnabled {
        hh.clientAuth := Some(buffer);
      }
    }
  }

  /** The running transcript hash. */
  class HandshakeHash {
    var ctx: Context
    var clientAuth: Option<seq<byte>>
    var overrideBuffer: Option<seq<byte>>

    /** The client-auth copy, when kept, ends with everything the context has absorbed: the two
        are equal until a HelloRetryRequest rollup restarts the context. */
    predicate Valid()
      reads this
    {
      clientAuth.Some? ==> EndsWith(clientAuth.value, ctx.absorbed)
    }

    /** `HandshakeHash::new` */
    constructor New(alg: HashAlgorithm)
      ensures Valid() && ctx == Context(alg, []) && clientAuth == None && overrideBuffer == None
    {
      ctx := Context(alg, []);
      clientAuth := None;
      overrideBuffer := None;
    }

    /** `new_override`: a hash that always reports `staticBuffer` as its raw value. */
    constructor NewOverride(staticBuffer: seq<byte>, alg: HashAlgorithm)
      ensures Valid() && ctx == Context(alg, []) && clientAuth == None && overrideBuffer == Some(staticBuffer)
    {
      ctx := Context(alg, []);
      clientAuth := None;
      overrideBuffer := Some(staticBuffer);
    }

    /** `abandon_client_auth`: discard the transcript copy. */
    method AbandonClientAuth()
      requires Valid()
      modifies this
      ensures Valid() && clientAuth == None
      ensures ctx == old(ctx) && overrideBuffer == old(overrideBuffer)
    {
      clientAuth := None;
    }

    /** `update_raw`: absorb `buf` and append it to the transcript copy if one is kept. */
    method UpdateRaw(buf: seq<byte>)
      requires Valid()
      modifies this
      ensures Valid()
      ensures ctx == Context(old(ctx.alg), old(ctx.absorbed) + buf)
      ensures clientAuth == if old(clientAuth).Some? then Some(old(clientAuth).value + buf) else None
      ensures overrideBuffer == old(overrideBuffer)
    {
      ctx := ctx.(absorbed := ctx.absorbed + buf);
      if clientAuth.Some? {
        var copy := clientAuth.value;
        clientAuth := Some(copy + buf);
        assert (copy + buf)[|copy + buf| - |ctx.absorbed|..] == copy[|copy| - |old(ctx.absorbed)|..] + buf;
      }
    }

    /** `add_message`: only handshake messages enter the transcript. */
    method AddMessage(m: Message)
      requires Valid()
      modifies this
      ensures Valid()
      ensures ctx == Context(old(ctx.alg), old(ctx.absorbed) + TranscriptBytes(m))
      ensures clientAuth == if old(clientAuth).Some? then Some(old(clientAuth).value + TranscriptBytes(m)) else None
      ensures overrideBuffer == old(overrideBuffer)
    {
      match m.payload {
        case HandshakePayload(encoding) =>
          UpdateRaw(encoding);
        case OtherPayload =>
          assert clientAuth.Some? ==> clientAuth.value + [] == clientAuth.value;
          assert ctx.absorbed + [] == ctx.absorbed;
      }
    }

    /** `get_hash_given`: the hash of the transcript so far followed by `extra`; nothing changes. */
    method GetHashGiven(h: Hasher, extra: seq<byte>) returns (d: seq<byte>)
      ensures d == h(ctx.alg, ctx.absorbed + extra)
    {
      var copy := ctx;
      copy := copy.(absorbed := copy.absorbed + extra);
      d := Finish(h, copy);
    }

    /** `into_hrr_buffer`: back to buffering, with the transcript replaced by a message_hash
        message carrying its hash. */
    method IntoHrrBuffer(h: Hasher) returns (b: HandshakeHashBuffer)
      ensures fresh(b)
      ensures b.buffer == MessageHashEncoding(Finish(h, ctx))
      ensures b.clientAuthEnabled == clientAuth.Some?
    {
      var oldHash := Finish(h, ctx);
      b := new HandshakeHashBuffer();
      b.buffer := MessageHashEncoding(oldHash);
      b.clientAuthEnabled := clientAuth.Some?;
    }

    /** `rollup_for_hrr`: restart the context with a message_hash message carrying the old hash;
        that message is also appended to the transcript copy. */
    method RollupForHrr(h: Hasher)
      requires Valid()
      modifies this
      ensures Valid()
      ensures ctx == Context(old(ctx.alg), MessageHashEncoding(old(Finish(h, ctx))))
      ensures clientAuth == if old(clientAuth).Some? then Some(old(clientAuth).value + ctx.absorbed) else None
      ensures overrideBuffer == old(overrideBuffer)
    {
      var oldCtx := ctx;
      ctx := Context(ctx.alg, []);
      if clientAuth.Some? {
        assert EndsWith(clientAuth.value, []);
      }
      var oldHash := Finish(h, oldCtx);
      UpdateRaw(MessageHashEncoding(oldHash));
    }

    /** `get_current_hash`: the hash of the transcript absorbed so far. */
    method GetCurrentHash(h: Hasher) returns (d: seq<byte>)
      ensures d == h(ctx.alg, ctx.absorbed)
    {
      d := Finish(h, ctx);
    }

    /** The raw hash value: the override when one is set, otherwise the current hash. */
    function CurrentHashRaw(h: Hasher): seq<byte>
      reads this
    {
      if overrideBuffer.Some? then overrideBuffer.value else Finish(h, ctx)
    }

    /** `get_current_hash_raw` */
    method GetCurrentHashRaw(h: Hasher) returns (d: seq<byte>)
      ensures overrideBuffer.Some? ==> d == overrideBuffer.value
      ensures overrideBuffer.None? ==> d == h(ctx.alg, ctx.absorbed)
    {
      if overrideBuffer.Some? {
        d := overrideBuffer.value;
      } else {
        d := GetCurrentHash(h);
      }
    }

    /** `take_handshake_buf`: hand over the transcript copy, leaving none. */
    method TakeHandshakeBuf() returns (r: Option<seq<byte>>)
      requires Valid()
      modifies this
      ensures Valid()
      ensures r == old(clientAuth) && clientAuth == None
      ensures ctx == old(ctx) && overrideBuffer == old(overrideBuffer)
    {
      r := clientAuth;
      clientAuth := None;
    }

    /** `algorithm`: the context's digest algorithm. */
    function Algorithm(): HashAlgorithm
      reads this
    {
      ctx.alg
    }

    /** `Codec::encode`: appends the raw hash value. */
    method Encode(h: Hasher, bytes: ByteVec)
      modifies bytes
      ensures bytes.data == old(bytes.data) + CurrentHashRaw(h)
    {
      var hash := GetCurrentHashRaw(h);
      bytes.ExtendFromSlice(hash);
    }
  }

  /** `Codec::read`: the rest of the input becomes the override value of a SHA-256 hash. */
  method Read(r: Reader) returns (hh: Option<HandshakeHash>)
    requires r.Valid()
    modifies r
    ensures r.Valid() && r.offs == |r.buf|
    ensures hh.Some? && fresh(hh.value) && hh.value.Valid()
    ensures hh.value.overrideBuffer == Some(old(r.Remaining())) && hh.value.Algorithm() == SHA256
  {
    var rest := r.Rest();
    var made := new HandshakeHash.NewOverride(rest, SHA256);
    hh := Some(made);
  }

  /** Codec round trip: reading back what `encode` wrote gives a hash whose raw value, under any
      hash function, is the raw value of the original. */
  method EncodeThenRead(h: Hasher, g: Hasher, hh: HandshakeHash) returns (back: HandshakeHash, encoded: seq<byte>)
    ensures encoded == hh.CurrentHashRaw(h)
    ensures back.CurrentHashRaw(g) == encoded
  {
    var bytes := new ByteVec([]);
    hh.Encode(h, bytes);
    var r := new Reader.Init(bytes.data);
    var read := Read(r);
    back := read.value;
    encoded := bytes.data;
  }

  /** Starting the hash and then asking for the hash given `extra` agrees with asking the buffer
      directly: buffering and incremental hashing compute the same digest. */
  method HashGivenAgrees(h: Hasher, b: HandshakeHashBuffer, alg: HashAlgorithm, extra: seq<byte>)
    returns (viaBuffer: seq<byte>, viaHash: seq<byte>)
    ensures viaBuffer == viaHash == h(alg, b.buffer + extra)
  {
    viaBuffer := b.GetHashGiven(h, alg, extra);
    var hh := b.StartHash(alg);
    viaHash := hh.GetHashGiven(h, extra);
  }

  const HELLO: seq<byte> := [0x68, 0x65, 0x6c, 0x6c, 0x6f]
  const WORLD: seq<byte> := [0x77, 0x6f, 0x72, 0x6c, 0x64]

  /** The `hashes_correctly` scenario: without client auth no transcript copy is kept, and the
      hash covers both updates. */
  method HashesCorrectly(h: Hasher) returns (d: seq<byte>, copy: Option<seq<byte>>)
    ensures d == h(SHA256, HELLO + WORLD) && copy == None
  {
    var hhb := new HandshakeHashBuffer();
    hhb.UpdateRaw(HELLO);
    assert hhb.buffer == HELLO;
    var hh := hhb.StartHash(SHA256);
    assert hh.clientAuth.None?;
    hh.UpdateRaw(WORLD);
    d := hh.GetCurrentHash(h);
    copy := hh.TakeHandshakeBuf();
  }

  /** The `buffers_correctly` scenario: with client auth the transcript copy grows with each
      update and is handed over whole. */
  method BuffersCorrectly(h: Hasher) returns (d: seq<byte>, copy: Option<seq<byte>>)
    ensures d == h(SHA256, HELLO + WORLD) && copy == Some(HELLO + WORLD)
  {
    var hhb := new HandshakeHashBuffer();
    hhb.SetClientAuthEnabled();
    hhb.UpdateRaw(HELLO);
    var hh := hhb.StartHash(SHA256);
    assert hh.clientAuth == Some(HELLO) && |hh.clientAuth.value| == 5;
    hh.UpdateRaw(WORLD);
    assert |hh.clientAuth.value| == 10;
    d := hh.GetCurrentHash(h);
    copy := hh.TakeHandshakeBuf();
  }

  /** The `abandon` scenario: once abandoned, later updates keep no copy but are still hashed. */
  method Abandon(h: Hasher) returns (d: seq<byte>, copy: Option<seq<byte>>)
    ensures d == h(SHA256, HELLO + WORLD) && copy == None
  {
    var hhb := new HandshakeHashBuffer();
    hhb.SetClientAuthEnabled();
    hhb.UpdateRaw(HELLO);
    var hh := hhb.StartHash(SHA256);
    assert hh.clientAuth == Some(HELLO);
    hh.AbandonClientAuth();
    hh.UpdateRaw(WORLD);
    assert hh.clientAuth == None;
    d := hh.GetCurrentHash(h);
    copy := hh.TakeHandshakeBuf();
  }
}
