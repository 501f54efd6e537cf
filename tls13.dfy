/** The TLS 1.3 record protection helpers: the three TLS 1.3 suites, resumption
    compatibility, removal of the inner-plaintext padding (section 5.4 of RFC 8446), the
    record's additional data (section 5.2 of RFC 8446), and the plaintext and length handling
    around AEAD seal and open. The AEAD itself, keyed by the suite's traffic secret, is an
    oracle: a function from (sequence number, additional data, input) to an optional output. */
module Tls13 {
  import opened Wrappers
  import opened Codec
  import opened TlsTypes

  const TLS13_CHACHA20_POLY1305_SHA256_INTERNAL: Tls13CipherSuite := Tls13CipherSuite(
    CipherSuiteCommon(TLS13_CHACHA20_POLY1305_SHA256_ID, Chacha20Poly1305, CHACHA20_POLY1305),
    HKDF_SHA256, 0xFFFF_FFFF_FFFF_FFFF, 0x10_0000_0000)

  const TLS13_AES_256_GCM_SHA384_INTERNAL: Tls13CipherSuite := Tls13CipherSuite(
    CipherSuiteCommon(TLS13_AES_256_GCM_SHA384_ID, Aes256Gcm, AES_256_GCM),
    HKDF_SHA384, 0x80_0000, 0x10_0000_0000_0000)

  const TLS13_AES_128_GCM_SHA256_INTERNAL: Tls13CipherSuite := Tls13CipherSuite(
    CipherSuiteCommon(TLS13_AES_128_GCM_SHA256_ID, Aes128Gcm, AES_128_GCM),
    HKDF_SHA256, 0x80_0000, 0x10_0000_0000_0000)

  const TLS13_CHACHA20_POLY1305_SHA256: SupportedCipherSuite := Tls13(TLS13_CHACHA20_POLY1305_SHA256_INTERNAL)
  const TLS13_AES_256_GCM_SHA384: SupportedCipherSuite := Tls13(TLS13_AES_256_GCM_SHA384_INTERNAL)
  const TLS13_AES_128_GCM_SHA256: SupportedCipherSuite := Tls13(TLS13_AES_128_GCM_SHA256_INTERNAL)

  /** The digest behind a suite's HKDF (`hkdf_algorithm.hmac_algorithm().digest_algorithm()`). */
  function HashAlgorithmOf(s: Tls13CipherSuite): HashAlgorithm
  {
    match s.hkdfAlgorithm
    case HKDF_SHA256 => SHA256
    case HKDF_SHA384 => SHA384
    case HKDF_SHA512 => SHA512
  }

  /** `can_resume_from`: a session of suite `s` can resume one of suite `prev` exactly when both
      use the same hash, and then the answer is `prev` itself. */
  function CanResumeFrom(s: Tls13CipherSuite, prev: Tls13CipherSuite): (r: Option<Tls13CipherSuite>)
    ensures r.Some? <==> HashAlgorithmOf(prev) == HashAlgorithmOf(s)
    ensures r.Some? ==> r.value == prev
  {
    if HashAlgorithmOf(prev) == HashAlgorithmOf(s) then Some(prev) else None
  }

  /** `PartialEq for Tls13CipherSuite`: suites are equal when their identifiers are. */
  function SameSuite(a: Tls13CipherSuite, b: Tls13CipherSuite): bool
  {
    a.common.suite == b.common.suite
  }

  /** Suite equality ignores every field but the identifier, and is an equivalence. */
  lemma SameSuiteIsIdEquality(a: Tls13CipherSuite, b: Tls13CipherSuite, c: Tls13CipherSuite)
    ensures SameSuite(a, a)
    ensures SameSuite(a, b) == SameSuite(b, a)
    ensures SameSuite(a, b) && SameSuite(b, c) ==> SameSuite(a, c)
    ensures a.common.suite == b.common.suite ==> SameSuite(a, b)
  {
  }

  /** `test_can_resume_to`: AES-128 resumes from ChaCha20 (both SHA-256); AES-256 (SHA-384) does not. */
  lemma CanResumeToExamples()
    ensures CanResumeFrom(TLS13_AES_128_GCM_SHA256_INTERNAL, TLS13_CHACHA20_POLY1305_SHA256_INTERNAL).Some?
    ensures CanResumeFrom(TLS13_AES_256_GCM_SHA384_INTERNAL, TLS13_CHACHA20_POLY1305_SHA256_INTERNAL).None?
  {
  }

  /** `MAX_FRAGMENT_LEN`: 2^14 bytes of plaintext per record (section 5.1 of RFC 8446). */
  const MAX_FRAGMENT_LEN: nat := 16384

  /** `TLS13_AAD_SIZE`: type, two version bytes, two length bytes. */
  const TLS13_AAD_SIZE: nat := 1 + 2 + 2

  datatype Error = DecryptError | PeerSentOversizedRecord | PeerMisbehavedError(msg: string) | General(msg: string)

  datatype PlainMessage = PlainMessage(typ: ContentType, version: ProtocolVersion, payload: seq<byte>)
  datatype OpaqueMessage = OpaqueMessage(typ: ContentType, version: ProtocolVersion, payload: seq<byte>)

  /** AEAD seal or open under the record key: (sequence number, additional data, input). */
  type Aead = (nat, seq<byte>, seq<byte>) -> Option<seq<byte>>

  const BAD_INNER_PLAINTEXT: string := "peer sent bad TLSInnerPlaintext"
  const ENCRYPT_FAILED: string := "encrypt failed"

  /** A TLSInnerPlaintext split into its content and its type. */
  datatype Unpadded = Unpadded(content: seq<byte>, typ: ContentType)

  /** What `unpad_tls13` leaves in the vector and returns: trailing zeros are dropped, then the
      last nonzero byte is the content type; no nonzero byte at all gives `Unknown(0)`. */
  function Unpad(v: seq<byte>): Unpadded
    decreases |v|
  {
    if v == [] then Unpadded([], UnknownType(0))
    else if v[|v| - 1] == 0 then Unpad(v[..|v| - 1])
    else Unpadded(v[..|v| - 1], ContentTypeFrom(v[|v| - 1]))
  }

  /** When a nonzero byte exists, the input is `content ++ [c] ++ zeros` with `c` nonzero and the
      type decoded from `c`. */
  lemma {:induction false} UnpadShape(v: seq<byte>)
    requires exists i :: 0 <= i < |v| && v[i] != 0
    ensures var u := Unpad(v); var k := |u.content|;
            k < |v| && v[..k] == u.content && v[k] != 0 && u.typ == ContentTypeFrom(v[k]) &&
            forall j :: k < j < |v| ==> v[j] == 0
    decreases |v|
  {
    var last := |v| - 1;
    if v[last] == 0 {
      var i :| 0 <= i < |v| && v[i] != 0;
      assert i < last && v[..last][i] != 0;
      UnpadShape(v[..last]);
    }
  }

  /** Unpadding yields `Unknown(0)` exactly when every byte is zero, and then the content is empty. */
  lemma {:induction false} UnpadAllZero(v: seq<byte>)
    ensures Unpad(v).typ == UnknownType(0) <==> forall i :: 0 <= i < |v| ==> v[i] == 0
    ensures Unpad(v).typ == UnknownType(0) ==> Unpad(v).content == []
    decreases |v|
  {
    if v != [] {
      var last := |v| - 1;
      ContentTypeByteRoundTrip(v[last]);
      if v[last] == 0 {
        UnpadAllZero(v[..last]);
        assert forall i :: 0 <= i < last ==> v[..last][i] == v[i];
      }
    }
  }

  function Zeros(n: nat): (z: seq<byte>)
    ensures |z| == n && forall i :: 0 <= i < n ==> z[i] == 0
  {
    if n == 0 then [] else Zeros(n - 1) + [0]
  }

  /** Inverse of padding: `content ++ [type] ++ zeros` unpads to `content` and the type. */
  lemma {:induction false} UnpadPadded(content: seq<byte>, t: byte, n: nat)
    requires t != 0
    ensures Unpad(content + [t] + Zeros(n)) == Unpadded(content, ContentTypeFrom(t))
    decreases n
  {
    if n == 0 {
      assert content + [t] + Zeros(0) == content + [t];
      assert (content + [t])[..|content|] == content;
    } else {
      var v := content + [t] + Zeros(n);
      assert v[..|v| - 1] == content + [t] + Zeros(n - 1);
      UnpadPadded(content, t, n - 1);
    }
  }

  /** `unpad_tls13`, popping bytes off the end of the vector. */
  method UnpadTls13(v: ByteVec) returns (t: ContentType)
    modifies v
    ensures Unpadded(v.data, t) == Unpad(old(v.data))
  {
    while true
      invariant Unpad(v.data) == Unpad(old(v.data))
      decreases |v.data|
    {
      var b := v.Pop();
      match b
      case None =>
        return UnknownType(0);
      case Some(c) =>
        if c != 0 {
          return ContentTypeFrom(c);
        }
    }
  }

  /** `make_tls13_aad`: an ApplicationData record header of TLS 1.2 version with the given length,
      which is cast to 16 bits. */
  function MakeTls13Aad(len: nat): (aad: seq<byte>)
    ensures |aad| == TLS13_AAD_SIZE
    ensures aad[..3] == [0x17, 0x03, 0x03]
    ensures ContentTypeFrom(aad[0]) == ApplicationData
  {
    [0x17, 0x03, 0x03, (len / 256) % 256, len % 256]
  }

  /** The last two bytes of the additional data read back, big-endian, as the length it declares. */
  lemma AadDeclaresLength(len: nat)
    requires len < 0x1_0000
    ensures DecodeUint(MakeTls13Aad(len)[3..]) == len
  {
    var aad := MakeTls13Aad(len);
    assert aad[3..] == [(len / 256) % 256, len % 256];
    assert DecodeUint(aad[3..][..1]) == (len / 256) % 256;
  }

  /** `Tls13MessageEncrypter::encrypt`: appends the type byte to the payload, seals it with
      additional data that declares the sealed length, and labels the record ApplicationData with
      the TLS 1.2 legacy version. */
  method Encrypt(msg: PlainMessage, seqNum: nat, tagLen: nat, seal: Aead) returns (r: Result<OpaqueMessage, Error>)
    ensures var plain := msg.payload + [ContentTypeByte(msg.typ)];
            var sealed := seal(seqNum, MakeTls13Aad(|msg.payload| + 1 + tagLen), plain);
            r == if sealed.Some? then Success(OpaqueMessage(ApplicationData, TLSv1_2, sealed.value))
                 else Failure(General(ENCRYPT_FAILED))
  {
    var totalLen := |msg.payload| + 1 + tagLen;
    var payload := new ByteVec([]);
    payload.ExtendFromSlice(msg.payload);
    payload.ExtendFromSlice([ContentTypeByte(msg.typ)]);
    assert payload.data == msg.payload + [ContentTypeByte(msg.typ)];
    var aad := MakeTls13Aad(totalLen);
    var sealed := seal(seqNum, aad, payload.data);
    if sealed.None? {
      return Failure(General(ENCRYPT_FAILED));
    }
    return Success(OpaqueMessage(ApplicationData, TLSv1_2, sealed.value));
  }

  /** `Tls13MessageDecrypter::decrypt`, with its checks in source order: a payload shorter than
      the tag or a failed open is a DecryptError; more than 2^14 + 1 unsealed bytes is an oversized
      record; an all-zero inner plaintext is a misbehaving peer; more than 2^14 bytes of content
      is an oversized record; otherwise the content and its type, as TLS 1.3. */
  method Decrypt(msg: OpaqueMessage, seqNum: nat, tagLen: nat, unseal: Aead) returns (r: Result<PlainMessage, Error>)
    ensures |msg.payload| < tagLen ==> r == Failure(DecryptError)
    ensures |msg.payload| >= tagLen ==>
              var unsealed := unseal(seqNum, MakeTls13Aad(|msg.payload|), msg.payload);
              if unsealed.None? then r == Failure(DecryptError)
              else if |unsealed.value| > MAX_FRAGMENT_LEN + 1 then r == Failure(PeerSentOversizedRecord)
              else
                var u := Unpad(unsealed.value);
                if u.typ == UnknownType(0) then r == Failure(PeerMisbehavedError(BAD_INNER_PLAINTEXT))
                else if |u.content| > MAX_FRAGMENT_LEN then r == Failure(PeerSentOversizedRecord)
                else r == Success(PlainMessage(u.typ, TLSv1_3, u.content))
    ensures r.Success? ==> |r.value.payload| <= MAX_FRAGMENT_LEN && r.value.typ != UnknownType(0)
    ensures r.Success? ==> r.value.version == TLSv1_3
  {
    if |msg.payload| < tagLen {
      return Failure(DecryptError);
    }
    var aad := MakeTls13Aad(|msg.payload|);
    var unsealed := unseal(seqNum, aad, msg.payload);
    if unsealed.None? {
      return Failure(DecryptError);
    }
    // ring opens in place; truncating to the plaintext length leaves exactly the plaintext
    var payload := new ByteVec(unsealed.value);
    if |payload.data| > MAX_FRAGMENT_LEN + 1 {
      return Failure(PeerSentOversizedRecord);
    }
    var typ := UnpadTls13(payload);
    if typ == UnknownType(0) {
      return Failure(PeerMisbehavedError(BAD_INNER_PLAINTEXT));
    }
    if |payload.data| > MAX_FRAGMENT_LEN {
      return Failure(PeerSentOversizedRecord);
    }
    return Success(PlainMessage(typ, TLSv1_3, payload.data));
  }

  /** Record round trip: when open inverts seal on the additional data encrypt used, and the
      sealed record is the plaintext plus a `tagLen`-byte tag, decrypting an encrypted message
      gives back its type and payload, now labelled TLS 1.3. */
  method EncryptThenDecrypt(msg: PlainMessage, seqNum: nat, tagLen: nat, seal: Aead, unseal: Aead)
    returns (r: Result<PlainMessage, Error>)
    requires |msg.payload| <= MAX_FRAGMENT_LEN
    requires CanonicalContentType(msg.typ) && msg.typ != UnknownType(0)
    requires var plain := msg.payload + [ContentTypeByte(msg.typ)];
             var aad := MakeTls13Aad(|plain| + tagLen);
             seal(seqNum, aad, plain).Some? &&
             |seal(seqNum, aad, plain).value| == |plain| + tagLen &&
             unseal(seqNum, aad, seal(seqNum, aad, plain).value) == Some(plain)
    ensures r == Success(PlainMessage(msg.typ, TLSv1_3, msg.payload))
  {
    var sealed := Encrypt(msg, seqNum, tagLen, seal);
    var plain := msg.payload + [ContentTypeByte(msg.typ)];
    assert plain == msg.payload + [ContentTypeByte(msg.typ)] + Zeros(0);
    UnpadPadded(msg.payload, ContentTypeByte(msg.typ), 0);
    ContentTypeRoundTrip(msg.typ);
    r := Decrypt(sealed.value, seqNum, tagLen, unseal);
  }
}
