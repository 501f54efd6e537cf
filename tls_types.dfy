/** The TLS enumerations and cipher-suite records that negotiation and the TLS 1.3 record
    layer work on. Algorithms from the `ring` library (digests, AEADs, HKDF) appear only as
    names. */
module TlsTypes {
  import opened Codec

  datatype HashAlgorithm = SHA256 | SHA384 | SHA512
  datatype HkdfAlgorithm = HKDF_SHA256 | HKDF_SHA384 | HKDF_SHA512
  datatype AeadAlgorithm = AES_128_GCM | AES_256_GCM | CHACHA20_POLY1305

  /** Bulk symmetric encryption scheme used by a cipher suite. */
  datatype BulkAlgorithm = Aes128Gcm | Aes256Gcm | Chacha20Poly1305

  /** A cipher suite's two-byte identifier, as sent on the wire. */
  type CipherSuiteId = x: int | 0 <= x < 0x1_0000

  const TLS_NULL_WITH_NULL_NULL: CipherSuiteId := 0x0000
  const TLS13_AES_128_GCM_SHA256_ID: CipherSuiteId := 0x1301
  const TLS13_AES_256_GCM_SHA384_ID: CipherSuiteId := 0x1302
  const TLS13_CHACHA20_POLY1305_SHA256_ID: CipherSuiteId := 0x1303
  const TLS_ECDHE_ECDSA_WITH_AES_128_GCM_SHA256_ID: CipherSuiteId := 0xc02b
  const TLS_ECDHE_ECDSA_WITH_AES_256_GCM_SHA384_ID: CipherSuiteId := 0xc02c
  const TLS_ECDHE_RSA_WITH_AES_128_GCM_SHA256_ID: CipherSuiteId := 0xc02f
  const TLS_ECDHE_RSA_WITH_AES_256_GCM_SHA384_ID: CipherSuiteId := 0xc030
  const TLS_ECDHE_RSA_WITH_CHACHA20_POLY1305_SHA256_ID: CipherSuiteId := 0xcca8
  const TLS_ECDHE_ECDSA_WITH_CHACHA20_POLY1305_SHA256_ID: CipherSuiteId := 0xcca9

  datatype SignatureAlgorithm = Anonymous | RSA | DSA | ECDSA | ED25519 | ED448 | UnknownAlgorithm(code: byte)

  /** A signature scheme with the signature algorithm it decomposes into (`scheme.sign()`). */
  datatype SignatureScheme = SignatureScheme(code: int, sign: SignatureAlgorithm)

  datatype ProtocolVersion = SSLv2 | SSLv3 | TLSv1_0 | TLSv1_1 | TLSv1_2 | TLSv1_3 | UnknownVersion(code: int)

  /** The record content types of section 5.1 of RFC 8446 (and Heartbeat, RFC 6520). */
  datatype ContentType = ChangeCipherSpec | Alert | Handshake | ApplicationData | Heartbeat | UnknownType(code: byte)

  /** `ContentType::from(u8)` */
  function ContentTypeFrom(b: byte): ContentType
  {
    match b
    case 0x14 => ChangeCipherSpec
    case 0x15 => Alert
    case 0x16 => Handshake
    case 0x17 => ApplicationData
    case 0x18 => Heartbeat
    case _ => UnknownType(b)
  }

  /** The byte a content type encodes as. */
  function ContentTypeByte(t: ContentType): byte
  {
    match t
    case ChangeCipherSpec => 0x14
    case Alert => 0x15
    case Handshake => 0x16
    case ApplicationData => 0x17
    case Heartbeat => 0x18
    case UnknownType(b) => b
  }

  /** Decoding an encoded byte gives the byte back; decoding only yields `Unknown(0)` from 0. */
  lemma ContentTypeByteRoundTrip(b: byte)
    ensures ContentTypeByte(ContentTypeFrom(b)) == b
    ensures ContentTypeFrom(b) == UnknownType(0) <==> b == 0
  {
  }

  /** A content type value that `ContentTypeFrom` can produce. */
  predicate CanonicalContentType(t: ContentType)
  {
    t.UnknownType? ==> !(0x14 <= t.code <= 0x18)
  }

  lemma ContentTypeRoundTrip(t: ContentType)
    requires CanonicalContentType(t)
    ensures ContentTypeFrom(ContentTypeByte(t)) == t
  {
  }

  /** Common state for cipher suites (both for TLS 1.2 and TLS 1.3). */
  datatype CipherSuiteCommon = CipherSuiteCommon(suite: CipherSuiteId, bulk: BulkAlgorithm, aeadAlgorithm: AeadAlgorithm)

  datatype Tls13CipherSuite = Tls13CipherSuite(
    common: CipherSuiteCommon, hkdfAlgorithm: HkdfAlgorithm, confidentialityLimit: nat, integrityLimit: nat)

  /** A TLS 1.2 suite: its digest and the signature schemes it can authenticate with. */
  datatype Tls12CipherSuite = Tls12CipherSuite(
    common: CipherSuiteCommon, hashAlgorithm: HashAlgorithm, sign: seq<SignatureScheme>)

  datatype SupportedCipherSuite = Tls12(suite12: Tls12CipherSuite) | Tls13(suite13: Tls13CipherSuite)

  datatype SupportedProtocolVersion = SupportedProtocolVersion(version: ProtocolVersion)

  const TLS12: SupportedProtocolVersion := SupportedProtocolVersion(TLSv1_2)
  const TLS13: SupportedProtocolVersion := SupportedProtocolVersion(TLSv1_3)
}
