/** Cipher-suite bookkeeping and negotiation: accessors over the TLS 1.2 / TLS 1.3 suite union,
    the list of supported suites, client- and server-preference selection, and the filters that
    narrow a suite list to a signature algorithm or a protocol version. */
module Suites {
  import opened Wrappers
  import opened Seqs
  import opened TlsTypes
  import Tls13

  /** `hash_algorithm`: the TLS 1.2 suite's own digest, or the TLS 1.3 suite's HKDF digest. */
  function HashAlgorithm(s: SupportedCipherSuite): HashAlgorithm
  {
    match s
    case Tls12(inner) => inner.hashAlgorithm
    case Tls13(inner) => Tls13.HashAlgorithmOf(inner)
  }

  function Common(s: SupportedCipherSuite): CipherSuiteCommon
  {
    match s
    case Tls12(inner) => inner.common
    case Tls13(inner) => inner.common
  }

  /** The suite's identifier. */
  function Suite(s: SupportedCipherSuite): CipherSuiteId
  {
    Common(s).suite
  }

  function Tls13Of(s: SupportedCipherSuite): Option<Tls13CipherSuite>
  {
    match s
    case Tls12(_) => None
    case Tls13(inner) => Some(inner)
  }

  function Tls12Of(s: SupportedCipherSuite): Option<Tls12CipherSuite>
  {
    match s
    case Tls12(inner) => Some(inner)
    case Tls13(_) => None
  }

  function Version(s: SupportedCipherSuite): SupportedProtocolVersion
  {
    match s
    case Tls12(_) => TLS12
    case Tls13(_) => TLS13
  }

  /** The accessors agree: exactly one of the two narrowing views is present, it matches the
      version, and the identifier and hash are those of the suite it exposes. */
  lemma AccessorsAgree(s: SupportedCipherSuite)
    ensures Tls12Of(s).Some? != Tls13Of(s).Some?
    ensures Tls13Of(s).Some? <==> Version(s) == TLS13
    ensures Tls12Of(s).Some? <==> Version(s) == TLS12
    ensures Tls13Of(s).Some? ==> Suite(s) == Tls13Of(s).value.common.suite &&
                                 HashAlgorithm(s) == Tls13.HashAlgorithmOf(Tls13Of(s).value)
    ensures Tls12Of(s).Some? ==> Suite(s) == Tls12Of(s).value.common.suite &&
                                 HashAlgorithm(s) == Tls12Of(s).value.hashAlgorithm
  {
  }

  /** `iter().any(|scheme| scheme.sign() == alg)` over a suite's signature schemes. */
  function AnySchemeSigns(schemes: seq<SignatureScheme>, alg: SignatureAlgorithm): (r: bool)
    ensures r <==> exists i :: 0 <= i < |schemes| && schemes[i].sign == alg
  {
    if schemes == [] then false
    else schemes[0].sign == alg || AnySchemeSigns(schemes[1..], alg)
  }

  /** `usable_for_signature_algorithm`: every TLS 1.3 suite, and a TLS 1.2 suite when one of its
      schemes signs with `alg`. */
  function UsableForSignatureAlgorithm(s: SupportedCipherSuite, alg: SignatureAlgorithm): (r: bool)
    ensures s.Tls13? ==> r
    ensures s.Tls12? ==> (r <==> exists i :: 0 <= i < |s.suite12.sign| && s.suite12.sign[i].sign == alg)
  {
    match s
    case Tls13(_) => true
    case Tls12(inner) => AnySchemeSigns(inner.sign, alg)
  }

  // Signature schemes (section 4.2.3 of RFC 8446) used by the TLS 1.2 suites.
  const ED25519_SCHEME: SignatureScheme := SignatureScheme(0x0807, ED25519)
  const ECDSA_NISTP521_SHA512: SignatureScheme := SignatureScheme(0x0603, ECDSA)
  const ECDSA_NISTP384_SHA384: SignatureScheme := SignatureScheme(0x0503, ECDSA)
  const ECDSA_NISTP256_SHA256: SignatureScheme := SignatureScheme(0x0403, ECDSA)
  const RSA_PSS_SHA512: SignatureScheme := SignatureScheme(0x0806, RSA)
  const RSA_PSS_SHA384: SignatureScheme := SignatureScheme(0x0805, RSA)
  const RSA_PSS_SHA256: SignatureScheme := SignatureScheme(0x0804, RSA)
  const RSA_PKCS1_SHA512: SignatureScheme := SignatureScheme(0x0601, RSA)
  const RSA_PKCS1_SHA384: SignatureScheme := SignatureScheme(0x0501, RSA)
  const RSA_PKCS1_SHA256: SignatureScheme := SignatureScheme(0x0401, RSA)

  const TLS12_ECDSA_SCHEMES: seq<SignatureScheme> :=
    [ED25519_SCHEME, ECDSA_NISTP521_SHA512, ECDSA_NISTP384_SHA384, ECDSA_NISTP256_SHA256]
  const TLS12_RSA_SCHEMES: seq<SignatureScheme> :=
    [RSA_PSS_SHA512, RSA_PSS_SHA384, RSA_PSS_SHA256, RSA_PKCS1_SHA512, RSA_PKCS1_SHA384, RSA_PKCS1_SHA256]

  const TLS_ECDHE_ECDSA_WITH_AES_256_GCM_SHA384: SupportedCipherSuite := Tls12(Tls12CipherSuite(
    CipherSuiteCommon(TLS_ECDHE_ECDSA_WITH_AES_256_GCM_SHA384_ID, Aes256Gcm, AES_256_GCM), SHA384, TLS12_ECDSA_SCHEMES))
  const TLS_ECDHE_ECDSA_WITH_AES_128_GCM_SHA256: SupportedCipherSuite := Tls12(Tls12CipherSuite(
    CipherSuiteCommon(TLS_ECDHE_ECDSA_WITH_AES_128_GCM_SHA256_ID, Aes128Gcm, AES_128_GCM), SHA256, TLS12_ECDSA_SCHEMES))
  const TLS_ECDHE_ECDSA_WITH_CHACHA20_POLY1305_SHA256: SupportedCipherSuite := Tls12(Tls12CipherSuite(
    CipherSuiteCommon(TLS_ECDHE_ECDSA_WITH_CHACHA20_POLY1305_SHA256_ID, Chacha20Poly1305, CHACHA20_POLY1305), SHA256, TLS12_ECDSA_SCHEMES))
  const TLS_ECDHE_RSA_WITH_AES_256_GCM_SHA384: SupportedCipherSuite := Tls12(Tls12CipherSuite(
    CipherSuiteCommon(TLS_ECDHE_RSA_WITH_AES_256_GCM_SHA384_ID, Aes256Gcm, AES_256_GCM), SHA384, TLS12_RSA_SCHEMES))
  const TLS_ECDHE_RSA_WITH_AES_128_GCM_SHA256: SupportedCipherSuite := Tls12(Tls12CipherSuite(
    CipherSuiteCommon(TLS_ECDHE_RSA_WITH_AES_128_GCM_SHA256_ID, Aes128Gcm, AES_128_GCM), SHA256, TLS12_RSA_SCHEMES))
  const TLS_ECDHE_RSA_WITH_CHACHA20_POLY1305_SHA256: SupportedCipherSuite := Tls12(Tls12CipherSuite(
    CipherSuiteCommon(TLS_ECDHE_RSA_WITH_CHACHA20_POLY1305_SHA256_ID, Chacha20Poly1305, CHACHA20_POLY1305), SHA256, TLS12_RSA_SCHEMES))

  /** `ALL_CIPHER_SUITES` (also the default list): the TLS 1.3 suites first, then TLS 1.2. */
  const ALL_CIPHER_SUITES: seq<SupportedCipherSuite> := [
    Tls13.TLS13_AES_256_GCM_SHA384,
    Tls13.TLS13_AES_128_GCM_SHA256,
    Tls13.TLS13_CHACHA20_POLY1305_SHA256,
    TLS_ECDHE_ECDSA_WITH_AES_256_GCM_SHA384,
    TLS_ECDHE_ECDSA_WITH_AES_128_GCM_SHA256,
    TLS_ECDHE_ECDSA_WITH_CHACHA20_POLY1305_SHA256,
    TLS_ECDHE_RSA_WITH_AES_256_GCM_SHA384,
    TLS_ECDHE_RSA_WITH_AES_128_GCM_SHA256,
    TLS_ECDHE_RSA_WITH_CHACHA20_POLY1305_SHA256
  ]

  /** Some suite in `server` carries identifier `id`. */
  ghost predicate Offers(server: seq<SupportedCipherSuite>, id: CipherSuiteId)
  {
    exists j :: 0 <= j < |server| && Suite(server[j]) == id
  }

  /** `server_suites.iter().find(|x| id == x.suite())`: the first server suite with that identifier. */
  function FindSuite(server: seq<SupportedCipherSuite>, id: CipherSuiteId): (r: Option<SupportedCipherSuite>)
    ensures r.Some? <==> Offers(server, id)
    ensures r.Some? ==> exists j :: 0 <= j < |server| && server[j] == r.value && Suite(r.value) == id &&
                                    forall k :: 0 <= k < j ==> Suite(server[k]) != id
  {
    if server == [] then None
    else if Suite(server[0]) == id then Some(server[0])
    else
      var r := FindSuite(server[1..], id);
      assert Offers(server, id) ==> Offers(server[1..], id) by {
        if Offers(server, id) {
          var j :| 0 <= j < |server| && Suite(server[j]) == id;
          assert j > 0 && Suite(server[1..][j - 1]) == id;
        }
      }
      assert r.Some? ==> exists j :: 0 <= j < |server| && server[j] == r.value && Suite(r.value) == id &&
                                     forall k :: 0 <= k < j ==> Suite(server[k]) != id by {
        if r.Some? {
          var j :| 0 <= j < |server| - 1 && server[1..][j] == r.value && Suite(r.value) == id &&
                   forall k :: 0 <= k < j ==> Suite(server[1..][k]) != id;
          assert server[j + 1] == r.value;
          assert forall k :: 0 <= k < j + 1 ==> Suite(server[k]) != id by {
            forall k | 0 <= k < j + 1 ensures Suite(server[k]) != id {
              if k > 0 { assert server[k] == server[1..][k - 1]; }
            }
          }
        }
      }
      r
  }

  /** `choose_ciphersuite_preferring_client`: the first client identifier the server offers, and
      for it the first matching server suite; None exactly when no identifier is shared. */
  function ChooseCipherSuitePreferringClient(client: seq<CipherSuiteId>, server: seq<SupportedCipherSuite>)
    : (r: Option<SupportedCipherSuite>)
    ensures r.None? <==> forall i :: 0 <= i < |client| ==> !Offers(server, client[i])
    ensures r.Some? ==> r.value in server
    ensures r.Some? ==> exists i :: 0 <= i < |client| && client[i] == Suite(r.value) &&
                                    forall k :: 0 <= k < i ==> !Offers(server, client[k])
  {
    if client == [] then None
    else match FindSuite(server, client[0])
      case Some(selected) => Some(selected)
      case None =>
        var r := ChooseCipherSuitePreferringClient(client[1..], server);
        assert forall i :: 1 <= i < |client| ==> client[i] == client[1..][i - 1];
        assert r.Some? ==> exists i :: 0 <= i < |client| && client[i] == Suite(r.value) &&
                                       forall k :: 0 <= k < i ==> !Offers(server, client[k]) by {
          if r.Some? {
            var i :| 0 <= i < |client| - 1 && client[1..][i] == Suite(r.value) &&
                     forall k :: 0 <= k < i ==> !Offers(server, client[1..][k]);
            assert client[i + 1] == Suite(r.value);
          }
        }
        r
  }

  /** `choose_ciphersuite_preferring_server`: the first server suite whose identifier the client
      lists; None exactly when no identifier is shared. */
  function ChooseCipherSuitePreferringServer(client: seq<CipherSuiteId>, server: seq<SupportedCipherSuite>)
    : (r: Option<SupportedCipherSuite>)
    ensures r.None? <==> forall j :: 0 <= j < |server| ==> Suite(server[j]) !in client
    ensures r.Some? ==> Suite(r.value) in client
    ensures r.Some? ==> exists j :: 0 <= j < |server| && server[j] == r.value &&
                                    forall k :: 0 <= k < j ==> Suite(server[k]) !in client
  {
    if server == [] then None
    else if Suite(server[0]) in client then Some(server[0])
    else
      var r := ChooseCipherSuitePreferringServer(client, server[1..]);
      assert forall j :: 1 <= j < |server| ==> server[j] == server[1..][j - 1];
      assert r.Some? ==> exists j :: 0 <= j < |server| && server[j] == r.value &&
                                     forall k :: 0 <= k < j ==> Suite(server[k]) !in client by {
        if r.Some? {
          var j :| 0 <= j < |server| - 1 && server[1..][j] == r.value &&
                   forall k :: 0 <= k < j ==> Suite(server[1..][k]) !in client;
          assert server[j + 1] == r.value;
        }
      }
      r
  }

  /** Either both preference orders find a mutually supported suite or both fail. */
  lemma {:induction false} PreferencesAgreeOnSuccess(client: seq<CipherSuiteId>, server: seq<SupportedCipherSuite>)
    ensures ChooseCipherSuitePreferringClient(client, server).Some? <==>
            ChooseCipherSuitePreferringServer(client, server).Some?
  {
    var c := ChooseCipherSuitePreferringClient(client, server);
    var s := ChooseCipherSuitePreferringServer(client, server);
    if c.Some? {
      var i :| 0 <= i < |client| && client[i] == Suite(c.value) &&
               forall k :: 0 <= k < i ==> !Offers(server, client[k]);
      var j :| 0 <= j < |server| && server[j] == c.value;
      assert Suite(server[j]) in client;
    }
    if s.Some? {
      var j :| 0 <= j < |server| && server[j] == s.value &&
               forall k :: 0 <= k < j ==> Suite(server[k]) !in client;
      var i :| 0 <= i < |client| && client[i] == Suite(s.value);
      assert Offers(server, client[i]);
    }
  }

  /** `reduce_given_sigalg`: the suites of `all` usable with `alg`, in their original order. */
  function ReduceGivenSigalg(all: seq<SupportedCipherSuite>, alg: SignatureAlgorithm): seq<SupportedCipherSuite>
  {
    Filter(all, s => UsableForSignatureAlgorithm(s, alg))
  }

  /** `reduce_given_version`: the suites of `all` of protocol version `v`, in their original order. */
  function ReduceGivenVersion(all: seq<SupportedCipherSuite>, v: ProtocolVersion): seq<SupportedCipherSuite>
  {
    Filter(all, s => Version(s).version == v)
  }

  /** The signature filter keeps exactly the usable suites, each as often as in `all`, in order. */
  lemma ReduceGivenSigalgSpec(all: seq<SupportedCipherSuite>, alg: SignatureAlgorithm, x: SupportedCipherSuite)
    ensures x in ReduceGivenSigalg(all, alg) <==> x in all && UsableForSignatureAlgorithm(x, alg)
    ensures UsableForSignatureAlgorithm(x, alg) ==> multiset(ReduceGivenSigalg(all, alg))[x] == multiset(all)[x]
    ensures IsSubsequence(ReduceGivenSigalg(all, alg), all)
  {
    var p := s => UsableForSignatureAlgorithm(s, alg);
    FilterMembers(all, p, x);
    FilterCounts(all, p, x);
    FilterIsSubsequence(all, p);
  }

  /** The version filter keeps exactly the suites of that version, each as often as in `all`, in order. */
  lemma ReduceGivenVersionSpec(all: seq<SupportedCipherSuite>, v: ProtocolVersion, x: SupportedCipherSuite)
    ensures x in ReduceGivenVersion(all, v) <==> x in all && Version(x).version == v
    ensures Version(x).version == v ==> multiset(ReduceGivenVersion(all, v))[x] == multiset(all)[x]
    ensures IsSubsequence(ReduceGivenVersion(all, v), all)
  {
    var p := s => Version(s).version == v;
    FilterMembers(all, p, x);
    FilterCounts(all, p, x);
    FilterIsSubsequence(all, p);
  }

  /** `compatible_sigscheme_for_suites`: some suite is usable with the scheme's signature algorithm. */
  function CompatibleSigschemeForSuites(scheme: SignatureScheme, suites: seq<SupportedCipherSuite>): (r: bool)
    ensures r <==> exists i :: 0 <= i < |suites| && UsableForSignatureAlgorithm(suites[i], scheme.sign)
  {
    if suites == [] then false
    else
      UsableForSignatureAlgorithm(suites[0], scheme.sign) || CompatibleSigschemeForSuites(scheme, suites[1..])
  }

  /** A scheme is compatible with a suite list exactly when filtering the list by its algorithm
      leaves something. */
  lemma CompatibleIffReductionNonEmpty(scheme: SignatureScheme, suites: seq<SupportedCipherSuite>)
    ensures CompatibleSigschemeForSuites(scheme, suites) <==> ReduceGivenSigalg(suites, scheme.sign) != []
  {
    var red := ReduceGivenSigalg(suites, scheme.sign);
    if CompatibleSigschemeForSuites(scheme, suites) {
      var i :| 0 <= i < |suites| && UsableForSignatureAlgorithm(suites[i], scheme.sign);
      ReduceGivenSigalgSpec(suites, scheme.sign, suites[i]);
    }
    if red != [] {
      ReduceGivenSigalgSpec(suites, scheme.sign, red[0]);
    }
  }

  /** `test_client_pref`, `test_server_pref` and `test_pref_fails`. */
  lemma PreferenceExamples()
    ensures ChooseCipherSuitePreferringClient([TLS13_AES_128_GCM_SHA256_ID, TLS13_AES_256_GCM_SHA384_ID],
              [Tls13.TLS13_AES_256_GCM_SHA384, Tls13.TLS13_AES_128_GCM_SHA256]) == Some(Tls13.TLS13_AES_128_GCM_SHA256)
    ensures ChooseCipherSuitePreferringServer([TLS13_AES_128_GCM_SHA256_ID, TLS13_AES_256_GCM_SHA384_ID],
              [Tls13.TLS13_AES_256_GCM_SHA384, Tls13.TLS13_AES_128_GCM_SHA256]) == Some(Tls13.TLS13_AES_256_GCM_SHA384)
    ensures ChooseCipherSuitePreferringClient([TLS_NULL_WITH_NULL_NULL], ALL_CIPHER_SUITES).None?
    ensures ChooseCipherSuitePreferringServer([TLS_NULL_WITH_NULL_NULL], ALL_CIPHER_SUITES).None?
  {
    var server := [Tls13.TLS13_AES_256_GCM_SHA384, Tls13.TLS13_AES_128_GCM_SHA256];
    assert server[1..] == [Tls13.TLS13_AES_128_GCM_SHA256];
    assert FindSuite(server, TLS13_AES_128_GCM_SHA256_ID) == Some(Tls13.TLS13_AES_128_GCM_SHA256);
    assert forall j :: 0 <= j < |ALL_CIPHER_SUITES| ==> Suite(ALL_CIPHER_SUITES[j]) != TLS_NULL_WITH_NULL_NULL;
  }
}
