# tlspuffin core, modelled in Dafny

tlspuffin is a protocol fuzzer for TLS (and SSH) implementations. It builds symbolic terms
over the protocol's message-building functions, mutates them, and evaluates them against a
"put" (program under test). The rustls-derived message layer in tlspuffin supplies the
cryptographic plumbing that terms are evaluated with. This project models eight parts of it:

- **deterministic RNG** (`deterministic_rand.c`): a 64-bit linear congruential generator.
  OpenSSL installs it as its random-number method so that fuzzing runs are reproducible.
  Modelled by the class `DeterministicRand.Rng`, proved against the spec functions `Stream` and
  `Advance`.
- **payload codecs** (`msgs/base.rs`): `Payload` and the vectors with a u8, u16 or u24 length
  prefix. They are modelled on a `Codec.ByteVec` output buffer and a `Codec.Reader` cursor,
  and proved against `Base.LengthPrefixed` and `Base.ReadPrefixed`.
- **handshake transcript hash** (`hash_hs.rs`): `HandshakeHashBuffer` and `HandshakeHash`,
  modelled as classes. A running digest is the algorithm plus every byte absorbed so far. The
  digest function itself is a parameter.
- **cipher suite selection** (`suites.rs`), modelled as pure functions. It covers the suite
  accessors, client- and server-preference negotiation, the filters by signature algorithm and
  by version, and the suite table.
- **TLS 1.3 record protection** (`tls13/mod.rs`): the three TLS 1.3 suites, resumption
  compatibility, the inner-plaintext unpadding loop and the record's additional data. It also
  covers encrypt and decrypt around an AEAD, which is a parameter.
- **term algebra** (`puffin/src/algebra/term.rs`): size, leaves, the post-order iterator (a
  recursive method filling a vector), subterm search, grand-subterm filtering, and the
  `remove_prefix` / `remove_fn_prefix` type-name cleaners.
- **legacy term** (`src/term/term.rs`): display, the variables and operators of a term, and
  its arguments.
- **term zoo** (`term_zoo.rs`): random generation of one closed term per signature function,
  with bounded depth and retries, plus filtered choice. Randomness is an oracle object.

Shared modules: `Wrappers` (Option, Result), `Seqs` (filter and subsequence), `Codec`
(bytes, big-endian integers, a growable byte vector, a reader cursor) and `TlsTypes` (the
enums and suite records). rustls's `codec.rs`, `enums.rs`, `handshake.rs`, `tls12.rs` and
`fragmenter.rs` are not part of this model. Where their behaviour matters, this model takes it
from the RFCs:

- content type codes: section 5.1 of RFC 8446;
- signature scheme codes: section 4.2.3 of RFC 8446;
- the `message_hash` message: section 4.4.1 of RFC 8446;
- vector length prefixes: section 3.4 of RFC 8446.

## Model

| member | source | states |
|---|---|---|
| DeterministicRand.Step | crates/openssl-src-111/src/deterministic_rand.c:27 | One generator step, `6364136223846793005 * seed + 1` modulo 2^64 (definition; its properties are stated through Advance and Stream). |
| DeterministicRand.Emit | crates/openssl-src-111/src/deterministic_rand.c:28 | The byte stored for a new state, bits 33..40 (definition; used by StreamAt). |
| DeterministicRand.Advance | crates/openssl-src-111/src/deterministic_rand.c:25-29 | The state after n steps (definition; composition in AdvanceAdd). |
| DeterministicRand.Stream | crates/openssl-src-111/src/deterministic_rand.c:23-31 | The n bytes drawn from a state (definition; Rng.Bytes is proved against it, and StreamAt, StreamConcat and StreamLength state its properties). |
| DeterministicRand.AdvanceAdd | crates/openssl-src-111/src/deterministic_rand.c:23-31 | Running the generator n steps and then m steps is the same as running it n+m steps. |
| DeterministicRand.StreamConcat | crates/openssl-src-111/src/deterministic_rand.c:23-31 | Drawing n bytes and then m bytes gives the same bytes as one draw of n+m. |
| DeterministicRand.StreamAt | crates/openssl-src-111/src/deterministic_rand.c:25-29 | A draw of n bytes has length n, and its byte i is bits 33..40 of the state after i+1 steps. |
| DeterministicRand.StreamLength | crates/openssl-src-111/src/deterministic_rand.c:23-31 | A draw of n bytes has exactly n bytes. |
| DeterministicRand.LittleEndianRoundTrip | crates/openssl-src-111/src/deterministic_rand.c:17-18 | Reading back the n little-endian bytes of any v < 256^n gives v. |
| DeterministicRand.LoadLE64 | crates/openssl-src-111/src/deterministic_rand.c:17 | Eight bytes read as a 64-bit state, least significant byte first; the result is below 2^64 by its type (definition; SeedReachesEveryState states it is onto). |
| DeterministicRand.SeedReachesEveryState | crates/openssl-src-111/src/deterministic_rand.c:17-18 | Every 64-bit state can be installed by seeding with its 8 bytes. |
| DeterministicRand.SeedAcceptsAsWritten | crates/openssl-src-111/src/deterministic_rand.c:13 | The guard as written, with num converted to a 64-bit unsigned value before the comparison (definition; see NegativeLengthPassesWrittenGuard and GuardsAgreeOnNonNegative). |
| DeterministicRand.NegativeLengthPassesWrittenGuard | crates/openssl-src-111/src/deterministic_rand.c:13-16 | As written (int compared with size_t), the guard accepts num = -1 although -1 < 8. |
| DeterministicRand.SeedAccepts | crates/openssl-src-111/src/deterministic_rand.c:13-16 | The intended guard: a seed is accepted only when num >= 8. |
| DeterministicRand.GuardsAgreeOnNonNegative | crates/openssl-src-111/src/deterministic_rand.c:13-16 | The written guard and the intended guard agree exactly on the non-negative lengths. |
| DeterministicRand.StdlibRandMeth | crates/openssl-src-111/src/deterministic_rand.c:50-57 | The method table routes both `bytes` and `pseudorand` to the same generator; the other slots get their own functions. |
| DeterministicRand.Rng.constructor | crates/openssl-src-111/src/deterministic_rand.c:5 | The state starts at 42. |
| DeterministicRand.Rng.Seed | crates/openssl-src-111/src/deterministic_rand.c:11-19 | Returns 1 and adopts the first 8 bytes as the state when the intended guard SeedAccepts holds. Otherwise returns 0 and leaves the state unchanged. |
| DeterministicRand.Rng.Bytes | crates/openssl-src-111/src/deterministic_rand.c:23-31 | Fills buf[0..num) with Stream(old state, num) and advances the state num steps. The rest of buf is untouched. Always returns 1. |
| DeterministicRand.Rng.Add | crates/openssl-src-111/src/deterministic_rand.c:37-43 | Always returns 1 and changes nothing. |
| DeterministicRand.Rng.Status | crates/openssl-src-111/src/deterministic_rand.c:45-48 | Always returns 1. |
| DeterministicRand.Rng.Cleanup | crates/openssl-src-111/src/deterministic_rand.c:33-35 | Does nothing: it has no modifies clause, so the state is unchanged. |
| DeterministicRand.Replay | crates/openssl-src-111/src/deterministic_rand.c:11-31 | Seeding a fresh generator and drawing n bytes always gives the stream of the seeded state, so runs are reproducible. |
| DeterministicRand.ReseedWithFourBytes | tlspuffin/src/openssl/deterministic.rs:24-26 | The harness reseeds with a 4-byte buffer. That buffer is rejected (rc 0) and leaves any state as it was, so in a fresh process the draws come from state 42. |
| DeterministicRand.DefaultFirstDraws | tlspuffin/src/openssl/deterministic.rs:38-40 | In a fresh process the first two bytes drawn are 183 and 96. |
| DeterministicRand.ExpectedVectorNotDrawn | tlspuffin/src/openssl/deterministic.rs:41 | The pair the test expects, [179, 16], is not the first two bytes drawn from state 42. |
| DeterministicRand.NoRandomnessSimple | tlspuffin/src/openssl/deterministic.rs:37-42 | The test's steps (fresh process, 4-byte reseed, 2-byte draw) give [183, 96]. |
| Base.LengthPrefixed | tlspuffin/src/tls/rustls/msgs/base.rs:64-67 | An encoding is the prefix width plus the body length long, and ends with the body. |
| Base.ReadPrefixed | tlspuffin/src/tls/rustls/msgs/base.rs:69-74 | A prefixed read never consumes more than its input. |
| Base.ReadAnnounced | tlspuffin/src/tls/rustls/msgs/base.rs:69-74 | A prefix announcing n bytes, followed by at least n bytes, reads back those n bytes and consumes width+n. |
| Base.RoundTrip | tlspuffin/src/tls/rustls/msgs/base.rs:64-74 | A body whose length fits the prefix is read back unchanged after encoding, whatever follows it. |
| Base.OverlongRoundTripFails | tlspuffin/src/tls/rustls/msgs/base.rs:128-131 | A body too long for its prefix wraps its length (the `as u8` cast). Only its first len mod 256^width bytes are read back. |
| Base.ReadConsumesEncoding | tlspuffin/src/tls/rustls/msgs/base.rs:69-74 | The bytes a successful read moved over are exactly the canonical encoding of the body it returned. |
| Base.ReadFailsExactlyWhenShort | tlspuffin/src/tls/rustls/msgs/base.rs:101-106 | A prefixed read fails if and only if the input is shorter than the prefix, or than the prefix plus the announced length. |
| Base.EncodePrefixed | tlspuffin/src/tls/rustls/msgs/base.rs:64-67 | Appends LengthPrefixed(width, body) to the output and keeps what was there. |
| Base.ReadPrefixedFrom | tlspuffin/src/tls/rustls/msgs/base.rs:69-74 | The returned body and the reader's advance are those of ReadPrefixed on the remaining input. |
| Base.EncodePayload | tlspuffin/src/tls/rustls/msgs/base.rs:16-18 | Appends the raw payload bytes. |
| Base.ReadPayload | tlspuffin/src/tls/rustls/msgs/base.rs:20-22 | Takes all the remaining input and leaves the reader at the end. |
| Base.PayloadRoundTrip | tlspuffin/src/tls/rustls/msgs/base.rs:16-22 | An unprefixed payload reads back unchanged. |
| Base.EncodePayloadU8 | tlspuffin/src/tls/rustls/msgs/base.rs:128-131 | Appends the 1-byte length prefix, then the body. |
| Base.ReadPayloadU8 | tlspuffin/src/tls/rustls/msgs/base.rs:133-138 | Agrees with ReadPrefixed at width 1: both the result and the reader's advance. |
| Base.EncodeSlice | tlspuffin/src/tls/rustls/msgs/base.rs:90-93 | Appends the 2-byte length prefix, then the slice. |
| Base.EncodePayloadU16 | tlspuffin/src/tls/rustls/msgs/base.rs:97-99 | Appends the 2-byte length prefix, then the body. |
| Base.ReadPayloadU16 | tlspuffin/src/tls/rustls/msgs/base.rs:101-106 | Agrees with ReadPrefixed at width 2: both the result and the reader's advance. |
| Base.EncodePayloadU24 | tlspuffin/src/tls/rustls/msgs/base.rs:64-67 | Appends the 3-byte length prefix, then the body. |
| Base.ReadPayloadU24 | tlspuffin/src/tls/rustls/msgs/base.rs:69-74 | Agrees with ReadPrefixed at width 3: both the result and the reader's advance. |
| Base.EncodeCertificate | tlspuffin/src/tls/rustls/msgs/base.rs:40-43 | Appends the 3-byte length prefix, then the certificate. |
| Base.ReadCertificate | tlspuffin/src/tls/rustls/msgs/base.rs:45-50 | Agrees with ReadPrefixed at width 3: both the result and the reader's advance. |
| Base.PayloadU8RoundTrip | tlspuffin/src/tls/rustls/msgs/base.rs:128-138 | A body of at most 255 bytes, followed by anything, reads back unchanged. The read consumes 1+len bytes. |
| TlsTypes.ContentTypeByteRoundTrip | tlspuffin/src/tls/rustls/tls13/mod.rs:142 | Decoding any content-type byte and encoding it again gives back the byte. |
| TlsTypes.ContentTypeRoundTrip | tlspuffin/src/tls/rustls/tls13/mod.rs:166 | Encoding a canonical content type and decoding the byte gives back the type. |
| Tls13.CanResumeFrom | tlspuffin/src/tls/rustls/tls13/mod.rs:101-104 | Resumption is allowed if and only if both suites use the same hash. The answer is then prev itself. |
| Tls13.SameSuiteIsIdEquality | tlspuffin/src/tls/rustls/tls13/mod.rs:113-117 | Suite equality depends only on the identifier and is an equivalence. |
| Tls13.CanResumeToExamples | tlspuffin/src/tls/rustls/suites.rs:243-254 | AES-128 (SHA-256) can resume from ChaCha20 (SHA-256); AES-256 (SHA-384) cannot. |
| Tls13.Unpad | tlspuffin/src/tls/rustls/tls13/mod.rs:138-146 | Drops trailing zeros, then takes the last byte as the type (definition; UnpadShape, UnpadAllZero and UnpadPadded state what it means). |
| Tls13.UnpadShape | tlspuffin/src/tls/rustls/tls13/mod.rs:138-146 | When a nonzero byte exists, the input is content ++ [c] ++ zeros. c is nonzero and the returned type is decoded from c. |
| Tls13.UnpadAllZero | tlspuffin/src/tls/rustls/tls13/mod.rs:138-146 | The type is Unknown(0) if and only if every byte is zero. The content is then empty. |
| Tls13.UnpadPadded | tlspuffin/src/tls/rustls/tls13/mod.rs:138-146 | Unpadding inverts padding: content ++ [t] ++ zeros gives back content and the type of t. |
| Tls13.UnpadTls13 | tlspuffin/src/tls/rustls/tls13/mod.rs:138-146 | The pop loop leaves the content in the vector and returns the type, exactly as Unpad of the old vector. |
| Tls13.MakeTls13Aad | tlspuffin/src/tls/rustls/tls13/mod.rs:148-159 | The additional data is 5 bytes: an ApplicationData header with version bytes 3,3. |
| Tls13.AadDeclaresLength | tlspuffin/src/tls/rustls/tls13/mod.rs:148-156 | For lengths below 2^16, the last two bytes read back big-endian as the length. |
| Tls13.Encrypt | tlspuffin/src/tls/rustls/tls13/mod.rs:162-180 | Seals payload ++ [type byte] under additional data declaring payload+1+tag bytes. The result is ApplicationData/TLSv1_2; a seal failure gives General("encrypt failed"). |
| Tls13.Decrypt | tlspuffin/src/tls/rustls/tls13/mod.rs:184-216 | Each error case holds in source order: short payload, open failure, oversized, all-zero padding, oversized content. Success yields at most 2^14 bytes, a known type and TLSv1_3. |
| Tls13.EncryptThenDecrypt | tlspuffin/src/tls/rustls/tls13/mod.rs:162-216 | When open inverts seal, decrypting an encrypted message returns its type and payload, with version TLSv1_3. |
| Suites.Tls13Of | tlspuffin/src/tls/rustls/suites.rs:75-80 | The TLS 1.3 view of a suite (definition; AccessorsAgree relates it to the others). |
| Suites.Tls12Of | tlspuffin/src/tls/rustls/suites.rs:82-87 | The TLS 1.2 view of a suite (definition; AccessorsAgree). |
| Suites.Version | tlspuffin/src/tls/rustls/suites.rs:90-95 | The suite's protocol version (definition; AccessorsAgree). |
| Suites.AccessorsAgree | tlspuffin/src/tls/rustls/suites.rs:56-95 | Each suite is exactly one of TLS 1.2 or 1.3. `tls13`/`tls12` agree with `version`, and `suite`/`hash_algorithm` with the inner suite. |
| Suites.AnySchemeSigns | tlspuffin/src/tls/rustls/suites.rs:99-107 | True if and only if some scheme in the list signs with the algorithm. |
| Suites.UsableForSignatureAlgorithm | tlspuffin/src/tls/rustls/suites.rs:99-107 | TLS 1.3 suites are always usable. A TLS 1.2 suite is usable if and only if one of its schemes uses the algorithm. |
| Suites.FindSuite | tlspuffin/src/tls/rustls/suites.rs:132-143 | Finds a suite if and only if the server offers the id, and returns the first server suite with that id. |
| Suites.ChooseCipherSuitePreferringClient | tlspuffin/src/tls/rustls/suites.rs:132-143 | None if and only if the server offers no client id. Otherwise returns a server suite for the earliest client id the server offers. |
| Suites.ChooseCipherSuitePreferringServer | tlspuffin/src/tls/rustls/suites.rs:145-157 | None if and only if no server suite's id is in the client list. Otherwise returns the first such server suite. |
| Suites.PreferencesAgreeOnSuccess | tlspuffin/src/tls/rustls/suites.rs:132-157 | Client preference succeeds exactly when server preference does. |
| Suites.ReduceGivenSigalg | tlspuffin/src/tls/rustls/suites.rs:161-169 | The suites usable with the algorithm (definition; ReduceGivenSigalgSpec). |
| Suites.ReduceGivenVersion | tlspuffin/src/tls/rustls/suites.rs:173-181 | The suites of the version (definition; ReduceGivenVersionSpec). |
| Suites.ReduceGivenSigalgSpec | tlspuffin/src/tls/rustls/suites.rs:161-169 | The result keeps exactly the usable suites, each as often as in the input, in the input order. |
| Suites.ReduceGivenVersionSpec | tlspuffin/src/tls/rustls/suites.rs:173-181 | The result keeps exactly the suites of that version, each as often as in the input, in the input order. |
| Suites.CompatibleSigschemeForSuites | tlspuffin/src/tls/rustls/suites.rs:184-192 | True if and only if some suite is usable with the scheme's signature algorithm. |
| Suites.CompatibleIffReductionNonEmpty | tlspuffin/src/tls/rustls/suites.rs:161-192 | A scheme is compatible if and only if the signature-algorithm filter leaves some suite. |
| Suites.PreferenceExamples | tlspuffin/src/tls/rustls/suites.rs:200-235 | The client-preference, server-preference and failing negotiation tests hold. |
| HashHs.MessageHashEncoding | tlspuffin/src/tls/rustls/hash_hs.rs:164-187 | The synthetic message_hash message is 4 bytes longer than the hash. |
| HashHs.MessageHashEncodingReadsBack | tlspuffin/src/tls/rustls/hash_hs.rs:164-187 | The message_hash message starts with type 254, and its u24-prefixed body reads back as the hash. |
| HashHs.HandshakeHashBuffer.constructor | tlspuffin/src/tls/rustls/hash_hs.rs:22-27 | Starts with an empty buffer and client auth off. |
| HashHs.HandshakeHashBuffer.SetClientAuthEnabled | tlspuffin/src/tls/rustls/hash_hs.rs:31-33 | Turns client auth on and keeps the buffer. |
| HashHs.HandshakeHashBuffer.AddMessage | tlspuffin/src/tls/rustls/hash_hs.rs:36-40 | Appends the encoding of a handshake message; other messages add nothing. |
| HashHs.HandshakeHashBuffer.UpdateRaw | tlspuffin/src/tls/rustls/hash_hs.rs:44-46 | Appends the raw bytes. |
| HashHs.HandshakeHashBuffer.GetHashGiven | tlspuffin/src/tls/rustls/hash_hs.rs:49-54 | The digest of the buffer followed by the extra bytes. |
| HashHs.HandshakeHashBuffer.StartHash | tlspuffin/src/tls/rustls/hash_hs.rs:57-68 | The new hash has absorbed the buffer. It keeps a client-auth copy of the buffer exactly when client auth was enabled, and has no override. |
| HashHs.HandshakeHash.New | tlspuffin/src/tls/rustls/hash_hs.rs:111-118 | A fresh context with no client-auth copy and no override. |
| HashHs.HandshakeHash.NewOverride | tlspuffin/src/tls/rustls/hash_hs.rs:121-128 | A fresh context whose raw hash is overridden by the static buffer. |
| HashHs.HandshakeHash.AbandonClientAuth | tlspuffin/src/tls/rustls/hash_hs.rs:132-134 | Drops the client-auth copy and keeps everything else. |
| HashHs.HandshakeHash.UpdateRaw | tlspuffin/src/tls/rustls/hash_hs.rs:146-154 | Appends the bytes to the context and to the client-auth copy, if any. This keeps the copy ending with what the context absorbed. |
| HashHs.HandshakeHash.AddMessage | tlspuffin/src/tls/rustls/hash_hs.rs:137-143 | Appends a handshake message's encoding to the context and to the client-auth copy. Other messages change nothing. |
| HashHs.HandshakeHash.GetHashGiven | tlspuffin/src/tls/rustls/hash_hs.rs:158-162 | The digest of everything absorbed, followed by the extra bytes, with the original context untouched. |
| HashHs.HandshakeHash.IntoHrrBuffer | tlspuffin/src/tls/rustls/hash_hs.rs:164-173 | A new buffer holding the message_hash message of the current digest. Client auth stays enabled exactly when a copy was kept. |
| HashHs.HandshakeHash.RollupForHrr | tlspuffin/src/tls/rustls/hash_hs.rs:178-187 | Restarts the context with the message_hash message of the old digest, and appends that message to the client-auth copy. |
| HashHs.HandshakeHash.GetCurrentHash | tlspuffin/src/tls/rustls/hash_hs.rs:190-192 | The digest of everything absorbed. |
| HashHs.HandshakeHash.CurrentHashRaw | tlspuffin/src/tls/rustls/hash_hs.rs:194-200 | The override buffer when there is one, otherwise the digest of everything absorbed (definition; GetCurrentHashRaw and EncodeThenRead). |
| HashHs.HandshakeHash.GetCurrentHashRaw | tlspuffin/src/tls/rustls/hash_hs.rs:194-200 | The override buffer when there is one, otherwise the current digest. |
| HashHs.HandshakeHash.TakeHandshakeBuf | tlspuffin/src/tls/rustls/hash_hs.rs:205-207 | Returns the client-auth copy and leaves none behind. |
| HashHs.HandshakeHash.Algorithm | tlspuffin/src/tls/rustls/hash_hs.rs:210-212 | The digest algorithm of the context (definition: an accessor). |
| HashHs.HandshakeHash.Encode | tlspuffin/src/tls/rustls/hash_hs.rs:96-100 | Appends the raw current hash. |
| HashHs.Read | tlspuffin/src/tls/rustls/hash_hs.rs:102-107 | Always succeeds. Takes the rest of the input as the override, uses SHA-256 and leaves the reader at the end. |
| HashHs.EncodeThenRead | tlspuffin/src/tls/rustls/hash_hs.rs:96-107 | Reading back an encoded hash gives a hash whose raw value is what was encoded, whatever digest function is used after. |
| HashHs.HashGivenAgrees | tlspuffin/src/tls/rustls/hash_hs.rs:49-68 | Hashing with extra bytes gives the same digest before and after start_hash. |
| HashHs.HashesCorrectly | tlspuffin/src/tls/rustls/hash_hs.rs:222-235 | After "hello" and "world", the digest is that of "helloworld" and no copy is kept. |
| HashHs.BuffersCorrectly | tlspuffin/src/tls/rustls/hash_hs.rs:238-255 | With client auth on, the digest is that of "helloworld" and the copy is "helloworld". |
| HashHs.Abandon | tlspuffin/src/tls/rustls/hash_hs.rs:258-275 | After abandoning client auth, the digest is still that of "helloworld" and no copy is kept. |
| AlgebraTerm.Size | puffin/src/algebra/term.rs:44-51 | Every term has size at least 1. |
| AlgebraTerm.SizeSum | puffin/src/algebra/term.rs:47-49 | Subterm sizes sum to at least the number of subterms. |
| AlgebraTerm.IsLeaf | puffin/src/algebra/term.rs:53-62 | A term is a leaf if and only if its size is 1. |
| AlgebraTerm.TermSlot.Mutate | puffin/src/algebra/term.rs:78-80 | Replaces the term in place. |
| AlgebraTerm.PostOrder | puffin/src/algebra/term.rs:145-156 | Children first, left to right, then the term (definition; Append and IntoIter are proved against it, the PostOrder* lemmas state its properties). |
| AlgebraTerm.PostOrderLength | puffin/src/algebra/term.rs:145-170 | Iteration visits exactly size(t) terms. |
| AlgebraTerm.PostOrderAllLength | puffin/src/algebra/term.rs:145-156 | Iterating a list of subterms visits the sum of their sizes. |
| AlgebraTerm.PostOrderRootLast | puffin/src/algebra/term.rs:145-156 | The root is visited last, and every visited term is no larger than the root. |
| AlgebraTerm.PostOrderAllBounded | puffin/src/algebra/term.rs:145-156 | Every term visited under a list of subterms is no larger than their size sum. |
| AlgebraTerm.TermVec.Push | puffin/src/algebra/term.rs:155 | Adds the term at the end. |
| AlgebraTerm.Append | puffin/src/algebra/term.rs:145-156 | Appends the post-order of t to the vector: children first, left to right, then t. |
| AlgebraTerm.IntoIter | puffin/src/algebra/term.rs:165-170 | Yields exactly the post-order of the term. |
| AlgebraTerm.FindSubterm | puffin/src/algebra/term.rs:190-192 | None if and only if no element passes. Otherwise returns the first element that passes. |
| AlgebraTerm.FindSubtermSameShape | puffin/src/algebra/term.rs:185-187 | None if and only if no element has the term's type. Otherwise returns an element of that type. |
| AlgebraTerm.Tag | puffin/src/algebra/term.rs:214 | Pairs each grandchild with its parent and the parent's index, keeping their order. |
| AlgebraTerm.FilterGrandSubterms | puffin/src/algebra/term.rs:200-221 | The loop's result equals the grand-subterm specification. |
| AlgebraTerm.GrandSubterms | puffin/src/algebra/term.rs:200-221 | The parents in index order, each contributing its matching children (definition; FilterGrandSubterms is proved against it). |
| AlgebraTerm.MatchingChildrenTagged | puffin/src/algebra/term.rs:214 | Every result for one parent carries that parent and its index. |
| AlgebraTerm.MatchingChildrenSpec | puffin/src/algebra/term.rs:211-217 | For an application parent, the grand subterms found are a subsequence of its arguments. Each term occurs as often as among the arguments when the predicate holds for it, and not at all otherwise. |
| AlgebraTerm.GrandSubtermsBlock | puffin/src/algebra/term.rs:206-218 | The entries whose index is i are exactly MatchingChildren(i, ts[i]), in argument order: the output is ordered by parent index, then by argument position, with the multiplicities of MatchingChildrenSpec. |
| AlgebraTerm.GrandSubtermsMembers | puffin/src/algebra/term.rs:194-221 | An entry is found if and only if its index names its parent, and the parent is an application with that grandchild for which the predicate holds. |
| AlgebraTerm.GrandSubtermsOrdered | puffin/src/algebra/term.rs:206-218 | Entries come in non-decreasing parent-index order, and every index is in range. The order and multiplicity within one parent are stated by GrandSubtermsBlock. |
| AlgebraTerm.LastPathSep | puffin/src/algebra/term.rs:233 | `rfind("::")`: the position of the last "::", or None when there is none. |
| AlgebraTerm.StripPath | puffin/src/algebra/term.rs:238-242 | The part after the last "::" (definition; StripPathSpec). |
| AlgebraTerm.StripPathSpec | puffin/src/algebra/term.rs:238-242 | Path stripping leaves a suffix without "::". A string without "::" is unchanged. |
| AlgebraTerm.StripPathAfterLastSep | puffin/src/algebra/term.rs:238-239 | prefix::name strips to name when name has no ':'. |
| AlgebraTerm.IndexOf | puffin/src/algebra/term.rs:228 | The position of the first occurrence of the character. |
| AlgebraTerm.SplitAtAngle | puffin/src/algebra/term.rs:228 | `split('<').collect_tuple()` gives the two pieces around the only '<'. It gives None when there is no '<' or more than one. |
| AlgebraTerm.SplitAtAngleOf | puffin/src/algebra/term.rs:228 | A string with exactly one '<' splits back into its two pieces. |
| AlgebraTerm.RemovePrefix | puffin/src/algebra/term.rs:227-243 | remove_prefix, with None where the source panics (definition; the RemovePrefix* lemmas state its cases). |
| AlgebraTerm.RemovePrefixPlain | puffin/src/algebra/term.rs:238-242 | Without '<', remove_prefix only strips the path. |
| AlgebraTerm.RemovePrefixNested | puffin/src/algebra/term.rs:227-243 | With two or more '<', the whole name is stripped to its last "::", even inside the brackets. |
| AlgebraTerm.RemovePrefixGeneric | puffin/src/algebra/term.rs:230-237 | Outer<generic>: both parts are stripped and the brackets are kept. |
| AlgebraTerm.RemovePrefixFailsExactly | puffin/src/algebra/term.rs:231 | remove_prefix panics if and only if the only '<' is the last character. |
| AlgebraTerm.RemovePrefixFailsOnEmptyGeneric | puffin/src/algebra/term.rs:228-231 | remove_prefix panics if and only if the split finds exactly one '<' with nothing after it. |
| AlgebraTerm.EmptyGenericIffTrailingAngle | puffin/src/algebra/term.rs:228 | The split has an empty generic part if and only if the only '<' is the last character. |
| AlgebraTerm.StripPathNoColon | puffin/src/algebra/term.rs:238-242 | A name with no ':' is left unchanged by path stripping. |
| AlgebraTerm.RemovePrefixNormalExample | puffin/src/algebra/term.rs:254-256 | test::test::Test gives Test. |
| AlgebraTerm.RemovePrefixGenericExample | puffin/src/algebra/term.rs:259-261 | test::test::Test<Asdf> gives Test<Asdf>. |
| AlgebraTerm.RemovePrefixGenericRecursiveExample | puffin/src/algebra/term.rs:264-266 | test::test::Test<asdf::Asdf> gives Test<Asdf>. |
| AlgebraTerm.RemoveFnPrefix | puffin/src/algebra/term.rs:245-247 | `replace("fn_", "")` as one left-to-right pass (definition; RemoveFnPrefixSpec and RemoveFnPrefixLeftmost). |
| AlgebraTerm.RemoveFnPrefixSpec | puffin/src/algebra/term.rs:245-247 | The result is a subsequence, shorter by a multiple of 3. It is unchanged when "fn_" does not occur and strictly shorter when it does. Which characters go is stated by RemoveFnPrefixLeftmost. |
| AlgebraTerm.RemoveFnPrefixLeftmost | puffin/src/algebra/term.rs:245-247 | The leftmost "fn_" is deleted and everything before it kept: with "fn_" at j and none earlier, the result is s[..j] followed by the pass over s[j+3..]. With RemoveFnPrefixSpec's no-match case this fixes the result. |
| AlgebraTerm.RemoveFnPrefixUnchangedIff | puffin/src/algebra/term.rs:245-247 | The name is unchanged if and only if it contains no "fn_". |
| AlgebraTerm.RemoveFnPrefixSinglePass | puffin/src/algebra/term.rs:246 | `replace` makes a single pass: "ffn_n_" gives "fn_". |
| LegacyTerm.Display | src/term/term.rs:34-47 | A variable or atom shows its name; an application with arguments shows its operator, then its arguments in parentheses, separated by spaces (definition; DisplayParentheses). |
| LegacyTerm.Variables | src/term/term.rs:57-62 | The variables of the term, left to right (definition; CollectionsCountNodes). |
| LegacyTerm.Operators | src/term/term.rs:67-76 | The operators, the arguments' first and then the term's own (definition; RootOperatorLast and CollectionsCountNodes). |
| LegacyTerm.Args | src/term/term.rs:79-84 | A variable has no arguments; an application has its own. |
| LegacyTerm.CollectionsCountNodes | src/term/term.rs:57-76 | The variables plus the operators of a term are exactly its nodes. |
| LegacyTerm.CollectionsCountNodesAll | src/term/term.rs:57-76 | The same count holds over a list of terms. |
| LegacyTerm.RootOperatorLast | src/term/term.rs:67-76 | An application's own operator is the last one listed. |
| LegacyTerm.CountAppend | src/term/term.rs:42-43 | Character counts add up over concatenation. |
| LegacyTerm.DisplayParentheses | src/term/term.rs:34-47 | When atoms have no parentheses, display uses exactly one "(" and one ")" per application with arguments. |
| LegacyTerm.DisplayParenthesesAll | src/term/term.rs:42 | The same holds for arguments joined with spaces. |
| TermZoo.Rand.Below | puffin/src/fuzzer/term_zoo.rs:61 | The draw is below the bound, comes from the oracle, and counts one draw. |
| TermZoo.Rand.Choose | puffin/src/fuzzer/term_zoo.rs:61 | Choosing from an empty list gives None with no draw. Otherwise returns an element of the list. |
| TermZoo.GenerateTerm | puffin/src/fuzzer/term_zoo.rs:44-84 | Gives None at depth 0 or when an argument type has no candidate. Otherwise an application of a fresh function of the shape, one argument per argument type, closed, within depth and well typed. |
| TermZoo.GenerateWithRetries | puffin/src/fuzzer/term_zoo.rs:25-37 | Makes 1 to 100 attempts, and gives up only after 100. Success satisfies GenerateTerm's guarantees at depth 8. |
| TermZoo.Generate | puffin/src/fuzzer/term_zoo.rs:20-42 | At most one term per signature function, in signature order. Each term applies its function, is closed, has depth at most 8 and is well typed. Functions with missing candidates give none. |
| TermZoo.TermZoo.Terms | puffin/src/fuzzer/term_zoo.rs:93-95 | The generated terms (definition: an accessor). |
| TermZoo.ChooseFiltered | puffin/src/fuzzer/term_zoo.rs:86-91 | None if and only if no term passes the filter. Otherwise returns a zoo term that passes. |

## Left out

- Cryptography: the digest (`ring::digest`) and the AEAD (`seal_in_place_append_tag` /
  `open_in_place`) are function parameters. Nonce derivation from the IV and the sequence
  number happens inside that parameter.
- The SHA-256 digest in the transcript-hash tests depends on the real digest and is not
  modelled. The OpenSSL test's expected bytes are compared with the model under Findings.
- DeterministicRand.LoadLE64: the C code reads the seed in host byte order; the model fixes it
  to little-endian.
- Installation of the method table through `RAND_set_rand_method` (`make_openssl_deterministic`)
  is a foreign call. Only the table's contents are modelled.
- Rng.Bytes models `buf` as an array of at least `num` bytes. Rng.Seed models `buf` as a
  sequence of at least `num` bytes. Reading past a caller's buffer is C undefined behaviour,
  which the model does not represent.
- Codec's `Reader` and `ByteVec` stand in for rustls's codec reader and `Vec<u8>`. `codec.rs`
  is not part of this model.
- Payload::new, Payload::empty, PayloadU8::into_inner and the `VecCodecWoSize` markers are
  trivial constructors or markers, and are not modelled.
- Tls13.Decrypt: the in-place open and truncate are modelled by a new vector holding the
  opened plaintext. `MAX_FRAGMENT_LEN` comes from `fragmenter.rs`, which is not part of this
  model.
- The TLS 1.2 suite table (`tls12.rs`) is not part of this model. It is reconstructed with
  each suite's identifier, hash and signature schemes; the key exchange and AEAD parameters
  are omitted.
- HashHs message encodings: `Message::get_encoding` (`handshake.rs`) is not part of this model.
  A handshake message is its encoded bytes.
- AlgebraTerm: `display_at_depth`, `evaluate` and `Display` (dynamic values and formatting)
  are left out. `ResistantId`, `GetTypeShape` and `Name` are plain accessors with no property
  of their own.
- AlgebraTerm.RemovePrefix: works on characters, not UTF-8 bytes. The source cuts the last
  byte off the generic part (`generic[0..generic.len() - 1]`), which panics when the last
  character of that part is multi-byte: "Vec<é" panics there, while the model gives
  Some("Vec<>"). "Vec<aé>" is fine in both.
- AlgebraTerm.RemovePrefixFailsExactly: the if-and-only-if covers the empty-generic panic only.
  The panic on a multi-byte last character, above, is not part of it.
- DeterministicRand.Rng.Seed: uses the intended guard SeedAccepts. For a negative num the C
  code returns 1 and reads 8 bytes from the buffer (see Findings).
- LegacyTerm: `evaluate` (dynamic values) and `pretty` (a formatter in another file) are left
  out. Variables and operators display as their stored name.
- TermZoo: `Function::new` (`atoms.rs`) is not part of this model. A generated function gets
  resistant id 0 (`NEW_FUNCTION_ID`). The `choose` and `choose_filtered` helpers
  (`util.rs`) are modelled by their contracts: an element drawn through the randomness oracle,
  and an element that passes the filter.
- TermZoo.Generate: the dynamic function attached to each definition is not modelled. A
  definition is its shape.

## Findings

| source | as written | input that shows it | evidently intended | confidence | as-written member | corrected member |
|---|---|---|---|---|---|---|
| crates/openssl-src-111/src/deterministic_rand.c:13 | `num < sizeof(uint64_t)` compares a signed `int` with an unsigned `size_t`, so a negative `num` becomes a huge unsigned value and passes the guard | num = -1 | reject any `num` below 8, negative values included | high, not executed | DeterministicRand.NegativeLengthPassesWrittenGuard | DeterministicRand.SeedAccepts |
| tlspuffin/src/openssl/deterministic.rs:41 | the determinism test expects the first two bytes after `determinism_set_reseed_openssl` to be [179, 16] | a fresh process; the 4-byte reseed is rejected, so the state is 42 and the generator yields [183, 96] | the test pins the pair the generator yields, [183, 96]; draws made by OpenSSL itself before `rand_bytes` are outside this model and could account for the difference | low, not executed | DeterministicRand.ExpectedVectorNotDrawn | DeterministicRand.NoRandomnessSimple |
