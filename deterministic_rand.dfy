/** The deterministic replacement for OpenSSL's random-number backend: a process-wide
    64-bit linear congruential generator installed as a `RAND_METHOD`. The state starts
    at 42, `seed` overwrites it with 8 caller bytes, and `bytes` advances it once per
    output byte, emitting bits 33..40 of each new state. */
module DeterministicRand {
  import opened Codec

  const TWO_64: nat := 0x1_0000_0000_0000_0000

  type u64 = x: int | 0 <= x < 0x1_0000_0000_0000_0000

  /** The state before any explicit seeding. */
  const DEFAULT_SEED: u64 := 42

  const MULTIPLIER: nat := 6364136223846793005

  /** `sizeof(uint64_t)`: the number of bytes a successful seed adopts. */
  const SEED_LEN: nat := 8

  /** One generator step: `seed = 6364136223846793005 * seed + 1` in 64-bit unsigned arithmetic. */
  function Step(s: u64): u64
  {
    (MULTIPLIER * s + 1) % TWO_64
  }

  /** The byte stored for a new state: `seed >> 33` narrowed to `unsigned char`. */
  function Emit(s: u64): byte
  {
    (s / 0x2_0000_0000) % 256
  }

  /** The state after `n` steps from `s`. */
  function Advance(s: u64, n: nat): u64
    decreases n
  {
    if n == 0 then s else Advance(Step(s), n - 1)
  }

  /** The `n` bytes drawn from state `s`. */
  function Stream(s: u64, n: nat): (out: seq<byte>)
    decreases n
  {
    if n == 0 then [] else [Emit(Step(s))] + Stream(Step(s), n - 1)
  }

  /** Running the generator for `n` and then `m` steps is running it for `n + m` steps. */
  lemma {:induction false} AdvanceAdd(s: u64, n: nat, m: nat)
    ensures Advance(s, n + m) == Advance(Advance(s, n), m)
    decreases n
  {
    if n > 0 {
      AdvanceAdd(Step(s), n - 1, m);
    }
  }

  /** Drawing `n` bytes and then `m` bytes yields the same bytes as drawing `n + m` at once. */
  lemma {:induction false} StreamConcat(s: u64, n: nat, m: nat)
    ensures Stream(s, n + m) == Stream(s, n) + Stream(Advance(s, n), m)
    decreases n
  {
    if n > 0 {
      StreamConcat(Step(s), n - 1, m);
      assert Stream(s, n + m) == [Emit(Step(s))] + Stream(Step(s), (n - 1) + m);
    }
  }

  /** A draw of `n` bytes has length `n`, and its byte `i` is emitted from the state after `i + 1` steps. */
  lemma {:induction false} StreamAt(s: u64, n: nat, i: nat)
    requires i < n
    ensures |Stream(s, n)| == n
    ensures Stream(s, n)[i] == Emit(Advance(s, i + 1))
    decreases n
  {
    if i > 0 {
      StreamAt(Step(s), n - 1, i - 1);
    } else {
      StreamLength(Step(s), n - 1);
    }
  }

  lemma {:induction false} StreamLength(s: u64, n: nat)
    ensures |Stream(s, n)| == n
    decreases n
  {
    if n > 0 {
      StreamLength(Step(s), n - 1);
    }
  }

  /** One more step appends exactly one byte to the stream. */
  lemma StreamSnoc(s: u64, n: nat)
    ensures Stream(s, n + 1) == Stream(s, n) + [Emit(Advance(s, n + 1))]
    ensures Advance(s, n + 1) == Step(Advance(s, n))
  {
    StreamConcat(s, n, 1);
    AdvanceAdd(s, n, 1);
  }

  /** A byte string read least significant byte first. */
  function LittleEndian(b: seq<byte>): (v: nat)
    ensures v < Pow256(|b|)
  {
    if b == [] then 0 else b[0] + 256 * LittleEndian(b[1..])
  }

  /** The `n` bytes of `v`, least significant first. */
  function LittleEndianBytes(v: nat, n: nat): (b: seq<byte>)
    ensures |b| == n
  {
    if n == 0 then [] else [v % 256] + LittleEndianBytes(v / 256, n - 1)
  }

  /** Every `n`-byte value is the reading of its own little-endian bytes. */
  lemma {:induction false} LittleEndianRoundTrip(v: nat, n: nat)
    requires v < Pow256(n)
    ensures LittleEndian(LittleEndianBytes(v, n)) == v
    decreases n
  {
    if n > 0 {
      LittleEndianRoundTrip(v / 256, n - 1);
      assert LittleEndianBytes(v, n)[1..] == LittleEndianBytes(v / 256, n - 1);
    }
  }

  /** Eight bytes read as a 64-bit integer. The C code reinterprets the buffer in host byte
      order; this model fixes that order to little-endian (x86-64, AArch64). */
  function LoadLE64(b: seq<byte>): (v: u64)
    requires |b| == 8
  {
    assert Pow256(8) == TWO_64;
    LittleEndian(b)
  }

  /** Every 64-bit state can be installed by `seed`: the 8 little-endian bytes of `v` load as `v`. */
  lemma SeedReachesEveryState(v: u64)
    ensures LoadLE64(LittleEndianBytes(v, 8)) == v
  {
    assert Pow256(8) == TWO_64;
    LittleEndianRoundTrip(v, 8);
  }

  /** The guard of `stdlib_rand_seed` AS WRITTEN: `num < sizeof(uint64_t)` compares an `int`
      with a `size_t`, so C first converts `num` to a 64-bit unsigned value. */
  function SeedAcceptsAsWritten(num: int): bool
    requires -0x8000_0000 <= num < 0x8000_0000
  {
    !((num % TWO_64) < SEED_LEN)
  }

  /** A negative length gets past the written guard: `seed` would then read 8 bytes from a
      buffer the caller declared to be empty. */
  lemma NegativeLengthPassesWrittenGuard()
    ensures SeedAcceptsAsWritten(-1)
    ensures !(SEED_LEN <= -1)
  {
  }

  /** The guard as intended: only a buffer of at least 8 bytes is adopted. */
  function SeedAccepts(num: int): (ok: bool)
    ensures ok ==> SEED_LEN <= num
  {
    !(num < SEED_LEN as int)
  }

  /** The two guards agree on every non-negative length; they differ exactly on negative ones. */
  lemma GuardsAgreeOnNonNegative(num: int)
    requires -0x8000_0000 <= num < 0x8000_0000
    ensures SeedAccepts(num) == SeedAcceptsAsWritten(num) <==> num >= 0
  {
  }

  /** Slots of OpenSSL's `RAND_METHOD` vtable, in declaration order. */
  datatype RandFn = SeedFn | BytesFn | CleanupFn | AddFn | StatusFn

  datatype RandMethod = RandMethod(
    seed: RandFn, bytes: RandFn, cleanup: RandFn, add: RandFn, pseudorand: RandFn, status: RandFn)

  /** `stdlib_rand_meth`: the bytes slot and the pseudo-random slot share one generator. */
  function StdlibRandMeth(): (m: RandMethod)
    ensures m.bytes == m.pseudorand == BytesFn
    ensures m.seed == SeedFn && m.cleanup == CleanupFn && m.add == AddFn && m.status == StatusFn
  {
    RandMethod(SeedFn, BytesFn, CleanupFn, AddFn, BytesFn, StatusFn)
  }

  /** The process-global generator state (`static uint64_t seed`). */
  class Rng {
    var seed: u64

    /** Process start: the state is 42. */
    constructor ()
      ensures seed == DEFAULT_SEED
    {
      seed := DEFAULT_SEED;
    }

    /** `stdlib_rand_seed`: the caller's buffer holds `num` bytes. */
    method Seed(buf: seq<byte>, num: int) returns (rc: int)
      requires num <= |buf|
      modifies this
      ensures rc == if SeedAccepts(num) then 1 else 0
      ensures SeedAccepts(num) ==> seed == LoadLE64(buf[..SEED_LEN])
      ensures !SeedAccepts(num) ==> seed == old(seed)
    {
      if num < SEED_LEN as int {
        return 0;
      }
      seed := LoadLE64(buf[..SEED_LEN]);
      return 1;
    }

    /** `stdlib_rand_bytes`: fills `buf[0..num)` from the generator; always reports success. */
    method Bytes(buf: array<byte>, num: int) returns (rc: int)
      requires num <= buf.Length
      modifies this, buf
      ensures rc == 1
      ensures num <= 0 ==> seed == old(seed) && buf[..] == old(buf[..])
      ensures num > 0 ==> buf[..num] == Stream(old(seed), num) && seed == Advance(old(seed), num)
      ensures num > 0 ==> buf[num..] == old(buf[num..])
    {
      var index := 0;
      while index < num
        invariant 0 <= index <= if num < 0 then 0 else num
        invariant buf[..index] == Stream(old(seed), index)
        invariant seed == Advance(old(seed), index)
        invariant buf[index..] == old(buf[index..])
      {
        StreamSnoc(old(seed), index);
        seed := Step(seed);
        buf[index] := Emit(seed);
        assert buf[..index + 1] == buf[..index] + [buf[index]];
        index := index + 1;
      }
      return 1;
    }

    /** `stdlib_rand_add`: ignores its input and reports success. */
    method Add(buf: seq<byte>, num: int, addEntropy: real) returns (rc: int)
      ensures rc == 1
    {
      return 1;
    }

    /** `stdlib_rand_status`: always ready. */
    method Status() returns (rc: int)
      ensures rc == 1
    {
      return 1;
    }

    /** `stdlib_rand_cleanup`: does nothing. */
    method Cleanup()
    {
    }
  }

  /** Exact replay: a fresh process that seeds with `b` and draws `n` bytes always gets the
      same bytes, namely the stream of the state the first 8 bytes of `b` encode. */
  method Replay(b: seq<byte>, n: nat) returns (out: seq<byte>)
    requires SEED_LEN <= |b| < 0x8000_0000
    ensures out == Stream(LoadLE64(b[..SEED_LEN]), n)
  {
    var rng := new Rng();
    var rc := rng.Seed(b, |b|);
    var buf := new byte[n];
    rc := rng.Bytes(buf, n);
    out := buf[..];
  }

  /** The Rust harness's reseed passes a 4-byte buffer, which `seed` rejects and which leaves
      the state as it was, whatever it was. In a fresh process the draws therefore come from
      the default state 42. */
  method ReseedWithFourBytes(n: nat) returns (rc: int, out: seq<byte>)
    ensures rc == 0
    ensures out == Stream(DEFAULT_SEED, n)
  {
    var rng := new Rng();
    rc := rng.Seed([42, 0, 0, 0], 4);
    var buf := new byte[n];
    var drawn := rng.Bytes(buf, n);
    out := buf[..];
  }

  /** The first two states after 42, and the bytes they emit. */
  const FIRST_STATE: u64 := 9039304369631583587
  const SECOND_STATE: u64 := 8647191391818483560

  /** In a fresh process the first two bytes drawn are 183 and 96. */
  lemma DefaultFirstDraws()
    ensures Stream(DEFAULT_SEED, 2) == [183, 96]
  {
    assert Step(DEFAULT_SEED) == FIRST_STATE;
    assert Step(FIRST_STATE) == SECOND_STATE;
    assert Emit(FIRST_STATE) == 183 && Emit(SECOND_STATE) == 96;
    assert Stream(SECOND_STATE, 0) == [];
    assert Stream(FIRST_STATE, 1) == [96];
  }

  /** The harness's determinism test as written expects `[179, 16]` from a fresh process after
      the reseed; the generator does not produce that pair there. */
  lemma ExpectedVectorNotDrawn()
    ensures Stream(DEFAULT_SEED, 2) != [179, 16]
  {
    DefaultFirstDraws();
  }

  /** The determinism test with the pair the generator does produce: make OpenSSL deterministic,
      reseed with the harness's 4-byte buffer, draw 2 bytes. */
  method NoRandomnessSimple() returns (buf1: seq<byte>)
    ensures buf1 == [183, 96]
  {
    var rc, out := ReseedWithFourBytes(2);
    DefaultFirstDraws();
    buf1 := out;
  }
}
