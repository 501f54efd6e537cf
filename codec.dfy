/** The byte-level codec layer the payload types are written against: bytes, the
    big-endian fixed-width integers of the TLS wire format (section 3.3 of RFC 8446),
    a growable byte vector that `encode` appends to, and a `Reader` cursor that `read`
    advances. */
module Codec {
  import opened Wrappers

  type byte = x: int | 0 <= x < 256

  /** 256 to the power `width`: the number of values a `width`-byte integer can hold. */
  function Pow256(width: nat): (p: nat)
    ensures p >= 1
  {
    if width == 0 then 1 else 256 * Pow256(width - 1)
  }

  /** Rust's `v as uN` for an N = 8 * width bit unsigned target: keep the low bits. */
  function Truncate(v: nat, width: nat): (t: nat)
    ensures t < Pow256(width)
    ensures v < Pow256(width) ==> t == v
  {
    var p := Pow256(width);
    ModBelow(v, p);
    v % p
  }

  lemma ModBelow(v: nat, p: nat)
    requires p >= 1
    ensures v % p < p
    ensures v < p ==> v % p == v
  {
  }

  /** `width` bytes, most significant first. */
  function EncodeUint(v: nat, width: nat): (r: seq<byte>)
    requires v < Pow256(width)
    ensures |r| == width
  {
    if width == 0 then []
    else
      DivBound(v, width);
      EncodeUint(v / 256, width - 1) + [v % 256]
  }

  /** The value of a big-endian byte string. */
  function DecodeUint(b: seq<byte>): (v: nat)
    ensures v < Pow256(|b|)
  {
    if b == [] then 0
    else DecodeUint(b[..|b| - 1]) * 256 + b[|b| - 1]
  }

  lemma DivBound(v: nat, width: nat)
    requires width >= 1 && v < Pow256(width)
    ensures v / 256 < Pow256(width - 1)
  {
  }

  /** Reading back an encoded integer yields the integer. */
  lemma {:induction false} DecodeEncodeUint(v: nat, width: nat)
    requires v < Pow256(width)
    ensures DecodeUint(EncodeUint(v, width)) == v
    decreases width
  {
    if width > 0 {
      DivBound(v, width);
      var hi := EncodeUint(v / 256, width - 1);
      DecodeEncodeUint(v / 256, width - 1);
      assert EncodeUint(v, width) == hi + [v % 256];
      assert (hi + [v % 256])[..|hi|] == hi;
    }
  }

  /** Encoding a big-endian byte string's value at its own width gives the string back. */
  lemma {:induction false} EncodeDecodeUint(b: seq<byte>)
    ensures EncodeUint(DecodeUint(b), |b|) == b
    decreases |b|
  {
    if b != [] {
      var init := b[..|b| - 1];
      EncodeDecodeUint(init);
      var v := DecodeUint(b);
      assert v / 256 == DecodeUint(init) && v % 256 == b[|b| - 1];
      assert b == init + [b[|b| - 1]];
    }
  }

  /** A Rust `Vec<u8>` that an `encode` writes into. */
  class ByteVec {
    var data: seq<byte>

    constructor (init: seq<byte>)
      ensures data == init
    {
      data := init;
    }

    /** `Vec::extend_from_slice` */
    method ExtendFromSlice(s: seq<byte>)
      modifies this
      ensures data == old(data) + s
    {
      data := data + s;
    }

    /** `Vec::pop` */
    method Pop() returns (b: Option<byte>)
      modifies this
      ensures old(data) == [] ==> b == None && data == []
      ensures old(data) != [] ==> b == Some(old(data)[|old(data)| - 1]) && data == old(data)[..|old(data)| - 1]
    {
      if data == [] {
        b := None;
      } else {
        b := Some(data[|data| - 1]);
        data := data[..|data| - 1];
      }
    }

    /** `Vec::truncate`: keep at most the first `n` bytes. */
    method Truncate(n: nat)
      modifies this
      ensures data == if n < |old(data)| then old(data)[..n] else old(data)
    {
      if n < |data| {
        data := data[..n];
      }
    }
  }

  /** A cursor over an input slice: `buf` is fixed, `offs` only moves forward. */
  class Reader {
    const buf: seq<byte>
    var offs: nat

    predicate Valid()
      reads this
    {
      offs <= |buf|
    }

    /** The input not yet consumed. */
    function Remaining(): seq<byte>
      reads this
      requires Valid()
    {
      buf[offs..]
    }

    constructor Init(bytes: seq<byte>)
      ensures Valid() && buf == bytes && offs == 0
    {
      buf := bytes;
      offs := 0;
    }

    /** `Reader::rest`: everything left, leaving the reader at its end. */
    method Rest() returns (r: seq<byte>)
      requires Valid()
      modifies this
      ensures Valid() && r == old(Remaining()) && offs == |buf|
    {
      r := buf[offs..];
      offs := |buf|;
    }

    /** `Reader::take`: the next `n` bytes, or None (and no movement) if fewer are left. */
    method Take(n: nat) returns (r: Option<seq<byte>>)
      requires Valid()
      modifies this
      ensures Valid()
      ensures n <= |old(Remaining())| ==> r == Some(old(Remaining())[..n]) && offs == old(offs) + n
      ensures n > |old(Remaining())| ==> r == None && offs == old(offs)
    {
      if |buf| - offs < n {
        r := None;
      } else {
        assert buf[offs..offs + n] == buf[offs..][..n];
        r := Some(buf[offs..offs + n]);
        offs := offs + n;
      }
    }

    /** `Reader::sub`: a fresh reader over the next `n` bytes. */
    method Sub(n: nat) returns (r: Option<Reader>)
      requires Valid()
      modifies this
      ensures Valid()
      ensures n <= |old(Remaining())| ==>
                r.Some? && fresh(r.value) && r.value.Valid() &&
                r.value.buf == old(Remaining())[..n] && r.value.offs == 0 && offs == old(offs) + n
      ensures n > |old(Remaining())| ==> r == None && offs == old(offs)
    {
      var taken := Take(n);
      if taken.None? {
        r := None;
      } else {
        var sub := new Reader.Init(taken.value);
        r := Some(sub);
      }
    }

    /** `uN::read` for an unsigned big-endian integer of `width` bytes (u8, u16 and u24). */
    method ReadUint(width: nat) returns (r: Option<nat>)
      requires Valid()
      modifies this
      ensures Valid()
      ensures width <= |old(Remaining())| ==> r == Some(DecodeUint(old(Remaining())[..width])) && offs == old(offs) + width
      ensures width > |old(Remaining())| ==> r == None && offs == old(offs)
    {
      var taken := Take(width);
      if taken.None? {
        r := None;
      } else {
        r := Some(DecodeUint(taken.value));
      }
    }
  }
}
