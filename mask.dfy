/**
 * encode and decode: the byte-wise XOR with 0x03 done in place on a slice.
 * Both have the same body, so each undoes the other.
 */
module Mask {
  /** Dafny defines `^` on bitvectors and not on `int`, so here Go's bytes are 8-bit vectors. */
  type Octet = bv8

  const Key: Octet := 0x03

  /** Every byte XORed with the key. */
  function Masked(s: seq<Octet>): (m: seq<Octet>)
    ensures |m| == |s|
  {
    if s == [] then [] else [s[0] ^ Key] + Masked(s[1..])
  }

  lemma {:induction false} MaskedAt(s: seq<Octet>, i: nat)
    requires i < |s|
    ensures Masked(s)[i] == s[i] ^ Key
  {
    if i > 0 {
      MaskedAt(s[1..], i - 1);
    }
  }

  /** Masking is its own inverse, so decode(encode(x)) == x and encode(decode(x)) == x. */
  lemma {:induction false} MaskedTwice(s: seq<Octet>)
    ensures Masked(Masked(s)) == s
  {
    if s != [] {
      MaskedTwice(s[1..]);
      assert [s[0]] + s[1..] == s;
    }
  }

  /** Masks data in place, one index at a time. */
  method MaskInPlace(data: array<Octet>)
    modifies data
    ensures data[..] == Masked(old(data[..]))
  {
    ghost var was := data[..];
    var i := 0;
    while i < data.Length
      invariant 0 <= i <= data.Length
      invariant forall k | 0 <= k < i :: data[k] == was[k] ^ Key
      invariant forall k | i <= k < data.Length :: data[k] == was[k]
    {
      data[i] := data[i] ^ Key;
      i := i + 1;
    }
    forall k | 0 <= k < data.Length
      ensures data[..][k] == Masked(was)[k]
    {
      MaskedAt(was, k);
    }
  }

  /** encode(data). */
  method Encode(data: array<Octet>)
    modifies data
    ensures data[..] == Masked(old(data[..]))
  {
    MaskInPlace(data);
  }

  /** decode(data): the same loop as encode. */
  method Decode(data: array<Octet>)
    modifies data
    ensures data[..] == Masked(old(data[..]))
  {
    MaskInPlace(data);
  }

  /** decode after encode leaves data as it was. */
  method EncodeThenDecode(data: array<Octet>)
    modifies data
    ensures data[..] == old(data[..])
  {
    Encode(data);
    Decode(data);
    MaskedTwice(old(data[..]));
  }
}
