/** Bytes and the fixed-width big-endian integers the WAL files are made of. */
module Bytes {
  type byte = x: int | 0 <= x < 256

  const U16_LIMIT := 0x1_0000
  const U32_LIMIT := 0x1_0000_0000
  const U64_LIMIT := 0x1_0000_0000_0000_0000

  type u64 = x: int | 0 <= x < U64_LIMIT

  function Pow256(width: nat): (p: nat)
    ensures p > 0
  {
    if width == 0 then 1 else 256 * Pow256(width - 1)
  }

  /** `to_be_bytes`: the low `width` bytes of n, most significant first. */
  function BE(n: nat, width: nat): (s: seq<byte>)
    ensures |s| == width
  {
    if width == 0 then [] else BE(n / 256, width - 1) + [n % 256]
  }

  /** `from_be_bytes`. */
  function FromBE(s: seq<byte>): nat {
    if s == [] then 0 else FromBE(s[..|s| - 1]) * 256 + s[|s| - 1]
  }

  lemma {:induction false} FromBEOfBE(n: nat, width: nat)
    requires n < Pow256(width)
    ensures FromBE(BE(n, width)) == n
  {
    if width > 0 {
      FromBEOfBE(n / 256, width - 1);
      assert BE(n, width)[..width - 1] == BE(n / 256, width - 1);
    }
  }

  lemma {:induction false} BEOfFromBE(s: seq<byte>)
    ensures FromBE(s) < Pow256(|s|)
    ensures BE(FromBE(s), |s|) == s
  {
    if s != [] {
      BEOfFromBE(s[..|s| - 1]);
      var front, last := FromBE(s[..|s| - 1]), s[|s| - 1];
      assert (front * 256 + last) / 256 == front && (front * 256 + last) % 256 == last;
      assert s == s[..|s| - 1] + [s[|s| - 1]];
    }
  }

  /** The first byte is the most significant one. */
  lemma {:induction false} MostSignificantFirst(s: seq<byte>)
    requires s != []
    ensures FromBE(s) == s[0] * Pow256(|s| - 1) + FromBE(s[1..])
  {
    var n := |s| - 1;
    if n == 0 {
      assert s[..0] == [] && s[1..] == [];
    } else {
      MostSignificantFirst(s[..n]);
      assert s[..n][1..] == s[1..][..n - 1];
      assert s[0] * Pow256(n) == (s[0] * Pow256(n - 1)) * 256;
    }
  }

  /** Every u16, u32 and u64 survives its encoding. */
  lemma FieldRoundTrips(n: nat)
    ensures n < U16_LIMIT ==> FromBE(BE(n, 2)) == n
    ensures n < U32_LIMIT ==> FromBE(BE(n, 4)) == n
    ensures n < U64_LIMIT ==> FromBE(BE(n, 8)) == n
  {
    assert Pow256(2) == U16_LIMIT;
    assert Pow256(4) == U32_LIMIT;
    assert Pow256(8) == U64_LIMIT;
    if n < U16_LIMIT { FromBEOfBE(n, 2); }
    if n < U32_LIMIT { FromBEOfBE(n, 4); }
    if n < U64_LIMIT { FromBEOfBE(n, 8); }
  }
}
