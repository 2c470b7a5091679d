/** Little-endian integers of a fixed width. */
module LittleEndian {
  import opened Base

  function Pow256(w: nat): (p: nat)
    ensures p > 0
  {
    if w == 0 then 1 else 256 * Pow256(w - 1)
  }

  function ToLE(n: nat, w: nat): (s: bytes)
    ensures |s| == w
    decreases w
  {
    if w == 0 then [] else [n % 256] + ToLE(n / 256, w - 1)
  }

  function FromLE(s: bytes): (n: nat) {
    if s == [] then 0 else s[0] + 256 * FromLE(s[1..])
  }

  lemma {:induction false} FromToLE(n: nat, w: nat)
    requires n < Pow256(w)
    ensures FromLE(ToLE(n, w)) == n
    decreases w
  {
    if w > 0 {
      FromToLE(n / 256, w - 1);
      assert ToLE(n, w)[1..] == ToLE(n / 256, w - 1);
    }
  }

  lemma {:induction false} ToFromLE(s: bytes)
    ensures FromLE(s) < Pow256(|s|)
    ensures ToLE(FromLE(s), |s|) == s
  {
    if s != [] {
      ToFromLE(s[1..]);
      assert [s[0]] + s[1..] == s;
    }
  }

  /** Dropping the low digit shifts every other one down. */
  lemma NextDigits(n: nat)
    ensures n / 256 / 0x100 == n / 0x1_0000 && n / 256 / 0x1_0000 == n / 0x100_0000
    ensures n / 256 / 0x100_0000 == n / 0x1_0000_0000 && n / 256 / 0x1_0000_0000 == n / 0x100_0000_0000
    ensures n / 256 / 0x100_0000_0000 == n / 0x1_0000_0000_0000
    ensures n / 256 / 0x1_0000_0000_0000 == n / 0x100_0000_0000_0000
  {
  }

  /** Byte `i` is the `i`-th base-256 digit: the least significant byte comes first. */
  lemma DigitsOf(n: nat, w: nat)
    ensures w > 0 ==> ToLE(n, w)[0] == n % 256
    ensures w > 1 ==> ToLE(n, w)[1] == n / 0x100 % 256
    ensures w > 2 ==> ToLE(n, w)[2] == n / 0x1_0000 % 256
    ensures w > 3 ==> ToLE(n, w)[3] == n / 0x100_0000 % 256
    ensures w > 4 ==> ToLE(n, w)[4] == n / 0x1_0000_0000 % 256
    ensures w > 5 ==> ToLE(n, w)[5] == n / 0x100_0000_0000 % 256
    ensures w > 6 ==> ToLE(n, w)[6] == n / 0x1_0000_0000_0000 % 256
    ensures w > 7 ==> ToLE(n, w)[7] == n / 0x100_0000_0000_0000 % 256
    decreases w
  {
    if w > 0 {
      NextDigits(n);
      DigitsOf(n / 256, w - 1);
    }
  }

  lemma WidthBounds()
    ensures Pow256(2) == 0x1_0000
    ensures Pow256(4) == 0x1_0000_0000
    ensures Pow256(8) == 0x1_0000_0000_0000_0000
  {
    assert Pow256(2) == 256 * Pow256(1) && Pow256(4) == 256 * (256 * Pow256(2));
    assert Pow256(8) == 256 * (256 * (256 * (256 * Pow256(4))));
  }

  function U16(x: u16): (s: bytes)
    ensures |s| == 2
  {
    ToLE(x, 2)
  }

  function AsU16(s: bytes): u16
    requires |s| == 2
  {
    WidthBounds(); ToFromLE(s);
    FromLE(s)
  }

  lemma U16Inverse(x: u16, s: bytes)
    requires |s| == 2
    ensures U16(x) == s <==> AsU16(s) == x
  {
    WidthBounds(); FromToLE(x, 2); ToFromLE(s);
  }

  function U32(x: u32): (s: bytes)
    ensures |s| == 4
  {
    ToLE(x, 4)
  }

  function AsU32(s: bytes): u32
    requires |s| == 4
  {
    WidthBounds(); ToFromLE(s);
    FromLE(s)
  }

  lemma U32Inverse(x: u32, s: bytes)
    requires |s| == 4
    ensures U32(x) == s <==> AsU32(s) == x
  {
    WidthBounds(); FromToLE(x, 4); ToFromLE(s);
  }

  function U64(x: u64): (s: bytes)
    ensures |s| == 8
  {
    ToLE(x, 8)
  }

  function AsU64(s: bytes): u64
    requires |s| == 8
  {
    WidthBounds(); ToFromLE(s);
    FromLE(s)
  }

  lemma U64Inverse(x: u64, s: bytes)
    requires |s| == 8
    ensures U64(x) == s <==> AsU64(s) == x
  {
    WidthBounds(); FromToLE(x, 8); ToFromLE(s);
  }
}
