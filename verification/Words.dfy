/** Machine words as bounded integers, and their big- and little-endian byte forms. */
module Words {
  type u8 = x: int | 0 <= x < 0x100
  type u16 = x: int | 0 <= x < 0x1_0000
  type u32 = x: int | 0 <= x < 0x1_0000_0000
  type u64 = x: int | 0 <= x < 0x1_0000_0000_0000_0000

  type Bytes = seq<u8>

  const U16_MAX: u16 := 0xffff
  const U32_MAX: u32 := 0xffff_ffff
  const U64_MAX: u64 := 0xffff_ffff_ffff_ffff

  // A difference that stops at 0.
  function SatSub(a: nat, b: nat): nat {
    if a > b then a - b else 0
  }

  function Be16(x: u16): (s: Bytes)
    ensures |s| == 2
  {
    [x / 0x100, x % 0x100]
  }

  function Be32(x: u32): (s: Bytes)
    ensures |s| == 4
  {
    Be16(x / 0x1_0000) + Be16(x % 0x1_0000)
  }

  function Be64(x: u64): (s: Bytes)
    ensures |s| == 8
  {
    Be32(x / 0x1_0000_0000) + Be32(x % 0x1_0000_0000)
  }

  function FromBe16(s: Bytes): u16
    requires |s| == 2
  {
    (s[0] as int) * 0x100 + s[1]
  }

  function FromBe32(s: Bytes): u32
    requires |s| == 4
  {
    (FromBe16(s[..2]) as int) * 0x1_0000 + FromBe16(s[2..])
  }

  function FromBe64(s: Bytes): u64
    requires |s| == 8
  {
    (FromBe32(s[..4]) as int) * 0x1_0000_0000 + FromBe32(s[4..])
  }

  // The eight bytes of a word, least significant first.
  function Le64(x: u64): (s: Bytes)
    ensures |s| == 8
  {
    var b := Be64(x);
    [b[7], b[6], b[5], b[4], b[3], b[2], b[1], b[0]]
  }

  lemma Be16RoundTrip(x: u16)
    ensures FromBe16(Be16(x)) == x
  {}

  lemma Be32RoundTrip(x: u32)
    ensures FromBe32(Be32(x)) == x
  {
    var s := Be32(x);
    assert s[..2] == Be16(x / 0x1_0000) && s[2..] == Be16(x % 0x1_0000);
  }

  lemma Be64RoundTrip(x: u64)
    ensures FromBe64(Be64(x)) == x
  {
    hide Be32, FromBe32;
    var hi, lo := x / 0x1_0000_0000, x % 0x1_0000_0000;
    var s := Be64(x);
    assert s[..4] == Be32(hi) && s[4..] == Be32(lo);
    Be32RoundTrip(hi);
    Be32RoundTrip(lo);
  }

  lemma FromBe16RoundTrip(s: Bytes)
    requires |s| == 2
    ensures Be16(FromBe16(s)) == s
  {}

  lemma FromBe32RoundTrip(s: Bytes)
    requires |s| == 4
    ensures Be32(FromBe32(s)) == s
  {
    hide Be16, FromBe16;
    FromBe16RoundTrip(s[..2]);
    FromBe16RoundTrip(s[2..]);
    assert s == s[..2] + s[2..];
  }

  lemma FromBe64RoundTrip(s: Bytes)
    requires |s| == 8
    ensures Be64(FromBe64(s)) == s
  {
    hide Be32, FromBe32;
    FromBe32RoundTrip(s[..4]);
    FromBe32RoundTrip(s[4..]);
    assert s == s[..4] + s[4..];
  }

  lemma Le64Injective(x: u64, y: u64)
    requires Le64(x) == Le64(y)
    ensures x == y
  {
    var a, b := Be64(x), Be64(y);
    forall i | 0 <= i < 8 ensures a[i] == b[i] {
      assert a[i] == Le64(x)[7 - i] && b[i] == Le64(y)[7 - i];
    }
    assert a == b;
    Be64RoundTrip(x);
    Be64RoundTrip(y);
  }

  // ---- What the bytes are worth ----

  // Most significant byte first.
  function BigEndian(s: Bytes): nat {
    if s == [] then 0 else BigEndian(s[..|s| - 1]) * 0x100 + s[|s| - 1]
  }

  // Least significant byte first.
  function LittleEndian(s: Bytes): nat {
    if s == [] then 0 else s[0] + 0x100 * LittleEndian(s[1..])
  }

  lemma BeIsBigEndian(x: u16, y: u32, z: u64)
    ensures BigEndian(Be16(x)) == x && BigEndian(Be32(y)) == y && BigEndian(Be64(z)) == z
  {
    Be16Worth(x);
    Be32Worth(y);
    Be64Worth(z);
  }

  lemma Be16Worth(x: u16)
    ensures BigEndian(Be16(x)) == x
  {
    var s := Be16(x);
    assert s[..1] == [x / 0x100] && s[..1][..0] == [];
    assert BigEndian(s[..1]) == BigEndian([]) * 0x100 + s[0];
  }

  lemma {:induction false} BigEndianAppend(a: Bytes, b: Bytes)
    ensures |b| == 2 ==> BigEndian(a + b) == BigEndian(a) * 0x1_0000 + BigEndian(b)
    ensures |b| == 4 ==> BigEndian(a + b) == BigEndian(a) * 0x1_0000_0000 + BigEndian(b)
  {
    if |b| == 2 {
      TwoBytes(a, b);
    } else if |b| == 4 {
      assert a + b == (a + b[..2]) + b[2..] && b == b[..2] + b[2..];
      TwoBytes(a, b[..2]);
      TwoBytes(a + b[..2], b[2..]);
      TwoBytes(b[..2], b[2..]);
    }
  }

  lemma TwoBytes(a: Bytes, b: Bytes)
    requires |b| == 2
    ensures BigEndian(a + b) == BigEndian(a) * 0x1_0000 + BigEndian(b)
  {
    assert (a + b)[..|a| + 1] == a + b[..1] && (a + b[..1])[..|a|] == a;
    assert BigEndian(b[..1]) == b[0] by { assert b[..1][..0] == []; }
  }

  lemma Be32Worth(x: u32)
    ensures BigEndian(Be32(x)) == x
  {
    hide Be16, BigEndian;
    var hi, lo := x / 0x1_0000, x % 0x1_0000;
    Be16Worth(hi);
    Be16Worth(lo);
    BigEndianAppend(Be16(hi), Be16(lo));
  }

  lemma Be64Worth(x: u64)
    ensures BigEndian(Be64(x)) == x
  {
    hide Be32, BigEndian;
    var hi, lo := x / 0x1_0000_0000, x % 0x1_0000_0000;
    Be32Worth(hi);
    Be32Worth(lo);
    BigEndianAppend(Be32(hi), Be32(lo));
  }

  // Turned round, a big-endian word is a little-endian one.
  lemma {:induction false} Reversed(s: Bytes, r: Bytes)
    requires |r| == |s| && forall i :: 0 <= i < |s| ==> r[i] == s[|s| - 1 - i]
    ensures LittleEndian(r) == BigEndian(s)
  {
    if s != [] {
      Reversed(s[..|s| - 1], r[1..]);
    }
  }

  lemma LeIsLittleEndian(x: u64)
    ensures LittleEndian(Le64(x)) == x
  {
    hide Be64;
    Be64Worth(x);
    Reversed(Be64(x), Le64(x));
  }
}
