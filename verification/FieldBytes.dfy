/** Big-endian byte strings and their packing into field words. */
module FieldBytes {
  import opened Words
  import opened FieldWords
  import opened FieldNormalize

  /** The number a big-endian byte string stands for (big.Int.SetBytes). */
  function BigEndian(b: seq<byte>): nat {
    if b == [] then 0 else BigEndian(b[..|b| - 1]) * 256 + b[|b| - 1] as int
  }

  function Pow256(n: nat): (r: nat)
    ensures r >= 1
  {
    if n == 0 then 1 else 256 * Pow256(n - 1)
  }

  lemma {:induction false} BigEndianConcat(a: seq<byte>, b: seq<byte>)
    ensures BigEndian(a + b) == BigEndian(a) * Pow256(|b|) + BigEndian(b)
  {
    if b == [] {
      assert a + b == a;
    } else {
      var b' := b[..|b| - 1];
      assert (a + b)[..|a + b| - 1] == a + b';
      BigEndianConcat(a, b');
      calc {
        BigEndian(a + b);
        (BigEndian(a) * Pow256(|b'|) + BigEndian(b')) * 256 + b[|b| - 1] as int;
        BigEndian(a) * (256 * Pow256(|b'|)) + (BigEndian(b') * 256 + b[|b| - 1] as int);
      }
    }
  }

  lemma {:induction false} BigEndianBound(b: seq<byte>)
    ensures BigEndian(b) < Pow256(|b|)
  {
    if b != [] {
      BigEndianBound(b[..|b| - 1]);
    }
  }

  // Four packing patterns, 13 bytes for 4 words of 26 bits.  The fields do not overlap, so the code's
  // shifts and bitwise ors are multiplications by powers of two and sums.

  function Pack0(a: byte, b: byte, c: byte, d: byte): uint32 {
    a as uint32 + b as uint32 * 0x100 + c as uint32 * 0x1_0000 + d as uint32 % 4 * 0x100_0000
  }

  function Pack2(a: byte, b: byte, c: byte, d: byte): uint32 {
    a as uint32 / 4 + b as uint32 * 0x40 + c as uint32 * 0x4000 + d as uint32 % 16 * 0x40_0000
  }

  function Pack4(a: byte, b: byte, c: byte, d: byte): uint32 {
    a as uint32 / 16 + b as uint32 * 0x10 + c as uint32 * 0x1000 + d as uint32 % 64 * 0x10_0000
  }

  function Pack6(a: byte, b: byte, c: byte, d: byte): uint32 {
    a as uint32 / 64 + b as uint32 * 4 + c as uint32 * 0x400 + d as uint32 * 0x4_0000
  }

  function SetBytesWords(b: seq<byte>): Limbs
    requires |b| == 32
  {
    Limbs(Pack0(b[31], b[30], b[29], b[28]), Pack2(b[28], b[27], b[26], b[25]),
          Pack4(b[25], b[24], b[23], b[22]), Pack6(b[22], b[21], b[20], b[19]),
          Pack0(b[18], b[17], b[16], b[15]), Pack2(b[15], b[14], b[13], b[12]),
          Pack4(b[12], b[11], b[10], b[9]), Pack6(b[9], b[8], b[7], b[6]),
          Pack0(b[5], b[4], b[3], b[2]), Pack2(b[2], b[1], b[0], 0))
  }

  /** The 13 bytes of four words, most significant first. */
  function Unpack13(x: uint32, y: uint32, z: uint32, w: uint32): (b: seq<byte>) {
    [ (w / 0x4_0000 % 256) as byte,
      (w / 0x400 % 256) as byte,
      (w / 4 % 256) as byte,
      (z / 0x10_0000 % 64 + w % 4 * 64) as byte,
      (z / 0x1000 % 256) as byte,
      (z / 0x10 % 256) as byte,
      (y / 0x40_0000 % 16 + z % 16 * 16) as byte,
      (y / 0x4000 % 256) as byte,
      (y / 0x40 % 256) as byte,
      (x / 0x100_0000 % 4 + y % 64 * 4) as byte,
      (x / 0x1_0000 % 256) as byte,
      (x / 0x100 % 256) as byte,
      (x % 256) as byte ]
  }

  /** The 6 bytes of the two top words. */
  function Unpack6(x: uint32, y: uint32): (b: seq<byte>) {
    [ (y / 0x4000 % 256) as byte,
      (y / 0x40 % 256) as byte,
      (x / 0x100_0000 % 4 + y % 64 * 4) as byte,
      (x / 0x1_0000 % 256) as byte,
      (x / 0x100 % 256) as byte,
      (x % 256) as byte ]
  }

  function PutBytesWords(l: Limbs): (b: seq<byte>)
    ensures |b| == 32
  {
    Unpack6(l.w8, l.w9) + Unpack13(l.w4, l.w5, l.w6, l.w7) + Unpack13(l.w0, l.w1, l.w2, l.w3)
  }

  predicate InRange(l: Limbs) {
    Propagated(l) && l.w9 < 0x40_0000
  }

  /** The number with base 256 digits b0 (least significant) to b12. */
  function Bytes13(b0: int, b1: int, b2: int, b3: int, b4: int, b5: int, b6: int,
                   b7: int, b8: int, b9: int, b10: int, b11: int, b12: int): int
  {
    b0 + 256 * (b1 + 256 * (b2 + 256 * (b3 + 256 * (b4 + 256 * (b5 + 256 * (b6 + 256 * (
    b7 + 256 * (b8 + 256 * (b9 + 256 * (b10 + 256 * (b11 + 256 * b12)))))))))))
  }

  lemma PackGroup(b0: byte, b1: byte, b2: byte, b3: byte, b4: byte, b5: byte, b6: byte,
                  b7: byte, b8: byte, b9: byte, b10: byte, b11: byte, b12: byte)
    ensures Pack0(b0, b1, b2, b3) as int + 0x400_0000 * (Pack2(b3, b4, b5, b6) as int
              + 0x400_0000 * (Pack4(b6, b7, b8, b9) as int + 0x400_0000 * Pack6(b9, b10, b11, b12) as int))
         == Bytes13(b0 as int, b1 as int, b2 as int, b3 as int, b4 as int, b5 as int, b6 as int,
                    b7 as int, b8 as int, b9 as int, b10 as int, b11 as int, b12 as int)
  {
    assert b3 as int == b3 as int / 4 * 4 + b3 as int % 4;
    assert b6 as int == b6 as int / 16 * 16 + b6 as int % 16;
    assert b9 as int == b9 as int / 64 * 64 + b9 as int % 64;
  }

  lemma {:induction false} BigEndian13(b: seq<byte>)
    requires |b| == 13
    ensures BigEndian(b) == Bytes13(b[12] as int, b[11] as int, b[10] as int, b[9] as int, b[8] as int, b[7] as int,
                                    b[6] as int, b[5] as int, b[4] as int, b[3] as int, b[2] as int, b[1] as int, b[0] as int)
  {
    hide BigEndian;
    BigEndian6(b[..6]);
    BigEndianSnoc(b, 6);
    BigEndianSnoc(b, 7);
    BigEndianSnoc(b, 8);
    BigEndianSnoc(b, 9);
    BigEndianSnoc(b, 10);
    BigEndianSnoc(b, 11);
    BigEndianSnoc(b, 12);
    assert b[..13] == b;
  }

  lemma BigEndian6(b: seq<byte>)
    requires |b| == 6
    ensures BigEndian(b) == Bytes13(b[5] as int, b[4] as int, b[3] as int, b[2] as int, b[1] as int, b[0] as int,
                                    0, 0, 0, 0, 0, 0, 0)
  {
    assert BigEndian(b[..0]) == 0;
    hide BigEndian;
    BigEndianSnoc(b, 0);
    BigEndianSnoc(b, 1);
    BigEndianSnoc(b, 2);
    BigEndianSnoc(b, 3);
    BigEndianSnoc(b, 4);
    BigEndianSnoc(b, 5);
    assert b[..6] == b;
  }

  lemma BigEndianSnoc(b: seq<byte>, k: nat)
    requires k < |b|
    ensures BigEndian(b[..k + 1]) == BigEndian(b[..k]) * 256 + b[k] as int
  {
    assert b[..k + 1][..k] == b[..k];
  }

  /** 32 bytes as groups of 6, 13 and 13. */
  lemma BigEndian32(b: seq<byte>)
    requires |b| == 32
    ensures BigEndian(b)
         == BigEndian(b[19..]) + 0x100_00000000_00000000_00000000 * (BigEndian(b[6..19])
            + 0x100_00000000_00000000_00000000 * BigEndian(b[..6]))
  {
    hide BigEndian;
    assert Pow256(13) == 0x100_00000000_00000000_00000000;
    assert b == b[..19] + b[19..] && b[..19] == b[..6] + b[6..19];
    BigEndianConcat(b[..19], b[19..]);
    BigEndianConcat(b[..6], b[6..19]);
  }

  lemma ValueGroups(l: Limbs)
    ensures Value(l)
         == Group(l.w0, l.w1, l.w2, l.w3) + 0x100_00000000_00000000_00000000 * (Group(l.w4, l.w5, l.w6, l.w7)
            + 0x100_00000000_00000000_00000000 * Group(l.w8, l.w9, 0, 0))
  {
  }

  /** Four words. */
  function Group(x: uint32, y: uint32, z: uint32, w: uint32): int {
    x as int + 0x400_0000 * (y as int + 0x400_0000 * (z as int + 0x400_0000 * w as int))
  }

  /** The packed words stand for the number the bytes stand for. */
  lemma SetBytesValue(b: seq<byte>)
    requires |b| == 32
    ensures Value(SetBytesWords(b)) == BigEndian(b)
  {
    hide BigEndian, Pack0, Pack2, Pack4, Pack6, Value;
    ValueGroups(SetBytesWords(b));
    BigEndian32(b);
    BigEndian13(b[19..]);
    PackGroup(b[31], b[30], b[29], b[28], b[27], b[26], b[25], b[24], b[23], b[22], b[21], b[20], b[19]);
    BigEndian13(b[6..19]);
    PackGroup(b[18], b[17], b[16], b[15], b[14], b[13], b[12], b[11], b[10], b[9], b[8], b[7], b[6]);
    BigEndian6(b[..6]);
    PackLast(b[5], b[4], b[3], b[2], b[1], b[0]);
  }

  lemma PackLast(b0: byte, b1: byte, b2: byte, b3: byte, b4: byte, b5: byte)
    ensures Pack0(b0, b1, b2, b3) as int + 0x400_0000 * Pack2(b3, b4, b5, 0) as int
         == Bytes13(b0 as int, b1 as int, b2 as int, b3 as int, b4 as int, b5 as int, 0, 0, 0, 0, 0, 0, 0)
  {
    assert b3 as int == b3 as int / 4 * 4 + b3 as int % 4;
  }

  lemma SetBytesRange(b: seq<byte>)
    requires |b| == 32
    ensures InRange(SetBytesWords(b))
  {
  }

  // ----- unpacking

  lemma Fields0(w: int)
    requires 0 <= w < 0x400_0000
    ensures w == w % 256 + 0x100 * (w / 0x100 % 256) + 0x1_0000 * (w / 0x1_0000 % 256) + 0x100_0000 * (w / 0x100_0000 % 4)
  {
    assert w / 0x1_0000 == w / 0x100 / 0x100;
    assert w / 0x100_0000 == w / 0x1_0000 / 0x100;
  }

  lemma Fields2(w: int)
    requires 0 <= w < 0x400_0000
    ensures w == w % 64 + 0x40 * (w / 0x40 % 256) + 0x4000 * (w / 0x4000 % 256) + 0x40_0000 * (w / 0x40_0000 % 16)
  {
    assert w / 0x4000 == w / 0x40 / 0x100;
    assert w / 0x40_0000 == w / 0x4000 / 0x100;
  }

  lemma FieldsTop(w: int)
    requires 0 <= w < 0x40_0000
    ensures w == w % 64 + 0x40 * (w / 0x40 % 256) + 0x4000 * (w / 0x4000 % 256)
  {
    Fields2(w);
  }

  lemma Fields4(w: int)
    requires 0 <= w < 0x400_0000
    ensures w == w % 16 + 0x10 * (w / 0x10 % 256) + 0x1000 * (w / 0x1000 % 256) + 0x10_0000 * (w / 0x10_0000 % 64)
  {
    assert w / 0x1000 == w / 0x10 / 0x100;
    assert w / 0x10_0000 == w / 0x1000 / 0x100;
  }

  lemma Fields6(w: int)
    requires 0 <= w < 0x400_0000
    ensures w == w % 4 + 4 * (w / 4 % 256) + 0x400 * (w / 0x400 % 256) + 0x4_0000 * (w / 0x4_0000 % 256)
  {
    assert w / 0x400 == w / 4 / 0x100;
    assert w / 0x4_0000 == w / 0x400 / 0x100;
  }

  lemma Unpack13Value(x: uint32, y: uint32, z: uint32, w: uint32)
    requires x < 0x400_0000 && y < 0x400_0000 && z < 0x400_0000 && w < 0x400_0000
    ensures BigEndian(Unpack13(x, y, z, w)) == Group(x, y, z, w)
  {
    hide BigEndian;
    BigEndian13(Unpack13(x, y, z, w));
    Fields0(x as int);
    Fields2(y as int);
    Fields4(z as int);
    Fields6(w as int);
  }

  lemma Unpack6Value(x: uint32, y: uint32)
    requires x < 0x400_0000 && y < 0x40_0000
    ensures BigEndian(Unpack6(x, y)) == Group(x, y, 0, 0)
  {
    hide BigEndian;
    BigEndian6(Unpack6(x, y));
    Fields0(x as int);
    FieldsTop(y as int);
  }

  /** The bytes of words in range stand for the number the words stand for. */
  lemma PutBytesValue(l: Limbs)
    ensures InRange(l) ==> BigEndian(PutBytesWords(l)) == Value(l)
  {
    hide BigEndian, Value, Group, Bytes13;
    var b := PutBytesWords(l);
    ValueGroups(l);
    BigEndian32(b);
    assert b[19..] == Unpack13(l.w0, l.w1, l.w2, l.w3);
    assert b[6..19] == Unpack13(l.w4, l.w5, l.w6, l.w7);
    assert b[..6] == Unpack6(l.w8, l.w9);
    if InRange(l) {
      Unpack13Value(l.w0, l.w1, l.w2, l.w3);
      Unpack13Value(l.w4, l.w5, l.w6, l.w7);
      Unpack6Value(l.w8, l.w9);
    }
  }

  lemma {:induction false} BigEndianInjective(a: seq<byte>, b: seq<byte>)
    requires |a| == |b| && BigEndian(a) == BigEndian(b)
    ensures a == b
  {
    if a != [] {
      var n := |a| - 1;
      LastDigit(BigEndian(a[..n]), BigEndian(b[..n]), a[n] as int, b[n] as int);
      BigEndianInjective(a[..n], b[..n]);
      LastByte(a, b);
    }
  }

  lemma LastDigit(u: int, v: int, d: int, e: int)
    requires 256 * u + d == 256 * v + e && 0 <= d < 256 && 0 <= e < 256
    ensures u == v && d == e
  {
  }

  lemma LastByte(a: seq<byte>, b: seq<byte>)
    requires |a| == |b| > 0 && a[..|a| - 1] == b[..|a| - 1] && a[|a| - 1] == b[|a| - 1]
    ensures a == b
  {
    assert a == a[..|a| - 1] + [a[|a| - 1]] && b == b[..|a| - 1] + [b[|a| - 1]];
  }

  /** Unpacking what was packed gives the bytes back. */
  lemma PutBytesSetBytes(b: seq<byte>)
    requires |b| == 32
    ensures PutBytesWords(SetBytesWords(b)) == b
  {
    hide BigEndian, Value, PutBytesWords, SetBytesWords;
    SetBytesRange(b);
    SetBytesValue(b);
    PutBytesValue(SetBytesWords(b));
    BigEndianInjective(PutBytesWords(SetBytesWords(b)), b);
  }

  /** Packing what was unpacked gives the words back, for words in range. */
  lemma SetBytesPutBytes(l: Limbs)
    ensures InRange(l) ==> SetBytesWords(PutBytesWords(l)) == l
  {
    hide BigEndian, Value, PutBytesWords, SetBytesWords;
    if InRange(l) {
      PutBytesValue(l);
      SetBytesValue(PutBytesWords(l));
      SetBytesRange(PutBytesWords(l));
      DigitsUnique(SetBytesWords(PutBytesWords(l)), l);
    }
  }
}
