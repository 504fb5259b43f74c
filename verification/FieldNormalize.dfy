/** Carry propagation and the final reduction to the canonical residue. */
module FieldNormalize {
  import opened Words
  import opened FieldWords
  import opened FieldMul
  import opened Modular
  import opened FieldOps

  /** Bitwise and of two words. */
  function And(x: nat, y: nat): nat {
    if x == 0 || y == 0 then 0 else 2 * And(x / 2, y / 2) + (if x % 2 == 1 && y % 2 == 1 then 1 else 0)
  }

  function Pow2(k: nat): (r: nat)
    ensures r >= 1
  {
    if k == 0 then 1 else 2 * Pow2(k - 1)
  }

  lemma {:induction false} AndBound(x: nat, y: nat, k: nat)
    requires x < Pow2(k) && y < Pow2(k)
    ensures And(x, y) <= x && And(x, y) <= y
    ensures And(x, y) == Pow2(k) - 1 <==> x == Pow2(k) - 1 && y == Pow2(k) - 1
  {
    if x != 0 && y != 0 {
      var a, p := And(x / 2, y / 2), Pow2(k - 1);
      AndBound(x / 2, y / 2, k - 1);
      assert Pow2(k) == 2 * p && And(x, y) == 2 * a + (if x % 2 == 1 && y % 2 == 1 then 1 else 0);
      hide And, Pow2;
    }
  }

  /** The seven-way test: the conjunction has all 26 bits set exactly when every word has. */
  lemma AllOnes(t: Limbs)
    requires t.w2 < 0x400_0000 && t.w3 < 0x400_0000 && t.w4 < 0x400_0000 && t.w5 < 0x400_0000
    requires t.w6 < 0x400_0000 && t.w7 < 0x400_0000 && t.w8 < 0x400_0000
    ensures AndMiddle(t) == 0x3ff_ffff
       <==> && t.w2 == 0x3ff_ffff && t.w3 == 0x3ff_ffff && t.w4 == 0x3ff_ffff && t.w5 == 0x3ff_ffff
            && t.w6 == 0x3ff_ffff && t.w7 == 0x3ff_ffff && t.w8 == 0x3ff_ffff
  {
    hide And;
    assert Pow2(26) == 0x400_0000 by {
      assert Pow2(10) == 1024;
      assert Pow2(20) == 0x10_0000;
    }
    var a3 := And(t.w2 as int, t.w3 as int);
    AndBound(t.w2 as int, t.w3 as int, 26);
    var a4 := And(a3, t.w4 as int);
    AndBound(a3, t.w4 as int, 26);
    var a5 := And(a4, t.w5 as int);
    AndBound(a4, t.w5 as int, 26);
    var a6 := And(a5, t.w6 as int);
    AndBound(a5, t.w6 as int, 26);
    var a7 := And(a6, t.w7 as int);
    AndBound(a6, t.w7 as int, 26);
    AndBound(a7, t.w8 as int, 26);
  }

  function AndMiddle(t: Limbs): nat {
    And(And(And(And(And(And(t.w2 as int, t.w3 as int), t.w4 as int), t.w5 as int), t.w6 as int), t.w7 as int),
        t.w8 as int)
  }

  function Step32(carry: uint32, word: uint32): (r: (uint32, uint32))
    requires carry <= 0x40 && word <= 0x8200_0000
    ensures r.0 < 0x400_0000 && r.1 <= 0x21
    ensures r.0 as int + 0x400_0000 * r.1 as int == carry as int + word as int
  {
    var m := carry + word;
    (m % 0x400_0000, m / 0x400_0000)
  }

  predicate Propagable(l: Limbs) {
    && l.w0 <= 0x8200_0000 && l.w1 <= 0x8200_0000 && l.w2 <= 0x8200_0000 && l.w3 <= 0x8200_0000
    && l.w4 <= 0x8200_0000 && l.w5 <= 0x8200_0000 && l.w6 <= 0x8200_0000 && l.w7 <= 0x8200_0000
    && l.w8 <= 0x8200_0000 && l.w9 <= 0x8200_0000
  }

  predicate Propagated(t: Limbs) {
    && t.w0 < 0x400_0000 && t.w1 < 0x400_0000 && t.w2 < 0x400_0000 && t.w3 < 0x400_0000 && t.w4 < 0x400_0000
    && t.w5 < 0x400_0000 && t.w6 < 0x400_0000 && t.w7 < 0x400_0000 && t.w8 < 0x400_0000
  }

  /** Carries from word to word into the most significant one. */
  function Propagate(l: Limbs): (t: Limbs)
    requires Propagable(l)
    ensures Propagated(t) && l.w9 <= t.w9 <= l.w9 + 0x21
    ensures Value(t) == Value(l)
  {
    var (t0, m0) := Step32(0, l.w0);
    var (t1, m1) := Step32(m0, l.w1);
    var (t2, m2) := Step32(m1, l.w2);
    var (t3, m3) := Step32(m2, l.w3);
    var (t4, m4) := Step32(m3, l.w4);
    var (t5, m5) := Step32(m4, l.w5);
    var (t6, m6) := Step32(m5, l.w6);
    var (t7, m7) := Step32(m6, l.w7);
    var (t8, m8) := Step32(m7, l.w8);
    CarryTelescopes(0, l.w0 as int, l.w1 as int, l.w2 as int, l.w3 as int, l.w4 as int,
                    l.w5 as int, l.w6 as int, l.w7 as int, l.w8 as int,
                    t0 as int, t1 as int, t2 as int, t3 as int, t4 as int,
                    t5 as int, t6 as int, t7 as int, t8 as int,
                    m0 as int, m1 as int, m2 as int, m3 as int, m4 as int,
                    m5 as int, m6 as int, m7 as int, m8 as int);
    HornerShift(t0 as int, t1 as int, t2 as int, t3 as int, t4 as int, t5 as int, t6 as int, t7 as int, t8 as int,
                m8 as int + l.w9 as int, m8 as int);
    HornerShift(l.w0 as int, l.w1 as int, l.w2 as int, l.w3 as int, l.w4 as int,
                l.w5 as int, l.w6 as int, l.w7 as int, l.w8 as int, l.w9 as int, 0);
    Limbs(t0, t1, t2, t3, t4, t5, t6, t7, t8, m8 + l.w9)
  }

  /** Takes m multiples of 2^256 off the top word and adds m times 4294968273 at the bottom. */
  function FoldTop(l: Limbs, m: uint32): (t: Limbs)
    requires l.w0 <= 0x81ff_0000 && l.w1 <= 0x81ff_0000 && m <= 0x20
  {
    l.(w0 := l.w0 + m * 977, w1 := l.w1 + m * 64)
  }

  lemma FoldTopValue(l: Limbs, m: uint32)
    requires l.w0 <= 0x81ff_0000 && l.w1 <= 0x81ff_0000 && m <= 0x20
    ensures Value(FoldTop(l, m)) == Value(l) + 4294968273 * m as int
  {
  }

  /** One exactly when the propagated number is at least the prime. */
  function Excess(t: Limbs): uint32
    requires Propagated(t)
  {
    var full := t.w9 == 0x3f_ffff && AndMiddle(t) == 0x3ff_ffff
                && (t.w0 + 977) / 0x400_0000 + t.w1 + 64 > 0x3ff_ffff;
    if full || t.w9 / 0x40_0000 != 0 then 1 else 0
  }

  function NormalizeWords(l: Limbs): (r: Limbs)
    requires Magnitude(l, 32)
  {
    var m := l.w9 / 0x40_0000;
    var t := Propagate(FoldTop(l.(w9 := l.w9 % 0x40_0000), m));
    var u := Propagate(FoldTop(t, Excess(t)));
    u.(w9 := u.w9 % 0x40_0000)
  }

  /** The words above the lowest two. */
  function Upper(t: Limbs): int {
    Horner(t.w2 as int, t.w3 as int, t.w4 as int, t.w5 as int, t.w6 as int,
           t.w7 as int, t.w8 as int, t.w9 as int, 0, 0)
  }

  lemma ValueUpper(t: Limbs)
    ensures Value(t) == t.w0 as int + 0x400_0000 * t.w1 as int + 0x10_0000_0000_0000 * Upper(t)
  {
  }

  const UPPER_ONES := 0xFFF_FFFFFFFF_FFFFFFFF_FFFFFFFF_FFFFFFFF_FFFFFFFF_FFFFFFFF

  lemma UpperOnes(t: Limbs)
    requires Propagated(t)
    ensures Upper(t) > UPPER_ONES <==> t.w9 > 0x3f_ffff
    ensures Upper(t) == UPPER_ONES
       <==> && t.w2 == 0x3ff_ffff && t.w3 == 0x3ff_ffff && t.w4 == 0x3ff_ffff && t.w5 == 0x3ff_ffff
            && t.w6 == 0x3ff_ffff && t.w7 == 0x3ff_ffff && t.w8 == 0x3ff_ffff && t.w9 == 0x3f_ffff
  {
  }

  lemma ExcessMeaning(t: Limbs)
    requires Propagated(t)
    ensures Excess(t) == 1 <==> Value(t) >= P
    ensures Excess(t) == 0 <==> Value(t) < P
  {
    hide AndMiddle, Upper, Value, And;
    AllOnes(t);
    ValueUpper(t);
    UpperOnes(t);
    assert P == 0x3ff_fc2f + 0x400_0000 * 0x3ff_ffbf + 0x10_0000_0000_0000 * UPPER_ONES;
    assert (t.w0 + 977) / 0x400_0000 + t.w1 + 64 > 0x3ff_ffff
      <==> t.w0 as int + 0x400_0000 * t.w1 as int >= 0x3ff_fc2f + 0x400_0000 * 0x3ff_ffbf;
  }

  lemma ValueBound(t: Limbs)
    requires Propagated(t)
    ensures 0 <= Value(t) < 0x400_00000000_00000000_00000000_00000000_00000000_00000000_00000000 * (t.w9 as int + 1)
  {
  }

  lemma NormalizeArithmetic(v: int, v0: int, m: int, t: int, e: int, u: int, top: int, r: int)
    requires v0 == v - 0x1_00000000_00000000_00000000_00000000_00000000_00000000_00000000_00000000 * m
    requires t == v0 + 4294968273 * m
    requires 0 <= t < 0x400_00000000_00000000_00000000_00000000_00000000_00000000_00000000 * 0x40_0100
    requires e == if t >= P then 1 else 0
    requires u == t + 4294968273 * e
    requires 0 <= r < 0x1_00000000_00000000_00000000_00000000_00000000_00000000_00000000_00000000
    requires r == u - 0x1_00000000_00000000_00000000_00000000_00000000_00000000_00000000_00000000 * top
    ensures 0 <= r < P && r == v - P * (m + e)
  {
  }

  lemma NormalizeWordsCorrect(l: Limbs)
    requires Magnitude(l, 32)
    ensures Canonical(NormalizeWords(l))
    ensures Value(NormalizeWords(l)) == Value(l) % P
  {
    hide Propagate, Value, Excess;
    var m := l.w9 / 0x40_0000;
    var l0 := l.(w9 := l.w9 % 0x40_0000);
    TopWord(l, l0, m as int);
    FoldTopValue(l0, m);
    var t := Propagate(FoldTop(l0, m));
    ValueBound(t);
    ExcessMeaning(t);
    FoldTopValue(t, Excess(t));
    var u := Propagate(FoldTop(t, Excess(t)));
    var r := u.(w9 := u.w9 % 0x40_0000);
    TopWord(u, r, (u.w9 / 0x40_0000) as int);
    ValueBound(r);
    NormalizeArithmetic(Value(l), Value(l0), m as int, Value(t), Excess(t) as int,
                        Value(u), (u.w9 / 0x40_0000) as int, Value(r));
  }

  /** Splitting 22 bits of the top word from the multiples of 2^256. */
  lemma TopWord(l: Limbs, r: Limbs, m: int)
    requires r == l.(w9 := r.w9) && l.w9 as int == r.w9 as int + 0x40_0000 * m
    ensures Value(r) == Value(l) - 0x1_00000000_00000000_00000000_00000000_00000000_00000000_00000000_00000000 * m
  {
  }

  method Normalize(a: Limbs, ghost v: int, ghost m: int) returns (r: Limbs)
    requires Rep(a, v, m) && m <= 32
    ensures Rep(r, v, 1) && Canonical(r)
  {
    hide NormalizeWords, Value, Magnitude, Cong;
    MagnitudeMonotone(a, m, 32);
    r := NormalizeWords(a);
    NormalizeWordsCorrect(a);
    CanonicalMagnitude(r);
    CongMod(Value(a));
    CongSym(Value(a), Value(r));
    CongTrans(Value(r), Value(a), v);
  }

  lemma CanonicalMagnitude(l: Limbs)
    requires Canonical(l)
    ensures Magnitude(l, 1)
  {
    hide Value;
  }

  /** Normalized words are equal exactly when the numbers they stand for are congruent. */
  lemma CanonicalEqual(a: Limbs, b: Limbs)
    requires Canonical(a) && Canonical(b)
    ensures a == b <==> Cong(Value(a), Value(b))
  {
    hide Value;
    ValueBound(a);
    ValueBound(b);
    if Value(a) == Value(b) {
      DigitsUnique(a, b);
    }
  }

  /** Two numbers agree exactly when their lowest digits and the remaining quotients do. */
  lemma Peel(x: int, q: int, y: int, r: int)
    requires 0 <= x < 0x400_0000 && 0 <= y < 0x400_0000 && x + 0x400_0000 * q == y + 0x400_0000 * r
    ensures x == y && q == r
  {
  }

  lemma PeelThree(x0: int, x1: int, x2: int, q: int, y0: int, y1: int, y2: int, r: int)
    requires 0 <= x0 < 0x400_0000 && 0 <= x1 < 0x400_0000 && 0 <= x2 < 0x400_0000
    requires 0 <= y0 < 0x400_0000 && 0 <= y1 < 0x400_0000 && 0 <= y2 < 0x400_0000
    requires x0 + 0x400_0000 * (x1 + 0x400_0000 * (x2 + 0x400_0000 * q))
          == y0 + 0x400_0000 * (y1 + 0x400_0000 * (y2 + 0x400_0000 * r))
    ensures x0 == y0 && x1 == y1 && x2 == y2 && q == r
  {
    Peel(x0, x1 + 0x400_0000 * (x2 + 0x400_0000 * q), y0, y1 + 0x400_0000 * (y2 + 0x400_0000 * r));
    Peel(x1, x2 + 0x400_0000 * q, y1, y2 + 0x400_0000 * r);
  }

  /** The number without its six lowest digits. */
  function High(l: Limbs): int {
    l.w6 as int + 0x400_0000 * (l.w7 as int + 0x400_0000 * (l.w8 as int + 0x400_0000 * l.w9 as int))
  }

  /** The number without its three lowest digits. */
  function Middle(l: Limbs): int {
    l.w3 as int + 0x400_0000 * (l.w4 as int + 0x400_0000 * (l.w5 as int + 0x400_0000 * High(l)))
  }

  lemma ValueMiddle(l: Limbs)
    ensures Value(l)
         == l.w0 as int + 0x400_0000 * (l.w1 as int + 0x400_0000 * (l.w2 as int + 0x400_0000 * Middle(l)))
  {
  }

  lemma DigitsUnique(a: Limbs, b: Limbs)
    requires Propagated(a) && Propagated(b) && Value(a) == Value(b)
    ensures a == b
  {
    ValueMiddle(a);
    ValueMiddle(b);
    assert Middle(a) == Middle(b) && a.w0 == b.w0 && a.w1 == b.w1 && a.w2 == b.w2 by {
      hide Value, Middle;
      PeelThree(a.w0 as int, a.w1 as int, a.w2 as int, Middle(a), b.w0 as int, b.w1 as int, b.w2 as int, Middle(b));
    }
    assert High(a) == High(b) && a.w3 == b.w3 && a.w4 == b.w4 && a.w5 == b.w5 by {
      hide Value, High;
      PeelThree(a.w3 as int, a.w4 as int, a.w5 as int, High(a), b.w3 as int, b.w4 as int, b.w5 as int, High(b));
    }
    hide Value, Middle;
    PeelThree(a.w6 as int, a.w7 as int, a.w8 as int, a.w9 as int, b.w6 as int, b.w7 as int, b.w8 as int, b.w9 as int);
  }

  function IsZeroWords(l: Limbs): bool {
    l == Limbs(0, 0, 0, 0, 0, 0, 0, 0, 0, 0)
  }

  lemma IsZeroMeaning(l: Limbs)
    ensures IsZeroWords(l) <==> Value(l) == 0
  {
  }
}
