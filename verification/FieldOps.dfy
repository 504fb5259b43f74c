/** Congruence modulo the field prime. */
module Modular {
  import opened FieldWords

  ghost predicate Cong(a: int, b: int) {
    (a - b) % P == 0
  }

  /** a * b by repeated addition.  Statements about points multiply with this function: it keeps them free
      of polynomials with 256-bit coefficients, which proofs bring in where they need them (IsTimes). */
  ghost function Times(a: int, b: int): int
    decreases if b < 0 then -b else b
  {
    if b == 0 then 0 else if b > 0 then a + Times(a, b - 1) else Times(a, b + 1) - a
  }

  lemma {:induction false} IsTimes(a: int, b: int)
    ensures Times(a, b) == a * b
    decreases if b < 0 then -b else b
  {
    if b > 0 {
      IsTimes(a, b - 1);
      assert a * b == a + a * (b - 1);
    } else if b < 0 {
      IsTimes(a, b + 1);
      assert a * b == a * (b + 1) - a;
    }
  }

  ghost function Sq(a: int): int {
    Times(a, a)
  }

  ghost function Cu(a: int): int {
    Times(Times(a, a), a)
  }

  lemma IsSq(a: int)
    ensures Sq(a) == a * a
  {
    hide Times;
    IsTimes(a, a);
  }

  lemma IsCu(a: int)
    ensures Cu(a) == a * a * a
  {
    hide Times;
    IsTimes(a, a);
    IsTimes(a * a, a);
  }

  lemma TimesComm(a: int, b: int)
    ensures Times(a, b) == Times(b, a)
  {
    hide Times;
    IsTimes(a, b);
    IsTimes(b, a);
  }

  lemma TimesAssoc(a: int, b: int, c: int)
    ensures Times(a, Times(b, c)) == Times(Times(a, b), c)
  {
    hide Times;
    IsTimes(b, c);
    IsTimes(a, b);
    IsTimes(a, b * c);
    IsTimes(a * b, c);
    assert a * (b * c) == a * b * c;
  }

  lemma CongWitness(a: int, b: int, k: int)
    requires a - b == P * k
    ensures Cong(a, b)
  {
  }

  lemma CongRefl(a: int)
    ensures Cong(a, a)
  {
  }

  lemma CongMod(a: int)
    ensures Cong(a, a % P)
  {
  }

  lemma CongTrans(a: int, b: int, c: int)
    requires Cong(a, b) && Cong(b, c)
    ensures Cong(a, c)
  {
  }

  lemma CongSym(a: int, b: int)
    requires Cong(a, b)
    ensures Cong(b, a)
  {
  }

  lemma CongAdd(a: int, a': int, b: int, b': int)
    requires Cong(a, a') && Cong(b, b')
    ensures Cong(a + b, a' + b')
  {
  }

  lemma CongNeg(a: int, a': int)
    requires Cong(a, a')
    ensures Cong(-a, -a')
  {
    var k := (a - a') / P;
    CongWitness(-a, -a', -k);
  }

  lemma CongMul(a: int, a': int, b: int, b': int)
    requires Cong(a, a') && Cong(b, b')
    ensures Cong(a * b, a' * b')
  {
    var k, l := (a - a') / P, (b - b') / P;
    assert a == a' + P * k && b == b' + P * l;
    calc {
      a * b;
      a' * b' + P * (k * b' + a' * l + P * k * l);
    }
    CongWitness(a * b, a' * b', k * b' + a' * l + P * k * l);
  }

  lemma CongTimes(a: int, a': int, b: int, b': int)
    requires Cong(a, a') && Cong(b, b')
    ensures Cong(Times(a, b), Times(a', b'))
  {
    hide Cong, Times;
    IsTimes(a, b);
    IsTimes(a', b');
    CongMul(a, a', b, b');
  }
}

module FieldOps {
  import opened Words
  import opened FieldWords
  import opened FieldMul
  import opened Modular

  ghost predicate Rep(l: Limbs, v: int, m: int) {
    Magnitude(l, m) && Cong(Value(l), v)
  }

  lemma RepCong(l: Limbs, v: int, w: int, m: int)
    requires Rep(l, v, m) && Cong(v, w)
    ensures Rep(l, w, m)
  {
  }

  // ----- multiplication and squaring

  function MulWords(a: Limbs, b: Limbs): Limbs
    requires Magnitude(a, 8) && Magnitude(b, 8)
  {
    MulColumnsBounded(a, b);
    Reduce(MulColumns(a, b))
  }

  function SquareWords(a: Limbs): Limbs
    requires Magnitude(a, 8)
  {
    SquareColumnsAgree(a);
    MulColumnsBounded(a, a);
    Reduce(SquareColumns(a))
  }

  /** The specialised squaring gives word for word what the general multiplication gives. */
  lemma SquareWordsIsMulWords(a: Limbs)
    requires Magnitude(a, 8)
    ensures SquareWords(a) == MulWords(a, a)
  {
    hide MulColumns, SquareColumns, Reduce, Magnitude;
    SquareColumnsAgree(a);
  }

  lemma MulWordsCorrect(a: Limbs, b: Limbs)
    requires Magnitude(a, 8) && Magnitude(b, 8)
    ensures Magnitude(MulWords(a, b), 1)
    ensures Cong(Value(MulWords(a, b)), Value(a) * Value(b))
  {
    hide Reduce, MulColumns, Magnitude, Value, WideValue;
    MulColumnsBounded(a, b);
    MulColumnsValue(a, b);
    ReduceCorrect(MulColumns(a, b));
  }

  lemma MagnitudeMonotone(l: Limbs, m: int, k: int)
    requires Magnitude(l, m) && m <= k
    ensures Magnitude(l, k)
  {
  }

  method Mul(a: Limbs, b: Limbs, ghost v: int, ghost w: int, ghost m: int, ghost k: int) returns (r: Limbs)
    requires Rep(a, v, m) && Rep(b, w, k) && m <= 8 && k <= 8
    ensures Rep(r, Times(v, w), 1)
  {
    hide MulWords, Magnitude, Value, Cong, Times;
    IsTimes(v, w);
    MagnitudeMonotone(a, m, 8);
    MagnitudeMonotone(b, k, 8);
    r := MulWords(a, b);
    MulWordsCorrect(a, b);
    CongMul(Value(a), v, Value(b), w);
    CongTrans(Value(r), Value(a) * Value(b), v * w);
  }

  method Square(a: Limbs, ghost v: int, ghost m: int) returns (r: Limbs)
    requires Rep(a, v, m) && m <= 8
    ensures Rep(r, Sq(v), 1)
  {
    hide MulWords, SquareWords, Magnitude, Value, Cong, Times;
    IsTimes(v, v);
    MagnitudeMonotone(a, m, 8);
    r := SquareWords(a);
    SquareWordsIsMulWords(a);
    MulWordsCorrect(a, a);
    CongMul(Value(a), v, Value(a), v);
    CongTrans(Value(r), Value(a) * Value(a), v * v);
  }

  // ----- carry-less operations

  function NegateWords(a: Limbs, magnitude: uint32): (r: Limbs)
    requires 1 <= magnitude <= 62 && Magnitude(a, magnitude as int)
    ensures Magnitude(r, magnitude as int + 1)
  {
    var k := magnitude + 1;
    Limbs(k * 0x3ff_fc2f - a.w0, k * 0x3ff_ffbf - a.w1, k * 0x3ff_ffff - a.w2, k * 0x3ff_ffff - a.w3,
          k * 0x3ff_ffff - a.w4, k * 0x3ff_ffff - a.w5, k * 0x3ff_ffff - a.w6, k * 0x3ff_ffff - a.w7,
          k * 0x3ff_ffff - a.w8, k * 0x3f_ffff - a.w9)
  }

  lemma NegateWordsValue(a: Limbs, magnitude: uint32)
    requires 1 <= magnitude <= 62 && Magnitude(a, magnitude as int)
    ensures Value(NegateWords(a, magnitude)) == P * (magnitude as int + 1) - Value(a)
  {
    hide Magnitude;
  }

  method Negate(a: Limbs, magnitude: uint32, ghost v: int) returns (r: Limbs)
    requires 1 <= magnitude <= 62 && Rep(a, v, magnitude as int)
    ensures Rep(r, -v, magnitude as int + 1)
  {
    hide NegateWords, Magnitude, Value, Cong;
    r := NegateWords(a, magnitude);
    NegateWordsValue(a, magnitude);
    CongWitness(Value(r), -Value(a), magnitude as int + 1);
    CongNeg(Value(a), v);
    CongTrans(Value(r), -Value(a), -v);
  }

  function AddWords(a: Limbs, b: Limbs, ghost m: int, ghost k: int): (r: Limbs)
    requires Magnitude(a, m) && Magnitude(b, k) && m + k <= 63
    ensures Magnitude(r, m + k)
    ensures Value(r) == Value(a) + Value(b)
  {
    Limbs(a.w0 + b.w0, a.w1 + b.w1, a.w2 + b.w2, a.w3 + b.w3, a.w4 + b.w4,
          a.w5 + b.w5, a.w6 + b.w6, a.w7 + b.w7, a.w8 + b.w8, a.w9 + b.w9)
  }

  method Add(a: Limbs, b: Limbs, ghost v: int, ghost w: int, ghost m: int, ghost k: int) returns (r: Limbs)
    requires Rep(a, v, m) && Rep(b, w, k) && m + k <= 63
    ensures Rep(r, v + w, m + k)
  {
    hide AddWords, Magnitude, Value, Cong;
    r := AddWords(a, b, m, k);
    CongAdd(Value(a), v, Value(b), w);
  }

  function MulWord(x: uint32, k: uint32, ghost m: int, ghost n: int, ghost max: int): (r: uint32)
    requires x as int <= m * max && m * k as int == n && n * max <= 0xFFFF_FFFF
    ensures r as int == x as int * k as int && r as int <= n * max
  {
    assert (m * max - x as int) * k as int >= 0;
    assert m * max * k as int == n * max;
    x * k
  }

  function MulIntWords(a: Limbs, k: uint32, ghost m: int, ghost n: int): (r: Limbs)
    requires Magnitude(a, m) && m * k as int == n && n <= 63
    ensures Magnitude(r, n)
  {
    Limbs(MulWord(a.w0, k, m, n, 0x3ff_ffff), MulWord(a.w1, k, m, n, 0x3ff_ffff), MulWord(a.w2, k, m, n, 0x407_ffff),
          MulWord(a.w3, k, m, n, 0x3ff_ffff), MulWord(a.w4, k, m, n, 0x3ff_ffff), MulWord(a.w5, k, m, n, 0x3ff_ffff),
          MulWord(a.w6, k, m, n, 0x3ff_ffff), MulWord(a.w7, k, m, n, 0x3ff_ffff), MulWord(a.w8, k, m, n, 0x3ff_ffff),
          MulWord(a.w9, k, m, n, 0x3f_ffff))
  }

  lemma MulIntWordsValue(a: Limbs, k: uint32, m: int, n: int)
    requires Magnitude(a, m) && m * k as int == n && n <= 63
    ensures Value(MulIntWords(a, k, m, n)) == k as int * Value(a)
  {
    hide Magnitude;
    ScaledRowValue(k as int, a);
  }

  method MulInt(a: Limbs, k: uint32, ghost v: int, ghost m: int) returns (r: Limbs)
    requires Rep(a, v, m) && m * k as int <= 63
    ensures Rep(r, k as int * v, m * k as int)
  {
    hide MulIntWords, Magnitude, Value, Cong;
    r := MulIntWords(a, k, m, m * k as int);
    MulIntWordsValue(a, k, m, m * k as int);
    CongRefl(k as int);
    CongMul(k as int, k as int, Value(a), v);
  }
}
