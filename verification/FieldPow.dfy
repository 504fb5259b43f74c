/** Powers of field elements: the addition chain of Inverse and the square-and-multiply of SqrtVal. */
module FieldPow {
  import opened Words
  import opened FieldWords
  import opened Modular
  import opened FieldOps
  import opened FieldNormalize
  import opened FieldBytes

  ghost function Pow(b: int, e: nat): int {
    if e == 0 then 1 else Times(b, Pow(b, e - 1))
  }

  lemma {:induction false} PowAdd(b: int, e: nat, f: nat)
    ensures Pow(b, e + f) == Times(Pow(b, e), Pow(b, f))
  {
    if e == 0 {
      IsTimes(1, Pow(b, f));
    } else {
      PowAdd(b, e - 1, f);
      TimesAssoc(b, Pow(b, e - 1), Pow(b, f));
    }
  }

  /** (P + 1) / 4. */
  const Q: int := 0x3FFFFFFF_FFFFFFFF_FFFFFFFF_FFFFFFFF_FFFFFFFF_FFFFFFFF_FFFFFFFF_BFFFFF0C

  /** The words stand for the e-th power of v. */
  ghost predicate IsPow(l: Limbs, v: int, e: nat) {
    Rep(l, Pow(v, e), 1)
  }

  method MulPow(a: Limbs, b: Limbs, ghost v: int, ghost e: nat, ghost f: nat) returns (r: Limbs)
    requires IsPow(a, v, e) && IsPow(b, v, f)
    ensures IsPow(r, v, e + f)
  {
    hide Pow, Rep;
    PowAdd(v, e, f);
    r := Mul(a, b, Pow(v, e), Pow(v, f), 1, 1);
  }

  method SquarePow(a: Limbs, ghost v: int, ghost e: nat) returns (r: Limbs)
    requires IsPow(a, v, e)
    ensures IsPow(r, v, 2 * e)
  {
    hide Pow, Rep;
    PowAdd(v, e, e);
    r := Square(a, Pow(v, e), 1);
  }

  /** Five squarings in a row. */
  method SquareFive(a: Limbs, ghost v: int, ghost e: nat) returns (r: Limbs)
    requires IsPow(a, v, e)
    ensures IsPow(r, v, 32 * e)
  {
    hide IsPow;
    r := SquarePow(a, v, e);
    r := SquarePow(r, v, 2 * e);
    r := SquarePow(r, v, 4 * e);
    r := SquarePow(r, v, 8 * e);
    r := SquarePow(r, v, 16 * e);
  }

  method SquareTen(a: Limbs, ghost v: int, ghost e: nat) returns (r: Limbs)
    requires IsPow(a, v, e)
    ensures IsPow(r, v, 1024 * e)
  {
    hide IsPow;
    r := SquareFive(a, v, e);
    r := SquareFive(r, v, 32 * e);
  }

  lemma PowSmall(v: int)
    ensures Pow(v, 1) == v && Pow(v, 2) == Times(v, v) && Pow(v, 3) == Times(Times(v, v), v)
  {
    IsTimes(v, 1);
    assert Pow(v, 1) == Times(v, Pow(v, 0));
    assert Pow(v, 2) == Times(v, Pow(v, 1));
    assert Pow(v, 3) == Times(v, Pow(v, 2));
    TimesComm(v, Times(v, v));
  }

  /** The first step of both chains: from a value of magnitude up to 8 to its square and itself times its square. */
  method FirstPowers(f: Limbs, ghost v: int, ghost m: int) returns (a2: Limbs, a3: Limbs)
    requires Rep(f, v, m) && m <= 8
    ensures IsPow(a2, v, 2) && IsPow(a3, v, 3)
  {
    hide Rep;
    a2 := Square(f, v, m);
    a3 := Mul(a2, f, Times(v, v), v, 1, m);
    PowSmall(v);
  }

  method MulBase(a: Limbs, f: Limbs, ghost v: int, ghost e: nat, ghost m: int) returns (r: Limbs)
    requires IsPow(a, v, e) && Rep(f, v, m) && m <= 8
    ensures IsPow(r, v, e + 1)
  {
    hide Rep;
    r := Mul(a, f, Pow(v, e), v, 1, m);
    TimesComm(v, Pow(v, e));
  }

  /** The chain of 258 squarings and 33 multiplications. */
  method InverseWords(f: Limbs, ghost v: int, ghost m: int) returns (r: Limbs)
    requires Rep(f, v, m) && m <= 8
    ensures Rep(r, Pow(v, P - 2), 1)
  {
    hide IsPow, Rep;
    var a2, a3 := FirstPowers(f, v, m);
    var a4 := SquarePow(a2, v, 2);
    var a10 := SquarePow(a4, v, 4);
    a10 := MulPow(a10, a2, v, 8, 2);
    var a11 := MulBase(a10, f, v, 10, m);
    var a21 := MulPow(a10, a11, v, 10, 11);
    var a42 := SquarePow(a21, v, 21);
    var a45 := MulPow(a42, a3, v, 42, 3);
    var a63 := MulPow(a42, a21, v, 42, 21);
    var a1019 := SquarePow(a63, v, 63);
    a1019 := SquarePow(a1019, v, 126);
    a1019 := SquarePow(a1019, v, 252);
    a1019 := SquarePow(a1019, v, 504);
    a1019 := MulPow(a1019, a11, v, 1008, 11);
    var a1023 := MulPow(a1019, a4, v, 1019, 4);
    r := InverseTail(a45, a63, a1019, a1023, v);
  }

  method InverseTail(a45: Limbs, a63: Limbs, a1019: Limbs, a1023: Limbs, ghost v: int) returns (t: Limbs)
    requires IsPow(a45, v, 45) && IsPow(a63, v, 63) && IsPow(a1019, v, 1019) && IsPow(a1023, v, 1023)
    ensures Rep(t, Pow(v, P - 2), 1)
  {
    hide IsPow, Rep, Pow;
    ghost var e: nat := 63;
    t := a63;
    t := SquareTen(t, v, e);
    t := MulPow(t, a1023, v, 1024 * e, 1023);
    e := 1024 * e + 1023;
    t := SquareTen(t, v, e);
    t := MulPow(t, a1023, v, 1024 * e, 1023);
    e := 1024 * e + 1023;
    t := SquareTen(t, v, e);
    t := MulPow(t, a1023, v, 1024 * e, 1023);
    e := 1024 * e + 1023;
    t := SquareTen(t, v, e);
    t := MulPow(t, a1023, v, 1024 * e, 1023);
    e := 1024 * e + 1023;
    t := SquareTen(t, v, e);
    t := MulPow(t, a1023, v, 1024 * e, 1023);
    e := 1024 * e + 1023;
    t := SquareTen(t, v, e);
    t := MulPow(t, a1023, v, 1024 * e, 1023);
    e := 1024 * e + 1023;
    t := SquareTen(t, v, e);
    t := MulPow(t, a1023, v, 1024 * e, 1023);
    e := 1024 * e + 1023;
    t := SquareTen(t, v, e);
    t := MulPow(t, a1023, v, 1024 * e, 1023);
    e := 1024 * e + 1023;
    t := SquareTen(t, v, e);
    t := MulPow(t, a1023, v, 1024 * e, 1023);
    e := 1024 * e + 1023;
    t := SquareTen(t, v, e);
    t := MulPow(t, a1023, v, 1024 * e, 1023);
    e := 1024 * e + 1023;
    t := SquareTen(t, v, e);
    t := MulPow(t, a1023, v, 1024 * e, 1023);
    e := 1024 * e + 1023;
    t := SquareTen(t, v, e);
    t := MulPow(t, a1023, v, 1024 * e, 1023);
    e := 1024 * e + 1023;
    t := SquareTen(t, v, e);
    t := MulPow(t, a1023, v, 1024 * e, 1023);
    e := 1024 * e + 1023;
    t := SquareTen(t, v, e);
    t := MulPow(t, a1023, v, 1024 * e, 1023);
    e := 1024 * e + 1023;
    t := SquareTen(t, v, e);
    t := MulPow(t, a1023, v, 1024 * e, 1023);
    e := 1024 * e + 1023;
    t := SquareTen(t, v, e);
    t := MulPow(t, a1023, v, 1024 * e, 1023);
    e := 1024 * e + 1023;
    t := SquareTen(t, v, e);
    t := MulPow(t, a1023, v, 1024 * e, 1023);
    e := 1024 * e + 1023;
    t := SquareTen(t, v, e);
    t := MulPow(t, a1023, v, 1024 * e, 1023);
    e := 1024 * e + 1023;
    t := SquareTen(t, v, e);
    t := MulPow(t, a1023, v, 1024 * e, 1023);
    e := 1024 * e + 1023;
    t := SquareTen(t, v, e);
    t := MulPow(t, a1023, v, 1024 * e, 1023);
    e := 1024 * e + 1023;
    t := SquareTen(t, v, e);
    t := MulPow(t, a1023, v, 1024 * e, 1023);
    e := 1024 * e + 1023;
    t := SquareTen(t, v, e);
    t := MulPow(t, a1019, v, 1024 * e, 1019);
    e := 1024 * e + 1019;
    t := SquareTen(t, v, e);
    t := MulPow(t, a1023, v, 1024 * e, 1023);
    e := 1024 * e + 1023;
    t := SquareTen(t, v, e);
    t := MulPow(t, a1023, v, 1024 * e, 1023);
    e := 1024 * e + 1023;
    t := SquareTen(t, v, e);
    t := MulPow(t, a45, v, 1024 * e, 45);
    e := 1024 * e + 45;
    assert e == P - 2;
    IsPowMeaning(t, v, e);
  }

  // ----- square roots

  /** The big-endian bytes of Q. */
  const FIELD_Q_BYTES: seq<byte> := [
    0x3f, 0xff, 0xff, 0xff, 0xff, 0xff, 0xff, 0xff, 0xff, 0xff, 0xff, 0xff, 0xff, 0xff, 0xff, 0xff,
    0xff, 0xff, 0xff, 0xff, 0xff, 0xff, 0xff, 0xff, 0xff, 0xff, 0xff, 0xff, 0xbf, 0xff, 0xff, 0x0c]

  lemma QByte(i: nat)
    requires i < 32
    ensures |FIELD_Q_BYTES| == 32
    ensures FIELD_Q_BYTES[i] == if i == 0 then 0x3f else if i == 28 then 0xbf else if i == 31 then 0x0c else 0xff
  {
  }

  lemma {:induction false} QPrefix(k: nat)
    requires 1 <= k <= 28
    ensures |FIELD_Q_BYTES| == 32
    ensures BigEndian(FIELD_Q_BYTES[..k]) + 1 == 64 * Pow256(k - 1)
  {
    hide FIELD_Q_BYTES;
    QByte(k - 1);
    BigEndianSnoc(FIELD_Q_BYTES, k - 1);
    if k == 1 {
      assert FIELD_Q_BYTES[..0] == [];
    } else {
      QPrefix(k - 1);
    }
  }

  lemma QBytesValue()
    ensures |FIELD_Q_BYTES| == 32 && BigEndian(FIELD_Q_BYTES) == Q && 4 * Q == P + 1
  {
    hide BigEndian, FIELD_Q_BYTES;
    QPrefix(28);
    QByte(28);
    QByte(29);
    QByte(30);
    QByte(31);
    BigEndianSnoc(FIELD_Q_BYTES, 28);
    BigEndianSnoc(FIELD_Q_BYTES, 29);
    BigEndianSnoc(FIELD_Q_BYTES, 30);
    BigEndianSnoc(FIELD_Q_BYTES, 31);
    assert FIELD_Q_BYTES[..32] == FIELD_Q_BYTES;
    assert Pow256(9) == 0x100_00000000_00000000;
    assert Pow256(18) == 0x1_0000_00000000_00000000_00000000_00000000;
    assert Pow256(27) == 0x1000000_00000000_00000000_00000000_00000000_00000000_00000000;
  }

  /** One step of square-and-multiply with a set bit: f.Square().Mul(x). */
  method SquareMul(f: Limbs, x: Limbs, ghost v: int, ghost e: nat, ghost m: int) returns (r: Limbs)
    requires IsPow(f, v, e) && Rep(x, v, m) && m <= 8
    ensures IsPow(r, v, 2 * e + 1)
  {
    hide IsPow, Rep;
    r := SquarePow(f, v, e);
    r := MulBase(r, x, v, 2 * e, m);
  }

  /** Six set bits in a row. */
  method SquareMulSix(f: Limbs, x: Limbs, ghost v: int, ghost e: nat, ghost m: int) returns (r: Limbs)
    requires IsPow(f, v, e) && Rep(x, v, m) && m <= 8
    ensures IsPow(r, v, 64 * e + 63)
  {
    hide IsPow, Rep;
    r := SquareMul(f, x, v, e, m);
    r := SquareMul(r, x, v, 2 * e + 1, m);
    r := SquareMul(r, x, v, 4 * e + 3, m);
    r := SquareMul(r, x, v, 8 * e + 7, m);
    r := SquareMul(r, x, v, 16 * e + 15, m);
    r := SquareMul(r, x, v, 32 * e + 31, m);
  }

  /** One byte of the exponent, by a four-way switch. */
  method SqrtByte(f: Limbs, x: Limbs, b: byte, ghost v: int, ghost e: nat, ghost m: int) returns (r: Limbs)
    requires IsPow(f, v, e) && Rep(x, v, m) && m <= 8
    requires b == 0xff || (b == 0x3f && e == 0) || b == 0xbf || b == 0x0c
    ensures IsPow(r, v, 256 * e + b as int)
  {
    hide IsPow, Rep;
    if b == 0xff {
      r := SquareMul(f, x, v, e, m);
      r := SquareMul(r, x, v, 2 * e + 1, m);
      r := SquareMulSix(r, x, v, 4 * e + 3, m);
    } else if b == 0x3f {
      r := MulBase(f, x, v, 0, m);
      r := SquareMul(r, x, v, 1, m);
      r := SquareMul(r, x, v, 3, m);
      r := SquareMul(r, x, v, 7, m);
      r := SquareMul(r, x, v, 15, m);
      r := SquareMul(r, x, v, 31, m);
    } else if b == 0xbf {
      r := SquareMul(f, x, v, e, m);
      r := SquarePow(r, v, 2 * e + 1);
      r := SquareMulSix(r, x, v, 4 * e + 2, m);
    } else {
      r := SquarePow(f, v, e);
      r := SquarePow(r, v, 2 * e);
      r := SquarePow(r, v, 4 * e);
      r := SquarePow(r, v, 8 * e);
      r := SquareMul(r, x, v, 16 * e, m);
      r := SquareMul(r, x, v, 32 * e + 1, m);
      r := SquarePow(r, v, 64 * e + 3);
      r := SquarePow(r, v, 128 * e + 6);
    }
  }

  lemma OnePow(v: int)
    ensures IsPow(ONE, v, 0)
  {
  }

  const ZERO := Limbs(0, 0, 0, 0, 0, 0, 0, 0, 0, 0)
  const ONE := Limbs(1, 0, 0, 0, 0, 0, 0, 0, 0, 0)

  /** A field element that is updated in place; its pointer receivers may denote the same object. */
  class FieldVal {
    var n: Limbs

    constructor ()
      ensures n == ZERO
    {
      n := ZERO;
    }

    method Inverse(ghost v: int, ghost m: int)
      requires Rep(n, v, m) && m <= 8
      modifies this
      ensures Rep(n, Pow(v, P - 2), 1)
    {
      n := InverseWords(n, v, m);
    }

    /** Raises x to the power (P + 1) / 4.  When x is this very object, setting the accumulator to one
        destroys the argument and the result is one. */
    method SqrtVal(x: FieldVal, ghost v: int, ghost m: int)
      requires Rep(x.n, v, m) && m <= 8
      modifies this
      ensures this != x ==> Rep(n, Pow(v, Q), 1)
      ensures this == x ==> Rep(n, 1, 1)
    {
      hide IsPow, Rep, Pow, BigEndian, FIELD_Q_BYTES;
      QBytesValue();
      n := ONE;
      ghost var w := if this == x then 1 else v;
      ghost var k := if this == x then 1 else m;
      OnePow(w);
      BigEndianNone();
      assert FIELD_Q_BYTES[..0] == [];
      var i := 0;
      while i < |FIELD_Q_BYTES|
        invariant 0 <= i <= 32
        invariant IsPow(n, w, BigEndian(FIELD_Q_BYTES[..i]))
        invariant Rep(x.n, w, k) && k <= 8
        invariant i == 0 ==> BigEndian(FIELD_Q_BYTES[..i]) == 0
      {
        QByte(i);
        BigEndianSnoc(FIELD_Q_BYTES, i);
        n := SqrtByte(n, x.n, FIELD_Q_BYTES[i], w, BigEndian(FIELD_Q_BYTES[..i]), k);
        i := i + 1;
        if this == x {
          OneToAnyPower(n, BigEndian(FIELD_Q_BYTES[..i]));
        }
      }
      assert FIELD_Q_BYTES[..32] == FIELD_Q_BYTES;
      IsPowMeaning(n, w, Q);
    }

    /** The in-place form passes the object to itself. */
    method Sqrt(ghost v: int, ghost m: int)
      requires Rep(n, v, m) && m <= 8
      modifies this
      ensures Rep(n, 1, 1)
    {
      SqrtVal(this, v, m);
    }
  }

  lemma {:induction false} PowOne(e: nat)
    ensures Pow(1, e) == 1
  {
    if e > 0 {
      PowOne(e - 1);
      IsTimes(1, 1);
    }
  }

  lemma OneToAnyPower(l: Limbs, e: nat)
    requires IsPow(l, 1, e)
    ensures Rep(l, 1, 1)
  {
    PowOne(e);
  }

  lemma BigEndianNone()
    ensures BigEndian([]) == 0 && Rep(ONE, 1, 1)
  {
  }

  lemma IsPowMeaning(l: Limbs, v: int, e: nat)
    requires IsPow(l, v, e)
    ensures Rep(l, Pow(v, e), 1)
  {
  }
}
