/** Fixed-width machine words.  Arithmetic on them is checked: an expression that could wrap around
    does not verify, so every member using these types also proves that its words never overflow. */
module Words {
  newtype uint32 = x: int | 0 <= x < 0x1_0000_0000
  newtype uint64 = x: int | 0 <= x < 0x1_0000_0000_0000_0000
  newtype byte = x: int | 0 <= x < 256
}

/** The ten-word representation of a secp256k1 field element: base 2^26 digits with spare bits. */
module FieldWords {
  import opened Words

  /** The field prime, 2^256 - 4294968273 (section 2.4.1 of SEC 2). */
  const P: int := 0xFFFFFFFF_FFFFFFFF_FFFFFFFF_FFFFFFFF_FFFFFFFF_FFFFFFFF_FFFFFFFE_FFFFFC2F

  datatype Limbs = Limbs(
    w0: uint32, w1: uint32, w2: uint32, w3: uint32, w4: uint32,
    w5: uint32, w6: uint32, w7: uint32, w8: uint32, w9: uint32)

  /** The number with base 2^26 digits c0 (least significant) to c9. */
  function Horner(c0: int, c1: int, c2: int, c3: int, c4: int,
                  c5: int, c6: int, c7: int, c8: int, c9: int): int
  {
    c0 + 0x400_0000 * (c1 + 0x400_0000 * (c2 + 0x400_0000 * (c3 + 0x400_0000 * (c4 + 0x400_0000 * (
    c5 + 0x400_0000 * (c6 + 0x400_0000 * (c7 + 0x400_0000 * (c8 + 0x400_0000 * c9))))))))
  }

  function Value(l: Limbs): int {
    Horner(l.w0 as int, l.w1 as int, l.w2 as int, l.w3 as int, l.w4 as int,
           l.w5 as int, l.w6 as int, l.w7 as int, l.w8 as int, l.w9 as int)
  }

  /** No word exceeds m times its normalized maximum.  Word 2 is allowed 2^19 more per unit, because
      multiplication leaves a last carry there without propagating it. */
  predicate Magnitude(l: Limbs, m: int) {
    && l.w0 as int <= m * 0x3ff_ffff && l.w1 as int <= m * 0x3ff_ffff
    && l.w2 as int <= m * 0x407_ffff && l.w3 as int <= m * 0x3ff_ffff
    && l.w4 as int <= m * 0x3ff_ffff && l.w5 as int <= m * 0x3ff_ffff
    && l.w6 as int <= m * 0x3ff_ffff && l.w7 as int <= m * 0x3ff_ffff
    && l.w8 as int <= m * 0x3ff_ffff && l.w9 as int <= m * 0x3f_ffff
  }

  /** Canonical: all words in range and the number below the prime. */
  predicate Canonical(l: Limbs) {
    && l.w0 < 0x400_0000 && l.w1 < 0x400_0000 && l.w2 < 0x400_0000 && l.w3 < 0x400_0000
    && l.w4 < 0x400_0000 && l.w5 < 0x400_0000 && l.w6 < 0x400_0000 && l.w7 < 0x400_0000
    && l.w8 < 0x400_0000 && l.w9 < 0x40_0000
    && Value(l) < P
  }
}
/** Multiplication and squaring: 19 columns of word products, a carry chain, and two foldings of the
    high part by 2^256 == 4294968273 (mod P) (section 14.3.4 of HAC). */
module FieldMul {
  import opened Words
  import opened FieldWords

  datatype Columns = Columns(
    c0: uint64, c1: uint64, c2: uint64, c3: uint64, c4: uint64, c5: uint64, c6: uint64, c7: uint64, c8: uint64,
    c9: uint64, c10: uint64, c11: uint64, c12: uint64, c13: uint64, c14: uint64, c15: uint64, c16: uint64,
    c17: uint64, c18: uint64)

  lemma ProdBound(x: int, y: int, m: int)
    requires 0 <= x <= m && 0 <= y <= m
    ensures 0 <= x * y <= m * m
  {
    assert x * (m - y) >= 0;
    assert (m - x) * m >= 0;
  }

  /** A 64-bit product of two 32-bit words; small enough to add ten of them when both are below 2^29 + 2^22. */
  function Prod(x: uint32, y: uint32): (r: uint64)
    ensures r as int == x as int * y as int
    ensures x <= 0x2040_0000 && y <= 0x2040_0000 ==> r <= 0x410_1000_0000_0000
  {
    ProdBound(x as int, y as int, 0xFFFF_FFFF);
    if x <= 0x2040_0000 && y <= 0x2040_0000 then
      ProdBound(x as int, y as int, 0x2040_0000);
      x as uint64 * y as uint64
    else
      x as uint64 * y as uint64
  }

  /** The sums of products of equal weight, one per power of 2^26. */
  function MulColumns(a: Limbs, b: Limbs): (c: Columns)
    requires Magnitude(a, 8) && Magnitude(b, 8)
  {
    Columns(
      Prod(a.w0, b.w0),
      Prod(a.w0, b.w1) + Prod(a.w1, b.w0),
      Prod(a.w0, b.w2) + Prod(a.w1, b.w1) + Prod(a.w2, b.w0),
      Prod(a.w0, b.w3) + Prod(a.w1, b.w2) + Prod(a.w2, b.w1) + Prod(a.w3, b.w0),
      Prod(a.w0, b.w4) + Prod(a.w1, b.w3) + Prod(a.w2, b.w2) + Prod(a.w3, b.w1) + Prod(a.w4, b.w0),
      Prod(a.w0, b.w5) + Prod(a.w1, b.w4) + Prod(a.w2, b.w3) + Prod(a.w3, b.w2) + Prod(a.w4, b.w1)
        + Prod(a.w5, b.w0),
      Prod(a.w0, b.w6) + Prod(a.w1, b.w5) + Prod(a.w2, b.w4) + Prod(a.w3, b.w3) + Prod(a.w4, b.w2)
        + Prod(a.w5, b.w1) + Prod(a.w6, b.w0),
      Prod(a.w0, b.w7) + Prod(a.w1, b.w6) + Prod(a.w2, b.w5) + Prod(a.w3, b.w4) + Prod(a.w4, b.w3)
        + Prod(a.w5, b.w2) + Prod(a.w6, b.w1) + Prod(a.w7, b.w0),
      Prod(a.w0, b.w8) + Prod(a.w1, b.w7) + Prod(a.w2, b.w6) + Prod(a.w3, b.w5) + Prod(a.w4, b.w4)
        + Prod(a.w5, b.w3) + Prod(a.w6, b.w2) + Prod(a.w7, b.w1) + Prod(a.w8, b.w0),
      Prod(a.w0, b.w9) + Prod(a.w1, b.w8) + Prod(a.w2, b.w7) + Prod(a.w3, b.w6) + Prod(a.w4, b.w5)
        + Prod(a.w5, b.w4) + Prod(a.w6, b.w3) + Prod(a.w7, b.w2) + Prod(a.w8, b.w1) + Prod(a.w9, b.w0),
      Prod(a.w1, b.w9) + Prod(a.w2, b.w8) + Prod(a.w3, b.w7) + Prod(a.w4, b.w6) + Prod(a.w5, b.w5)
        + Prod(a.w6, b.w4) + Prod(a.w7, b.w3) + Prod(a.w8, b.w2) + Prod(a.w9, b.w1),
      Prod(a.w2, b.w9) + Prod(a.w3, b.w8) + Prod(a.w4, b.w7) + Prod(a.w5, b.w6) + Prod(a.w6, b.w5)
        + Prod(a.w7, b.w4) + Prod(a.w8, b.w3) + Prod(a.w9, b.w2),
      Prod(a.w3, b.w9) + Prod(a.w4, b.w8) + Prod(a.w5, b.w7) + Prod(a.w6, b.w6) + Prod(a.w7, b.w5)
        + Prod(a.w8, b.w4) + Prod(a.w9, b.w3),
      Prod(a.w4, b.w9) + Prod(a.w5, b.w8) + Prod(a.w6, b.w7) + Prod(a.w7, b.w6) + Prod(a.w8, b.w5)
        + Prod(a.w9, b.w4),
      Prod(a.w5, b.w9) + Prod(a.w6, b.w8) + Prod(a.w7, b.w7) + Prod(a.w8, b.w6) + Prod(a.w9, b.w5),
      Prod(a.w6, b.w9) + Prod(a.w7, b.w8) + Prod(a.w8, b.w7) + Prod(a.w9, b.w6),
      Prod(a.w7, b.w9) + Prod(a.w8, b.w8) + Prod(a.w9, b.w7),
      Prod(a.w8, b.w9) + Prod(a.w9, b.w8),
      Prod(a.w9, b.w9))
  }

  function SquareColumns(a: Limbs): (c: Columns)
    requires Magnitude(a, 8)
  {
    Columns(
      Prod(a.w0, a.w0),
      2 * Prod(a.w0, a.w1),
      2 * Prod(a.w0, a.w2) + Prod(a.w1, a.w1),
      2 * Prod(a.w0, a.w3) + 2 * Prod(a.w1, a.w2),
      2 * Prod(a.w0, a.w4) + 2 * Prod(a.w1, a.w3) + Prod(a.w2, a.w2),
      2 * Prod(a.w0, a.w5) + 2 * Prod(a.w1, a.w4) + 2 * Prod(a.w2, a.w3),
      2 * Prod(a.w0, a.w6) + 2 * Prod(a.w1, a.w5) + 2 * Prod(a.w2, a.w4) + Prod(a.w3, a.w3),
      2 * Prod(a.w0, a.w7) + 2 * Prod(a.w1, a.w6) + 2 * Prod(a.w2, a.w5) + 2 * Prod(a.w3, a.w4),
      2 * Prod(a.w0, a.w8) + 2 * Prod(a.w1, a.w7) + 2 * Prod(a.w2, a.w6) + 2 * Prod(a.w3, a.w5)
        + Prod(a.w4, a.w4),
      2 * Prod(a.w0, a.w9) + 2 * Prod(a.w1, a.w8) + 2 * Prod(a.w2, a.w7) + 2 * Prod(a.w3, a.w6)
        + 2 * Prod(a.w4, a.w5),
      2 * Prod(a.w1, a.w9) + 2 * Prod(a.w2, a.w8) + 2 * Prod(a.w3, a.w7) + 2 * Prod(a.w4, a.w6)
        + Prod(a.w5, a.w5),
      2 * Prod(a.w2, a.w9) + 2 * Prod(a.w3, a.w8) + 2 * Prod(a.w4, a.w7) + 2 * Prod(a.w5, a.w6),
      2 * Prod(a.w3, a.w9) + 2 * Prod(a.w4, a.w8) + 2 * Prod(a.w5, a.w7) + Prod(a.w6, a.w6),
      2 * Prod(a.w4, a.w9) + 2 * Prod(a.w5, a.w8) + 2 * Prod(a.w6, a.w7),
      2 * Prod(a.w5, a.w9) + 2 * Prod(a.w6, a.w8) + Prod(a.w7, a.w7),
      2 * Prod(a.w6, a.w9) + 2 * Prod(a.w7, a.w8),
      2 * Prod(a.w7, a.w9) + Prod(a.w8, a.w8),
      2 * Prod(a.w8, a.w9),
      Prod(a.w9, a.w9))
  }

  lemma SquareColumnsAgree(a: Limbs)
    requires Magnitude(a, 8)
    ensures SquareColumns(a) == MulColumns(a, a)
  {
  }

  // ----- the columns add up to the product of the two numbers

  datatype Wide = Wide(
    c0: int, c1: int, c2: int, c3: int, c4: int, c5: int, c6: int, c7: int, c8: int, c9: int, c10: int,
    c11: int, c12: int, c13: int, c14: int, c15: int, c16: int, c17: int, c18: int)

  function WideOf(c: Columns): Wide {
    Wide(c.c0 as int, c.c1 as int, c.c2 as int, c.c3 as int, c.c4 as int, c.c5 as int, c.c6 as int, c.c7 as int,
         c.c8 as int, c.c9 as int, c.c10 as int, c.c11 as int, c.c12 as int, c.c13 as int, c.c14 as int,
         c.c15 as int, c.c16 as int, c.c17 as int, c.c18 as int)
  }

  function WideValue(c: Wide): int {
    Horner(c.c0, c.c1, c.c2, c.c3, c.c4, c.c5, c.c6, c.c7, c.c8,
           c.c9 + 0x400_0000 * Horner(c.c10, c.c11, c.c12, c.c13, c.c14, c.c15, c.c16, c.c17, c.c18, 0))
  }

  /** One word of the first factor times every word of the second. */
  datatype Row = Row(q0: int, q1: int, q2: int, q3: int, q4: int, q5: int, q6: int, q7: int, q8: int, q9: int)

  function RowValue(r: Row): int {
    Horner(r.q0, r.q1, r.q2, r.q3, r.q4, r.q5, r.q6, r.q7, r.q8, r.q9)
  }

  function ScaledRow(x: int, l: Limbs): Row {
    Row(x * l.w0 as int, x * l.w1 as int, x * l.w2 as int, x * l.w3 as int, x * l.w4 as int, x * l.w5 as int,
        x * l.w6 as int, x * l.w7 as int, x * l.w8 as int, x * l.w9 as int)
  }

  lemma ScaledRowValue(x: int, l: Limbs)
    ensures RowValue(ScaledRow(x, l)) == x * Value(l)
  {
    HornerScale(x, l.w0 as int, l.w1 as int, l.w2 as int, l.w3 as int, l.w4 as int, l.w5 as int, l.w6 as int,
                   l.w7 as int, l.w8 as int, l.w9 as int);
  }

  lemma HornerScale(x: int, c0: int, c1: int, c2: int, c3: int, c4: int,
                    c5: int, c6: int, c7: int, c8: int, c9: int)
    ensures x * Horner(c0, c1, c2, c3, c4, c5, c6, c7, c8, c9)
         == Horner(x * c0, x * c1, x * c2, x * c3, x * c4, x * c5, x * c6, x * c7, x * c8, x * c9)
  {
  }

  /** Shifts the columns up by one word and adds a row. */
  function Push(r: Row, c: Wide): Wide {
    Wide(r.q0, r.q1 + c.c0, r.q2 + c.c1, r.q3 + c.c2, r.q4 + c.c3, r.q5 + c.c4, r.q6 + c.c5, r.q7 + c.c6,
         r.q8 + c.c7, r.q9 + c.c8, c.c9, c.c10, c.c11, c.c12, c.c13, c.c14, c.c15, c.c16, c.c17)
  }

  lemma PushValue(r: Row, c: Wide)
    requires c.c18 == 0
    ensures WideValue(Push(r, c)) == RowValue(r) + 0x400_0000 * WideValue(c)
  {
  }

  const ZERO_WIDE := Wide(0, 0, 0, 0, 0, 0, 0, 0, 0, 0, 0, 0, 0, 0, 0, 0, 0, 0, 0)

  lemma WideZero()
    ensures WideValue(ZERO_WIDE) == 0
  {
  }

  lemma RowPushed(x: int, b: Limbs, c: Wide)
    requires c.c18 == 0
    ensures WideValue(Push(ScaledRow(x, b), c)) == Value(b) * x + 0x400_0000 * WideValue(c)
  {
    hide Push, ScaledRow, WideValue, Value, RowValue;
    PushValue(ScaledRow(x, b), c);
    ScaledRowValue(x, b);
    assert x * Value(b) == Value(b) * x;
  }

  /** The five upper words of the first factor. */
  function UpperRows(a: Limbs, b: Limbs): Wide {
    Push(ScaledRow(a.w5 as int, b), Push(ScaledRow(a.w6 as int, b), Push(ScaledRow(a.w7 as int, b),
    Push(ScaledRow(a.w8 as int, b), Push(ScaledRow(a.w9 as int, b), ZERO_WIDE)))))
  }

  function LowerRows(a: Limbs, b: Limbs, c: Wide): Wide {
    Push(ScaledRow(a.w0 as int, b), Push(ScaledRow(a.w1 as int, b), Push(ScaledRow(a.w2 as int, b),
    Push(ScaledRow(a.w3 as int, b), Push(ScaledRow(a.w4 as int, b), c)))))
  }

  /** Schoolbook multiplication, row by row. */
  function Schoolbook(a: Limbs, b: Limbs): Wide {
    LowerRows(a, b, UpperRows(a, b))
  }

  lemma UpperRowsValue(a: Limbs, b: Limbs)
    ensures var r, v := UpperRows(a, b), Value(b);
            && r.c14 == 0 && r.c15 == 0 && r.c16 == 0 && r.c17 == 0 && r.c18 == 0
            && WideValue(r) == v * a.w5 as int + 0x400_0000 * (v * a.w6 as int + 0x400_0000 * (v * a.w7 as int
                               + 0x400_0000 * (v * a.w8 as int + 0x400_0000 * (v * a.w9 as int))))
  {
    hide ScaledRow, WideValue, Value;
    WideZero();
    var s9 := Push(ScaledRow(a.w9 as int, b), ZERO_WIDE);
    RowPushed(a.w9 as int, b, ZERO_WIDE);
    var s8 := Push(ScaledRow(a.w8 as int, b), s9);
    RowPushed(a.w8 as int, b, s9);
    var s7 := Push(ScaledRow(a.w7 as int, b), s8);
    RowPushed(a.w7 as int, b, s8);
    var s6 := Push(ScaledRow(a.w6 as int, b), s7);
    RowPushed(a.w6 as int, b, s7);
    var s5 := Push(ScaledRow(a.w5 as int, b), s6);
    RowPushed(a.w5 as int, b, s6);
  }

  lemma LowerRowsValue(a: Limbs, b: Limbs, c: Wide)
    requires c.c14 == 0 && c.c15 == 0 && c.c16 == 0 && c.c17 == 0 && c.c18 == 0
    ensures var v := Value(b);
            WideValue(LowerRows(a, b, c)) == v * a.w0 as int + 0x400_0000 * (v * a.w1 as int + 0x400_0000 * (
            v * a.w2 as int + 0x400_0000 * (v * a.w3 as int + 0x400_0000 * (v * a.w4 as int + 0x400_0000 * WideValue(c)))))
  {
    hide ScaledRow, WideValue, Value;
    var s4 := Push(ScaledRow(a.w4 as int, b), c);
    RowPushed(a.w4 as int, b, c);
    var s3 := Push(ScaledRow(a.w3 as int, b), s4);
    RowPushed(a.w3 as int, b, s4);
    var s2 := Push(ScaledRow(a.w2 as int, b), s3);
    RowPushed(a.w2 as int, b, s3);
    var s1 := Push(ScaledRow(a.w1 as int, b), s2);
    RowPushed(a.w1 as int, b, s2);
    var s0 := Push(ScaledRow(a.w0 as int, b), s1);
    RowPushed(a.w0 as int, b, s1);
  }

  lemma ValueIsHorner(a: Limbs)
    ensures Value(a) == Horner(a.w0 as int, a.w1 as int, a.w2 as int, a.w3 as int, a.w4 as int, a.w5 as int,
                               a.w6 as int, a.w7 as int, a.w8 as int, a.w9 as int)
  {
  }

  lemma SchoolbookValue(a: Limbs, b: Limbs)
    ensures WideValue(Schoolbook(a, b)) == Value(a) * Value(b)
  {
    hide Push, ScaledRow, WideValue, Value, UpperRows, LowerRows;
    UpperRowsValue(a, b);
    LowerRowsValue(a, b, UpperRows(a, b));
    ValueIsHorner(a);
    HornerScale(Value(b), a.w0 as int, a.w1 as int, a.w2 as int, a.w3 as int, a.w4 as int, a.w5 as int, a.w6 as int,
                a.w7 as int, a.w8 as int, a.w9 as int);
  }

  lemma MulColumnsValue(a: Limbs, b: Limbs)
    requires Magnitude(a, 8) && Magnitude(b, 8)
    ensures WideValue(WideOf(MulColumns(a, b))) == Value(a) * Value(b)
  {
    assert WideOf(MulColumns(a, b)) == Schoolbook(a, b);
    SchoolbookValue(a, b);
  }

  // ----- carry propagation

  /** Nine digits and what is carried beyond them. */
  datatype Chain = Chain(t0: uint64, t1: uint64, t2: uint64, t3: uint64, t4: uint64, t5: uint64, t6: uint64,
                         t7: uint64, t8: uint64, carry: uint64)

  predicate IsChain(t: Chain) {
    t.t0 < 0x400_0000 && t.t1 < 0x400_0000 && t.t2 < 0x400_0000 && t.t3 < 0x400_0000 && t.t4 < 0x400_0000
    && t.t5 < 0x400_0000 && t.t6 < 0x400_0000 && t.t7 < 0x400_0000 && t.t8 < 0x400_0000
  }

  /** m & fieldBaseMask and m >> fieldBase of the incoming carry plus one column. */
  function Step(carry: uint64, column: uint64): (r: (uint64, uint64))
    requires carry <= 0x100_0000_0000 && column <= 0x28a0_a000_0000_0000
    ensures r.0 < 0x400_0000 && r.1 <= 0x100_0000_0000
    ensures r.0 as int + 0x400_0000 * r.1 as int == carry as int + column as int
  {
    var m := carry + column;
    (m % 0x400_0000, m / 0x400_0000)
  }

  function CarryChain(carry: uint64, c0: uint64, c1: uint64, c2: uint64, c3: uint64, c4: uint64, c5: uint64, c6: uint64,
                      c7: uint64, c8: uint64): (t: Chain)
    requires carry <= 0x100_0000_0000
    requires c0 <= 0x28a0_a000_0000_0000 && c1 <= 0x28a0_a000_0000_0000 && c2 <= 0x28a0_a000_0000_0000
    requires c3 <= 0x28a0_a000_0000_0000 && c4 <= 0x28a0_a000_0000_0000 && c5 <= 0x28a0_a000_0000_0000
    requires c6 <= 0x28a0_a000_0000_0000 && c7 <= 0x28a0_a000_0000_0000 && c8 <= 0x28a0_a000_0000_0000
    ensures IsChain(t) && t.carry <= 0x100_0000_0000
    ensures Horner(t.t0 as int, t.t1 as int, t.t2 as int, t.t3 as int, t.t4 as int, t.t5 as int, t.t6 as int,
                   t.t7 as int, t.t8 as int, t.carry as int)
         == carry as int + Horner(c0 as int, c1 as int, c2 as int, c3 as int, c4 as int, c5 as int, c6 as int,
                                  c7 as int, c8 as int, 0)
  {
    var (t0, m0) := Step(carry, c0);
    var (t1, m1) := Step(m0, c1);
    var (t2, m2) := Step(m1, c2);
    var (t3, m3) := Step(m2, c3);
    var (t4, m4) := Step(m3, c4);
    var (t5, m5) := Step(m4, c5);
    var (t6, m6) := Step(m5, c6);
    var (t7, m7) := Step(m6, c7);
    var (t8, m8) := Step(m7, c8);
    CarryTelescopes(carry as int, c0 as int, c1 as int, c2 as int, c3 as int, c4 as int, c5 as int, c6 as int, c7 as int,
                    c8 as int,
                    t0 as int, t1 as int, t2 as int, t3 as int, t4 as int, t5 as int, t6 as int, t7 as int,
                    t8 as int,
                    m0 as int, m1 as int, m2 as int, m3 as int, m4 as int, m5 as int, m6 as int, m7 as int,
                    m8 as int);
    Chain(t0, t1, t2, t3, t4, t5, t6, t7, t8, m8)
  }

  lemma CarryTelescopes(m: int, c0: int, c1: int, c2: int, c3: int, c4: int, c5: int, c6: int, c7: int, c8: int,
                        t0: int, t1: int, t2: int, t3: int, t4: int, t5: int, t6: int, t7: int, t8: int,
                        q0: int, q1: int, q2: int, q3: int, q4: int, q5: int, q6: int, q7: int, q8: int)
    requires t0 + 0x400_0000 * q0 == m + c0
    requires t1 + 0x400_0000 * q1 == q0 + c1
    requires t2 + 0x400_0000 * q2 == q1 + c2
    requires t3 + 0x400_0000 * q3 == q2 + c3
    requires t4 + 0x400_0000 * q4 == q3 + c4
    requires t5 + 0x400_0000 * q5 == q4 + c5
    requires t6 + 0x400_0000 * q6 == q5 + c6
    requires t7 + 0x400_0000 * q7 == q6 + c7
    requires t8 + 0x400_0000 * q8 == q7 + c8
    ensures Horner(t0, t1, t2, t3, t4, t5, t6, t7, t8, q8) == m + Horner(c0, c1, c2, c3, c4, c5, c6, c7, c8, 0)
  {
  }

  // ----- reduction

  /** Ten digits of a number below 2^260. */
  datatype Ten = Ten(t0: uint64, t1: uint64, t2: uint64, t3: uint64, t4: uint64, t5: uint64, t6: uint64,
                     t7: uint64, t8: uint64, t9: uint64)

  function TenValue(t: Ten): int {
    Horner(t.t0 as int, t.t1 as int, t.t2 as int, t.t3 as int, t.t4 as int, t.t5 as int, t.t6 as int,
           t.t7 as int, t.t8 as int, t.t9 as int)
  }

  predicate IsTen(t: Ten, top: uint64) {
    && t.t0 < 0x400_0000 && t.t1 < 0x400_0000 && t.t2 < 0x400_0000 && t.t3 < 0x400_0000 && t.t4 < 0x400_0000
    && t.t5 < 0x400_0000 && t.t6 < 0x400_0000 && t.t7 < 0x400_0000 && t.t8 < 0x400_0000 && t.t9 < top
  }

  /** Columns of two factors of magnitude 8: no sum of ten products, and a top product below 2^50. */
  predicate Bounded(c: Columns) {
    c.c0 <= 0x28a0_a000_0000_0000 && c.c1 <= 0x28a0_a000_0000_0000 && c.c2 <= 0x28a0_a000_0000_0000 &&
    c.c3 <= 0x28a0_a000_0000_0000 && c.c4 <= 0x28a0_a000_0000_0000 && c.c5 <= 0x28a0_a000_0000_0000 &&
    c.c6 <= 0x28a0_a000_0000_0000 && c.c7 <= 0x28a0_a000_0000_0000 && c.c8 <= 0x28a0_a000_0000_0000 &&
    c.c9 <= 0x28a0_a000_0000_0000 && c.c10 <= 0x28a0_a000_0000_0000 && c.c11 <= 0x28a0_a000_0000_0000 &&
    c.c12 <= 0x28a0_a000_0000_0000 && c.c13 <= 0x28a0_a000_0000_0000 && c.c14 <= 0x28a0_a000_0000_0000 &&
    c.c15 <= 0x28a0_a000_0000_0000 && c.c16 <= 0x28a0_a000_0000_0000 && c.c17 <= 0x28a0_a000_0000_0000 &&
    c.c18 <= 0x4_0000_0000_0000
  }

  lemma MulColumnsBounded(a: Limbs, b: Limbs)
    requires Magnitude(a, 8) && Magnitude(b, 8)
    ensures Bounded(MulColumns(a, b))
  {
    ProdBound(a.w9 as int, b.w9 as int, 8 * 0x3f_ffff);
  }

  /** The twenty base 2^26 digits of the product, as a low and a high half. */
  function Spread(c: Columns): (r: (Ten, Ten))
    requires Bounded(c)
    ensures IsTen(r.0, 0x400_0000) && IsTen(r.1, 0x100_0801)
    ensures TenValue(r.0) + 0x1_00000000_00000000_00000000_00000000_00000000_00000000_00000000_00000000_0 * TenValue(r.1)
         == WideValue(WideOf(c))
  {
    var lo := CarryChain(0, c.c0, c.c1, c.c2, c.c3, c.c4, c.c5, c.c6, c.c7, c.c8);
    var (t9, m) := Step(lo.carry, c.c9);
    var hi := CarryChain(m, c.c10, c.c11, c.c12, c.c13, c.c14, c.c15, c.c16, c.c17, c.c18);
    TopDigit(m, c);
    HornerShift(lo.t0 as int, lo.t1 as int, lo.t2 as int, lo.t3 as int, lo.t4 as int,
                lo.t5 as int, lo.t6 as int, lo.t7 as int, lo.t8 as int, t9 as int, lo.carry as int);
    (Ten(lo.t0, lo.t1, lo.t2, lo.t3, lo.t4, lo.t5, lo.t6, lo.t7, lo.t8, t9),
     Ten(hi.t0, hi.t1, hi.t2, hi.t3, hi.t4, hi.t5, hi.t6, hi.t7, hi.t8, hi.carry))
  }

  lemma TopDigit(m: uint64, c: Columns)
    requires Bounded(c) && m <= 0x100_0000_0000
    ensures CarryChain(m, c.c10, c.c11, c.c12, c.c13, c.c14, c.c15, c.c16, c.c17, c.c18).carry <= 0x100_0800
  {
  }

  /** Folds the high half in with 2^260 == 68719492368 == 1024 * 2^26 + 15632 (mod P) and splits off what exceeds 2^256. */
  function Fold(lo: Ten, hi: Ten): (r: (Ten, uint64))
    requires IsTen(lo, 0x400_0000) && IsTen(hi, 0x100_0801)
    ensures IsTen(r.0, 0x40_0000) && r.1 <= 0x44_0000_0000
    ensures TenValue(r.0) + 0x1_00000000_00000000_00000000_00000000_00000000_00000000_00000000_00000000 * r.1 as int
         == TenValue(lo) + 68719492368 * TenValue(hi)
  {
    var t := CarryChain(0, lo.t0 + hi.t0 * 15632, lo.t1 + hi.t0 * 1024 + hi.t1 * 15632,
                        lo.t2 + hi.t1 * 1024 + hi.t2 * 15632, lo.t3 + hi.t2 * 1024 + hi.t3 * 15632,
                        lo.t4 + hi.t3 * 1024 + hi.t4 * 15632, lo.t5 + hi.t4 * 1024 + hi.t5 * 15632,
                        lo.t6 + hi.t5 * 1024 + hi.t6 * 15632, lo.t7 + hi.t6 * 1024 + hi.t7 * 15632,
                        lo.t8 + hi.t7 * 1024 + hi.t8 * 15632);
    var m := t.carry + lo.t9 + hi.t8 * 1024 + hi.t9 * 68719492368;
    FoldColumns(lo, hi);
    HornerShift(t.t0 as int, t.t1 as int, t.t2 as int, t.t3 as int, t.t4 as int,
                t.t5 as int, t.t6 as int, t.t7 as int, t.t8 as int, (m % 0x40_0000) as int, t.carry as int);
    (Ten(t.t0, t.t1, t.t2, t.t3, t.t4, t.t5, t.t6, t.t7, t.t8, m % 0x40_0000), m / 0x40_0000)
  }

  lemma FoldColumns(lo: Ten, hi: Ten)
    ensures Horner(lo.t0 as int + hi.t0 as int * 15632,
                   lo.t1 as int + hi.t0 as int * 1024 + hi.t1 as int * 15632,
                   lo.t2 as int + hi.t1 as int * 1024 + hi.t2 as int * 15632,
                   lo.t3 as int + hi.t2 as int * 1024 + hi.t3 as int * 15632,
                   lo.t4 as int + hi.t3 as int * 1024 + hi.t4 as int * 15632,
                   lo.t5 as int + hi.t4 as int * 1024 + hi.t5 as int * 15632,
                   lo.t6 as int + hi.t5 as int * 1024 + hi.t6 as int * 15632,
                   lo.t7 as int + hi.t6 as int * 1024 + hi.t7 as int * 15632,
                   lo.t8 as int + hi.t7 as int * 1024 + hi.t8 as int * 15632,
                   lo.t9 as int + hi.t8 as int * 1024 + hi.t9 as int * 68719492368)
         == TenValue(lo) + 68719492368 * TenValue(hi)
  {
  }

  /** Replacing the top digit. */
  lemma HornerShift(c0: int, c1: int, c2: int, c3: int, c4: int, c5: int, c6: int, c7: int, c8: int, c9: int, d9: int)
    ensures Horner(c0, c1, c2, c3, c4, c5, c6, c7, c8, c9)
         == Horner(c0, c1, c2, c3, c4, c5, c6, c7, c8, d9)
            + 0x400_00000000_00000000_00000000_00000000_00000000_00000000_00000000 * (c9 - d9)
  {
  }

  /** Folds the excess m over 2^256 into the three lowest words; the carry into word 2 is left there. */
  function Finish(t: Ten, m: uint64): (r: Limbs)
    requires IsTen(t, 0x40_0000) && m <= 0x44_0000_0000
    ensures Magnitude(r, 1)
    ensures Value(r) == TenValue(t) + 4294968273 * m as int
  {
    var d := t.t0 + m * 977;
    var n0 := d % 0x400_0000;
    var d := d / 0x400_0000 + t.t1 + m * 64;
    Limbs(n0 as uint32, (d % 0x400_0000) as uint32, (d / 0x400_0000 + t.t2) as uint32, t.t3 as uint32, t.t4 as uint32,
          t.t5 as uint32, t.t6 as uint32, t.t7 as uint32, t.t8 as uint32, t.t9 as uint32)
  }

  function Reduce(c: Columns): (r: Limbs)
    requires Bounded(c)
  {
    var (lo, hi) := Spread(c);
    var (t, m) := Fold(lo, hi);
    Finish(t, m)
  }

  lemma ReduceCorrect(c: Columns)
    requires Bounded(c)
    ensures Magnitude(Reduce(c), 1)
    ensures (WideValue(WideOf(c)) - Value(Reduce(c))) % P == 0
  {
    hide Spread, Fold, Finish, WideValue, TenValue, Value;
    var (lo, hi) := Spread(c);
    var (t, m) := Fold(lo, hi);
    ReduceArithmetic(WideValue(WideOf(c)), TenValue(lo), TenValue(hi), TenValue(t), m as int, Value(Reduce(c)));
  }

  lemma ReduceArithmetic(wide: int, lo: int, hi: int, t: int, m: int, r: int)
    requires wide == lo + 0x1_00000000_00000000_00000000_00000000_00000000_00000000_00000000_00000000_0 * hi
    requires t + 0x1_00000000_00000000_00000000_00000000_00000000_00000000_00000000_00000000 * m == lo + 68719492368 * hi
    requires r == t + 4294968273 * m
    ensures (wide - r) % P == 0
  {
    assert wide - r == P * (m + 16 * hi);
  }
}
