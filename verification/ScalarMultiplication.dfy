/** Scalar multiplication: the interleaved NAF/GLV loop and the byte-window table. */
module ScalarMultiplication {
  import opened Words
  import opened FieldWords
  import opened Modular
  import opened FieldOps
  import opened FieldNormalize
  import opened FieldBytes
  import opened FieldPow
  import opened Curve
  import opened Jacobian
  import opened CurveGroup
  import opened ScalarSplit
  import opened NonAdjacentForm

  const BETA: int := 0x7AE96A2B_657C0710_6E64479E_AC3434E9_9CF04975_12F58995_C1396C28_719501EE

  /** The endomorphism (x, y) to (beta * x, y). */
  ghost function Phi(p: Point): Point {
    if p.Infinity? then p else Affine(Times(BETA, p.x) % P, p.y)
  }

  /** Hypothesis: every point has an order dividing N, and Phi multiplies by LAMBDA. */
  ghost predicate OrderFacts() {
    forall p: Point :: OnCurve(p) ==> ZMult(N, p) == Infinity && Phi(p) == ZMult(LAMBDA, p)
  }

  ghost predicate Hypotheses() {
    Fermat() && GroupLaw() && OrderFacts()
  }

  lemma Facts(p: Point)
    requires Hypotheses() && OnCurve(p)
    ensures ZMult(N, p) == Infinity && Phi(p) == ZMult(LAMBDA, p)
  {
    hide Fermat, GroupLaw, OnCurve, ZMult, Phi;
  }

  lemma {:induction false} MultiplesOfN(j: int, p: Point)
    requires Hypotheses() && OnCurve(p)
    ensures ZMult(N * j, p) == Infinity
    decreases if j < 0 then -j else j
  {
    hide Fermat, GroupLaw, OrderFacts, OnCurve, ZMult, Sum;
    ZMultZero(p);
    Facts(p);
    SumInfinity(Infinity);
    if j > 0 {
      MultiplesOfN(j - 1, p);
      ZMultAdd(N * (j - 1), N, p);
    } else if j < 0 {
      MultiplesOfN(j + 1, p);
      ZMultAdd(N * j, N, p);
      SumInfinity(ZMult(N * j, p));
    }
  }

  /** Scalars that agree modulo N give the same multiple. */
  lemma ScalarsModN(a: int, b: int, p: Point)
    requires Hypotheses() && OnCurve(p) && (a - b) % N == 0
    ensures ZMult(a, p) == ZMult(b, p)
  {
    hide Fermat, GroupLaw, OrderFacts, OnCurve, ZMult, Sum;
    var j := (a - b) / N;
    MultiplesOfN(j, p);
    ZMultAdd(b, N * j, p);
    SumInfinity(ZMult(b, p));
  }

  lemma {:induction false} EvenMultiples(h: nat, p: Point)
    requires Hypotheses() && OnCurve(p) && Sum(p, p) == Infinity
    ensures ZMult(2 * h, p) == Infinity
  {
    ZMultZero(p);
    ZMultOne(p);
    SumInfinity(Infinity);
    hide Fermat, GroupLaw, OrderFacts, OnCurve, ZMult, Sum, Neg;
    ZMultDouble(1, p);
    if h > 0 {
      EvenMultiples(h - 1, p);
      ZMultAdd(2 * (h - 1), 2, p);
    }
  }

  /** A group of odd order has no point of order two. */
  lemma CurvePointsAreGood(p: Point)
    requires Hypotheses() && OnCurve(p)
    ensures Good(p)
  {
    hide Fermat, GroupLaw, OrderFacts, ZMult, Sum, Neg, Cong, Times;
    if p.Affine? && p.y == 0 {
      TwiceFlat(p);
      Facts(p);
      EvenMultiples((N - 1) / 2, p);
      assert N == 2 * ((N - 1) / 2) + 1;
      ZMultAdd(2 * ((N - 1) / 2), 1, p);
      ZMultOne(p);
      SumInfinity(p);
    }
  }

  lemma TwiceFlat(p: Point)
    requires p.Affine? && p.y == 0
    ensures Sum(p, p) == Infinity
  {
  }

  lemma ZMultNeg(k: int, p: Point)
    requires Hypotheses() && OnCurve(p)
    ensures Neg(ZMult(k, p)) == ZMult(-k, p)
  {
    hide Fermat, GroupLaw, OrderFacts, OnCurve, ZMult, Sum, Neg;
    var x := ZMult(k, p);
    ZMultOnCurve(k, p);
    ZMultOnCurve(-k, p);
    NegOnCurve(x);
    ZMultAdd(-k, k, p);
    ZMultZero(p);
    Closed(Neg(x), x);
    CancelPoint(Neg(x), ZMult(-k, p), x);
  }

  // ----- conversion from and to affine coordinates

  /** Left-padding to n bytes. */
  function PadLeft(b: seq<byte>, n: nat): (r: seq<byte>)
    requires |b| <= n
    ensures |r| == n
  {
    seq(n - |b|, _ => 0) + b
  }

  lemma {:induction false} ZerosValue(n: nat)
    ensures BigEndian(seq(n, _ => 0 as byte)) == 0
  {
    var z := seq(n, _ => 0 as byte);
    if n > 0 {
      ZerosValue(n - 1);
      assert z[..n - 1] == seq(n - 1, _ => 0 as byte);
    }
  }

  lemma PadLeftValue(b: seq<byte>, n: nat)
    requires |b| <= n
    ensures BigEndian(PadLeft(b, n)) == BigEndian(b)
  {
    hide BigEndian, Pow256;
    var zeros: seq<byte> := seq(n - |b|, _ => 0);
    ZerosValue(n - |b|);
    BigEndianConcat(zeros, b);
    assert PadLeft(b, n) == zeros + b;
    assert BigEndian(zeros) == 0;
  }

  /** SetByteSlice on the bytes of a number below 2^256. */
  method FromNumber(x: nat) returns (f: FieldVal)
    requires x < Pow256(32)
    ensures fresh(f) && Rep(f.n, x, 1)
  {
    hide BigEndian, ToBytes, Pow256, SetBytesWords, PadLeft, Value;
    f := new FieldVal();
    ToBytesLength(x, 32);
    ToBytesValue(x);
    f.n := SetBytesWords(PadLeft(ToBytes(x), 32));
    PadLeftValue(ToBytes(x), 32);
    SetBytesValue(PadLeft(ToBytes(x), 32));
    SetBytesRange(PadLeft(ToBytes(x), 32));
    InRangeRep(f.n);
  }

  lemma InRangeRep(l: Limbs)
    requires InRange(l)
    ensures Rep(l, Value(l), 1)
  {
    hide Value;
  }

  /** The affine coordinates the library returns: (0, 0) stands for the point at infinity. */
  ghost predicate Coordinates(x: int, y: int, p: Point) {
    if p.Infinity? then x == 0 && y == 0 else x == p.x && y == p.y
  }

  lemma {:induction false} PowZero(e: nat)
    requires e > 0
    ensures Pow(0, e) == 0
  {
    IsTimes(0, Pow(0, e - 1));
  }

  /** a * c^2 * (1/c)^2 is a, and b * c^3 * (1/c)^3 is b. */
  lemma Unscale(a: int, b: int, c: int, i: int)
    requires Cong(c * i, 1)
    ensures Cong(Times(Times(a, Sq(c)), Sq(i)), a)
    ensures Cong(Times(Times(b, Cu(c)), Times(Sq(i), i)), b)
  {
    hide Cong, Times, Sq, Cu;
    IsSq(c);
    IsSq(i);
    IsCu(c);
    IsTimes(a, c * c);
    IsTimes(a * (c * c), i * i);
    IsTimes(b, c * c * c);
    IsTimes(i * i, i);
    IsTimes(b * (c * c * c), i * i * i);
    var u := c * i;
    CongMul(u, 1, u, 1);
    CongMul(u * u, 1, u, 1);
    CongRefl(a);
    CongRefl(b);
    CongMul(a, a, u * u, 1);
    CongMul(b, b, u * u * u, 1);
    UnscaleProducts(a, b, c, i);
  }

  lemma UnscaleProducts(a: int, b: int, c: int, i: int)
    ensures a * (c * c) * (i * i) == a * ((c * i) * (c * i))
    ensures b * (c * c * c) * (i * i * i) == b * ((c * i) * (c * i) * (c * i))
  {
    assert (c * c) * (i * i) == (c * i) * (c * i);
    assert (c * c * c) * (i * i * i) == (c * i) * (c * i) * (c * i);
  }

  method JacobianToAffine(x: FieldVal, y: FieldVal, z: FieldVal, ghost p: Point) returns (rx: nat, ry: nat)
    requires Fermat() && OnCurve(p) && Denotes(x.n, y.n, z.n, p)
    requires x != y && x != z && y != z
    modifies x, y, z
    ensures Coordinates(rx, ry, p)
  {
    hide Denotes, Rep, Fermat, OnCurve, Times, Sq, Cu, Pow, Value, Cong, BigEndian, Magnitude, Canonical;
    ghost var xv, yv, c := Value(x.n), Value(y.n), Value(z.n);
    ghost var i := Pow(c, P - 2);
    DenotesSelf(x.n, y.n, z.n, p);
    var zInv := InverseWords(z.n, c, 1);                         // zInv = Z^-1
    var tempZ := Square(zInv, i, 1);                             // tempZ = Z^-2
    x.n := Mul(x.n, tempZ, xv, Sq(i), 1, 1);                     // X = X/Z^2 (mag: 1)
    tempZ := Mul(tempZ, zInv, Sq(i), i, 1, 1);
    y.n := Mul(y.n, tempZ, yv, Times(Sq(i), i), 2, 1);           // Y = Y/Z^3 (mag: 1)
    z.n := ONE;
    x.n := Normalize(x.n, Times(xv, Sq(i)), 1);
    y.n := Normalize(y.n, Times(yv, Times(Sq(i), i)), 1);
    AffineValues(old(x.n), old(y.n), old(z.n), p, i);
    CanonicalValue(x.n, Times(xv, Sq(i)), if p.Infinity? then 0 else p.x);
    CanonicalValue(y.n, Times(yv, Times(Sq(i), i)), if p.Infinity? then 0 else p.y);
    rx := BigEndian(PutBytesWords(x.n));
    ry := BigEndian(PutBytesWords(y.n));
  }

  lemma DenotesSelf(x: Limbs, y: Limbs, z: Limbs, p: Point)
    requires Denotes(x, y, z, p)
    ensures Rep(x, Value(x), 1) && Rep(y, Value(y), 2) && Rep(z, Value(z), 1)
  {
    hide Times, Sq, Cu, Magnitude, Value;
  }

  lemma AffineValues(x: Limbs, y: Limbs, z: Limbs, p: Point, i: int)
    requires Fermat() && OnCurve(p) && Denotes(x, y, z, p) && i == Pow(Value(z), P - 2)
    ensures Cong(Times(Value(x), Sq(i)), if p.Infinity? then 0 else p.x)
    ensures Cong(Times(Value(y), Times(Sq(i), i)), if p.Infinity? then 0 else p.y)
    ensures p.Affine? ==> 0 <= p.x < P && 0 <= p.y < P
  {
    var c := Value(z);
    if p.Infinity? {
      assert c == 0;
      hide Fermat, OnCurve, Denotes, Times, Pow, Value, Cong;
      PowZero(P - 2);
      IsTimes(0, 0);
      IsTimes(Value(x), 0);
      IsTimes(Value(y), 0);
      CongRefl(0);
    } else {
      DenotesReps(x, y, z, p);
      InverseLaw(c);
      hide Fermat, Denotes, Times, Sq, Cu, Pow, Value, Cong;
      Unscale(p.x, p.y, c, i);
      RepParts(x, Times(p.x, Sq(c)), 1);
      RepParts(y, Times(p.y, Cu(c)), 2);
      CongRefl(Sq(i));
      CongRefl(Times(Sq(i), i));
      CongTimes(Value(x), Times(p.x, Sq(c)), Sq(i), Sq(i));
      CongTimes(Value(y), Times(p.y, Cu(c)), Times(Sq(i), i), Times(Sq(i), i));
      CongTrans(Times(Value(x), Sq(i)), Times(Times(p.x, Sq(c)), Sq(i)), p.x);
      CongTrans(Times(Value(y), Times(Sq(i), i)), Times(Times(p.y, Cu(c)), Times(Sq(i), i)), p.y);
    }
  }

  lemma CanonicalValue(l: Limbs, v: int, w: int)
    ensures Canonical(l) && Rep(l, v, 1) && Cong(v, w) && 0 <= w < P ==> BigEndian(PutBytesWords(l)) == w
  {
    hide BigEndian, PutBytesWords;
    if Canonical(l) && Rep(l, v, 1) && Cong(v, w) && 0 <= w < P {
      assert InRange(l) && 0 <= Value(l) < P by { ValueBound(l); }
      RepParts(l, v, 1);
      hide Canonical, Rep, Cong, Value;
      PutBytesValue(l);
      CongTrans(Value(l), v, w);
      CongRange(Value(l), w);
    }
  }

  // ----- one signed digit

  /** The cells that hold a point and its negation, as ScalarMult keeps them. */
  datatype Operand = Operand(x: FieldVal, y: FieldVal, yNeg: FieldVal, z: FieldVal)

  ghost predicate Separate(o: Operand) {
    o.x != o.y && o.x != o.yNeg && o.x != o.z && o.y != o.yNeg && o.y != o.z && o.yNeg != o.z
  }

  ghost function Cells(o: Operand): set<FieldVal> {
    {o.x, o.y, o.yNeg, o.z}
  }

  /** The operand holds e times p and its negation. */
  ghost predicate Holds(o: Operand, e: int, p: Point)
    reads Cells(o)
  {
    && Denotes(o.x.n, o.y.n, o.z.n, ZMult(e, p))
    && Denotes(o.x.n, o.yNeg.n, o.z.n, ZMult(-e, p))
  }

  function Digit(pos: bool, neg: bool): int {
    if pos then 1 else if neg then -1 else 0
  }

  lemma MultiplesAreGood(k: int, p: Point)
    requires Hypotheses() && OnCurve(p)
    ensures OnCurve(ZMult(k, p)) && Good(ZMult(k, p))
  {
    hide OnCurve, ZMult, OrderFacts, Fermat, GroupLaw, Good;
    ZMultOnCurve(k, p);
    CurvePointsAreGood(ZMult(k, p));
  }

  method AddMultiple(qx: FieldVal, qy: FieldVal, qz: FieldVal, px: FieldVal, py: FieldVal, pz: FieldVal,
                     ghost a: int, ghost e: int, ghost p: Point)
    requires Hypotheses() && OnCurve(p)
    requires Denotes(qx.n, qy.n, qz.n, ZMult(a, p)) && Denotes(px.n, py.n, pz.n, ZMult(e, p))
    requires qx != qy && qx != qz && qy != qz && px != py && px != pz && py != pz
    requires {qx, qy, qz} !! {px, py, pz}
    modifies qx, qy, qz, px, py, pz
    ensures Denotes(qx.n, qy.n, qz.n, ZMult(a + e, p))
    ensures Same(old(px.n), px.n) && Same(old(py.n), py.n) && Same(old(pz.n), pz.n)
  {
    hide Denotes, OnCurve, ZMult, OrderFacts, Fermat, GroupLaw, Good, Same, Sum;
    MultiplesAreGood(a, p);
    MultiplesAreGood(e, p);
    AddJacobian(qx, qy, qz, px, py, pz, qx, qy, qz, ZMult(a, p), ZMult(e, p));
    ZMultAdd(a, e, p);
  }

  method AddDigit(qx: FieldVal, qy: FieldVal, qz: FieldVal, o: Operand, pos: bool, neg: bool,
                  ghost a: int, ghost e: int, ghost p: Point)
    requires Hypotheses() && OnCurve(p)
    requires Denotes(qx.n, qy.n, qz.n, ZMult(a, p)) && Holds(o, e, p)
    requires qx != qy && qx != qz && qy != qz && Separate(o) && {qx, qy, qz} !! Cells(o)
    modifies qx, qy, qz, Cells(o)
    ensures Denotes(qx.n, qy.n, qz.n, ZMult(a + Digit(pos, neg) * e, p)) && Holds(o, e, p)
  {
    hide Denotes, OnCurve, ZMult, Hypotheses, Same, Sum;
    SameRefl(o.y.n);
    SameRefl(o.yNeg.n);
    if pos {
      AddMultiple(qx, qy, qz, o.x, o.y, o.z, a, e, p);
    } else if neg {
      AddMultiple(qx, qy, qz, o.x, o.yNeg, o.z, a, -e, p);
    } else {
      return;
    }
    DenotesSame(old(o.x.n), old(o.y.n), old(o.z.n), o.x.n, o.y.n, o.z.n, ZMult(e, p));
    DenotesSame(old(o.x.n), old(o.yNeg.n), old(o.z.n), o.x.n, o.yNeg.n, o.z.n, ZMult(-e, p));
  }

  method Double(qx: FieldVal, qy: FieldVal, qz: FieldVal, ghost a: int, ghost p: Point)
    requires Hypotheses() && OnCurve(p) && Denotes(qx.n, qy.n, qz.n, ZMult(a, p))
    requires qx != qy && qx != qz && qy != qz
    modifies qx, qy, qz
    ensures Denotes(qx.n, qy.n, qz.n, ZMult(2 * a, p))
  {
    hide Denotes, OnCurve, ZMult, OrderFacts, Fermat, GroupLaw, Good, Same, Sum;
    MultiplesAreGood(a, p);
    DoubleJacobian(qx, qy, qz, qx, qy, qz, ZMult(a, p));
    ZMultDouble(a, p);
  }

  // ----- eight digits

  /** No bit is set in both bytes. */
  ghost predicate Disjoint(p: nat, n: nat) {
    forall j: nat :: j < 8 ==> Bit(p, j) == 0 || Bit(n, j) == 0
  }

  /** The test of the high bit, and a shift left by one with the high bit dropped. */
  predicate Top(b: byte) { b / 128 == 1 }

  function Shl(b: byte): byte { b % 128 * 2 }

  lemma {:induction false} BitLow(h: nat, r: nat, k: nat, j: nat)
    requires j < k
    ensures Bit(h * Pow2(k) + r, j) == Bit(r, j)
  {
    var m := h * Pow2(k - 1);
    assert h * Pow2(k) == 2 * m by { assert Pow2(k) == 2 * Pow2(k - 1); }
    hide Pow2;
    assert (2 * m + r) % 2 == r % 2 && (2 * m + r) / 2 == m + r / 2;
    if j > 0 {
      BitLow(h, r / 2, k - 1, j - 1);
    }
  }

  lemma ShlBit(b: byte, j: nat)
    requires 0 < j < 8
    ensures Bit(Shl(b) as nat, j) == Bit(b as nat, j - 1)
  {
    var r := b as nat % 128;
    BitLow(b as nat / 128, r, 7, j - 1);
    assert Pow2(7) == 128;
    hide Pow2;
    assert Shl(b) as nat == 2 * r;
    assert 2 * r / 2 == r;
  }

  lemma TopBit(b: byte)
    ensures Top(b) <==> Bit(b as nat, 7) == 1
  {
    var x := b as nat;
    assert Bit(x, 7) == Bit(x / 2, 6) == Bit(x / 2 / 2, 5) == Bit(x / 2 / 2 / 2, 4);
    assert Bit(x / 2 / 2 / 2, 4) == Bit(x / 2 / 2 / 2 / 2, 3) == Bit(x / 2 / 2 / 2 / 2 / 2, 2);
    assert x / 2 / 2 / 2 / 2 / 2 / 2 / 2 == x / 128;
  }

  lemma DisjointStep(p: byte, n: byte)
    requires Disjoint(p as nat, n as nat)
    ensures !(Top(p) && Top(n)) && Disjoint(Shl(p) as nat, Shl(n) as nat)
  {
    hide Top, Bit;
    TopBit(p);
    TopBit(n);
    var p', n' := Shl(p) as nat, Shl(n) as nat;
    forall j: nat | j < 8
      ensures Bit(p', j) == 0 || Bit(n', j) == 0
    {
      if j > 0 {
        ShlBit(p, j);
        ShlBit(n, j);
      } else {
        ShlEven(p);
      }
    }
  }

  lemma ShlEven(b: byte)
    ensures Bit(Shl(b) as nat, 0) == 0
  {
  }

  /** After s shifts b is the byte that is left, and acc the number the dropped bits spell. */
  ghost predicate Shifted(b0: byte, s: nat, acc: nat, b: byte) {
    acc * 256 + b as nat == b0 as nat * Pow2(s)
  }

  ghost function Next(acc: nat, b: byte): nat {
    2 * acc + (if Top(b) then 1 else 0)
  }

  lemma ShiftStep(b0: byte, s: nat, acc: nat, b: byte)
    requires Shifted(b0, s, acc, b)
    ensures Shifted(b0, s + 1, Next(acc, b), Shl(b))
  {
    assert b as nat == (if Top(b) then 128 else 0) + b as nat % 128;
    assert b0 as nat * Pow2(s + 1) == 2 * (b0 as nat * Pow2(s));
  }

  lemma ShiftEnd(b0: byte, acc: nat, b: byte)
    requires Shifted(b0, 8, acc, b)
    ensures acc == b0 as nat
  {
    assert Pow2(8) == 256;
  }

  /** The signed-digit byte that ScalarMult reads off the top of (pos, neg). */
  datatype Digits = Digits(pos: byte, neg: byte)

  ghost predicate Read(d0: Digits, s: nat, p: nat, n: nat, d: Digits) {
    Shifted(d0.pos, s, p, d.pos) && Shifted(d0.neg, s, n, d.neg) && Disjoint(d.pos as nat, d.neg as nat)
  }

  lemma ReadStart(d: Digits)
    requires Disjoint(d.pos as nat, d.neg as nat)
    ensures Read(d, 0, 0, 0, d)
  {
  }

  lemma ReadStep(d0: Digits, s: nat, p: nat, n: nat, d: Digits)
    requires Read(d0, s, p, n, d)
    ensures Read(d0, s + 1, Next(p, d.pos), Next(n, d.neg), Digits(Shl(d.pos), Shl(d.neg)))
    ensures Next(p, d.pos) - Next(n, d.neg) == 2 * (p - n) + Digit(Top(d.pos), Top(d.neg))
  {
    hide Shifted, Top, Shl, Disjoint;
    DisjointStep(d.pos, d.neg);
    ShiftStep(d0.pos, s, p, d.pos);
    ShiftStep(d0.neg, s, n, d.neg);
  }

  lemma ReadEnd(d0: Digits, p: nat, n: nat, d: Digits)
    requires Read(d0, 8, p, n, d)
    ensures p == d0.pos as int && n == d0.neg as int
  {
    hide Shifted, Disjoint;
    ShiftEnd(d0.pos, p, d.pos);
    ShiftEnd(d0.neg, n, d.neg);
  }

  /** One doubling and at most two additions. */
  method AddBit(qx: FieldVal, qy: FieldVal, qz: FieldVal, o1: Operand, o2: Operand, d1: Digits, d2: Digits,
                ghost t: int, ghost e1: int, ghost e2: int, ghost p: Point)
    requires Hypotheses() && OnCurve(p)
    requires Denotes(qx.n, qy.n, qz.n, ZMult(t, p)) && Holds(o1, e1, p) && Holds(o2, e2, p)
    requires qx != qy && qx != qz && qy != qz && Separate(o1) && Separate(o2)
    requires {qx, qy, qz} !! Cells(o1) && {qx, qy, qz} !! Cells(o2) && Cells(o1) !! Cells(o2)
    modifies qx, qy, qz, Cells(o1), Cells(o2)
    ensures Denotes(qx.n, qy.n, qz.n,
              ZMult(2 * t + Digit(Top(d1.pos), Top(d1.neg)) * e1 + Digit(Top(d2.pos), Top(d2.neg)) * e2, p))
    ensures Holds(o1, e1, p) && Holds(o2, e2, p)
  {
    hide Denotes, OnCurve, ZMult, Hypotheses, Top, Digit;
    Double(qx, qy, qz, t, p);
    AddDigit(qx, qy, qz, o1, Top(d1.pos), Top(d1.neg), 2 * t, e1, p);
    AddDigit(qx, qy, qz, o2, Top(d2.pos), Top(d2.neg), 2 * t + Digit(Top(d1.pos), Top(d1.neg)) * e1, e2, p);
  }

  /** One byte of both scalars: eight doublings and at most sixteen additions. */
  method AddByte(qx: FieldVal, qy: FieldVal, qz: FieldVal, o1: Operand, o2: Operand, b1: Digits, b2: Digits,
                 ghost a: int, ghost e1: int, ghost e2: int, ghost p: Point)
    requires Hypotheses() && OnCurve(p)
    requires Denotes(qx.n, qy.n, qz.n, ZMult(a, p)) && Holds(o1, e1, p) && Holds(o2, e2, p)
    requires qx != qy && qx != qz && qy != qz && Separate(o1) && Separate(o2)
    requires {qx, qy, qz} !! Cells(o1) && {qx, qy, qz} !! Cells(o2) && Cells(o1) !! Cells(o2)
    requires Disjoint(b1.pos as nat, b1.neg as nat) && Disjoint(b2.pos as nat, b2.neg as nat)
    modifies qx, qy, qz, Cells(o1), Cells(o2)
    ensures Denotes(qx.n, qy.n, qz.n,
              ZMult(256 * a + (b1.pos as int - b1.neg as int) * e1 + (b2.pos as int - b2.neg as int) * e2, p))
    ensures Holds(o1, e1, p) && Holds(o2, e2, p)
  {
    hide Denotes, OnCurve, ZMult, Hypotheses, Holds, Separate, Disjoint, Read, Pow2, Top, Shl, Digit, Next, At;
    var d1, d2, j := b1, b2, 7;
    ghost var p1: nat, n1: nat, p2: nat, n2: nat, s: nat := 0, 0, 0, 0, 0;
    ReadStart(b1);
    ReadStart(b2);
    AtStart(a, e1, e2);
    while j >= 0
      invariant -1 <= j <= 7 && s == 7 - j
      invariant Read(b1, s, p1, n1, d1) && Read(b2, s, p2, n2, d2)
      invariant Denotes(qx.n, qy.n, qz.n, ZMult(At(a, s, p1 - n1, e1, p2 - n2, e2), p))
      invariant Holds(o1, e1, p) && Holds(o2, e2, p)
    {
      ghost var t := At(a, s, p1 - n1, e1, p2 - n2, e2);
      ghost var g1, g2 := Digit(Top(d1.pos), Top(d1.neg)), Digit(Top(d2.pos), Top(d2.neg));
      AddBit(qx, qy, qz, o1, o2, d1, d2, t, e1, e2, p);
      AtStep(a, s, p1 - n1, e1, p2 - n2, e2, g1, g2);
      ReadStep(b1, s, p1, n1, d1);
      ReadStep(b2, s, p2, n2, d2);
      p1, n1, p2, n2, s := Next(p1, d1.pos), Next(n1, d1.neg), Next(p2, d2.pos), Next(n2, d2.neg), s + 1;
      d1, d2 := Digits(Shl(d1.pos), Shl(d1.neg)), Digits(Shl(d2.pos), Shl(d2.neg));
      j := j - 1;
    }
    ReadEnd(b1, p1, n1, d1);
    ReadEnd(b2, p2, n2, d2);
    AtEnd(a, p1 - n1, e1, p2 - n2, e2);
  }

  /** The scalar after s bits of the current byte. */
  ghost function At(a: int, s: nat, m1: int, e1: int, m2: int, e2: int): int {
    Pow2(s) * a + m1 * e1 + m2 * e2
  }

  lemma AtStart(a: int, e1: int, e2: int)
    ensures At(a, 0, 0, e1, 0, e2) == a
  {
  }

  lemma AtStep(a: int, s: nat, m1: int, e1: int, m2: int, e2: int, g1: int, g2: int)
    ensures 2 * At(a, s, m1, e1, m2, e2) + g1 * e1 + g2 * e2 == At(a, s + 1, 2 * m1 + g1, e1, 2 * m2 + g2, e2)
  {
    assert Pow2(s + 1) * a == 2 * (Pow2(s) * a);
    assert (2 * m1 + g1) * e1 == 2 * (m1 * e1) + g1 * e1;
    assert (2 * m2 + g2) * e2 == 2 * (m2 * e2) + g2 * e2;
  }

  lemma AtEnd(a: int, m1: int, e1: int, m2: int, e2: int)
    ensures At(a, 8, m1, e1, m2, e2) == 256 * a + m1 * e1 + m2 * e2
  {
    assert Pow2(8) == 256;
  }

  // ----- the whole scalar

  /** The value a pair of byte strings spells in signed digits. */
  ghost function Spelled(pos: seq<byte>, neg: seq<byte>, i: nat): int
    requires i <= |pos| == |neg|
  {
    BigEndian(pos[..i]) - BigEndian(neg[..i])
  }

  lemma SpelledStep(pos: seq<byte>, neg: seq<byte>, i: nat)
    requires i < |pos| == |neg|
    ensures Spelled(pos, neg, i + 1) == 256 * Spelled(pos, neg, i) + (pos[i] as int - neg[i] as int)
  {
    hide BigEndian;
    BigEndianSnoc(pos, i);
    BigEndianSnoc(neg, i);
  }

  lemma SpelledNone(pos: seq<byte>, neg: seq<byte>)
    requires |pos| == |neg|
    ensures Spelled(pos, neg, 0) == 0
  {
  }

  lemma NonAdjacentLength(pos: seq<byte>, neg: seq<byte>)
    requires NonAdjacent(pos, neg)
    ensures |pos| == |neg|
  {
  }

  ghost predicate AllDisjoint(pos: seq<byte>, neg: seq<byte>) {
    |pos| == |neg| && forall i :: 0 <= i < |pos| ==> Disjoint(pos[i] as nat, neg[i] as nat)
  }

  /** Padding the recoded scalar on the left keeps its value and its disjointness. */
  lemma Padded(pos: seq<byte>, neg: seq<byte>, m: nat)
    requires NonAdjacent(pos, neg) && |pos| <= m
    ensures AllDisjoint(PadLeft(pos, m), PadLeft(neg, m))
    ensures Spelled(PadLeft(pos, m), PadLeft(neg, m), m) == BigEndian(pos) - BigEndian(neg)
  {
    hide BigEndian, Bit, NonZero;
    PadLeftValue(pos, m);
    PadLeftValue(neg, m);
    var pp, nn := PadLeft(pos, m), PadLeft(neg, m);
    assert pp[..m] == pp && nn[..m] == nn;
    forall i | 0 <= i < m
      ensures Disjoint(pp[i] as nat, nn[i] as nat)
    {
      if i < m - |pos| {
        NoBits();
      } else {
        assert Sparse(pos[i - (m - |pos|)] as nat, neg[i - (m - |pos|)] as nat, 8);
      }
    }
  }

  lemma NoBits()
    ensures Disjoint(0, 0)
  {
    hide Bit;
    forall j: nat | j < 8
      ensures Bit(0, j) == 0
    {
      BitRange(0, j);
    }
  }

  /** The byte at position i of the recoded scalar padded on the left to m bytes. */
  function DigitsAt(pos: seq<byte>, neg: seq<byte>, m: nat, i: nat): (r: Digits)
    requires |pos| == |neg| <= m && i < m
    ensures r == Digits(PadLeft(pos, m)[i], PadLeft(neg, m)[i])
  {
    if i < m - |pos| then Digits(0, 0) else Digits(pos[i - (m - |pos|)], neg[i - (m - |pos|)])
  }

  /** Adding left to right: q becomes m1 * e1 + m2 * e2 times p for the two recoded scalars m1 and m2. */
  method AddScalars(qx: FieldVal, qy: FieldVal, qz: FieldVal, o1: Operand, o2: Operand,
                    pos1: seq<byte>, neg1: seq<byte>, pos2: seq<byte>, neg2: seq<byte>,
                    ghost e1: int, ghost e2: int, ghost p: Point)
    requires Hypotheses() && OnCurve(p)
    requires Denotes(qx.n, qy.n, qz.n, Infinity) && Holds(o1, e1, p) && Holds(o2, e2, p)
    requires qx != qy && qx != qz && qy != qz && Separate(o1) && Separate(o2)
    requires {qx, qy, qz} !! Cells(o1) && {qx, qy, qz} !! Cells(o2) && Cells(o1) !! Cells(o2)
    requires NonAdjacent(pos1, neg1) && NonAdjacent(pos2, neg2)
    modifies qx, qy, qz, Cells(o1), Cells(o2)
    ensures Denotes(qx.n, qy.n, qz.n,
              ZMult((BigEndian(pos1) - BigEndian(neg1)) * e1 + (BigEndian(pos2) - BigEndian(neg2)) * e2, p))
  {
    hide Denotes, OnCurve, ZMult, Hypotheses, Holds, Disjoint, Spelled, BigEndian, PadLeft, DigitsAt, NonAdjacent;
    var m := if |pos1| < |pos2| then |pos2| else |pos1|;
    NonAdjacentLength(pos1, neg1);
    NonAdjacentLength(pos2, neg2);
    ghost var u1, v1, u2, v2 := PadLeft(pos1, m), PadLeft(neg1, m), PadLeft(pos2, m), PadLeft(neg2, m);
    Padded(pos1, neg1, m);
    Padded(pos2, neg2, m);
    ZMultZero(p);
    SpelledNone(u1, v1);
    SpelledNone(u2, v2);
    for i := 0 to m
      invariant Denotes(qx.n, qy.n, qz.n, ZMult(Spelled(u1, v1, i) * e1 + Spelled(u2, v2, i) * e2, p))
      invariant Holds(o1, e1, p) && Holds(o2, e2, p)
    {
      var b1, b2 := DigitsAt(pos1, neg1, m, i), DigitsAt(pos2, neg2, m, i);
      SpelledStep(u1, v1, i);
      SpelledStep(u2, v2, i);
      ghost var a := Spelled(u1, v1, i) * e1 + Spelled(u2, v2, i) * e2;
      AddByte(qx, qy, qz, o1, o2, b1, b2, a, e1, e2, p);
      ByteStep(Spelled(u1, v1, i), Spelled(u2, v2, i), b1.pos as int - b1.neg as int, b2.pos as int - b2.neg as int, e1, e2);
    }
  }

  lemma ByteStep(m1: int, m2: int, d1: int, d2: int, e1: int, e2: int)
    ensures 256 * (m1 * e1 + m2 * e2) + d1 * e1 + d2 * e2 == (256 * m1 + d1) * e1 + (256 * m2 + d2) * e2
  {
  }

  lemma OnePower()
    ensures Rep(ONE, 1, 1) && Sq(1) == 1 && Cu(1) == 1 && 1 % P != 0
  {
    IsSq(1);
    IsCu(1);
  }

  /** With z equal to one the coordinates themselves are stored. */
  lemma AffineDenoted(x: Limbs, y: Limbs, x3: int, y3: int)
    requires Rep(x, x3, 1) && Rep(y, y3, 2)
    ensures Denotes(x, y, ONE, Affine(x3 % P, y3 % P))
  {
    hide Rep, Times, Sq, Cu, Denotes, Value;
    OnePower();
    IsTimes(x3, 1);
    IsTimes(y3, 1);
    DenotesIntro(x, y, ONE, x3, y3, 1);
  }

  /** The cells for e times p, whose affine coordinates are in x and y; flipped for a negative scalar. */
  method MakeOperand(x: FieldVal, y: FieldVal, flip: bool, ghost x3: int, ghost y3: int, ghost e: int, ghost p: Point)
    returns (o: Operand)
    requires Hypotheses() && OnCurve(p) && x != y
    requires Rep(x.n, x3, 1) && Rep(y.n, y3, 1) && ZMult(e, p) == Affine(x3 % P, y3 % P)
    ensures Holds(o, if flip then -e else e, p) && Separate(o)
    ensures o.x == x && fresh(o.z)
    ensures if flip then o.yNeg == y && fresh(o.y) else o.y == y && fresh(o.yNeg)
  {
    hide Rep, Denotes, OnCurve, ZMult, Hypotheses;
    var yNeg := new FieldVal();
    yNeg.n := Negate(y.n, 1, y3);
    var z := new FieldVal();
    z.n := ONE;
    RepMonotone(y.n, y3, 1, 2);
    AffineDenoted(x.n, y.n, x3, y3);
    AffineDenoted(x.n, yNeg.n, x3, -y3);
    ZMultNeg(e, p);
    NegMod(y3);
    o := if flip then Operand(x, yNeg, y, z) else Operand(x, y, yNeg, z);
  }

  lemma NegMod(y: int)
    ensures (-(y % P)) % P == (-y) % P
  {
    assert y == P * (y / P) + y % P;
    var c := -(y % P);
    CongWitness(c, -y, y / P);
    CongMod(c);
    CongMod(-y);
    CongSym(c, c % P);
    CongTrans(c % P, c, -y);
    CongTrans(c % P, -y, (-y) % P);
    CongRange(c % P, (-y) % P);
  }

  /** P1 is the point and P2 its image under the endomorphism, each flipped when its scalar is negative. */
  method MakeOperands(baseX: nat, baseY: nat, flip1: bool, flip2: bool) returns (o1: Operand, o2: Operand)
    requires Hypotheses() && OnCurve(Affine(baseX, baseY))
    ensures Holds(o1, if flip1 then -1 else 1, Affine(baseX, baseY))
    ensures Holds(o2, if flip2 then -LAMBDA else LAMBDA, Affine(baseX, baseY))
    ensures Separate(o1) && Separate(o2) && Cells(o1) !! Cells(o2) && fresh(Cells(o1)) && fresh(Cells(o2))
  {
    hide Rep, Denotes, OnCurve, ZMult, Hypotheses, Times, Pow256;
    ghost var p := Affine(baseX, baseY);
    CoordinatesInRange(p);
    Multiples(p);
    var p1x := FromNumber(baseX);
    var p1y := FromNumber(baseY);
    var beta := FromNumber(BETA);
    var p2x := new FieldVal();
    p2x.n := Mul(p1x.n, beta.n, baseX, BETA, 1, 1);
    var p2y := new FieldVal();
    p2y.n := p1y.n;
    o1 := MakeOperand(p1x, p1y, flip1, baseX, baseY, 1, p);
    o2 := MakeOperand(p2x, p2y, flip2, Times(baseX, BETA), baseY, LAMBDA, p);
  }

  /** ScalarMult is multiplication by the number the bytes spell, for every byte string. */
  method ScalarMult(baseX: nat, baseY: nat, k: seq<byte>) returns (rx: nat, ry: nat)
    requires Hypotheses() && OnCurve(Affine(baseX, baseY))
    ensures Coordinates(rx, ry, ZMult(BigEndian(k), Affine(baseX, baseY)))
  {
    hide Rep, Denotes, OnCurve, ZMult, Hypotheses, Holds, Separate, BigEndian, Coordinates, NonAdjacent, Represents, Sign;
    ghost var p := Affine(baseX, baseY);
    var qx := new FieldVal();
    var qy := new FieldVal();
    var qz := new FieldVal();
    ZeroDenotes();
    var reduced := ModuloReduce(k);
    var k1, k2, sign1, sign2 := SplitK(reduced);
    var o1, o2 := MakeOperands(baseX, baseY, sign1 == -1, sign2 == -1);
    var pos1, neg1 := NAF(k1);
    var pos2, neg2 := NAF(k2);
    ghost var e1, e2 := if sign1 == -1 then -1 else 1, if sign2 == -1 then -LAMBDA else LAMBDA;
    AddScalars(qx, qy, qz, o1, o2, pos1, neg1, pos2, neg2, e1, e2, p);
    Recombined(k, reduced, k1, k2, sign1, sign2, e1, e2, p);
    Scaled(BigEndian(k), p);
    rx, ry := JacobianToAffine(qx, qy, qz, ZMult(BigEndian(k), p));
  }

  lemma Scaled(k: int, p: Point)
    requires Hypotheses() && OnCurve(p)
    ensures OnCurve(ZMult(k, p)) && Fermat()
  {
    hide Fermat, OrderFacts, GroupLaw, OnCurve, ZMult;
    ZMultOnCurve(k, p);
  }

  lemma CoordinatesInRange(p: Point)
    requires OnCurve(p) && p.Affine?
    ensures 0 <= p.x < P && 0 <= p.y < P < Pow256(32) && BETA < Pow256(32)
  {
    hide Pow256, Times, Cong;
    Pow256At32();
  }

  lemma Multiples(p: Point)
    requires Hypotheses() && OnCurve(p) && p.Affine?
    ensures ZMult(1, p) == Affine(p.x % P, p.y % P)
    ensures ZMult(LAMBDA, p) == Affine(Times(p.x, BETA) % P, p.y % P)
  {
    hide OrderFacts, Fermat, GroupLaw, OnCurve, ZMult, Times, Neg, Pow256;
    CoordinatesInRange(p);
    SmallMod(p.x);
    SmallMod(p.y);
    ZMultOne(p);
    Facts(p);
    TimesComm(BETA, p.x);
  }

  lemma SmallMod(v: int)
    requires 0 <= v < P
    ensures v % P == v
  {
  }

  lemma SignedScalar(a: int, sign: int, l: int, e: int)
    requires sign == Sign(sign * a) && (sign == 0 ==> a == 0) && e == if sign == -1 then -l else l
    ensures sign * a * l == a * e
  {
    assert sign == -1 || sign == 0 || sign == 1;
    assert a * -l == -a * l;
  }

  lemma RecombinedScalar(k: int, r: int, v1: int, v2: int, w2: int)
    requires Represents(r, v1, v2) && w2 == v2 * LAMBDA && (r == k || r == k % N)
    ensures (v1 + w2 - r) % N == 0 && (r - k) % N == 0
  {
  }

  lemma Recombined(k: seq<byte>, reduced: seq<byte>, k1: seq<byte>, k2: seq<byte>, sign1: int, sign2: int,
                   e1: int, e2: int, p: Point)
    requires Hypotheses() && OnCurve(p)
    requires if |k| <= 32 then reduced == k else BigEndian(reduced) == BigEndian(k) % N
    requires Represents(BigEndian(reduced), sign1 * BigEndian(k1), sign2 * BigEndian(k2))
    requires sign1 == Sign(sign1 * BigEndian(k1)) && sign2 == Sign(sign2 * BigEndian(k2))
    requires (sign1 == 0 ==> BigEndian(k1) == 0) && (sign2 == 0 ==> BigEndian(k2) == 0)
    requires e1 == (if sign1 == -1 then -1 else 1) && e2 == (if sign2 == -1 then -LAMBDA else LAMBDA)
    ensures ZMult(BigEndian(k1) * e1 + BigEndian(k2) * e2, p) == ZMult(BigEndian(k), p)
  {
    hide Hypotheses, OnCurve, ZMult, BigEndian, Represents, Sign;
    var a, b, r := BigEndian(k1), BigEndian(k2), BigEndian(reduced);
    SignedScalar(a, sign1, 1, e1);
    SignedScalar(b, sign2, LAMBDA, e2);
    RecombinedScalar(BigEndian(k), r, sign1 * a, sign2 * b, b * e2);
    ScalarsModN(a * e1 + b * e2, r, p);
    ScalarsModN(r, BigEndian(k), p);
  }
}
