/** The reference: points of y^2 = x^3 + 7 over the integers modulo P and the chord-and-tangent law. */
module Curve {
  import opened FieldWords
  import opened Modular
  import opened FieldPow

  datatype Point = Infinity | Affine(x: int, y: int)

  ghost predicate OnCurve(p: Point) {
    p.Affine? ==> 0 <= p.x < P && 0 <= p.y < P && Cong(Times(p.y, p.y), Times(Times(p.x, p.x), p.x) + 7)
  }

  /** The modular inverse as the field code computes it. */
  ghost function Inv(a: int): int {
    Pow(a, P - 2)
  }

  /** Hypothesis: P is prime, in the form Fermat's little theorem gives it. */
  ghost predicate Fermat() {
    forall a: int :: a % P != 0 ==> Cong(Times(a, Inv(a)), 1)
  }

  /** The slope of the chord through p and q, or of the tangent at p when their x coordinates agree. */
  ghost function Slope(p: Point, q: Point): int
    requires p.Affine? && q.Affine?
  {
    if p.x != q.x then Times(q.y - p.y, Inv(q.x - p.x)) else Times(3 * Times(p.x, p.x), Inv(2 * p.y))
  }

  /** The negated third intersection of the curve with the line of slope l through p and a point over x. */
  ghost function Third(l: int, p: Point, x: int): Point
    requires p.Affine?
  {
    var x3 := Times(l, l) - p.x - x;
    Affine(x3 % P, (Times(l, p.x - x3) - p.y) % P)
  }

  ghost function Sum(p: Point, q: Point): Point {
    if p.Infinity? then q
    else if q.Infinity? then p
    else if p.x != q.x || (p.y == q.y && p.y != 0) then Third(Slope(p, q), p, q.x)
    else Infinity
  }

  ghost function Neg(p: Point): Point {
    if p.Infinity? then p else Affine(p.x, (-p.y) % P)
  }

  // ----- arithmetic modulo a prime

  lemma CongZero(a: int)
    ensures Cong(a, 0) <==> a % P == 0
  {
  }

  lemma CongRange(a: int, b: int)
    requires 0 <= a < P && 0 <= b < P
    ensures Cong(a, b) <==> a == b
  {
  }

  lemma InverseLaw(c: int)
    requires Fermat() && c % P != 0
    ensures Cong(c * Inv(c), 1)
  {
    hide Cong, Inv, Times;
    IsTimes(c, Inv(c));
  }

  lemma CancelOne(a: int, c: int, i: int)
    requires Cong(c * i, 1)
    ensures Cong(a * c * i, a)
  {
    hide Cong;
    CongRefl(a);
    CongMul(a, a, c * i, 1);
    assert a * (c * i) == a * c * i;
  }

  lemma Cancel(a: int, b: int, c: int)
    requires Fermat() && c % P != 0 && Cong(a * c, b * c)
    ensures Cong(a, b)
  {
    var i := Inv(c);
    InverseLaw(c);
    CongRefl(i);
    hide Cong, Fermat, Inv;
    CongMul(a * c, b * c, i, i);
    CancelOne(a, c, i);
    CancelOne(b, c, i);
    CongSym(a * c * i, a);
    CongTrans(a, a * c * i, b * c * i);
    CongTrans(a, b * c * i, b);
  }

  lemma NonzeroMul(a: int, b: int)
    requires Fermat() && a % P != 0 && b % P != 0
    ensures (a * b) % P != 0
  {
    if (a * b) % P == 0 {
      hide Fermat, Cong;
      CongZero(b * a);
      assert 0 * a == 0;
      Cancel(b, 0, a);
      CongZero(b);
    }
  }

  lemma ChordSlope(p: Point, q: Point)
    requires Fermat() && p.Affine? && q.Affine? && p.x != q.x && OnCurve(p) && OnCurve(q)
    ensures Cong(Slope(p, q) * (q.x - p.x), q.y - p.y)
  {
    var d := q.x - p.x;
    assert d % P != 0 by {
      hide Cong, Times;
    }
    InverseLaw(d);
    hide Cong, Fermat, Inv, OnCurve, Times;
    CancelOne(q.y - p.y, d, Inv(d));
    IsTimes(q.y - p.y, Inv(d));
    SwapFactors(q.y - p.y, Inv(d), d);
  }

  lemma TangentSlope(p: Point, q: Point)
    requires Fermat() && p.Affine? && q.Affine? && p.x == q.x && OnCurve(p) && p.y != 0
    ensures Cong(Slope(p, q) * (2 * p.y), 3 * (p.x * p.x))
  {
    var d := 2 * p.y;
    assert d % P != 0 by {
      hide Cong, Times;
    }
    InverseLaw(d);
    hide Cong, Fermat, Inv, OnCurve, Times;
    var s := 3 * Times(p.x, p.x);
    CancelOne(s, d, Inv(d));
    IsTimes(p.x, p.x);
    IsTimes(s, Inv(d));
    SwapFactors(s, Inv(d), d);
  }

  lemma SwapFactors(a: int, b: int, c: int)
    ensures a * b * c == a * c * b
  {
  }
}
