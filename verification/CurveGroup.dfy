/** Multiples of a point.  That the chord-and-tangent law makes the curve an abelian group is a hypothesis. */
module CurveGroup {
  import opened FieldWords
  import opened Modular
  import opened FieldPow
  import opened Curve
  import opened Jacobian

  /** Hypothesis: the points of the curve are closed under Sum, which is associative and commutative. */
  ghost predicate GroupLaw() {
    && (forall p: Point, q: Point :: OnCurve(p) && OnCurve(q) ==> OnCurve(Sum(p, q)) && Sum(p, q) == Sum(q, p))
    && (forall p: Point, q: Point, r: Point :: OnCurve(p) && OnCurve(q) && OnCurve(r) ==>
          Sum(Sum(p, q), r) == Sum(p, Sum(q, r)))
  }

  ghost function Mult(n: nat, p: Point): Point {
    if n == 0 then Infinity else Sum(Mult(n - 1, p), p)
  }

  /** Multiples by any integer. */
  ghost function ZMult(k: int, p: Point): Point {
    if k >= 0 then Mult(k, p) else Mult(-k, Neg(p))
  }

  lemma Closed(p: Point, q: Point)
    requires GroupLaw() && OnCurve(p) && OnCurve(q)
    ensures OnCurve(Sum(p, q)) && Sum(p, q) == Sum(q, p)
  {
    hide OnCurve, Sum;
  }

  lemma Associative(p: Point, q: Point, r: Point)
    requires GroupLaw() && OnCurve(p) && OnCurve(q) && OnCurve(r)
    ensures Sum(Sum(p, q), r) == Sum(p, Sum(q, r))
  {
    hide OnCurve, Sum;
  }

  lemma NegatedY(y: int)
    requires 0 <= y < P
    ensures 0 <= (-y) % P < P && Cong((-y) % P, -y) && ((-y) % P == y ==> y == 0)
  {
    CongMod(-y);
    CongSym(-y, (-y) % P);
    hide Cong;
    if y != 0 {
      assert -y == P * -1 + (P - y);
      assert (-y) % P == P - y;
      assert P % 2 == 1;
    }
  }

  lemma NegOnCurve(p: Point)
    requires OnCurve(p)
    ensures OnCurve(Neg(p)) && Sum(p, Neg(p)) == Infinity
  {
    hide Cong, Times, Slope, Third;
    if p.Affine? {
      var y := (-p.y) % P;
      NegatedY(p.y);
      CongTimes(y, -p.y, y, -p.y);
      IsTimes(p.y, p.y);
      IsTimes(-p.y, -p.y);
      assert -p.y * -p.y == p.y * p.y;
      CongTrans(Times(y, y), Times(p.y, p.y), Times(Times(p.x, p.x), p.x) + 7);
    }
  }

  lemma {:induction false} MultOnCurve(n: nat, p: Point)
    requires GroupLaw() && OnCurve(p)
    ensures OnCurve(Mult(n, p))
  {
    hide OnCurve, Sum;
    if n == 0 {
      assert OnCurve(Infinity) by { InfinityOnCurve(); }
    } else {
      MultOnCurve(n - 1, p);
    }
  }

  lemma InfinityOnCurve()
    ensures OnCurve(Infinity)
  {
  }

  lemma ZMultOnCurve(k: int, p: Point)
    requires GroupLaw() && OnCurve(p)
    ensures OnCurve(ZMult(k, p))
  {
    hide GroupLaw, OnCurve, Sum, Neg;
    NegOnCurve(p);
    if k >= 0 {
      MultOnCurve(k, p);
    } else {
      MultOnCurve(-k, Neg(p));
    }
  }

  lemma SumInfinity(p: Point)
    ensures Sum(p, Infinity) == p && Sum(Infinity, p) == p
  {
  }

  lemma ZMultNext(k: int, p: Point)
    requires GroupLaw() && OnCurve(p)
    ensures ZMult(k + 1, p) == Sum(ZMult(k, p), p)
  {
    hide OnCurve, Neg, Sum, GroupLaw;
    if k < 0 {
      NegOnCurve(p);
      var m := Mult(-k - 1, Neg(p));
      MultOnCurve(-k - 1, Neg(p));
      SumInfinity(m);
      Associative(m, Neg(p), p);
      Closed(Neg(p), p);
    }
  }

  /** Multiples add up. */
  lemma {:induction false} ZMultAdd(a: int, b: int, p: Point)
    requires GroupLaw() && OnCurve(p)
    ensures ZMult(a + b, p) == Sum(ZMult(a, p), ZMult(b, p))
    decreases if b < 0 then -b else b
  {
    ZMultZero(p);
    hide OnCurve, Sum, ZMult, Neg, GroupLaw;
    ZMultOnCurve(a, p);
    SumInfinity(ZMult(a, p));
    if b > 0 {
      ZMultAdd(a, b - 1, p);
      ZMultNext(a + b - 1, p);
      ZMultNext(b - 1, p);
      ZMultOnCurve(b - 1, p);
      Associative(ZMult(a, p), ZMult(b - 1, p), p);
    } else if b < 0 {
      ZMultAdd(a, b + 1, p);
      ZMultNext(a + b, p);
      ZMultNext(b, p);
      ZMultOnCurve(b, p);
      ZMultOnCurve(a + b, p);
      Associative(ZMult(a, p), ZMult(b, p), p);
      Closed(ZMult(a, p), ZMult(b, p));
      CancelPoint(ZMult(a + b, p), Sum(ZMult(a, p), ZMult(b, p)), p);
    }
  }

  lemma ZMultZero(p: Point)
    ensures ZMult(0, p) == Infinity
  {
  }

  lemma CancelPoint(x: Point, y: Point, p: Point)
    requires GroupLaw() && OnCurve(x) && OnCurve(y) && OnCurve(p) && Sum(x, p) == Sum(y, p)
    ensures x == y
  {
    hide OnCurve, Sum, Neg, GroupLaw;
    NegOnCurve(p);
    SumInfinity(x);
    SumInfinity(y);
    Associative(x, p, Neg(p));
    Associative(y, p, Neg(p));
  }

  lemma ZMultDouble(k: int, p: Point)
    requires GroupLaw() && OnCurve(p)
    ensures ZMult(2 * k, p) == Sum(ZMult(k, p), ZMult(k, p))
  {
    hide OnCurve, Sum, ZMult;
    ZMultAdd(k, k, p);
  }

  lemma ZMultOne(p: Point)
    ensures ZMult(1, p) == p && ZMult(-1, p) == Neg(p)
  {
    SumInfinity(p);
    SumInfinity(Neg(p));
    hide Sum;
    assert Mult(1, p) == Sum(Mult(0, p), p);
    assert Mult(1, Neg(p)) == Sum(Mult(0, Neg(p)), Neg(p));
  }
}
