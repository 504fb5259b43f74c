/** Point addition and doubling in Jacobian coordinates on field words. */
module Jacobian {
  import opened Words
  import opened FieldWords
  import opened Modular
  import opened FieldOps
  import opened FieldNormalize
  import opened FieldPow
  import opened Curve

  /** The words are Jacobian coordinates of p: x = p.x * z^2 and y = p.y * z^3 with z nonzero,
      or z is zero for the point at infinity.  The y words may be a negation that was not normalized. */
  ghost predicate Denotes(x: Limbs, y: Limbs, z: Limbs, p: Point) {
    && Magnitude(x, 1) && Magnitude(y, 2) && Magnitude(z, 1)
    && (p.Infinity? ==> z == ZERO)
    && (p.Affine? ==>
          && Value(z) % P != 0
          && Cong(Value(x), Times(p.x, Sq(Value(z))))
          && Cong(Value(y), Times(p.y, Cu(Value(z)))))
  }

  /** A point of the curve that is not its own negation. */
  ghost predicate Good(p: Point) {
    OnCurve(p) && (p.Affine? ==> p.y != 0)
  }

  lemma DenotesReps(x: Limbs, y: Limbs, z: Limbs, p: Point)
    requires p.Affine? && Denotes(x, y, z, p)
    ensures var c := Value(z);
            c % P != 0 && Rep(x, Times(p.x, Sq(c)), 1) && Rep(y, Times(p.y, Cu(c)), 2) && Rep(z, c, 1)
  {
    CongRefl(Value(z));
    hide Cong, Magnitude, Value, Times;
  }

  lemma PowersCong(t: int, c: int)
    requires Cong(t, c)
    ensures Cong(Sq(t), Sq(c)) && Cong(Cu(t), Cu(c))
  {
    hide Cong, Times;
    CongTimes(t, c, t, c);
    CongTimes(Sq(t), Sq(c), t, c);
  }

  lemma NonzeroCong(t: int, c: int)
    requires Cong(c, t) && t % P != 0
    ensures c % P != 0
  {
  }

  lemma DenotesIntro(x: Limbs, y: Limbs, z: Limbs, x3: int, y3: int, t: int)
    requires t % P != 0 && Rep(x, Times(x3, Sq(t)), 1) && Rep(y, Times(y3, Cu(t)), 2) && Rep(z, t, 1)
    ensures Denotes(x, y, z, Affine(x3 % P, y3 % P))
  {
    hide Cong, Magnitude, Value, Times, Sq, Cu, Rep;
    var c := Value(z);
    RepParts(x, Times(x3, Sq(t)), 1);
    RepParts(y, Times(y3, Cu(t)), 2);
    RepParts(z, t, 1);
    NonzeroCong(t, c);
    CongMod(x3);
    CongMod(y3);
    CongSym(c, t);
    PowersCong(t, c);
    CongTimes(x3, x3 % P, Sq(t), Sq(c));
    CongTimes(y3, y3 % P, Cu(t), Cu(c));
    CongTrans(Value(x), Times(x3, Sq(t)), Times(x3 % P, Sq(c)));
    CongTrans(Value(y), Times(y3, Cu(t)), Times(y3 % P, Cu(c)));
  }

  /** The coordinates the slope l leads to, before reduction modulo P. */
  ghost function ThirdX(l: int, p: Point, qx: int): int
    requires p.Affine?
  {
    Sq(l) - p.x - qx
  }

  ghost function ThirdY(l: int, p: Point, qx: int): int
    requires p.Affine?
  {
    Times(l, p.x - ThirdX(l, p, qx)) - p.y
  }

  // ----- doubling

  lemma Binomial(x: int, b: int)
    ensures 2 * (-(x * x + b * b) + (b + x) * (b + x)) == 4 * (x * b)
  {
  }

  lemma Product(y: int, c: int)
    ensures 4 * (y * y) * (c * c) == 2 * (y * c) * (2 * (y * c))
  {
  }

  lemma Cube(y: int, c: int, t: int)
    requires t == 2 * (y * c)
    ensures 8 * (y * y * y) * (c * c * c) == t * t * t
  {
    Product(y, c);
    assert 8 * (y * y * y) * (c * c * c) == 4 * (y * y) * (c * c) * (2 * (y * c));
  }

  /** With x = px * c^2, y = py * c^3 and t = 2 * y * c: D = 2 * ((x + y^2)^2 - x^2 - y^4) is px * t^2. */
  lemma DoubleD(px: int, c: int, x: int, y: int, t: int)
    requires x == Times(px, Sq(c)) && t == 2 * Times(y, c)
    ensures 2 * (-(Sq(x) + Sq(Sq(y))) + Sq(Sq(y) + x)) == Times(px, Sq(t))
  {
    hide Times, Sq;
    var b := Sq(y);
    IsSq(x);
    IsSq(b);
    IsSq(b + x);
    Binomial(x, b);
    IsSq(y);
    IsSq(c);
    IsSq(t);
    IsTimes(y, c);
    IsTimes(px, c * c);
    IsTimes(px, t * t);
    Product(y, c);
    assert 4 * (px * (c * c) * b) == px * (4 * b * (c * c));
  }

  /** ... and 8 * y^4 is py * t^3. */
  lemma DoubleC(py: int, c: int, y: int, t: int)
    requires y == Times(py, Cu(c)) && t == 2 * Times(y, c)
    ensures 8 * Sq(Sq(y)) == Times(py, Cu(t))
  {
    hide Times, Sq, Cu;
    IsSq(y);
    IsSq(y * y);
    IsCu(c);
    IsCu(t);
    IsTimes(y, c);
    IsTimes(py, c * c * c);
    IsTimes(py, t * t * t);
    Cube(y, c, t);
    Rearrange(py, c * c * c, y);
  }

  lemma Rearrange(a: int, b: int, y: int)
    requires y == a * b
    ensures 8 * (y * y * (y * y)) == a * (8 * (y * y * y) * b)
  {
    var z := y * y * y;
    assert y * y * (y * y) == z * y;
    assert 8 * (z * (a * b)) == a * (8 * z * b);
  }

  /** The common end of all formulas: X3 = (l*t)^2 - px*t^2 - qx*t^2 and Y3 = (px*t^2 - X3)*(l*t) - py*t^3. */
  lemma ThirdScaled(l: int, p: Point, qx: int, t: int)
    requires p.Affine?
    ensures Sq(Times(l, t)) - (Times(p.x, Sq(t)) + Times(qx, Sq(t))) == Times(ThirdX(l, p, qx), Sq(t))
    ensures Times(Times(p.x, Sq(t)) - Times(ThirdX(l, p, qx), Sq(t)), Times(l, t)) - Times(p.y, Cu(t))
         == Times(ThirdY(l, p, qx), Cu(t))
  {
    hide Times, Sq, Cu;
    var x, u, w := ThirdX(l, p, qx), Sq(t), Times(l, t);
    IsTimes(l, t);
    IsSq(l);
    IsSq(t);
    IsSq(w);
    IsCu(t);
    IsTimes(p.x, u);
    IsTimes(qx, u);
    IsTimes(x, u);
    assert (l * t) * (l * t) == l * l * (t * t);
    IsTimes(p.x * u - x * u, w);
    IsTimes(l, p.x - x);
    IsTimes(p.y, t * t * t);
    IsTimes(ThirdY(l, p, qx), t * t * t);
    assert (p.x * u - x * u) * (l * t) == l * (p.x - x) * (u * t);
  }

  lemma TangentScaled(p: Point, q: Point, c: int, x: int, y: int, t: int)
    requires Fermat() && p.Affine? && q.Affine? && p.x == q.x && Good(p)
    requires x == Times(p.x, Sq(c)) && y == Times(p.y, Cu(c)) && t == 2 * Times(y, c)
    ensures Cong(3 * Sq(x), Times(Slope(p, q), t))
  {
    TangentSlope(p, q);
    hide Cong, Fermat, Good, OnCurve, Slope, Times, Sq, Cu;
    var l := Slope(p, q);
    var c2 := c * c;
    CongRefl(c2 * c2);
    CongMul(l * (2 * p.y), 3 * (p.x * p.x), c2 * c2, c2 * c2);
    CongSym(l * (2 * p.y) * (c2 * c2), 3 * (p.x * p.x) * (c2 * c2));
    IsSq(c);
    IsCu(c);
    IsTimes(p.x, c2);
    IsTimes(p.y, c2 * c);
    IsTimes(y, c);
    IsSq(x);
    IsTimes(l, t);
    TangentProducts(p.x, p.y, c, c2, l);
  }

  lemma TangentProducts(px: int, py: int, c: int, c2: int, l: int)
    requires c2 == c * c
    ensures 3 * (px * c2 * (px * c2)) == 3 * (px * px) * (c2 * c2)
    ensures l * (2 * (py * (c2 * c) * c)) == l * (2 * py) * (c2 * c2)
  {
    assert py * (c2 * c) * c == py * (c2 * c2);
  }

  lemma DoubleNonzero(p: Point, c: int, y: int)
    requires Fermat() && p.Affine? && Good(p) && c % P != 0 && y == Times(p.y, Cu(c))
    ensures (2 * Times(y, c)) % P != 0
  {
    assert p.y % P != 0 && 2 % P != 0 by {
      hide Cong, Times;
    }
    hide Cong, Fermat, Good, OnCurve, Times, Cu;
    NonzeroMul(c, c);
    NonzeroMul(c * c, c);
    NonzeroMul(p.y, c * c * c);
    IsCu(c);
    IsTimes(p.y, c * c * c);
    NonzeroMul(y, c);
    IsTimes(y, c);
    NonzeroMul(2, y * c);
  }

  /** The part of both doubling routines that does not involve z; t is the z coordinate of the result. */
  method DoubleXY(x1: FieldVal, y1: FieldVal, x3: FieldVal, y3: FieldVal, ghost p: Point, ghost c: int, ghost t: int)
    requires Fermat() && p.Affine? && Good(p) && t == 2 * Times(Times(p.y, Cu(c)), c)
    requires Rep(x1.n, Times(p.x, Sq(c)), 1) && Rep(y1.n, Times(p.y, Cu(c)), 2)
    requires x3 != y1 && x3 != y3 && y3 != x1
    modifies x3, y3
    ensures Rep(x3.n, Times(ThirdX(Slope(p, p), p, p.x), Sq(t)), 1)
    ensures Rep(y3.n, Times(ThirdY(Slope(p, p), p, p.x), Cu(t)), 1)
  {
    hide Rep, Cong, Good, OnCurve, Fermat, Slope, Times, Sq, Cu, ThirdX, ThirdY;
    ghost var x, y, l := Times(p.x, Sq(c)), Times(p.y, Cu(c)), Slope(p, p);
    ghost var lt, y2, y4, dv := Times(l, t), Sq(y), Sq(Sq(y)), Times(p.x, Sq(t));
    ghost var xv := Times(ThirdX(l, p, p.x), Sq(t));
    DoubleD(p.x, c, x, y, t);
    DoubleC(p.y, c, y, t);
    TangentScaled(p, p, c, x, y, t);
    ThirdScaled(l, p, p.x, t);

    var a := Square(x1.n, x, 1);                             // A = X1^2 (mag: 1)
    var b := Square(y1.n, y, 2);                             // B = Y1^2 (mag: 1)
    var cc := Square(b, y2, 1);                              // C = B^2 (mag: 1)
    b := Add(b, x1.n, y2, x, 1, 1);
    b := Square(b, y2 + x, 2);                               // B = (X1+B)^2 (mag: 1)
    var d := Add(a, cc, Sq(x), y4, 1, 1);
    d := Negate(d, 2, Sq(x) + y4);                           // D = -(A+C) (mag: 3)
    d := Add(d, b, -(Sq(x) + y4), Sq(y2 + x), 3, 1);
    d := MulInt(d, 2, -(Sq(x) + y4) + Sq(y2 + x), 4);        // D = 2*(B+D) (mag: 8)
    var e := MulInt(a, 3, Sq(x), 1);                         // E = 3*A (mag: 3)
    RepCong(e, 3 * Sq(x), lt, 3);
    var f := Square(e, lt, 3);                               // F = E^2 (mag: 1)
    x3.n := MulInt(d, 2, dv, 8);
    x3.n := Negate(x3.n, 16, 2 * dv);                        // X3 = -(2*D) (mag: 17)
    x3.n := Add(x3.n, f, -(2 * dv), Sq(lt), 17, 1);          // X3 = F+X3 (mag: 18)
    f := Negate(x3.n, 18, xv);
    f := Add(f, d, -xv, dv, 19, 8);
    f := Normalize(f, dv - xv, 27);                          // F = D-X3 (mag: 1)
    y3.n := MulInt(cc, 8, y4, 1);
    y3.n := Negate(y3.n, 8, 8 * y4);                         // Y3 = -(8*C) (mag: 9)
    f := Mul(f, e, dv - xv, lt, 1, 3);
    y3.n := Add(y3.n, f, -(8 * y4), Times(dv - xv, lt), 9, 1);   // Y3 = E*F+Y3 (mag: 10)
    x3.n := Normalize(x3.n, xv, 18);
    y3.n := Normalize(y3.n, Times(ThirdY(l, p, p.x), Cu(t)), 10);
  }

  /** Only like coordinates of different points may be the same object. */
  ghost predicate Apart(x1: FieldVal, y1: FieldVal, z1: FieldVal, x3: FieldVal, y3: FieldVal, z3: FieldVal) {
    && x1 != y1 && x1 != z1 && y1 != z1 && x3 != y3 && x3 != z3 && y3 != z3
    && x1 != y3 && x1 != z3 && y1 != x3 && y1 != z3 && z1 != x3 && z1 != y3
  }

  /** Unchanged words, or their normal form. */
  ghost predicate Same(l: Limbs, l': Limbs) {
    l' == l || (Canonical(l') && Cong(Value(l'), Value(l)))
  }

  lemma SameMagnitude(l: Limbs, l': Limbs, m: int)
    requires Same(l, l') && Magnitude(l, m) && 1 <= m
    ensures Magnitude(l', m) && Cong(Value(l'), Value(l))
  {
    hide Cong, Value, Magnitude;
    CongRefl(Value(l));
    if l' != l {
      CanonicalMagnitude(l');
      MagnitudeMonotone(l', 1, m);
    }
  }

  lemma DenotesSame(x: Limbs, y: Limbs, z: Limbs, x': Limbs, y': Limbs, z': Limbs, p: Point)
    requires Denotes(x, y, z, p) && Same(x, x') && Same(y, y') && Same(z, z')
    ensures Denotes(x', y', z', p)
  {
    SameMagnitude(x, x', 1);
    SameMagnitude(y, y', 2);
    SameMagnitude(z, z', 1);
    if p.Infinity? {
      if z' != z {
        assert Canonical(ZERO);
        hide Value, Magnitude, Cong;
        CanonicalEqual(z', ZERO);
      }
    } else {
      DenotesReps(x, y, z, p);
      hide Denotes, Value, Magnitude, Times, Sq, Cu;
      DenotesNearby(x, y, z, x', y', z', p);
    }
  }

  lemma DenotesNearby(x: Limbs, y: Limbs, z: Limbs, x': Limbs, y': Limbs, z': Limbs, p: Point)
    requires p.Affine? && Denotes(x, y, z, p) && Magnitude(x', 1) && Magnitude(y', 2) && Magnitude(z', 1)
    requires Cong(Value(x'), Value(x)) && Cong(Value(y'), Value(y)) && Cong(Value(z'), Value(z))
    ensures Denotes(x', y', z', p)
  {
    var c, c' := Value(z), Value(z');
    assert c' % P != 0 by {
      hide Magnitude, Times, Value;
    }
    hide Cong, Magnitude, Value, Times;
    CongSym(c', c);
    CongRefl(p.x);
    CongRefl(p.y);
    CongTimes(c, c', c, c');
    CongTimes(Sq(c), Sq(c'), c, c');
    CongTimes(p.x, p.x, Sq(c), Sq(c'));
    CongTimes(p.y, p.y, Cu(c), Cu(c'));
    CongTrans(Value(x'), Value(x), Times(p.x, Sq(c)));
    CongTrans(Value(x'), Times(p.x, Sq(c)), Times(p.x, Sq(c')));
    CongTrans(Value(y'), Value(y), Times(p.y, Cu(c)));
    CongTrans(Value(y'), Times(p.y, Cu(c)), Times(p.y, Cu(c')));
  }

  method DoubleGeneric(x1: FieldVal, y1: FieldVal, z1: FieldVal, x3: FieldVal, y3: FieldVal, z3: FieldVal, ghost p: Point)
    requires Fermat() && p.Affine? && Good(p) && Denotes(x1.n, y1.n, z1.n, p)
    requires Apart(x1, y1, z1, x3, y3, z3)
    modifies x3, y3, z3
    ensures Denotes(x3.n, y3.n, z3.n, Sum(p, p))
  {
    hide Rep, Denotes, Cong, Good, OnCurve, Fermat, Slope, Times, Sq, Cu, Value;
    ghost var c := Value(z1.n);
    DenotesReps(x1.n, y1.n, z1.n, p);
    ghost var y, t := Times(p.y, Cu(c)), 2 * Times(Times(p.y, Cu(c)), c);
    DoubleNonzero(p, c, y);
    z3.n := Mul(y1.n, z1.n, y, c, 2, 1);
    z3.n := MulInt(z3.n, 2, Times(y, c), 1);                 // Z3 = 2*Y1*Z1 (mag: 2)
    DoubleXY(x1, y1, x3, y3, p, c, t);
    z3.n := Normalize(z3.n, t, 2);
    DoubleDenoted(x3.n, y3.n, z3.n, p, t);
  }

  lemma DoubleDenoted(x: Limbs, y: Limbs, z: Limbs, p: Point, t: int)
    requires p.Affine? && Good(p) && t % P != 0 && Rep(z, t, 1)
    requires Rep(x, Times(ThirdX(Slope(p, p), p, p.x), Sq(t)), 1)
    requires Rep(y, Times(ThirdY(Slope(p, p), p, p.x), Cu(t)), 1)
    ensures Denotes(x, y, z, Sum(p, p))
  {
    hide Denotes, Slope, Times, Cong, Magnitude;
    var l := Slope(p, p);
    MagnitudeMonotone(y, 1, 2);
    DenotesIntro(x, y, z, ThirdX(l, p, p.x), ThirdY(l, p, p.x), t);
  }

  method DoubleZ1EqualsOne(x1: FieldVal, y1: FieldVal, ghost z1: FieldVal, x3: FieldVal, y3: FieldVal, z3: FieldVal,
                           ghost p: Point)
    requires Fermat() && p.Affine? && Good(p) && Denotes(x1.n, y1.n, z1.n, p) && z1.n == ONE
    requires Apart(x1, y1, z1, x3, y3, z3)
    modifies x3, y3, z3
    ensures Denotes(x3.n, y3.n, z3.n, Sum(p, p))
  {
    assert Value(ONE) == 1;
    hide Rep, Denotes, Cong, Good, OnCurve, Fermat, Slope, Times, Sq, Cu, Value;
    DenotesReps(x1.n, y1.n, z1.n, p);
    ghost var y, t := Times(p.y, Cu(1)), 2 * Times(Times(p.y, Cu(1)), 1);
    DoubleNonzero(p, 1, y);
    IsTimes(y, 1);
    z3.n := MulInt(y1.n, 2, y, 2);                           // Z3 = 2*Y1 (mag: 4)
    DoubleXY(x1, y1, x3, y3, p, 1, t);
    z3.n := Normalize(z3.n, t, 4);
    DoubleDenoted(x3.n, y3.n, z3.n, p, t);
  }

  lemma NonzeroWords(x: Limbs, y: Limbs, z: Limbs, p: Point)
    requires Fermat() && Good(p) && Denotes(x, y, z, p) && p.Affine?
    ensures y != ZERO && z != ZERO
  {
    hide Denotes, Rep, Value, Good, Fermat, Times, Cu, Sq, OnCurve;
    DenotesReps(x, y, z, p);
    GoodParts(p);
    var c := Value(z);
    NonzeroPowers(c);
    NonzeroTimes(p.y, Cu(c));
    NotZero(y, Times(p.y, Cu(c)), 2);
    NotZero(z, c, 1);
  }

  lemma NotZero(l: Limbs, v: int, m: int)
    requires Rep(l, v, m) && v % P != 0
    ensures l != ZERO
  {
    hide Magnitude;
    if l == ZERO {
      assert Value(l) == 0;
      CongSym(0, v);
      CongZero(v);
    }
  }

  lemma NormalizedSame(l: Limbs, l': Limbs)
    requires Rep(l', Value(l), 1) && Canonical(l')
    ensures Same(l, l')
  {
  }

  lemma ZeroDenotes()
    ensures Denotes(ZERO, ZERO, ZERO, Infinity)
  {
  }

  method DoubleJacobian(x1: FieldVal, y1: FieldVal, z1: FieldVal, x3: FieldVal, y3: FieldVal, z3: FieldVal, ghost p: Point)
    requires Fermat() && Good(p) && Denotes(x1.n, y1.n, z1.n, p)
    requires Apart(x1, y1, z1, x3, y3, z3)
    modifies z1, x3, y3, z3
    ensures Denotes(x3.n, y3.n, z3.n, Sum(p, p))
    ensures z1 != z3 ==> Same(old(z1.n), z1.n)
  {
    hide Denotes, Good, OnCurve, Fermat, Same, Value, Rep, Slope, Third;
    ZeroDenotes();
    if p.Affine? {
      NonzeroWords(x1.n, y1.n, z1.n, p);
    }
    if y1.n == ZERO || z1.n == ZERO {
      x3.n, y3.n, z3.n := ZERO, ZERO, ZERO;
      SameRefl(old(z1.n));
      return;
    }
    InfinityZero(x1.n, y1.n, z1.n, p);
    DenotesReps(x1.n, y1.n, z1.n, p);
    z1.n := Normalize(z1.n, Value(z1.n), 1);
    NormalizedSame(old(z1.n), z1.n);
    SameRefl(x1.n);
    SameRefl(y1.n);
    DenotesSame(x1.n, y1.n, old(z1.n), x1.n, y1.n, z1.n, p);
    if z1.n == ONE {
      DoubleZ1EqualsOne(x1, y1, z1, x3, y3, z3, p);
    } else {
      DoubleGeneric(x1, y1, z1, x3, y3, z3, p);
    }
  }

  lemma SameRefl(l: Limbs)
    ensures Same(l, l)
  {
  }

  lemma InfinityZero(x: Limbs, y: Limbs, z: Limbs, p: Point)
    requires Denotes(x, y, z, p)
    ensures p.Infinity? ==> z == ZERO
  {
  }

  // ----- addition

  /** Bringing a point with z coordinate c1 to the common z coordinate w = c1 * c2. */
  lemma CommonZ(px: int, py: int, c1: int, c2: int, w: int)
    requires w == Times(c1, c2) || w == Times(c2, c1)
    ensures Times(Times(px, Sq(c1)), Sq(c2)) == Times(px, Sq(w))
    ensures Times(Times(Times(py, Cu(c1)), Sq(c2)), c2) == Times(py, Cu(w))
  {
    hide Times, Sq, Cu;
    IsTimes(c1, c2);
    IsTimes(c2, c1);
    IsSq(c1);
    IsSq(c2);
    IsSq(w);
    IsCu(c1);
    IsCu(w);
    IsTimes(px, c1 * c1);
    IsTimes(px * (c1 * c1), c2 * c2);
    IsTimes(px, w * w);
    IsTimes(py, c1 * c1 * c1);
    IsTimes(py * (c1 * c1 * c1), c2 * c2);
    IsTimes(py * (c1 * c1 * c1) * (c2 * c2), c2);
    IsTimes(py, w * w * w);
    CommonProducts(px, py, c1, c2);
  }

  lemma CommonProducts(px: int, py: int, a: int, b: int)
    ensures px * (a * a) * (b * b) == px * ((a * b) * (a * b))
    ensures py * (a * a * a) * (b * b) * b == py * ((a * b) * (a * b) * (a * b))
  {
    assert (a * a) * (b * b) == (a * b) * (a * b);
    assert (a * a * a) * (b * b * b) == (a * b) * (a * b) * (a * b);
    assert py * (a * a * a) * (b * b) * b == py * ((a * a * a) * (b * b * b));
  }

  /** Equal scaled coordinates are equal coordinates. */
  lemma SameScaled(a: int, b: int, k: int)
    requires Fermat() && k % P != 0 && 0 <= a < P && 0 <= b < P
    ensures Cong(Times(a, k), Times(b, k)) <==> a == b
  {
    CongRefl(Times(a, k));
    hide Fermat, Cong, Times;
    IsTimes(a, k);
    IsTimes(b, k);
    if Cong(Times(a, k), Times(b, k)) {
      Cancel(a, b, k);
      CongRange(a, b);
    }
  }

  /** H = d*w^2 and t = 2*d*w^3 give J = H*(2H)^2 = d*t^2, V = px*t^2 and 2*S1*J = py*t^3. */
  lemma ChordScaled(px: int, py: int, qx: int, w: int, h: int, t: int)
    requires h == Times(qx, Sq(w)) - Times(px, Sq(w)) && t == 2 * Times(qx - px, Cu(w))
    ensures Times(h, Sq(2 * h)) == Times(qx, Sq(t)) - Times(px, Sq(t))
    ensures Times(Times(px, Sq(w)), Sq(2 * h)) == Times(px, Sq(t))
    ensures 2 * Times(Times(py, Cu(w)), Times(h, Sq(2 * h))) == Times(py, Cu(t))
    ensures t == 2 * Times(w, h)
  {
    hide Times, Sq, Cu;
    var d := qx - px;
    IsSq(w);
    IsCu(w);
    IsTimes(qx, w * w);
    IsTimes(px, w * w);
    IsTimes(d, w * w * w);
    assert h == d * (w * w);
    IsSq(2 * h);
    IsSq(t);
    IsCu(t);
    IsTimes(h, 2 * h * (2 * h));
    IsTimes(qx, t * t);
    IsTimes(px, t * t);
    IsTimes(px * (w * w), 2 * h * (2 * h));
    IsTimes(py, w * w * w);
    IsTimes(py, t * t * t);
    IsTimes(w, h);
    ChordProducts(px, py, d, w, h, t);
    IsTimes(py * (w * w * w), d * (t * t));
  }

  lemma ChordProducts(px: int, py: int, d: int, w: int, h: int, t: int)
    requires h == d * (w * w) && t == 2 * (d * (w * w * w))
    ensures h * (2 * h * (2 * h)) == d * (t * t)
    ensures px * (w * w) * (2 * h * (2 * h)) == px * (t * t)
    ensures 2 * (py * (w * w * w) * (d * (t * t))) == py * (t * t * t)
    ensures t == 2 * (w * h)
  {
    var k := 2 * h;
    assert t == w * k;
    assert t * t == w * w * (k * k);
    assert h * (k * k) == d * (w * w * (k * k));
    assert 2 * (py * (w * w * w) * (d * (t * t))) == py * (2 * (d * (w * w * w)) * (t * t));
  }

  lemma ChordSlopeScaled(p: Point, q: Point, k: int)
    requires Fermat() && p.Affine? && q.Affine? && p.x != q.x && OnCurve(p) && OnCurve(q)
    ensures Cong(Times(q.y, k) - Times(p.y, k), Times(Slope(p, q), Times(q.x - p.x, k)))
  {
    ChordSlope(p, q);
    hide Cong, Fermat, OnCurve, Slope, Times;
    var l, d := Slope(p, q), q.x - p.x;
    IsTimes(l, d);
    CongRefl(k);
    CongSym(Times(l, d), q.y - p.y);
    CongTimes(q.y - p.y, Times(l, d), k, k);
    TimesAssoc(l, d, k);
    TimesMinus(q.y, p.y, k);
  }

  lemma TimesMinus(a: int, b: int, k: int)
    ensures Times(a - b, k) == Times(a, k) - Times(b, k)
  {
    hide Times;
    IsTimes(a, k);
    IsTimes(b, k);
    IsTimes(a - b, k);
  }

  ghost predicate AllApart(x1: FieldVal, y1: FieldVal, z1: FieldVal, x2: FieldVal, y2: FieldVal, z2: FieldVal,
                           x3: FieldVal, y3: FieldVal, z3: FieldVal)
  {
    Apart(x1, y1, z1, x2, y2, z2) && Apart(x1, y1, z1, x3, y3, z3) && Apart(x2, y2, z2, x3, y3, z3)
  }

  lemma ChordDenoted(x: Limbs, y: Limbs, z: Limbs, p: Point, q: Point, t: int)
    requires p.Affine? && q.Affine? && p.x != q.x && t % P != 0 && Rep(z, t, 1)
    requires Rep(x, Times(ThirdX(Slope(p, q), p, q.x), Sq(t)), 1)
    requires Rep(y, Times(ThirdY(Slope(p, q), p, q.x), Cu(t)), 1)
    ensures Denotes(x, y, z, Sum(p, q))
  {
    hide Denotes, Slope, Times, Cong, Magnitude;
    var l := Slope(p, q);
    MagnitudeMonotone(y, 1, 2);
    DenotesIntro(x, y, z, ThirdX(l, p, q.x), ThirdY(l, p, q.x), t);
  }

  lemma ChordNonzero(p: Point, q: Point, w: int)
    requires Fermat() && p.Affine? && q.Affine? && OnCurve(p) && OnCurve(q) && p.x != q.x && w % P != 0
    ensures Times(q.x - p.x, Cu(w)) % P != 0 && (2 * Times(q.x - p.x, Cu(w))) % P != 0
  {
    assert (q.x - p.x) % P != 0 && 2 % P != 0 by {
      hide Cong, Times, Cu;
    }
    hide Cong, Fermat, OnCurve, Times, Cu;
    var d := q.x - p.x;
    NonzeroMul(w, w);
    NonzeroMul(w * w, w);
    NonzeroMul(d, w * w * w);
    NonzeroMul(2, d * (w * w * w));
    IsCu(w);
    IsTimes(d, w * w * w);
  }

  /** Comparing normalized scaled coordinates compares the points' coordinates. */
  lemma CompareScaled(u: Limbs, v: Limbs, a: int, b: int, k: int)
    requires Fermat() && k % P != 0 && 0 <= a < P && 0 <= b < P
    requires Canonical(u) && Canonical(v) && Rep(u, Times(a, k), 1) && Rep(v, Times(b, k), 1)
    ensures u == v <==> a == b
  {
    hide Rep, Fermat, Cong, Times, Value, Magnitude, Canonical;
    CanonicalEqual(u, v);
    SameScaled(a, b, k);
    RepParts(u, Times(a, k), 1);
    RepParts(v, Times(b, k), 1);
    CongSym(Value(u), Times(a, k));
    CongSym(Value(v), Times(b, k));
    if a == b {
      CongTrans(Value(u), Times(a, k), Value(v));
    }
    if u == v {
      CongTrans(Times(a, k), Value(u), Times(b, k));
    }
  }

  lemma RepParts(l: Limbs, v: int, m: int)
    requires Rep(l, v, m)
    ensures Magnitude(l, m) && Cong(Value(l), v)
  {
  }

  lemma NonzeroPowers(w: int)
    requires Fermat() && w % P != 0
    ensures Sq(w) % P != 0 && Cu(w) % P != 0
  {
    hide Fermat, Times, Sq, Cu;
    IsSq(w);
    IsCu(w);
    NonzeroMul(w, w);
    NonzeroMul(w * w, w);
  }

  lemma NonzeroTimes(a: int, b: int)
    requires Fermat() && a % P != 0 && b % P != 0
    ensures Times(a, b) % P != 0
  {
    hide Fermat, Times;
    IsTimes(a, b);
    NonzeroMul(a, b);
  }

  method AddGeneric(x1: FieldVal, y1: FieldVal, z1: FieldVal, x2: FieldVal, y2: FieldVal, z2: FieldVal,
                    x3: FieldVal, y3: FieldVal, z3: FieldVal, ghost p: Point, ghost q: Point)
    requires Fermat() && p.Affine? && q.Affine? && Good(p) && Good(q)
    requires Denotes(x1.n, y1.n, z1.n, p) && Denotes(x2.n, y2.n, z2.n, q)
    requires AllApart(x1, y1, z1, x2, y2, z2, x3, y3, z3)
    modifies z1, x3, y3, z3
    ensures Denotes(x3.n, y3.n, z3.n, Sum(p, q))
    ensures z1 != z3 ==> Same(old(z1.n), z1.n)
  {
    GoodParts(p);
    GoodParts(q);
    hide Rep, Denotes, Cong, Good, OnCurve, Fermat, Slope, Times, Sq, Cu, Value, Third, Same;
    ghost var c1, c2 := Value(z1.n), Value(z2.n);
    ghost var w := Times(c1, c2);
    SameRefl(z1.n);
    DenotesReps(x1.n, y1.n, z1.n, p);
    DenotesReps(x2.n, y2.n, z2.n, q);
    CommonZ(p.x, p.y, c1, c2, w);
    TimesComm(c1, c2);
    CommonZ(q.x, q.y, c2, c1, w);
    NonzeroTimes(c1, c2);
    NonzeroPowers(w);

    var z1z1 := Square(z1.n, c1, 1);                                 // Z1Z1 = Z1^2 (mag: 1)
    var z2z2 := Square(z2.n, c2, 1);                                 // Z2Z2 = Z2^2 (mag: 1)
    var u1 := Mul(x1.n, z2z2, Times(p.x, Sq(c1)), Sq(c2), 1, 1);
    u1 := Normalize(u1, Times(p.x, Sq(w)), 1);                       // U1 = X1*Z2Z2 (mag: 1)
    var u2 := Mul(x2.n, z1z1, Times(q.x, Sq(c2)), Sq(c1), 1, 1);
    u2 := Normalize(u2, Times(q.x, Sq(w)), 1);                       // U2 = X2*Z1Z1 (mag: 1)
    var s1 := Mul(y1.n, z2z2, Times(p.y, Cu(c1)), Sq(c2), 2, 1);
    s1 := Mul(s1, z2.n, Times(Times(p.y, Cu(c1)), Sq(c2)), c2, 1, 1);
    s1 := Normalize(s1, Times(p.y, Cu(w)), 1);                       // S1 = Y1*Z2*Z2Z2 (mag: 1)
    var s2 := Mul(y2.n, z1z1, Times(q.y, Cu(c2)), Sq(c1), 2, 1);
    s2 := Mul(s2, z1.n, Times(Times(q.y, Cu(c2)), Sq(c1)), c1, 1, 1);
    s2 := Normalize(s2, Times(q.y, Cu(w)), 1);                       // S2 = Y2*Z1*Z1Z1 (mag: 1)
    CompareScaled(u1, u2, p.x, q.x, Sq(w));
    CompareScaled(s1, s2, p.y, q.y, Cu(w));
    if u1 == u2 {
      if s1 == s2 {
        DoubleJacobian(x1, y1, z1, x3, y3, z3, p);
        return;
      }
      ZeroDenotes();
      x3.n, y3.n, z3.n := ZERO, ZERO, ZERO;
      return;
    }
    GenericChord(z1, z2, x3, y3, z3, u1, u2, s1, s2, z1z1, z2z2, p, q, c1, c2, w);
  }

  lemma GoodParts(p: Point)
    requires Good(p) && p.Affine?
    ensures OnCurve(p) && 0 <= p.x < P && 0 < p.y < P
  {
  }

  /** The second half of addGeneric, for points with different x coordinates. */
  method GenericChord(z1: FieldVal, z2: FieldVal, x3: FieldVal, y3: FieldVal, z3: FieldVal,
                      u1: Limbs, u2: Limbs, s1: Limbs, s2: Limbs, z1z1: Limbs, z2z2: Limbs,
                      ghost p: Point, ghost q: Point, ghost c1: int, ghost c2: int, ghost w: int)
    requires Fermat() && p.Affine? && q.Affine? && OnCurve(p) && OnCurve(q) && p.x != q.x
    requires w == Times(c1, c2) && w % P != 0
    requires Rep(z1.n, c1, 1) && Rep(z2.n, c2, 1) && Rep(z1z1, Sq(c1), 1) && Rep(z2z2, Sq(c2), 1)
    requires Rep(u1, Times(p.x, Sq(w)), 1) && Rep(u2, Times(q.x, Sq(w)), 1)
    requires Rep(s1, Times(p.y, Cu(w)), 1) && Rep(s2, Times(q.y, Cu(w)), 1)
    requires x3 != y3 && x3 != z3 && y3 != z3 && z1 != x3 && z1 != y3 && z2 != x3 && z2 != y3
    modifies x3, y3, z3
    ensures Denotes(x3.n, y3.n, z3.n, Sum(p, q))
  {
    hide Rep, Denotes, Cong, OnCurve, Fermat, Slope, Times, Sq, Cu, Value, Third, ThirdX, ThirdY;
    ghost var l := Slope(p, q);
    ghost var s1v, s2v := Times(p.y, Cu(w)), Times(q.y, Cu(w));
    ghost var u1v, u2v := Times(p.x, Sq(w)), Times(q.x, Sq(w));
    ghost var hv, t := u2v - u1v, 2 * Times(q.x - p.x, Cu(w));
    ghost var lt, vv, jv := Times(l, t), Times(p.x, Sq(t)), Times(q.x, Sq(t)) - Times(p.x, Sq(t));
    ghost var xv, yv := Times(ThirdX(l, p, q.x), Sq(t)), Times(ThirdY(l, p, q.x), Cu(t));
    ChordScaled(p.x, p.y, q.x, w, hv, t);
    ChordNonzero(p, q, w);
    ThirdScaled(l, p, q.x, t);

    var negU1 := Negate(u1, 1, u1v);                                 // negU1 = -U1 (mag: 2)
    var h := Add(u2, negU1, u2v, -u1v, 1, 2);                        // H = U2-U1 (mag: 3)
    var i := MulInt(h, 2, hv, 3);
    i := Square(i, 2 * hv, 6);                                       // I = (2*H)^2 (mag: 1)
    var j := Mul(h, i, hv, Sq(2 * hv), 3, 1);                        // J = H*I (mag: 1)
    var negS1 := Negate(s1, 1, s1v);                                 // negS1 = -S1 (mag: 2)
    var r := Add(s2, negS1, s2v, -s1v, 1, 2);
    r := MulInt(r, 2, s2v - s1v, 3);                                 // r = 2*(S2-S1) (mag: 6)
    SlopeTwice(p, q, w, t);
    RepCong(r, 2 * (s2v - s1v), lt, 6);
    var rr := Square(r, lt, 6);                                      // rr = r^2 (mag: 1)
    var v := Mul(u1, i, u1v, Sq(2 * hv), 1, 1);                      // V = U1*I (mag: 1)
    x3.n := MulInt(v, 2, vv, 1);
    x3.n := Add(x3.n, j, 2 * vv, jv, 2, 1);
    x3.n := Negate(x3.n, 3, 2 * vv + jv);                            // X3 = -(J+2*V) (mag: 4)
    x3.n := Add(x3.n, rr, -(2 * vv + jv), Sq(lt), 4, 1);             // X3 = r^2+X3 (mag: 5)
    var negX3 := Negate(x3.n, 5, xv);                                // negX3 = -X3 (mag: 6)
    y3.n := Mul(s1, j, s1v, jv, 1, 1);
    y3.n := MulInt(y3.n, 2, Times(s1v, jv), 1);
    y3.n := Negate(y3.n, 2, Times(p.y, Cu(t)));                      // Y3 = -(2*S1*J) (mag: 3)
    v := Add(v, negX3, vv, -xv, 1, 6);
    v := Mul(v, r, vv - xv, lt, 7, 6);
    y3.n := Add(y3.n, v, -Times(p.y, Cu(t)), Times(vv - xv, lt), 3, 1);   // Y3 = r*(V-X3)+Y3 (mag: 4)
    z3.n := Add(z1.n, z2.n, c1, c2, 1, 1);
    z3.n := Square(z3.n, c1 + c2, 2);                                // Z3 = (Z1+Z2)^2 (mag: 1)
    var zz := Add(z1z1, z2z2, Sq(c1), Sq(c2), 1, 1);
    zz := Negate(zz, 2, Sq(c1) + Sq(c2));
    z3.n := Add(z3.n, zz, Sq(c1 + c2), -(Sq(c1) + Sq(c2)), 1, 3);    // Z3 = Z3-(Z1Z1+Z2Z2) (mag: 4)
    CrossTerm(c1, c2, hv);
    z3.n := Mul(z3.n, h, Sq(c1 + c2) - (Sq(c1) + Sq(c2)), hv, 4, 3); // Z3 = Z3*H (mag: 1)
    x3.n := Normalize(x3.n, xv, 5);
    y3.n := Normalize(y3.n, yv, 4);
    ChordDenoted(x3.n, y3.n, z3.n, p, q, t);
  }

  /** ((a+b)^2 - a^2 - b^2) * h is 2*a*b*h. */
  lemma CrossTerm(a: int, b: int, h: int)
    ensures Sq(a + b) - (Sq(a) + Sq(b)) == 2 * Times(a, b)
    ensures Times(Sq(a + b) - (Sq(a) + Sq(b)), h) == 2 * Times(Times(a, b), h)
  {
    hide Times, Sq;
    IsSq(a + b);
    IsSq(a);
    IsSq(b);
    IsTimes(a, b);
    assert (a + b) * (a + b) == a * a + b * b + 2 * (a * b);
    var k := Times(a, b);
    IsTimes(2 * k, h);
    IsTimes(k, h);
  }

  lemma SlopeTwice(p: Point, q: Point, w: int, t: int)
    requires Fermat() && p.Affine? && q.Affine? && p.x != q.x && OnCurve(p) && OnCurve(q)
    requires t == 2 * Times(q.x - p.x, Cu(w))
    ensures Cong(2 * (Times(q.y, Cu(w)) - Times(p.y, Cu(w))), Times(Slope(p, q), t))
  {
    ChordSlopeScaled(p, q, Cu(w));
    hide Cong, Fermat, OnCurve, Slope, Times, Cu;
    var a, k := Times(q.y, Cu(w)) - Times(p.y, Cu(w)), Times(q.x - p.x, Cu(w));
    CongAdd(a, Times(Slope(p, q), k), a, Times(Slope(p, q), k));
    TimesTwice(Slope(p, q), k);
  }

  lemma TimesTwice(a: int, k: int)
    ensures Times(a, 2 * k) == 2 * Times(a, k)
  {
    hide Times;
    IsTimes(a, k);
    IsTimes(a, 2 * k);
  }

  method NormalizeInPlace(f: FieldVal, ghost m: int)
    requires Magnitude(f.n, m) && m <= 32
    modifies f
    ensures Canonical(f.n) && Same(old(f.n), f.n)
  {
    hide Magnitude, Value, Cong, Canonical;
    CongRefl(Value(f.n));
    f.n := Normalize(f.n, Value(f.n), m);
    NormalizedSame(old(f.n), f.n);
  }

  lemma DenotesMagnitudes(x: Limbs, y: Limbs, z: Limbs, p: Point)
    requires Denotes(x, y, z, p)
    ensures Magnitude(x, 1) && Magnitude(y, 2) && Magnitude(z, 1)
  {
  }

  method AddZ2EqualsOne(x1: FieldVal, y1: FieldVal, z1: FieldVal, x2: FieldVal, y2: FieldVal, ghost z2: FieldVal,
                        x3: FieldVal, y3: FieldVal, z3: FieldVal, ghost p: Point, ghost q: Point)
    requires Fermat() && p.Affine? && q.Affine? && Good(p) && Good(q)
    requires Denotes(x1.n, y1.n, z1.n, p) && Denotes(x2.n, y2.n, z2.n, q) && z2.n == ONE
    requires AllApart(x1, y1, z1, x2, y2, z2, x3, y3, z3)
    modifies x1, y1, z1, x3, y3, z3
    ensures Denotes(x3.n, y3.n, z3.n, Sum(p, q))
    ensures x1 != x3 ==> Same(old(x1.n), x1.n)
    ensures y1 != y3 ==> Same(old(y1.n), y1.n)
    ensures z1 != z3 ==> Same(old(z1.n), z1.n)
  {
    GoodParts(p);
    GoodParts(q);
    assert Value(ONE) == 1;
    hide Rep, Denotes, Cong, Good, OnCurve, Fermat, Slope, Times, Sq, Cu, Value, Third, Same, Magnitude, Canonical;
    DenotesMagnitudes(x1.n, y1.n, z1.n, p);
    NormalizeInPlace(x1, 1);
    NormalizeInPlace(y1, 2);
    SameRefl(old(x2.n));
    SameRefl(old(y2.n));
    SameRefl(old(z1.n));
    SameRefl(old(z2.n));
    DenotesSame(old(x1.n), old(y1.n), old(z1.n), x1.n, y1.n, z1.n, p);
    DenotesSame(old(x2.n), old(y2.n), old(z2.n), x2.n, y2.n, z2.n, q);
    ghost var c := Value(z1.n);
    DenotesReps(x1.n, y1.n, z1.n, p);
    DenotesReps(x2.n, y2.n, z2.n, q);
    IsTimes(1, c);
    CommonZ(q.x, q.y, 1, c, c);
    NonzeroPowers(c);
    RepCanonical(y1.n, Times(p.y, Cu(c)), 2);

    var z1z1 := Square(z1.n, c, 1);                                  // Z1Z1 = Z1^2 (mag: 1)
    var u2 := Mul(x2.n, z1z1, Times(q.x, Sq(1)), Sq(c), 1, 1);
    u2 := Normalize(u2, Times(q.x, Sq(c)), 1);                       // U2 = X2*Z1Z1 (mag: 1)
    var s2 := Mul(y2.n, z1z1, Times(q.y, Cu(1)), Sq(c), 2, 1);
    s2 := Mul(s2, z1.n, Times(Times(q.y, Cu(1)), Sq(c)), c, 1, 1);
    s2 := Normalize(s2, Times(q.y, Cu(c)), 1);                       // S2 = Y2*Z1*Z1Z1 (mag: 1)
    CompareScaled(x1.n, u2, p.x, q.x, Sq(c));
    CompareScaled(y1.n, s2, p.y, q.y, Cu(c));
    if x1.n == u2 {
      if y1.n == s2 {
        DoubleJacobian(x1, y1, z1, x3, y3, z3, p);
        return;
      }
      ZeroDenotes();
      x3.n, y3.n, z3.n := ZERO, ZERO, ZERO;
      return;
    }
    MixedChord(x1, y1, z1, x3, y3, z3, u2, s2, z1z1, p, q, c);
  }

  lemma RepCanonical(l: Limbs, v: int, m: int)
    requires Rep(l, v, m) && Canonical(l)
    ensures Rep(l, v, 1)
  {
    hide Magnitude, Cong, Value;
    CanonicalMagnitude(l);
  }

  /** The second half of addZ2EqualsOne, for points with different x coordinates. */
  method MixedChord(x1: FieldVal, y1: FieldVal, z1: FieldVal, x3: FieldVal, y3: FieldVal, z3: FieldVal,
                    u2: Limbs, s2: Limbs, z1z1: Limbs, ghost p: Point, ghost q: Point, ghost c: int)
    requires Fermat() && p.Affine? && q.Affine? && OnCurve(p) && OnCurve(q) && p.x != q.x && c % P != 0
    requires Rep(x1.n, Times(p.x, Sq(c)), 1) && Rep(y1.n, Times(p.y, Cu(c)), 1)
    requires Rep(z1.n, c, 1) && Rep(z1z1, Sq(c), 1)
    requires Rep(u2, Times(q.x, Sq(c)), 1) && Rep(s2, Times(q.y, Cu(c)), 1)
    requires Apart(x1, y1, z1, x3, y3, z3)
    modifies x3, y3, z3
    ensures Denotes(x3.n, y3.n, z3.n, Sum(p, q))
  {
    hide Rep, Denotes, Cong, OnCurve, Fermat, Slope, Times, Sq, Cu, Value, Third, ThirdX, ThirdY;
    ghost var l := Slope(p, q);
    ghost var y1v, s2v := Times(p.y, Cu(c)), Times(q.y, Cu(c));
    ghost var x1v, u2v := Times(p.x, Sq(c)), Times(q.x, Sq(c));
    ghost var hv, t := u2v - x1v, 2 * Times(q.x - p.x, Cu(c));
    ghost var lt, vv, jv := Times(l, t), Times(p.x, Sq(t)), Times(q.x, Sq(t)) - Times(p.x, Sq(t));
    ghost var xv, yv := Times(ThirdX(l, p, q.x), Sq(t)), Times(ThirdY(l, p, q.x), Cu(t));
    ChordScaled(p.x, p.y, q.x, c, hv, t);
    ChordNonzero(p, q, c);
    ThirdScaled(l, p, q.x, t);
    FourSquares(hv);
    CrossTerm(c, hv, 0);

    var negX1 := Negate(x1.n, 1, x1v);                               // negX1 = -X1 (mag: 2)
    var h := Add(u2, negX1, u2v, -x1v, 1, 2);                        // H = U2-X1 (mag: 3)
    var hh := Square(h, hv, 3);                                      // HH = H^2 (mag: 1)
    var i := MulInt(hh, 4, Sq(hv), 1);                               // I = 4 * HH (mag: 4)
    var j := Mul(h, i, hv, Sq(2 * hv), 3, 4);                        // J = H*I (mag: 1)
    var negY1 := Negate(y1.n, 1, y1v);                               // negY1 = -Y1 (mag: 2)
    var r := Add(s2, negY1, s2v, -y1v, 1, 2);
    r := MulInt(r, 2, s2v - y1v, 3);                                 // r = 2*(S2-Y1) (mag: 6)
    SlopeTwice(p, q, c, t);
    RepCong(r, 2 * (s2v - y1v), lt, 6);
    var rr := Square(r, lt, 6);                                      // rr = r^2 (mag: 1)
    var v := Mul(x1.n, i, x1v, Sq(2 * hv), 1, 4);                    // V = X1*I (mag: 1)
    x3.n := MulInt(v, 2, vv, 1);
    x3.n := Add(x3.n, j, 2 * vv, jv, 2, 1);
    x3.n := Negate(x3.n, 3, 2 * vv + jv);                            // X3 = -(J+2*V) (mag: 4)
    x3.n := Add(x3.n, rr, -(2 * vv + jv), Sq(lt), 4, 1);             // X3 = r^2+X3 (mag: 5)
    var negX3 := Negate(x3.n, 5, xv);                                // negX3 = -X3 (mag: 6)
    y3.n := Mul(y1.n, j, y1v, jv, 1, 1);
    y3.n := MulInt(y3.n, 2, Times(y1v, jv), 1);
    y3.n := Negate(y3.n, 2, Times(p.y, Cu(t)));                      // Y3 = -(2*Y1*J) (mag: 3)
    v := Add(v, negX3, vv, -xv, 1, 6);
    v := Mul(v, r, vv - xv, lt, 7, 6);
    y3.n := Add(y3.n, v, -Times(p.y, Cu(t)), Times(vv - xv, lt), 3, 1);   // Y3 = r*(V-X3)+Y3 (mag: 4)
    z3.n := Add(z1.n, h, c, hv, 1, 3);
    z3.n := Square(z3.n, c + hv, 4);                                 // Z3 = (Z1+H)^2 (mag: 1)
    var zz := Add(z1z1, hh, Sq(c), Sq(hv), 1, 1);
    zz := Negate(zz, 2, Sq(c) + Sq(hv));
    z3.n := Add(z3.n, zz, Sq(c + hv), -(Sq(c) + Sq(hv)), 1, 3);      // Z3 = Z3-(Z1Z1+HH) (mag: 4)
    x3.n := Normalize(x3.n, xv, 5);
    y3.n := Normalize(y3.n, yv, 4);
    z3.n := Normalize(z3.n, t, 4);
    ChordDenoted(x3.n, y3.n, z3.n, p, q, t);
  }

  lemma FourSquares(h: int)
    ensures 4 * Sq(h) == Sq(2 * h)
  {
    hide Times, Sq;
    IsSq(h);
    IsSq(2 * h);
  }

  lemma RepMonotone(l: Limbs, v: int, m: int, k: int)
    requires Rep(l, v, m) && m <= k
    ensures Rep(l, v, k)
  {
    hide Cong, Value;
    MagnitudeMonotone(l, m, k);
  }

  /** Normalizes the four coordinates that the two routines for equal z values compare. */
  method NormalizeBoth(x1: FieldVal, y1: FieldVal, ghost z1: FieldVal, x2: FieldVal, y2: FieldVal, ghost z2: FieldVal,
                       ghost p: Point, ghost q: Point)
    requires Denotes(x1.n, y1.n, z1.n, p) && Denotes(x2.n, y2.n, z2.n, q) && Apart(x1, y1, z1, x2, y2, z2)
    modifies x1, y1, x2, y2
    ensures Denotes(x1.n, y1.n, z1.n, p) && Denotes(x2.n, y2.n, z2.n, q)
    ensures Canonical(x1.n) && Canonical(y1.n) && Canonical(x2.n) && Canonical(y2.n)
    ensures Same(old(x1.n), x1.n) && Same(old(y1.n), y1.n) && Same(old(x2.n), x2.n) && Same(old(y2.n), y2.n)
  {
    hide Denotes, Magnitude, Same, Canonical, Value, Cong;
    DenotesMagnitudes(x1.n, y1.n, z1.n, p);
    DenotesMagnitudes(x2.n, y2.n, z2.n, q);
    NormalizeInPlace(x1, 1);
    NormalizeInPlace(y1, 2);
    ghost var x2', y2' := x2.n, y2.n;
    SameRefl(old(x2.n));
    SameRefl(old(y2.n));
    SameRefl(z1.n);
    SameRefl(z2.n);
    SameMagnitude(old(x2.n), x2.n, 1);
    SameMagnitude(old(y2.n), y2.n, 2);
    NormalizeInPlace(x2, 1);
    NormalizeInPlace(y2, 2);
    CanonicalSame(x2', x2.n);
    CanonicalSame(y2', y2.n);
    SameTrans(old(x2.n), x2', x2.n);
    SameTrans(old(y2.n), y2', y2.n);
    DenotesSame(old(x1.n), old(y1.n), z1.n, x1.n, y1.n, z1.n, p);
    DenotesSame(old(x2.n), old(y2.n), z2.n, x2.n, y2.n, z2.n, q);
  }

  lemma SameTrans(a: Limbs, b: Limbs, c: Limbs)
    requires Same(a, b) && Same(b, c)
    ensures Same(a, c)
  {
    hide Canonical, Value;
  }

  /** A normal form is its own normal form. */
  lemma CanonicalSame(a: Limbs, b: Limbs)
    requires Same(a, b)
    ensures Canonical(a) && Canonical(b) ==> a == b
  {
    hide Canonical, Value, Cong;
    if Canonical(a) && Canonical(b) && a != b {
      CanonicalEqual(a, b);
      CongSym(Value(b), Value(a));
    }
  }

  method AddZ1EqualsZ2(x1: FieldVal, y1: FieldVal, z1: FieldVal, x2: FieldVal, y2: FieldVal, ghost z2: FieldVal,
                       x3: FieldVal, y3: FieldVal, z3: FieldVal, ghost p: Point, ghost q: Point)
    requires Fermat() && p.Affine? && q.Affine? && Good(p) && Good(q)
    requires Denotes(x1.n, y1.n, z1.n, p) && Denotes(x2.n, y2.n, z2.n, q)
    requires z1.n == z2.n && AllApart(x1, y1, z1, x2, y2, z2, x3, y3, z3)
    modifies x1, y1, z1, x2, y2, x3, y3, z3
    ensures Denotes(x3.n, y3.n, z3.n, Sum(p, q))
    ensures x1 != x3 ==> Same(old(x1.n), x1.n)
    ensures y1 != y3 ==> Same(old(y1.n), y1.n)
    ensures z1 != z3 ==> Same(old(z1.n), z1.n)
    ensures x2 != x3 ==> Same(old(x2.n), x2.n)
    ensures y2 != y3 ==> Same(old(y2.n), y2.n)
  {
    GoodParts(p);
    GoodParts(q);
    hide Rep, Denotes, Cong, Good, OnCurve, Fermat, Slope, Times, Sq, Cu, Value, Third, Same, Magnitude, Canonical;
    SameRefl(z1.n);
    NormalizeBoth(x1, y1, z1, x2, y2, z2, p, q);
    ghost var c := Value(z1.n);
    DenotesReps(x1.n, y1.n, z1.n, p);
    DenotesReps(x2.n, y2.n, z2.n, q);
    NonzeroPowers(c);
    RepCanonical(y1.n, Times(p.y, Cu(c)), 2);
    RepCanonical(y2.n, Times(q.y, Cu(c)), 2);
    CompareScaled(x1.n, x2.n, p.x, q.x, Sq(c));
    CompareScaled(y1.n, y2.n, p.y, q.y, Cu(c));
    if x1.n == x2.n {
      if y1.n == y2.n {
        DoubleJacobian(x1, y1, z1, x3, y3, z3, p);
        return;
      }
      ZeroDenotes();
      x3.n, y3.n, z3.n := ZERO, ZERO, ZERO;
      return;
    }
    EqualZChord(x1, y1, z1, x2, y2, x3, y3, z3, p, q, c);
  }

  /** a = d*c^2 and t = d*c^3 give x1*a^2 = px*t^2, x2*a^2 = qx*t^2 and y1*d*t^2 = py*t^3. */
  lemma EqualZScaled(px: int, py: int, qx: int, c: int, a: int, t: int)
    requires a == Times(qx, Sq(c)) - Times(px, Sq(c)) && t == Times(qx - px, Cu(c))
    ensures Times(Times(px, Sq(c)), Sq(a)) == Times(px, Sq(t))
    ensures Times(Times(qx, Sq(c)), Sq(a)) == Times(qx, Sq(t))
    ensures Times(Times(py, Cu(c)), Times(qx, Sq(t)) - Times(px, Sq(t))) == Times(py, Cu(t))
    ensures t == Times(c, a)
  {
    hide Times, Sq, Cu;
    var d := qx - px;
    IsSq(c);
    IsCu(c);
    IsTimes(qx, c * c);
    IsTimes(px, c * c);
    IsTimes(d, c * c * c);
    assert a == d * (c * c);
    IsSq(a);
    IsSq(t);
    IsCu(t);
    IsTimes(px * (c * c), a * a);
    IsTimes(qx * (c * c), a * a);
    IsTimes(qx, t * t);
    IsTimes(px, t * t);
    IsTimes(py, c * c * c);
    IsTimes(py, t * t * t);
    IsTimes(c, a);
    EqualZProducts(px, py, d, c, a, t);
    EqualZProducts(qx, py, d, c, a, t);
    IsTimes(py * (c * c * c), d * (t * t));
  }

  lemma EqualZProducts(x: int, py: int, d: int, c: int, a: int, t: int)
    requires a == d * (c * c) && t == d * (c * c * c)
    ensures x * (c * c) * (a * a) == x * (t * t)
    ensures py * (c * c * c) * (d * (t * t)) == py * (t * t * t)
    ensures t == c * a
  {
    assert t == c * a;
    assert t * t == c * c * (a * a);
    assert py * (c * c * c) * (d * (t * t)) == py * (d * (c * c * c) * (t * t));
  }

  /** The second half of addZ1EqualsZ2, for points with different x coordinates. */
  method EqualZChord(x1: FieldVal, y1: FieldVal, z1: FieldVal, x2: FieldVal, y2: FieldVal,
                     x3: FieldVal, y3: FieldVal, z3: FieldVal, ghost p: Point, ghost q: Point, ghost c: int)
    requires Fermat() && p.Affine? && q.Affine? && OnCurve(p) && OnCurve(q) && p.x != q.x && c % P != 0
    requires Rep(x1.n, Times(p.x, Sq(c)), 1) && Rep(y1.n, Times(p.y, Cu(c)), 1) && Rep(z1.n, c, 1)
    requires Rep(x2.n, Times(q.x, Sq(c)), 1) && Rep(y2.n, Times(q.y, Cu(c)), 1)
    requires Apart(x1, y1, z1, x3, y3, z3)
    modifies x3, y3, z3
    ensures Denotes(x3.n, y3.n, z3.n, Sum(p, q))
  {
    hide Rep, Denotes, Cong, OnCurve, Fermat, Slope, Times, Sq, Cu, Value, Third, ThirdX, ThirdY;
    ghost var l := Slope(p, q);
    ghost var x1v, x2v, y1v, y2v := Times(p.x, Sq(c)), Times(q.x, Sq(c)), Times(p.y, Cu(c)), Times(q.y, Cu(c));
    ghost var av, t := x2v - x1v, Times(q.x - p.x, Cu(c));
    ghost var lt, ev, fv := Times(l, t), Times(p.x, Sq(t)), Times(q.x, Sq(t));
    ghost var xv, yv := Times(ThirdX(l, p, q.x), Sq(t)), Times(ThirdY(l, p, q.x), Cu(t));
    EqualZScaled(p.x, p.y, q.x, c, av, t);
    ChordNonzero(p, q, c);
    ThirdScaled(l, p, q.x, t);
    ChordSlopeScaled(p, q, Cu(c));

    var negX1 := Negate(x1.n, 1, x1v);                               // negX1 = -X1 (mag: 2)
    var negY1 := Negate(y1.n, 1, y1v);                               // negY1 = -Y1 (mag: 2)
    var a := Add(negX1, x2.n, -x1v, x2v, 2, 1);                      // A = X2-X1 (mag: 3)
    var b := Square(a, av, 3);                                       // B = A^2 (mag: 1)
    var cc := Add(negY1, y2.n, -y1v, y2v, 2, 1);                     // C = Y2-Y1 (mag: 3)
    RepCong(cc, y2v - y1v, lt, 3);
    var d := Square(cc, lt, 3);                                      // D = C^2 (mag: 1)
    var e := Mul(x1.n, b, x1v, Sq(av), 1, 1);                        // E = X1*B (mag: 1)
    var negE := Negate(e, 1, ev);                                    // negE = -E (mag: 2)
    var f := Mul(x2.n, b, x2v, Sq(av), 1, 1);                        // F = X2*B (mag: 1)
    x3.n := Add(e, f, ev, fv, 1, 1);
    RepMonotone(x3.n, ev + fv, 2, 3);
    x3.n := Negate(x3.n, 3, ev + fv);
    x3.n := Add(x3.n, d, -(ev + fv), Sq(lt), 4, 1);                  // X3 = D-E-F (mag: 5)
    var negX3 := Negate(x3.n, 5, xv);
    negX3 := Normalize(negX3, -xv, 6);                               // negX3 = -X3 (mag: 1)
    f := Add(f, negE, fv, -ev, 1, 2);
    y3.n := Mul(y1.n, f, y1v, fv - ev, 1, 3);
    RepMonotone(y3.n, Times(p.y, Cu(t)), 1, 3);
    y3.n := Negate(y3.n, 3, Times(p.y, Cu(t)));                      // Y3 = -(Y1*(F-E)) (mag: 4)
    e := Add(e, negX3, ev, -xv, 1, 1);
    e := Mul(e, cc, ev - xv, lt, 2, 3);
    y3.n := Add(y3.n, e, -Times(p.y, Cu(t)), Times(ev - xv, lt), 4, 1);   // Y3 = C*(E-X3)+Y3 (mag: 5)
    z3.n := Mul(z1.n, a, c, av, 1, 3);                               // Z3 = Z1*A (mag: 1)
    x3.n := Normalize(x3.n, xv, 5);
    y3.n := Normalize(y3.n, yv, 5);
    ChordDenoted(x3.n, y3.n, z3.n, p, q, t);
  }

  method AddZ1AndZ2EqualsOne(x1: FieldVal, y1: FieldVal, z1: FieldVal, x2: FieldVal, y2: FieldVal, ghost z2: FieldVal,
                             x3: FieldVal, y3: FieldVal, z3: FieldVal, ghost p: Point, ghost q: Point)
    requires Fermat() && p.Affine? && q.Affine? && Good(p) && Good(q)
    requires Denotes(x1.n, y1.n, z1.n, p) && Denotes(x2.n, y2.n, z2.n, q)
    requires z1.n == ONE && z2.n == ONE && AllApart(x1, y1, z1, x2, y2, z2, x3, y3, z3)
    modifies x1, y1, z1, x2, y2, x3, y3, z3
    ensures Denotes(x3.n, y3.n, z3.n, Sum(p, q))
    ensures x1 != x3 ==> Same(old(x1.n), x1.n)
    ensures y1 != y3 ==> Same(old(y1.n), y1.n)
    ensures z1 != z3 ==> Same(old(z1.n), z1.n)
    ensures x2 != x3 ==> Same(old(x2.n), x2.n)
    ensures y2 != y3 ==> Same(old(y2.n), y2.n)
  {
    GoodParts(p);
    GoodParts(q);
    assert Value(ONE) == 1;
    hide Rep, Denotes, Cong, Good, OnCurve, Fermat, Slope, Times, Sq, Cu, Value, Third, Same, Magnitude, Canonical;
    SameRefl(z1.n);
    NormalizeBoth(x1, y1, z1, x2, y2, z2, p, q);
    DenotesReps(x1.n, y1.n, z1.n, p);
    DenotesReps(x2.n, y2.n, z2.n, q);
    NonzeroPowers(1);
    RepCanonical(y1.n, Times(p.y, Cu(1)), 2);
    RepCanonical(y2.n, Times(q.y, Cu(1)), 2);
    CompareScaled(x1.n, x2.n, p.x, q.x, Sq(1));
    CompareScaled(y1.n, y2.n, p.y, q.y, Cu(1));
    if x1.n == x2.n {
      if y1.n == y2.n {
        DoubleJacobian(x1, y1, z1, x3, y3, z3, p);
        return;
      }
      ZeroDenotes();
      x3.n, y3.n, z3.n := ZERO, ZERO, ZERO;
      return;
    }
    AffineChord(x1, y1, x2, y2, x3, y3, z3, p, q);
  }

  /** The second half of addZ1AndZ2EqualsOne, for points with different x coordinates. */
  method AffineChord(x1: FieldVal, y1: FieldVal, x2: FieldVal, y2: FieldVal, x3: FieldVal, y3: FieldVal, z3: FieldVal,
                     ghost p: Point, ghost q: Point)
    requires Fermat() && p.Affine? && q.Affine? && OnCurve(p) && OnCurve(q) && p.x != q.x
    requires Rep(x1.n, Times(p.x, Sq(1)), 1) && Rep(y1.n, Times(p.y, Cu(1)), 1)
    requires Rep(x2.n, Times(q.x, Sq(1)), 1) && Rep(y2.n, Times(q.y, Cu(1)), 1)
    requires x3 != y3 && x3 != z3 && y3 != z3 && x3 != y1
    modifies x3, y3, z3
    ensures Denotes(x3.n, y3.n, z3.n, Sum(p, q))
  {
    hide Rep, Denotes, Cong, OnCurve, Fermat, Slope, Times, Sq, Cu, Value, Third, ThirdX, ThirdY;
    ghost var l := Slope(p, q);
    ghost var x1v, x2v, y1v, y2v := Times(p.x, Sq(1)), Times(q.x, Sq(1)), Times(p.y, Cu(1)), Times(q.y, Cu(1));
    ghost var hv, t := x2v - x1v, 2 * Times(q.x - p.x, Cu(1));
    ghost var lt, vv, jv := Times(l, t), Times(p.x, Sq(t)), Times(q.x, Sq(t)) - Times(p.x, Sq(t));
    ghost var xv, yv := Times(ThirdX(l, p, q.x), Sq(t)), Times(ThirdY(l, p, q.x), Cu(t));
    ChordScaled(p.x, p.y, q.x, 1, hv, t);
    IsTimes(1, hv);
    ChordNonzero(p, q, 1);
    ThirdScaled(l, p, q.x, t);
    FourSquares(hv);
    TimesComm(jv, y1v);

    var h := Negate(x1.n, 1, x1v);
    h := Add(h, x2.n, -x1v, x2v, 2, 1);                              // H = X2-X1 (mag: 3)
    var i := Square(h, hv, 3);
    i := MulInt(i, 4, Sq(hv), 1);                                    // I = 4*H^2 (mag: 4)
    var j := Mul(h, i, hv, Sq(2 * hv), 3, 4);                        // J = H*I (mag: 1)
    var r := Negate(y1.n, 1, y1v);
    r := Add(r, y2.n, -y1v, y2v, 2, 1);
    r := MulInt(r, 2, y2v - y1v, 3);                                 // r = 2*(Y2-Y1) (mag: 6)
    SlopeTwice(p, q, 1, t);
    RepCong(r, 2 * (y2v - y1v), lt, 6);
    var v := Mul(x1.n, i, x1v, Sq(2 * hv), 1, 4);                    // V = X1*I (mag: 1)
    var negJ := Negate(j, 1, jv);                                    // negJ = -J (mag: 2)
    var neg2V := MulInt(v, 2, vv, 1);
    neg2V := Negate(neg2V, 2, 2 * vv);                               // neg2V = -(2*V) (mag: 3)
    x3.n := Square(r, lt, 6);
    x3.n := Add(x3.n, negJ, Sq(lt), -jv, 1, 2);
    x3.n := Add(x3.n, neg2V, Sq(lt) - jv, -(2 * vv), 3, 3);          // X3 = r^2-J-2*V (mag: 6)
    var negX3 := Negate(x3.n, 6, xv);                                // negX3 = -X3 (mag: 7)
    j := Mul(j, y1.n, jv, y1v, 1, 1);
    j := MulInt(j, 2, Times(y1v, jv), 1);
    j := Negate(j, 2, Times(p.y, Cu(t)));                            // J = -(2*Y1*J) (mag: 3)
    y3.n := Add(v, negX3, vv, -xv, 1, 7);
    y3.n := Mul(y3.n, r, vv - xv, lt, 8, 6);
    y3.n := Add(y3.n, j, Times(vv - xv, lt), -Times(p.y, Cu(t)), 1, 3);   // Y3 = r*(V-X3)-2*Y1*J (mag: 4)
    z3.n := MulInt(h, 2, hv, 3);                                     // Z3 = 2*H (mag: 6)
    x3.n := Normalize(x3.n, xv, 6);
    y3.n := Normalize(y3.n, yv, 4);
    z3.n := Normalize(z3.n, t, 6);
    ChordDenoted(x3.n, y3.n, z3.n, p, q, t);
  }

  /** The test of addJacobian recognises exactly the point at infinity. */
  lemma InfinityTest(x: Limbs, y: Limbs, z: Limbs, p: Point)
    requires Fermat() && Good(p) && Denotes(x, y, z, p)
    ensures (x == ZERO && y == ZERO) || z == ZERO <==> p.Infinity?
  {
    hide Fermat, Good;
    if p.Affine? {
      NonzeroWords(x, y, z, p);
    }
  }

  method AddJacobian(x1: FieldVal, y1: FieldVal, z1: FieldVal, x2: FieldVal, y2: FieldVal, z2: FieldVal,
                     x3: FieldVal, y3: FieldVal, z3: FieldVal, ghost p: Point, ghost q: Point)
    requires Fermat() && Good(p) && Good(q)
    requires Denotes(x1.n, y1.n, z1.n, p) && Denotes(x2.n, y2.n, z2.n, q)
    requires AllApart(x1, y1, z1, x2, y2, z2, x3, y3, z3)
    modifies x1, y1, z1, x2, y2, z2, x3, y3, z3
    ensures Denotes(x3.n, y3.n, z3.n, Sum(p, q))
    ensures x1 != x3 ==> Same(old(x1.n), x1.n)
    ensures y1 != y3 ==> Same(old(y1.n), y1.n)
    ensures z1 != z3 ==> Same(old(z1.n), z1.n)
    ensures x2 != x3 ==> Same(old(x2.n), x2.n)
    ensures y2 != y3 ==> Same(old(y2.n), y2.n)
    ensures z2 != z3 ==> Same(old(z2.n), z2.n)
  {
    hide Denotes, Good, OnCurve, Fermat, Same, Magnitude, Canonical, Slope, Third, Value, Cong;
    SameRefl(x1.n);
    SameRefl(y1.n);
    SameRefl(z1.n);
    SameRefl(x2.n);
    SameRefl(y2.n);
    SameRefl(z2.n);
    InfinityTest(x1.n, y1.n, z1.n, p);
    InfinityTest(x2.n, y2.n, z2.n, q);
    if (x1.n == ZERO && y1.n == ZERO) || z1.n == ZERO {
      x3.n := x2.n;
      y3.n := y2.n;
      z3.n := z2.n;
      return;
    }
    if (x2.n == ZERO && y2.n == ZERO) || z2.n == ZERO {
      x3.n := x1.n;
      y3.n := y1.n;
      z3.n := z1.n;
      return;
    }
    DenotesMagnitudes(x1.n, y1.n, z1.n, p);
    DenotesMagnitudes(x2.n, y2.n, z2.n, q);
    NormalizeInPlace(z1, 1);
    ghost var z2' := z2.n;
    SameMagnitude(old(z2.n), z2.n, 1);
    NormalizeInPlace(z2, 1);
    CanonicalSame(z2', z2.n);
    SameTrans(old(z2.n), z2', z2.n);
    DenotesSame(old(x1.n), old(y1.n), old(z1.n), x1.n, y1.n, z1.n, p);
    DenotesSame(old(x2.n), old(y2.n), old(z2.n), x2.n, y2.n, z2.n, q);
    ghost var z1', z2'' := z1.n, z2.n;
    SameRefl(z2.n);
    if z1.n == ONE && z2.n == ONE {
      AddZ1AndZ2EqualsOne(x1, y1, z1, x2, y2, z2, x3, y3, z3, p, q);
    } else if z1.n == z2.n {
      AddZ1EqualsZ2(x1, y1, z1, x2, y2, z2, x3, y3, z3, p, q);
    } else if z2.n == ONE {
      AddZ2EqualsOne(x1, y1, z1, x2, y2, z2, x3, y3, z3, p, q);
    } else {
      AddGeneric(x1, y1, z1, x2, y2, z2, x3, y3, z3, p, q);
    }
    if z1 != z3 {
      SameTrans(old(z1.n), z1', z1.n);
    }
    if z2 != z3 {
      SameTrans(old(z2.n), z2'', z2.n);
    }
  }
}
