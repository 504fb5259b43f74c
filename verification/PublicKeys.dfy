/** Square roots modulo P by exponentiation. */
module SquareRoots {
  import opened FieldWords
  import opened Modular
  import opened FieldOps
  import opened FieldPow
  import opened Curve

  lemma {:induction false} PowCong(a: int, b: int, e: nat)
    requires Cong(a, b)
    ensures Cong(Pow(a, e), Pow(b, e))
  {
    hide Cong, Times;
    if e == 0 {
      CongRefl(1);
    } else {
      PowCong(a, b, e - 1);
      CongTimes(a, b, Pow(a, e - 1), Pow(b, e - 1));
    }
  }

  lemma {:induction false} PowOfSquare(s: int, e: nat)
    ensures Pow(Times(s, s), e) == Pow(s, 2 * e)
  {
    hide Times;
    if e > 0 {
      PowOfSquare(s, e - 1);
      TimesAssoc(s, s, Pow(s, 2 * e - 2));
      assert Pow(s, 2 * e) == Times(s, Pow(s, 2 * e - 1));
      assert Pow(s, 2 * e - 1) == Times(s, Pow(s, 2 * e - 2));
    }
  }

  /** The square of the root is s to the power P + 1. */
  lemma RootSquared(s: int)
    ensures Times(Pow(Times(s, s), Q), Pow(Times(s, s), Q)) == Times(s, Times(Times(s, Pow(s, P - 2)), s))
  {
    hide Times, Pow;
    PowOfSquare(s, Q);
    PowAdd(s, 2 * Q, 2 * Q);
    assert 2 * Q + 2 * Q == 1 + (1 + (P - 2) + 1);
    PowAdd(s, 1, 1 + (P - 2) + 1);
    PowAdd(s, 1 + (P - 2), 1);
    PowAdd(s, 1, P - 2);
    PowFirst(s);
  }

  lemma PowFirst(s: int)
    ensures Pow(s, 1) == s
  {
    assert Pow(s, 0) == 1;
    IsTimes(s, 1);
  }

  /** Raising a square to the power (P + 1) / 4 gives one of its roots. */
  lemma RootOfSquare(v: int, s: int)
    requires Fermat() && Cong(v, Times(s, s))
    ensures Cong(Times(Pow(v, Q), Pow(v, Q)), v)
  {
    var t, w := Pow(v, Q), Pow(Times(s, s), Q);
    var i := Pow(s, P - 2);
    PowCong(v, Times(s, s), Q);
    CongTimes(t, w, t, w);
    RootSquared(s);
    var u := Times(s, i);
    assert s % P != 0 ==> Cong(u, 1) by {
      hide Cong, Times, Pow;
      assert i == Inv(s);
    }
    hide Cong, Times, Pow, Fermat;
    UnitFactor(s, u);
    CongTrans(Times(t, t), Times(w, w), Times(s, s));
    CongSym(v, Times(s, s));
    CongTrans(Times(t, t), Times(s, s), v);
  }

  lemma UnitFactor(s: int, u: int)
    requires s % P != 0 ==> Cong(u, 1)
    ensures Cong(Times(s, Times(u, s)), Times(s, s))
  {
    hide Times;
    if s % P == 0 {
      CongZero(s);
      hide Cong;
      CongRefl(Times(u, s));
      CongRefl(s);
      CongTimes(s, 0, Times(u, s), Times(u, s));
      CongTimes(s, 0, s, s);
      IsTimes(0, Times(u, s));
      IsTimes(0, s);
      CongSym(Times(s, s), 0);
      CongTrans(Times(s, Times(u, s)), 0, Times(s, s));
    } else {
      hide Cong;
      CongRefl(s);
      CongTimes(u, 1, s, s);
      IsTimes(1, s);
      CongTimes(s, s, Times(u, s), s);
    }
  }

  /** SqrtVal yields a square root exactly when there is one. */
  lemma SqrtExactly(v: int)
    requires Fermat()
    ensures Cong(Times(Pow(v, Q), Pow(v, Q)), v) <==> exists s: int :: Cong(v, Times(s, s))
  {
    if s: int :| Cong(v, Times(s, s)) {
      hide Cong, Times, Pow, Fermat;
      RootOfSquare(v, s);
    }
    if Cong(Times(Pow(v, Q), Pow(v, Q)), v) {
      hide Times, Pow, Fermat;
      CongSym(Times(Pow(v, Q), Pow(v, Q)), v);
    }
  }

  /** Two roots of the same number are equal or opposite. */
  lemma RootsOpposite(y: int, z: int)
    requires Fermat() && Cong(Times(y, y), Times(z, z))
    ensures (y - z) % P == 0 || (y + z) % P == 0
  {
    IsTimes(y, y);
    IsTimes(z, z);
    assert (y - z) * (y + z) == y * y - z * z;
    if (y - z) % P != 0 && (y + z) % P != 0 {
      hide Fermat, Times;
      NonzeroMul(y - z, y + z);
    }
  }

  /** Sqrt in place overwrites its argument with one first: what it stores is a root exactly for one. */
  lemma InPlaceRoot(v: int)
    ensures Cong(Times(1, 1), v) <==> v % P == 1
    ensures !Cong(Times(1, 1), 4) && Cong(Times(2, 2), 4)
  {
    IsTimes(1, 1);
    IsTimes(2, 2);
    OneCong(v);
  }

  lemma OneCong(v: int)
    ensures Cong(1, v) <==> v % P == 1
  {
  }
}

/** Public keys: decompression, the three serialized formats and their parser. */
module PublicKeys {
  import opened Words
  import opened FieldWords
  import opened Modular
  import opened FieldOps
  import opened FieldNormalize
  import opened FieldBytes
  import opened FieldPow
  import opened Curve
  import opened Jacobian
  import opened ScalarSplit
  import opened ScalarMultiplication
  import opened SquareRoots

  ghost function Cubic(x: int): int {
    Times(Times(x, x), x) + 7
  }

  /** The equation of the curve, modulo P. */
  ghost predicate Equation(x: int, y: int) {
    Cong(Times(y, y), Cubic(x))
  }

  /** y is the reduced ordinate of a solution over x. */
  ghost predicate Solves(x: int, y: int) {
    0 <= y < P && Equation(x, y)
  }

  predicate Odd(y: int) { y % 2 == 1 }

  lemma {:induction false} ParityFlips(y: int)
    requires 0 <= y < P
    ensures 0 <= (-y) % P < P
    ensures y != 0 ==> (-y) % P == P - y && Odd((-y) % P) != Odd(y)
    ensures y == 0 ==> (-y) % P == 0
  {
    assert y != 0 ==> -y == P * -1 + (P - y);
  }

  /** Of the solutions over one abscissa at most one has a given parity. */
  lemma SolutionUnique(x: int, y: int, z: int)
    requires Fermat() && Solves(x, y) && Solves(x, z) && Odd(y) == Odd(z)
    ensures y == z
  {
    CongSym(Times(z, z), Cubic(x));
    CongTrans(Times(y, y), Cubic(x), Times(z, z));
    RootsOpposite(y, z);
    hide Fermat, Times, Cong;
    Opposites(y, z);
  }

  lemma Opposites(y: int, z: int)
    requires 0 <= y < P && 0 <= z < P && Odd(y) == Odd(z) && ((y - z) % P == 0 || (y + z) % P == 0)
    ensures y == z
  {
    if (y - z) % P == 0 {
      assert -P < y - z < P;
    } else {
      assert y + z == P * ((y + z) / P);
    }
  }

  lemma NegatedRoot(y: int)
    ensures Cong(Times((-y) % P, (-y) % P), Times(y, y))
  {
    hide Cong, Times;
    CongMod(-y);
    CongSym(-y, (-y) % P);
    CongTimes((-y) % P, -y, (-y) % P, -y);
    IsTimes(-y, -y);
    IsTimes(y, y);
    assert -y * -y == y * y;
  }

  datatype Decompressed = Root(y: nat) | InvalidSquareRoot | WrongParity

  predicate IsOddWords(l: Limbs) { l.w0 % 2 == 1 }

  lemma IsOddMeaning(l: Limbs)
    ensures IsOddWords(l) <==> Odd(Value(l))
  {
  }

  /** The words of a canonical value and its number. */
  lemma CanonicalNumber(l: Limbs, v: int)
    requires Canonical(l) && Rep(l, v, 1)
    ensures Value(l) == v % P
  {
    hide BigEndian, PutBytesWords, Value, Canonical;
    CongMod(v);
    CanonicalValue(l, v, v % P);
    CanonicalRange(l);
    PutBytesValue(l);
  }

  lemma CanonicalBytes(l: Limbs)
    ensures Canonical(l) ==> BigEndian(PutBytesWords(l)) == Value(l)
  {
    hide BigEndian, PutBytesWords, Value, Canonical;
    if Canonical(l) {
      CanonicalRange(l);
      PutBytesValue(l);
    }
  }

  lemma CanonicalRange(l: Limbs)
    requires Canonical(l)
    ensures InRange(l) && 0 <= Value(l) < P
  {
    ValueBound(l);
  }

  /** Canonical words are equal exactly when what they stand for is congruent. */
  lemma SameNumber(a: Limbs, v: int, b: Limbs, w: int)
    requires Canonical(a) && Rep(a, v, 1) && Canonical(b) && Rep(b, w, 1)
    ensures a == b <==> Cong(v, w)
  {
    RepParts(a, v, 1);
    RepParts(b, w, 1);
    hide Canonical, Rep, Cong, Value;
    CanonicalEqual(a, b);
    CongSym(Value(a), v);
    CongSym(Value(b), w);
    if a == b {
      CongTrans(v, Value(a), w);
    }
    if Cong(v, w) {
      CongTrans(Value(a), v, w);
      CongTrans(Value(a), w, Value(b));
    }
  }

  const SEVEN: Limbs := Limbs(7, 0, 0, 0, 0, 0, 0, 0, 0, 0)

  lemma SevenRep()
    ensures Rep(SEVEN, 7, 1)
  {
  }

  /** x^3 + 7, normalized. */
  method CurveSide(x: Limbs, ghost v: int) returns (r: Limbs)
    requires Rep(x, v, 1)
    ensures Canonical(r) && Rep(r, Cubic(v), 1)
  {
    hide Rep, Canonical, Times, Sq;
    SevenRep();
    r := Square(x, v, 1);
    r := Mul(r, x, Sq(v), v, 1, 1);
    SquareIs(v);
    r := Add(r, SEVEN, Times(Times(v, v), v), 7, 1, 1);
    r := Normalize(r, Cubic(v), 2);
  }

  lemma SquareIs(v: int)
    ensures Sq(v) == Times(v, v)
  {
  }

  method DecompressPoint(bigX: nat, ybit: bool) returns (r: Decompressed)
    requires Fermat() && bigX < Pow256(32)
    ensures r.Root? ==> Solves(bigX, r.y) && Odd(r.y) == ybit
    ensures r.InvalidSquareRoot? <==> forall y: int :: !Solves(bigX, y)
    ensures r.WrongParity? <==> Solves(bigX, 0) && ybit
  {
    hide Fermat, Rep, Canonical, Times, Sq, Pow, Cong, Value, Solves, Odd, Pow256, Cubic, BigEndian;
    var x := FromNumber(bigX);
    ghost var v := Cubic(bigX);
    var x3 := CurveSide(x.n, bigX);
    var y := Root(x3, v);
    ghost var root := Value(y);
    IsOddMeaning(y);
    if ybit != IsOddWords(y) {
      y := Negate(y, 1, root);
      y := Normalize(y, -root, 2);
      CanonicalNumber(y, -root);
      CanonicalSelf(y);
    }
    var y2 := Square(y, Value(y), 1);
    y2 := Normalize(y2, Sq(Value(y)), 1);
    SameNumber(y2, Sq(Value(y)), x3, v);
    IsOddMeaning(y);
    Decided(bigX, ybit, root, Value(y), y2 == x3);
    if y2 != x3 {
      return InvalidSquareRoot;
    }
    if ybit != IsOddWords(y) {
      return WrongParity;
    }
    CanonicalBytes(y);
    r := Decompressed.Root(BigEndian(PutBytesWords(y)));
  }

  method Root(x3: Limbs, ghost v: int) returns (y: Limbs)
    requires Rep(x3, v, 1)
    ensures Canonical(y) && Rep(y, Value(y), 1) && Value(y) == Pow(v, Q) % P
  {
    hide Rep, Canonical, Times, Pow, Value;
    var arg := new FieldVal();
    arg.n := x3;
    var root := new FieldVal();
    root.SqrtVal(arg, v, 1);
    y := Normalize(root.n, Pow(v, Q), 1);
    CanonicalNumber(y, Pow(v, Q));
    CanonicalSelf(y);
  }

  lemma CanonicalSelf(y: Limbs)
    requires Canonical(y)
    ensures Rep(y, Value(y), 1)
  {
    hide Value;
    CanonicalMagnitude(y);
  }

  /** Squaring the candidate decides whether there is a root, and flipping it decides the parity unless it is zero. */
  lemma Decided(x: int, ybit: bool, root: int, y: int, ok: bool)
    requires Fermat() && root == Pow(Cubic(x), Q) % P && ok == Cong(Sq(y), Cubic(x))
    requires y == if ybit != Odd(root) then (-root) % P else root
    ensures ok <==> Solves(x, y)
    ensures !ok <==> forall z: int :: !Solves(x, z)
    ensures ok && Odd(y) != ybit <==> Solves(x, 0) && ybit
  {
    hide Fermat, Pow, Times, Sq, Cubic, Odd;
    SquareIs(y);
    Range(Pow(Cubic(x), Q));
    ParityFlips(root);
    ZeroEven();
    if z: int :| Solves(x, z) {
      hide Cong;
      Found(x, root, y, z);
      if Solves(x, 0) {
        ZeroRoot(x, y);
      }
    }
  }

  lemma Range(v: int)
    ensures 0 <= v % P < P
  {
  }

  lemma ZeroEven()
    ensures !Odd(0)
  {
  }

  lemma Found(x: int, root: int, y: int, z: int)
    requires Fermat() && root == Pow(Cubic(x), Q) % P && Solves(x, z) && (y == root || y == (-root) % P)
    ensures Cong(Times(y, y), Cubic(x))
  {
    var v := Cubic(x);
    var t := Pow(v, Q);
    hide Fermat, Pow, Times, Cubic, Cong;
    CongSym(Times(z, z), v);
    RootOfSquare(v, z);
    CongMod(t);
    CongSym(t, root);
    CongTimes(root, t, root, t);
    CongTrans(Times(root, root), Times(t, t), v);
    if y != root {
      NegatedRoot(root);
      CongTrans(Times(y, y), Times(root, root), v);
    }
  }

  lemma ZeroRoot(x: int, y: int)
    requires Fermat() && Solves(x, 0) && Cong(Times(y, y), Cubic(x)) && 0 <= y < P
    ensures y == 0
  {
    hide Fermat, Times, Cubic;
    CongSym(Times(0, 0), Cubic(x));
    CongTrans(Times(y, y), Cubic(x), Times(0, 0));
    RootsOpposite(y, 0);
  }

  // ----- formats

  datatype Key = Key(x: nat, y: nat)

  ghost predicate Valid(k: Key) { OnCurve(Affine(k.x, k.y)) }

  lemma ValidSolves(k: Key)
    ensures Valid(k) <==> k.x < P && Solves(k.x, k.y)
  {
    hide Times, Cong;
  }

  /** The equation is tested modulo P, for any two numbers of at most 32 bytes. */
  method IsOnCurve(x: nat, y: nat) returns (r: bool)
    requires x < Pow256(32) && y < Pow256(32)
    ensures r <==> Equation(x, y)
  {
    hide Rep, Canonical, Times, Sq, Cong, Value, Cubic, Pow256;
    var fx := FromNumber(x);
    var fy := FromNumber(y);
    var y2 := Square(fy.n, y, 1);
    y2 := Normalize(y2, Sq(y), 1);
    var result := CurveSide(fx.n, x);
    r := y2 == result;
    SameNumber(y2, Sq(y), result, Cubic(x));
    SquareIs(y);
  }

  lemma BelowPow(x: nat)
    requires x < P
    ensures x < Pow256(32)
  {
    Pow256At32();
  }

  function SerializeUncompressed(k: Key): seq<byte>
    requires k.x < Pow256(32) && k.y < Pow256(32)
  {
    [4] + Padded32(k.x) + Padded32(k.y)
  }

  function SerializeCompressed(k: Key): seq<byte>
    requires k.x < Pow256(32)
  {
    [if Odd(k.y) then 3 else 2] + Padded32(k.x)
  }

  function SerializeHybrid(k: Key): seq<byte>
    requires k.x < Pow256(32) && k.y < Pow256(32)
  {
    [if Odd(k.y) then 7 else 6] + Padded32(k.x) + Padded32(k.y)
  }

  function Padded32(n: nat): (r: seq<byte>)
    requires n < Pow256(32)
    ensures |r| == 32
    ensures BigEndian(r) == n
  {
    hide BigEndian, ToBytes, Pow256, PadLeft;
    ToBytesLength(n, 32);
    ToBytesValue(n);
    PadLeftValue(ToBytes(n), 32);
    PadLeft(ToBytes(n), 32)
  }

  /** The byte strings that stand for a key.  The low bit of the first byte carries the parity of y; the
      uncompressed format ignores it. */
  ghost predicate Encodes(b: seq<byte>, k: Key) {
    if |b| == 65 then
      && (b[0] == 4 || b[0] == 5 || b[0] == (if Odd(k.y) then 7 else 6))
      && k.x == BigEndian(b[1..33]) && k.y == BigEndian(b[33..]) && Valid(k)
    else if |b| == 33 then
      b[0] == (if Odd(k.y) then 3 else 2) && k.x == BigEndian(b[1..33]) && Solves(k.x, k.y)
    else false
  }

  datatype Parsed = Parsed(key: Key) | Rejected

  /** ParsePubKey accepts exactly the strings that stand for a key. */
  method ParsePubKey(b: seq<byte>) returns (r: Parsed)
    requires Fermat()
    ensures r.Parsed? ==> Encodes(b, r.key)
    ensures r.Rejected? ==> forall k: Key :: !Encodes(b, k)
  {
    hide Fermat, BigEndian, Equation, Valid, Pow256;
    if |b| == 0 {
      return Rejected;
    }
    var ybit := b[0] % 2 == 1;
    var format := b[0] - b[0] % 2;
    if |b| == 65 {
      if format != 4 && format != 6 {
        return Rejected;
      }
      var k := Key(BigEndian(b[1..33]), BigEndian(b[33..]));
      if format == 6 && ybit != Odd(k.y) {
        return Rejected;
      }
      ValidSolves(k);
      SolvesRange(k.x, k.y);
      if k.x >= P || k.y >= P {
        return Rejected;
      }
      BelowPow(k.x);
      BelowPow(k.y);
      var on := IsOnCurve(k.x, k.y);
      if !on {
        return Rejected;
      }
      r := Parsed(k);
    } else if |b| == 33 {
      if format != 2 {
        return Rejected;
      }
      var x := BigEndian(b[1..33]);
      BigEndianBound(b[1..33]);
      var d := DecompressPoint(x, ybit);
      if !d.Root? {
        NoSuchRoot(x, ybit, d);
        return Rejected;
      }
      r := Parsed(Key(x, d.y));
    } else {
      return Rejected;
    }
  }

  lemma SolvesRange(x: int, y: int)
    ensures Solves(x, y) ==> 0 <= y < P
  {
    hide Cong, Times;
  }

  lemma NoSuchRoot(x: int, ybit: bool, d: Decompressed)
    requires Fermat() && !d.Root?
    requires d.InvalidSquareRoot? <==> forall y: int :: !Solves(x, y)
    requires d.WrongParity? <==> Solves(x, 0) && ybit
    ensures forall y: int :: Solves(x, y) ==> Odd(y) != ybit
  {
    hide Fermat, Cubic, Times, Cong;
    forall y: int | Solves(x, y)
      ensures Odd(y) != ybit
    {
      if d.WrongParity? {
        ZeroRoot(x, y);
      }
    }
  }

  /** A byte string stands for at most one key. */
  lemma EncodesUnique(b: seq<byte>, k: Key, k': Key)
    requires Fermat() && Encodes(b, k) && Encodes(b, k')
    ensures k == k'
  {
    hide Fermat, BigEndian, Solves, Valid;
    if |b| == 33 {
      SolutionUnique(k.x, k.y, k'.y);
    }
  }

  /** Parsing undoes each of the three serializations. */
  lemma SerializeEncodes(k: Key)
    requires Valid(k)
    ensures k.x < Pow256(32) && k.y < Pow256(32)
    ensures Encodes(SerializeUncompressed(k), k)
    ensures Encodes(SerializeCompressed(k), k)
    ensures Encodes(SerializeHybrid(k), k)
  {
    hide BigEndian, Solves, Pow256, Odd, Valid, Padded32;
    ValidSolves(k);
    SolvesRange(k.x, k.y);
    BelowPow(k.x);
    BelowPow(k.y);
    var x, y := Padded32(k.x), Padded32(k.y);
    assert SerializeUncompressed(k)[1..33] == x && SerializeUncompressed(k)[33..] == y;
    assert SerializeHybrid(k)[1..33] == x && SerializeHybrid(k)[33..] == y;
    assert SerializeCompressed(k)[1..33] == x;
  }

  /** Serializing undoes parsing, in the format the string was in; 5 is read as 4. */
  lemma EncodesSerialize(b: seq<byte>, k: Key)
    requires Encodes(b, k)
    ensures k.x < Pow256(32)
    ensures |b| == 33 ==> b == SerializeCompressed(k)
    ensures |b| == 65 ==> k.y < Pow256(32)
    ensures |b| == 65 && b[0] == 4 ==> b == SerializeUncompressed(k)
    ensures |b| == 65 && b[0] >= 6 ==> b == SerializeHybrid(k)
  {
    hide BigEndian, Solves, Pow256, Valid, Padded32;
    BigEndianBound(b[1..33]);
    BigEndianInjective(b[1..33], Padded32(k.x));
    if |b| == 65 {
      BigEndianBound(b[33..]);
      BigEndianInjective(b[33..], Padded32(k.y));
      assert b == [b[0]] + b[1..33] + b[33..];
    } else {
      assert b == [b[0]] + b[1..33];
    }
  }

  /** A compressed key is a point of the curve exactly when its abscissa is reduced, which is not checked. */
  lemma CompressedReduced(b: seq<byte>, k: Key)
    requires Encodes(b, k) && |b| == 33
    ensures Valid(k) <==> k.x < P
  {
    hide BigEndian, Solves, Valid;
    ValidSolves(k);
  }

  const OVER_ONE: Key := Key(P + 1, 0x4218F20A_E6C646B3_63DB6860_5822FB14_264CA8D2_587FDD6F_BC750D58_7E76A7EE)

  /** The key over P + 1, an abscissa that is not reduced. */
  lemma UnreducedAccepted()
    ensures OVER_ONE.x < Pow256(32)
    ensures Encodes(SerializeCompressed(OVER_ONE), OVER_ONE) && !Valid(OVER_ONE)
  {
    Pow256At32();
    UnreducedSolves();
    hide Times, Cong, Pow256, BigEndian, Solves, Padded32;
    ValidSolves(OVER_ONE);
    assert SerializeCompressed(OVER_ONE)[1..33] == Padded32(OVER_ONE.x);
  }

  lemma UnreducedSolves()
    ensures Solves(OVER_ONE.x, OVER_ONE.y)
  {
    hide Times;
    var x, y := OVER_ONE.x, OVER_ONE.y;
    IsTimes(y, y);
    IsTimes(x, x);
    IsTimes(x * x, x);
  }
}
