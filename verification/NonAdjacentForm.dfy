/** The non-adjacent form of a byte string (Algorithm 3.30 of GECC). */
module NonAdjacentForm {
  import opened Words
  import opened FieldNormalize
  import opened FieldBytes

  /** Bit j of x. */
  function Bit(x: nat, j: nat): nat {
    if j == 0 then x % 2 else Bit(x / 2, j - 1)
  }

  /** Digit j of the signed-digit byte (p, n) is not zero. */
  ghost predicate NonZero(p: nat, n: nat, j: nat) {
    Bit(p, j) == 1 || Bit(n, j) == 1
  }

  /** No bit is set in both, and of two neighbouring digits at most one is not zero. */
  ghost predicate Sparse(p: nat, n: nat, bits: nat) {
    && (forall j: nat :: j < bits ==> Bit(p, j) == 0 || Bit(n, j) == 0)
    && (forall j: nat, k: nat :: j < k < bits && k == j + 1 ==> !(NonZero(p, n, j) && NonZero(p, n, k)))
  }

  lemma {:induction false} BitRange(x: nat, j: nat)
    ensures Bit(x, j) == 0 || Bit(x, j) == 1
    ensures x < Pow2(j) ==> Bit(x, j) == 0
  {
    if j > 0 {
      BitRange(x / 2, j - 1);
    }
  }

  /** Setting bit j above the bits already there changes no lower bit. */
  lemma {:induction false} SetBit(x: nat, j: nat, m: nat)
    requires m <= j && x < Pow2(j)
    ensures Bit(x + Pow2(j), m) == if m == j then 1 else Bit(x, m)
  {
    if j > 0 {
      assert (x + Pow2(j)) / 2 == x / 2 + Pow2(j - 1);
      assert (x + Pow2(j)) % 2 == x % 2;
      if m > 0 {
        SetBit(x / 2, j - 1, m - 1);
      }
    }
  }

  lemma SparseSwap(p: nat, n: nat, bits: nat)
    requires Sparse(p, n, bits)
    ensures Sparse(n, p, bits)
  {
    forall j: nat, k: nat | j < k < bits && k == j + 1
      ensures !(NonZero(n, p, j) && NonZero(n, p, k))
    {
      assert !(NonZero(p, n, j) && NonZero(p, n, k));
    }
  }

  /** A step without a digit. */
  lemma SparseKeep(p: nat, n: nat, j: nat)
    requires Sparse(p, n, j) && p < Pow2(j) && n < Pow2(j)
    ensures Sparse(p, n, j + 1) && !NonZero(p, n, j)
  {
    BitRange(p, j);
    BitRange(n, j);
  }

  /** A step with a digit at j; the digits below are kept. */
  lemma SparseAdd(p: nat, n: nat, j: nat)
    requires Sparse(p, n, j) && p < Pow2(j) && n < Pow2(j) && (j == 0 || !NonZero(p, n, j - 1))
    ensures Sparse(p + Pow2(j), n, j + 1) && NonZero(p + Pow2(j), n, j)
    ensures j > 0 ==> (NonZero(p + Pow2(j), n, 0) <==> NonZero(p, n, 0))
  {
    hide Pow2;
    var p' := p + Pow2(j);
    BitRange(n, j);
    forall m: nat | m <= j
      ensures Bit(p', m) == if m == j then 1 else Bit(p, m)
    {
      SetBit(p, j, m);
    }
    forall m: nat, k: nat | m < k < j + 1 && k == m + 1
      ensures !(NonZero(p', n, m) && NonZero(p', n, k))
    {
      assert k < j ==> !(NonZero(p, n, m) && NonZero(p, n, k));
      assert m < j && (NonZero(p', n, m) <==> NonZero(p, n, m));
    }
  }

  /** Everything known after the low j bits of cur have been recoded and curByte holds the others. */
  ghost predicate Recoded(cur: nat, carryIn: bool, j: nat, pos: nat, neg: nat, carry: bool, curByte: nat) {
    && pos < Pow2(j) && neg < Pow2(j) && Sparse(pos, neg, j)
    && cur + (if carryIn then 1 else 0) == pos - neg + (if carry then Pow2(j) else 0) + curByte * Pow2(j)
    && (j == 0 ==> carry == carryIn && curByte == cur)
    && (j > 0 ==> (NonZero(pos, neg, 0) <==> (carryIn != (cur % 2 == 1))))
  }

  /** The last digit, if not zero, has left the carry equal to the next bit. */
  ghost predicate Settled(j: nat, pos: nat, neg: nat, carry: bool, bit: bool) {
    j > 0 && NonZero(pos, neg, j - 1) ==> carry == bit
  }

  lemma Halving(x: nat, j: nat)
    ensures x * Pow2(j) == x / 2 * Pow2(j + 1) + x % 2 * Pow2(j)
  {
    var p := Pow2(j);
    assert x == 2 * (x / 2) + x % 2;
    assert x * p == (2 * (x / 2) + x % 2) * p == 2 * (x / 2) * p + x % 2 * p;
    assert x / 2 * (2 * p) == 2 * (x / 2) * p;
  }

  lemma StepKeep(cur: nat, carryIn: bool, j: nat, pos: nat, neg: nat, carry: bool, x: nat)
    requires Recoded(cur, carryIn, j, pos, neg, carry, x) && carry == (x % 2 == 1)
    ensures Recoded(cur, carryIn, j + 1, pos, neg, carry, x / 2) && !NonZero(pos, neg, j)
  {
    Halving(x, j);
    SparseKeep(pos, neg, j);
    hide Sparse, Bit;
    assert Pow2(j + 1) == 2 * Pow2(j);
  }

  lemma StepPlus(cur: nat, carryIn: bool, j: nat, pos: nat, neg: nat, carry: bool, x: nat)
    requires Recoded(cur, carryIn, j, pos, neg, carry, x) && carry != (x % 2 == 1)
    requires Settled(j, pos, neg, carry, x % 2 == 1)
    ensures Recoded(cur, carryIn, j + 1, pos + Pow2(j), neg, false, x / 2)
  {
    Halving(x, j);
    SparseAdd(pos, neg, j);
    hide Sparse, Bit;
    assert Pow2(j + 1) == 2 * Pow2(j);
  }

  lemma StepMinus(cur: nat, carryIn: bool, j: nat, pos: nat, neg: nat, carry: bool, x: nat)
    requires Recoded(cur, carryIn, j, pos, neg, carry, x) && carry != (x % 2 == 1)
    requires Settled(j, pos, neg, carry, x % 2 == 1)
    ensures Recoded(cur, carryIn, j + 1, pos, neg + Pow2(j), true, x / 2)
  {
    Halving(x, j);
    SparseSwap(pos, neg, j);
    SparseAdd(neg, pos, j);
    SparseSwap(neg + Pow2(j), pos, j + 1);
    hide Sparse, Bit;
    assert Pow2(j + 1) == 2 * Pow2(j);
  }

  /** One bit: the body of the inner loop. */
  method NafBit(j: nat, curIsOne: bool, nextIsOne: bool, carryIn: bool, posIn: nat, negIn: nat,
                ghost cur: nat, ghost carry0: bool, ghost x: nat)
    returns (pos: nat, neg: nat, carry: bool)
    requires Recoded(cur, carry0, j, posIn, negIn, carryIn, x) && curIsOne == (x % 2 == 1)
    requires Settled(j, posIn, negIn, carryIn, curIsOne)
    ensures Recoded(cur, carry0, j + 1, pos, neg, carry, x / 2)
    ensures Settled(j + 1, pos, neg, carry, nextIsOne)
  {
    hide Sparse, NonZero, Pow2, Recoded, Settled;
    pos, neg, carry := posIn, negIn, carryIn;
    if carry {
      if curIsOne {
        StepKeep(cur, carry0, j, pos, neg, carry, x);
        SettledZero(j, pos, neg, carry, nextIsOne);
        return;
      } else if nextIsOne {
        StepMinus(cur, carry0, j, pos, neg, carry, x);
        neg := neg + Pow2(j);
      } else {
        StepPlus(cur, carry0, j, pos, neg, carry, x);
        carry := false;
        pos := pos + Pow2(j);
      }
    } else if curIsOne {
      if nextIsOne {
        StepMinus(cur, carry0, j, pos, neg, carry, x);
        neg := neg + Pow2(j);
        carry := true;
      } else {
        StepPlus(cur, carry0, j, pos, neg, carry, x);
        pos := pos + Pow2(j);
      }
    } else {
      StepKeep(cur, carry0, j, pos, neg, carry, x);
      SettledZero(j, pos, neg, carry, nextIsOne);
      return;
    }
    SettledEqual(j + 1, pos, neg, carry);
  }

  /** One byte of the recoding: the inner loop over the eight bits of cur, least significant first. */
  method NafByte(cur: byte, next: bool, carryIn: bool) returns (p: byte, n: byte, carry: bool)
    ensures p as int - n as int + (if carry then 256 else 0) == cur as int + (if carryIn then 1 else 0)
    ensures Sparse(p as nat, n as nat, 8)
    ensures NonZero(p as nat, n as nat, 0) <==> (carryIn != (cur % 2 == 1))
    ensures Settled(8, p as nat, n as nat, carry, next)
  {
    hide Sparse, NonZero, Pow2, Recoded, Settled;
    FitsEightBits(cur);
    var curByte: nat := cur as nat;
    carry := carryIn;
    var pos: nat, neg: nat := 0, 0;
    RecodedStart(cur as nat, carryIn);
    var j := 0;
    while j < 8
      invariant 0 <= j <= 8
      invariant curByte < Pow2(8 - j)
      invariant Recoded(cur as nat, carryIn, j, pos, neg, carry, curByte)
      invariant j < 8 ==> Settled(j, pos, neg, carry, curByte % 2 == 1)
      invariant j == 8 ==> Settled(8, pos, neg, carry, next)
    {
      var curIsOne := curByte % 2 == 1;
      var nextIsOne := if j == 7 then next else curByte / 2 % 2 == 1;
      pos, neg, carry := NafBit(j, curIsOne, nextIsOne, carry, pos, neg, cur as nat, carryIn, curByte);
      HalfBound(curByte, 8 - j);
      curByte := curByte / 2;
      j := j + 1;
    }
    RecodedEnd(cur as nat, carryIn, pos, neg, carry, curByte);
    p, n := pos as byte, neg as byte;
  }

  lemma FitsEightBits(cur: byte)
    ensures cur as nat < Pow2(8)
  {
    assert Pow2(8) == 256;
  }

  lemma RecodedStart(cur: nat, carryIn: bool)
    ensures Recoded(cur, carryIn, 0, 0, 0, carryIn, cur) && Settled(0, 0, 0, carryIn, cur % 2 == 1)
  {
  }

  lemma RecodedEnd(cur: nat, carryIn: bool, pos: nat, neg: nat, carry: bool, curByte: nat)
    requires Recoded(cur, carryIn, 8, pos, neg, carry, curByte) && curByte < Pow2(0)
    ensures pos < 256 && neg < 256 && Sparse(pos, neg, 8)
    ensures pos - neg + (if carry then 256 else 0) == cur + (if carryIn then 1 else 0)
    ensures NonZero(pos, neg, 0) <==> (carryIn != (cur % 2 == 1))
  {
    assert Pow2(8) == 256;
  }

  lemma SettledZero(j: nat, pos: nat, neg: nat, carry: bool, bit: bool)
    requires !NonZero(pos, neg, j)
    ensures Settled(j + 1, pos, neg, carry, bit)
  {
  }

  lemma SettledEqual(j: nat, pos: nat, neg: nat, carry: bool)
    ensures Settled(j, pos, neg, carry, carry)
  {
  }

  lemma HalfBound(x: nat, k: nat)
    requires x < Pow2(k) && k > 0
    ensures x / 2 < Pow2(k - 1)
  {
  }

  /** Every byte is sparse, and so is every border between two bytes. */
  ghost predicate NonAdjacent(pos: seq<byte>, neg: seq<byte>) {
    && |pos| == |neg|
    && (forall i :: 0 <= i < |pos| ==> Sparse(pos[i] as nat, neg[i] as nat, 8))
    && (forall i, k :: 0 <= i < k < |pos| && k == i + 1 ==>
          !(NonZero(pos[i] as nat, neg[i] as nat, 0) && NonZero(pos[k] as nat, neg[k] as nat, 7)))
  }

  lemma BigEndianPrepend(b: byte, s: seq<byte>)
    ensures BigEndian([b] + s) == b as int * Pow256(|s|) + BigEndian(s)
  {
    BigEndianConcat([b], s);
    assert BigEndian([b]) == b as int by {
      assert [b][..0] == [];
      assert BigEndian([b]) == BigEndian([b][..0]) * 256 + b as int;
    }
  }

  lemma NonAdjacentPrepend(p: byte, n: byte, pos: seq<byte>, neg: seq<byte>)
    requires NonAdjacent(pos, neg) && Sparse(p as nat, n as nat, 8)
    requires pos == [] || !NonZero(p as nat, n as nat, 0) || !NonZero(pos[0] as nat, neg[0] as nat, 7)
    ensures NonAdjacent([p] + pos, [n] + neg)
  {
    hide Sparse, NonZero;
  }

  /** What the outer loop has established about the low part of k. */
  ghost predicate Tail(k: seq<byte>, pos: seq<byte>, neg: seq<byte>, carry: bool, next: bool) {
    && |pos| == |neg| == |k| && NonAdjacent(pos, neg)
    && BigEndian(pos) - BigEndian(neg) + (if carry then Pow256(|k|) else 0) == BigEndian(k)
    && (k == [] ==> !carry)
    && (k != [] ==> Settled(8, pos[0] as nat, neg[0] as nat, carry, next))
  }

  lemma TailStep(b: byte, k: seq<byte>, p: byte, n: byte, pos: seq<byte>, neg: seq<byte>, c: bool, c': bool, next: bool)
    requires Tail(k, pos, neg, c, b % 2 == 1) && Sparse(p as nat, n as nat, 8)
    requires p as int - n as int + (if c' then 256 else 0) == b as int + (if c then 1 else 0)
    requires NonZero(p as nat, n as nat, 0) <==> (c != (b % 2 == 1))
    requires Settled(8, p as nat, n as nat, c', next)
    ensures Tail([b] + k, [p] + pos, [n] + neg, c', next)
  {
    hide Sparse, NonZero, BigEndian, Pow256, NonAdjacent;
    BigEndianPrepend(b, k);
    BigEndianPrepend(p, pos);
    BigEndianPrepend(n, neg);
    NonAdjacentPrepend(p, n, pos, neg);
    TailArithmetic(b as int, p as int, n as int, c, c', Pow256(|k|));
    assert Pow256(|k| + 1) == 256 * Pow256(|k|) by { PowStep(|k|); }
  }

  lemma PowStep(n: nat)
    ensures Pow256(n + 1) == 256 * Pow256(n)
  {
  }

  lemma TailArithmetic(b: int, p: int, n: int, c: bool, c': bool, w: int)
    requires p - n + (if c' then 256 else 0) == b + (if c then 1 else 0)
    ensures p * w - n * w + (if c' then 256 * w else 0) == b * w + (if c then w else 0)
  {
    assert (p - n + (if c' then 256 else 0)) * w == (b + (if c then 1 else 0)) * w;
  }

  method NAF(k: seq<byte>) returns (pos: seq<byte>, neg: seq<byte>)
    ensures |pos| == |neg| && |k| <= |pos| <= |k| + 1
    ensures BigEndian(pos) - BigEndian(neg) == BigEndian(k)
    ensures NonAdjacent(pos, neg)
  {
    var retPos: seq<byte>, retNeg: seq<byte> := seq(|k| + 1, _ => 0), seq(|k| + 1, _ => 0);
    var carry := false;
    var i := |k|;
    assert k[i..] == [] && retPos[i + 1..] == [] && retNeg[i + 1..] == [];
    assert Tail(k[i..], retPos[i + 1..], retNeg[i + 1..], carry, NextBit(k, i));
    hide Tail, NonAdjacent, Sparse, NonZero, Settled, BigEndian, NextBit;
    while i > 0
      invariant 0 <= i <= |k| && |retPos| == |retNeg| == |k| + 1
      invariant Tail(k[i..], retPos[i + 1..], retNeg[i + 1..], carry, NextBit(k, i))
      invariant retPos[0] == 0 && retNeg[0] == 0
    {
      ghost var pos0, neg0, c0 := retPos[i + 1..], retNeg[i + 1..], carry;
      i := i - 1;
      var p, n;
      p, n, carry := NafByte(k[i], NextBit(k, i), carry);
      retPos, retNeg := retPos[i + 1 := p], retNeg[i + 1 := n];
      assert retPos[i + 1..] == [p] + pos0 && retNeg[i + 1..] == [n] + neg0 && k[i..] == [k[i]] + k[i + 1..];
      NextBitMeaning(k, i);
      TailStep(k[i], k[i + 1..], p, n, pos0, neg0, c0, carry, NextBit(k, i));
    }
    assert k[0..] == k;
    NextBitTop(k);
    TailEnd(k, retPos[1..], retNeg[1..], carry);
    if carry {
      pos, neg := retPos[0 := 1], retNeg;
      assert pos == [1] + retPos[1..] && neg == [0] + retNeg[1..];
    } else {
      pos, neg := retPos[1..], retNeg[1..];
    }
  }

  /** The bit of k just above byte i. */
  function NextBit(k: seq<byte>, i: nat): bool
    requires i <= |k|
  {
    i > 0 && k[i - 1] % 2 == 1
  }

  lemma NextBitMeaning(k: seq<byte>, i: nat)
    requires i < |k|
    ensures NextBit(k, i + 1) == (k[i] % 2 == 1)
  {
  }

  lemma NextBitTop(k: seq<byte>)
    ensures !NextBit(k, 0)
  {
  }

  lemma TailEnd(k: seq<byte>, pos: seq<byte>, neg: seq<byte>, carry: bool)
    requires Tail(k, pos, neg, carry, false)
    ensures |pos| == |neg| == |k|
    ensures !carry ==> BigEndian(pos) - BigEndian(neg) == BigEndian(k) && NonAdjacent(pos, neg)
    ensures carry ==> BigEndian([1] + pos) - BigEndian([0] + neg) == BigEndian(k) && NonAdjacent([1] + pos, [0] + neg)
  {
    hide BigEndian, Pow256;
    if carry {
      BigEndianPrepend(1, pos);
      BigEndianPrepend(0, neg);
      assert Sparse(1, 0, 8) by { SparseOne(); }
      hide Sparse, NonZero, NonAdjacent;
      assert !NonZero(pos[0] as nat, neg[0] as nat, 7);
      NonAdjacentPrepend(1, 0, pos, neg);
    }
  }

  lemma SparseOne()
    ensures Sparse(1, 0, 8)
  {
    forall j: nat
      ensures Bit(0, j) == 0 && (j > 0 ==> Bit(1, j) == 0)
    {
      BitRange(0, j);
      BitRange(1, j);
    }
  }
}
