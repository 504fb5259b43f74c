/** ECDSA signatures in DER form. */
module DerSignatures {
  import opened Words
  import opened FieldBytes
  import opened ScalarSplit

  datatype Signature = Signature(r: int, s: int)
  datatype Parsed = Parsed(sig: Signature) | Malformed

  const HALF_ORDER: int := N / 2
  const MIN_SIG_LEN: nat := 8

  /** The bytes of an integer with a leading zero when the top bit is set, and at least one byte. */
  function CanonicalizeInt(v: nat): seq<byte> {
    var b := if v == 0 then [0 as byte] else ToBytes(v);
    if b != [] && b[0] >= 0x80 then [0 as byte] + b else b
  }

  /** Neither a negative nor an excessively padded integer. */
  predicate CanonicalPadding(b: seq<byte>)
    requires b != []
  {
    b[0] < 0x80 && !(|b| > 1 && b[0] == 0 && b[1] < 0x80)
  }

  function LowS(s: int): int {
    if s > HALF_ORDER then N - s else s
  }

  predicate InOrder(v: int) { 1 <= v < N }

  function Serialize(sig: Signature): seq<byte>
    requires 0 <= sig.r < N && 0 <= sig.s < N
  {
    ShortInts(sig);
    var rb, sb := CanonicalizeInt(sig.r), CanonicalizeInt(LowS(sig.s));
    Encode(rb, sb)
  }

  /** The two marked integers behind the header and the length of the rest. */
  function Encode(rb: seq<byte>, sb: seq<byte>): (r: seq<byte>)
    requires 4 + |rb| + |sb| <= 253
    ensures |r| == 6 + |rb| + |sb|
  {
    [0x30, (4 + |rb| + |sb|) as byte, 2, |rb| as byte] + rb + [2, |sb| as byte] + sb
  }

  /** The string starts with the encoding of the two integers; what follows is ignored. */
  predicate Layout(b: seq<byte>, rb: seq<byte>, sb: seq<byte>) {
    && rb != [] && sb != [] && 4 + |rb| + |sb| <= 253 && 6 + |rb| + |sb| <= |b|
    && b[..6 + |rb| + |sb|] == Encode(rb, sb)
  }

  predicate Accepts(b: seq<byte>, der: bool, rb: seq<byte>, sb: seq<byte>) {
    && Layout(b, rb, sb)
    && (der ==> CanonicalPadding(rb) && CanonicalPadding(sb))
    && InOrder(BigEndian(rb)) && InOrder(BigEndian(sb))
  }

  /** The parts of a laid-out string, read by position. */
  lemma LayoutParts(b: seq<byte>, rb: seq<byte>, sb: seq<byte>)
    requires Layout(b, rb, sb)
    ensures b[0] == 0x30 && b[1] as int == 4 + |rb| + |sb| && b[2] == 2 && b[3] as int == |rb|
    ensures b[4..4 + |rb|] == rb && b[4 + |rb|] == 2 && b[5 + |rb|] as int == |sb|
    ensures b[6 + |rb|..6 + |rb| + |sb|] == sb
  {
    var p := b[..6 + |rb| + |sb|];
    assert p[0] == b[0] && p[1] == b[1] && p[2] == b[2] && p[3] == b[3];
    assert p[4..4 + |rb|] == rb && p[4..4 + |rb|] == b[4..4 + |rb|];
    assert p[4 + |rb|] == b[4 + |rb|] && p[5 + |rb|] == b[5 + |rb|];
    assert p[6 + |rb|..] == sb && p[6 + |rb|..] == b[6 + |rb|..6 + |rb| + |sb|];
  }

  /** A string is laid out in at most one way. */
  lemma LayoutUnique(b: seq<byte>, rb: seq<byte>, sb: seq<byte>, rb': seq<byte>, sb': seq<byte>)
    requires Layout(b, rb, sb) && Layout(b, rb', sb')
    ensures rb == rb' && sb == sb'
  {
    hide Layout;
    LayoutParts(b, rb, sb);
    LayoutParts(b, rb', sb');
  }

  /** The parser's cursor over the string: it finds the two integers exactly when the string is laid out. */
  method ReadIntegers(sigStr: seq<byte>) returns (ok: bool, rBytes: seq<byte>, sBytes: seq<byte>)
    ensures ok ==> Layout(sigStr, rBytes, sBytes)
    ensures !ok ==> forall x, y :: !Layout(sigStr, x, y)
  {
    hide Layout, Encode;
    ok, rBytes, sBytes := false, [], [];
    LayoutShape(sigStr);
    if |sigStr| < MIN_SIG_LEN || sigStr[0] != 0x30 {
      return;
    }
    var total := Wrap(sigStr[1] as int + 2);
    if total > |sigStr| || total < MIN_SIG_LEN {
      return;
    }
    // From here on only the first total bytes count.
    if sigStr[2] != 2 {
      return;
    }
    var rLen := sigStr[3] as int;
    var index := 4;
    if rLen <= 0 || rLen > total - index - 3 {
      return;
    }
    rBytes := sigStr[index..index + rLen];
    index := index + rLen;
    if sigStr[index] != 2 {
      return;
    }
    var sLen := sigStr[index + 1] as int;
    index := index + 2;
    if sLen <= 0 || sLen > total - index {
      return;
    }
    sBytes := sigStr[index..index + sLen];
    index := index + sLen;
    if index != total {
      return;
    }
    Assembled(sigStr, rBytes, sBytes);
    ok := true;
  }

  /** Addition of bytes wraps. */
  function Wrap(x: nat): (r: nat)
    requires x < 512
    ensures r == if x < 256 then x else x - 256
  {
    x % 256
  }

  /** ParseSignature and ParseDERSignature accept exactly the strings that lay out two integers in range. */
  method ParseSig(sigStr: seq<byte>, der: bool) returns (r: Parsed, ghost rb: seq<byte>, ghost sb: seq<byte>)
    ensures r.Parsed? ==> Accepts(sigStr, der, rb, sb) && r.sig == Signature(BigEndian(rb), BigEndian(sb))
    ensures r.Malformed? ==> forall x, y :: !Accepts(sigStr, der, x, y)
  {
    hide BigEndian, Layout, CanonicalPadding, InOrder;
    var ok, rBytes, sBytes := ReadIntegers(sigStr);
    rb, sb := rBytes, sBytes;
    if !ok {
      return Malformed, rb, sb;
    }
    OnlyOne(sigStr, der, rb, sb);
    if der && !(CanonicalPadding(rBytes) && CanonicalPadding(sBytes)) {
      return Malformed, rb, sb;
    }
    var sig := Signature(BigEndian(rBytes), BigEndian(sBytes));
    if !InOrder(sig.r) || !InOrder(sig.s) {
      return Malformed, rb, sb;
    }
    r := Parsed(sig);
  }

  /** What a laid-out string looks like at the positions the parser reads. */
  lemma LayoutShape(b: seq<byte>)
    ensures forall x, y :: Layout(b, x, y) ==>
              && |b| >= 8 && b[0] == 0x30 && b[1] as int == 4 + |x| + |y| <= 253 && |b| >= 6 + |x| + |y|
              && b[2] == 2 && b[3] as int == |x| > 0 && b[4 + |x|] == 2 && b[5 + |x|] as int == |y| > 0
  {
    hide Encode;
    forall x, y | Layout(b, x, y)
      ensures |b| >= 8 && b[0] == 0x30 && b[1] as int == 4 + |x| + |y| <= 253 && |b| >= 6 + |x| + |y|
      ensures b[2] == 2 && b[3] as int == |x| > 0 && b[4 + |x|] == 2 && b[5 + |x|] as int == |y| > 0
    {
      LayoutParts(b, x, y);
    }
  }

  lemma Assembled(b: seq<byte>, rb: seq<byte>, sb: seq<byte>)
    requires rb != [] && sb != [] && 6 + |rb| + |sb| <= |b| && 4 + |rb| + |sb| <= 253
    requires b[0] == 0x30 && b[1] as int == 4 + |rb| + |sb| && b[2] == 2 && b[3] as int == |rb|
    requires b[4..4 + |rb|] == rb && b[4 + |rb|] == 2 && b[5 + |rb|] as int == |sb|
    requires b[6 + |rb|..6 + |rb| + |sb|] == sb
    ensures Layout(b, rb, sb)
  {
    var n := |rb|;
    assert b[..6 + n + |sb|] == b[..4] + b[4..4 + n] + b[4 + n..6 + n] + b[6 + n..6 + n + |sb|];
    assert b[..4] == [0x30, (4 + |rb| + |sb|) as byte, 2, |rb| as byte];
    assert b[4 + n..6 + n] == [2, |sb| as byte];
  }

  lemma OnlyOne(b: seq<byte>, der: bool, rb: seq<byte>, sb: seq<byte>)
    requires Layout(b, rb, sb)
    ensures rb != [] && sb != []
    ensures Accepts(b, der, rb, sb) <==>
              && (der ==> CanonicalPadding(rb) && CanonicalPadding(sb))
              && InOrder(BigEndian(rb)) && InOrder(BigEndian(sb))
    ensures !Accepts(b, der, rb, sb) ==> forall x, y :: !Accepts(b, der, x, y)
  {
    hide Encode, BigEndian, CanonicalPadding;
    forall x, y | Layout(b, x, y)
      ensures x == rb && y == sb
    {
      LayoutUnique(b, rb, sb, x, y);
    }
  }

  // ----- integers

  lemma {:induction false} FirstByte(v: nat)
    requires v > 0
    ensures ToBytes(v) != [] && ToBytes(v)[0] != 0
  {
    if v >= 256 {
      FirstByte(v / 256);
    } else {
      assert ToBytes(v / 256) == [];
    }
  }

  /** Bytes without a leading zero are the minimal bytes of their value. */
  lemma {:induction false} MinimalBytes(b: seq<byte>)
    requires b == [] || b[0] != 0
    ensures ToBytes(BigEndian(b)) == b
  {
    if b != [] {
      var n := |b| - 1;
      var v := BigEndian(b[..n]);
      MinimalBytes(b[..n]);
      assert BigEndian(b) == v * 256 + b[n] as int;
      assert (v * 256 + b[n] as int) / 256 == v && (v * 256 + b[n] as int) % 256 == b[n] as int;
      if n > 0 {
        PositiveValue(b[..n]);
      } else {
        assert b[..n] == [];
      }
      assert b == b[..n] + [b[n]];
    }
  }

  lemma {:induction false} PositiveValue(b: seq<byte>)
    requires b != [] && b[0] != 0
    ensures BigEndian(b) > 0
  {
    if |b| > 1 {
      PositiveValue(b[..|b| - 1]);
    } else {
      assert b[..0] == [];
    }
  }

  lemma LeadingZero(b: seq<byte>)
    ensures BigEndian([0] + b) == BigEndian(b)
  {
    hide BigEndian, Pow256;
    BigEndianConcat([0], b);
    SingleZero();
  }

  lemma SingleZero()
    ensures BigEndian([0]) == 0
  {
    assert [0 as byte][..0] == [];
  }

  /** The canonical bytes of an integer are canonically padded and spell it. */
  lemma CanonicalizeIntCanonical(v: nat)
    ensures CanonicalizeInt(v) != [] && CanonicalPadding(CanonicalizeInt(v)) && BigEndian(CanonicalizeInt(v)) == v
  {
    hide BigEndian, ToBytes;
    SingleZero();
    if v > 0 {
      FirstByte(v);
      ToBytesValue(v);
      LeadingZero(ToBytes(v));
    }
  }

  /** Canonically padded bytes are the canonical bytes of the integer they spell. */
  lemma CanonicalIsUnique(b: seq<byte>)
    requires b != [] && CanonicalPadding(b)
    ensures CanonicalizeInt(BigEndian(b)) == b
  {
    hide BigEndian, ToBytes;
    if b[0] != 0 {
      MinimalBytes(b);
      PositiveValue(b);
    } else if |b| == 1 {
      assert b == [0];
      SingleZero();
    } else {
      var rest := b[1..];
      assert b == [0] + rest;
      LeadingZero(rest);
      MinimalBytes(rest);
      PositiveValue(rest);
    }
  }

  lemma ShortInts(sig: Signature)
    requires 0 <= sig.r < N && 0 <= sig.s < N
    ensures 0 <= LowS(sig.s)
    ensures 0 < |CanonicalizeInt(sig.r)| <= 33 && 0 < |CanonicalizeInt(LowS(sig.s))| <= 33
  {
    ShortInt(sig.r);
    ShortInt(LowS(sig.s));
  }

  lemma ShortInt(v: nat)
    requires v < N
    ensures 0 < |CanonicalizeInt(v)| <= 33
  {
    hide ToBytes, Pow256;
    Pow256At32();
    ToBytesLength(v, 32);
    if v > 0 {
      FirstByte(v);
    }
  }

  // ----- round trips

  /** Parsing a serialized signature gives back R and the low form of S, and nothing else. */
  lemma ParseSerialized(sig: Signature, rb: seq<byte>, sb: seq<byte>)
    requires InOrder(sig.r) && InOrder(sig.s)
    ensures Accepts(Serialize(sig), true, CanonicalizeInt(sig.r), CanonicalizeInt(LowS(sig.s)))
    ensures Accepts(Serialize(sig), true, rb, sb) ==> BigEndian(rb) == sig.r && BigEndian(sb) == LowS(sig.s)
  {
    hide BigEndian, ToBytes, CanonicalPadding, CanonicalizeInt;
    ShortInts(sig);
    var x, y := CanonicalizeInt(sig.r), CanonicalizeInt(LowS(sig.s));
    CanonicalizeIntCanonical(sig.r);
    CanonicalizeIntCanonical(LowS(sig.s));
    var b := Serialize(sig);
    assert b[..6 + |x| + |y|] == b;
    assert Layout(b, x, y);
    if Layout(b, rb, sb) {
      LayoutUnique(b, x, y, rb, sb);
    }
  }

  /** A strictly accepted string with a low S is the serialization of what it says, up to what follows it. */
  lemma SerializeParsed(b: seq<byte>, rb: seq<byte>, sb: seq<byte>)
    requires Accepts(b, true, rb, sb) && BigEndian(sb) <= HALF_ORDER
    ensures Serialize(Signature(BigEndian(rb), BigEndian(sb))) == b[..6 + |rb| + |sb|]
  {
    hide BigEndian, ToBytes, CanonicalizeInt, Encode, CanonicalPadding, LowS;
    CanonicalIsUnique(rb);
    CanonicalIsUnique(sb);
    LowStays(BigEndian(sb));
  }

  lemma LowStays(s: int)
    requires s <= HALF_ORDER
    ensures LowS(s) == s
  {
  }
}
