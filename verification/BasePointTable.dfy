/** The table of byte points: its generation, its serialized layout, and multiplication of the base point with it. */
module BasePointTable {
  import opened Words
  import opened FieldWords
  import opened Modular
  import opened FieldOps
  import opened FieldNormalize
  import opened FieldBytes
  import opened FieldPow
  import opened Curve
  import opened Jacobian
  import opened CurveGroup
  import opened ScalarSplit
  import opened NonAdjacentForm
  import opened ScalarMultiplication

  const GX: nat := 0x79BE667E_F9DCBBAC_55A06295_CE870B07_029BFCDB_2DCE28D9_59F2815B_16F81798
  const GY: nat := 0x483ADA77_26A3C465_5DA4FBFC_0E1108A8_FD17B448_A6855419_9C47D08F_FB10D4B8
  const G: Point := Affine(GX, GY)

  lemma BasePointOnCurve()
    ensures OnCurve(G)
  {
    hide Times;
    IsTimes(GY, GY);
    IsTimes(GX, GX);
    IsTimes(GX * GX, GX);
  }

  /** The Jacobian coordinates of one table entry. */
  datatype Entry = Entry(x: Limbs, y: Limbs, z: Limbs)

  ghost predicate Stores(e: Entry, k: int) {
    Denotes(e.x, e.y, e.z, ZMult(k, G))
  }

  method Load(e: Entry) returns (x: FieldVal, y: FieldVal, z: FieldVal)
    ensures fresh(x) && fresh(y) && fresh(z) && x != y && x != z && y != z
    ensures e == Entry(x.n, y.n, z.n)
  {
    x := new FieldVal();
    y := new FieldVal();
    z := new FieldVal();
    x.n, y.n, z.n := e.x, e.y, e.z;
  }

  ghost predicate Doublings(d: seq<Entry>) {
    |d| == 256 && forall i :: 0 <= i < 256 ==> Stores(d[i], Pow2(i))
  }

  method GetDoublingPoints() returns (d: seq<Entry>)
    requires Hypotheses()
    ensures Doublings(d)
  {
    hide Denotes, OnCurve, ZMult, Hypotheses, Pow256, Rep;
    BasePointOnCurve();
    CoordinatesInRange(G);
    Multiples(G);
    var px := FromNumber(GX);
    var py := FromNumber(GY);
    var pz := new FieldVal();
    pz.n := ONE;
    RepMonotone(py.n, GY, 1, 2);
    AffineDenoted(px.n, py.n, GX, GY);
    d := [];
    for i := 0 to 256
      invariant |d| == i && px != py && px != pz && py != pz
      invariant fresh(px) && fresh(py) && fresh(pz)
      invariant Denotes(px.n, py.n, pz.n, ZMult(Pow2(i), G))
      invariant forall m :: 0 <= m < i ==> Stores(d[m], Pow2(m))
    {
      d := d + [Entry(px.n, py.n, pz.n)];
      Double(px, py, pz, Pow2(i), G);
    }
  }

  /** The low j bits of i. */
  ghost function Low(i: nat, j: nat): nat {
    i % Pow2(j)
  }

  lemma {:induction false} LowStep(i: nat, j: nat)
    ensures Low(i, j + 1) == Low(i, j) + Bit(i, j) * Pow2(j)
  {
    if j > 0 {
      assert Bit(i, j) == Bit(i / 2, j - 1) && Pow2(j) == 2 * Pow2(j - 1);
      hide Low, Bit, Pow2;
      LowStep(i / 2, j - 1);
      LowHalf(i, j);
      LowHalf(i, j + 1);
      TwiceProduct(Bit(i, j), Pow2(j - 1));
    }
  }

  lemma TwiceProduct(b: nat, p: nat)
    ensures b * (2 * p) == 2 * (b * p)
  {
  }

  lemma LowHalf(i: nat, j: nat)
    requires j > 0
    ensures Low(i, j) == 2 * Low(i / 2, j - 1) + i % 2
  {
    var m := Pow2(j - 1);
    assert Pow2(j) == 2 * m;
    hide Pow2;
    var h := i / 2;
    var q, r := h / m, h % m;
    assert h == m * q + r;
    assert i == (2 * m) * q + (2 * r + i % 2);
    RemainderIs(i, 2 * m, q, 2 * r + i % 2);
  }

  lemma SameRemainder(m: nat, q: int, r: nat, d: int, s: nat)
    requires m * q + r == m * d + s && r < m && s < m
    ensures r == s
  {
    var k := q - d;
    assert m * (d + k) == m * d + m * k;
    ProductGap(m, k);
  }

  lemma ProductGap(m: int, k: int)
    requires m >= 0
    ensures k >= 1 ==> m * k >= m
    ensures k <= -1 ==> m * k <= -m
  {
  }

  lemma RemainderIs(a: nat, m: nat, q: nat, r: nat)
    requires m > 0 && a == m * q + r && r < m
    ensures a % m == r
  {
    SameRemainder(m, q, r, a / m, a % m);
  }

  lemma {:induction false} Pow2Sum(a: nat, b: nat)
    ensures Pow2(a + b) == Pow2(a) * Pow2(b)
  {
    if b > 0 {
      Pow2Sum(a, b - 1);
      assert Pow2(a + b) == 2 * Pow2(a + b - 1);
    }
  }

  /** The scalar of a window entry grows by the doubling point of each set bit. */
  lemma WindowStep(i: nat, j: nat, start: nat)
    ensures Bit(i, j) == 1 ==> Low(i, j) * Pow2(start) + Pow2(start + j) == Low(i, j + 1) * Pow2(start)
    ensures Bit(i, j) == 0 ==> Low(i, j) == Low(i, j + 1)
  {
    hide Bit, Low, Pow2;
    LowStep(i, j);
    Pow2Sum(start, j);
    var l, m, w := Low(i, j), Pow2(j), Pow2(start);
    assert (l + m) * w == l * w + w * m;
  }

  /** Entry i of the window whose lowest bit is start.  Adding may normalize the doubling points in place. */
  method WindowPoint(points: seq<Entry>, start: nat, i: nat) returns (e: Entry, d: seq<Entry>)
    requires Hypotheses() && Doublings(points) && start + 8 <= 256 && i < 256
    ensures Stores(e, i * Pow2(start)) && Doublings(d)
  {
    hide Denotes, OnCurve, ZMult, Hypotheses, Low, Pow2, Bit, Same;
    BasePointOnCurve();
    var px := new FieldVal();
    var py := new FieldVal();
    var pz := new FieldVal();
    ZeroDenotes();
    ZMultZero(G);
    LowEnds(i);
    d := points;
    for j := 0 to 8
      invariant px != py && px != pz && py != pz && fresh(px) && fresh(py) && fresh(pz)
      invariant Denotes(px.n, py.n, pz.n, ZMult(Low(i, j) * Pow2(start), G))
      invariant Doublings(d)
    {
      WindowStep(i, j, start);
      BitRange(i, j);
      if Bit(i, j) == 1 {
        var cx, cy, cz := Load(d[start + j]);
        assert Stores(d[start + j], Pow2(start + j));
        ghost var ex, ey, ez := cx.n, cy.n, cz.n;
        AddMultiple(px, py, pz, cx, cy, cz, Low(i, j) * Pow2(start), Pow2(start + j), G);
        DenotesSame(ex, ey, ez, cx.n, cy.n, cz.n, ZMult(Pow2(start + j), G));
        d := d[start + j := Entry(cx.n, cy.n, cz.n)];
      }
    }
    e := Entry(px.n, py.n, pz.n);
  }

  lemma LowEnds(i: nat)
    requires i < 256
    ensures Low(i, 0) == 0 && Low(i, 8) == i
  {
    assert Pow2(8) == 256;
  }

  // ----- the serialized layout

  /** Four bytes, least significant first. */
  function Put32(w: uint32): (r: seq<byte>)
    ensures |r| == 4
  {
    [(w % 256) as byte, (w / 256 % 256) as byte, (w / 65536 % 256) as byte, (w / 16777216) as byte]
  }

  function Get32(b: seq<byte>, at: nat): uint32
    requires at + 4 <= |b|
  {
    b[at] as uint32 + b[at + 1] as uint32 * 256 + b[at + 2] as uint32 * 65536 + b[at + 3] as uint32 * 16777216
  }

  function PutWords(l: Limbs): (r: seq<byte>)
    ensures |r| == 40
  {
    Put32(l.w0) + Put32(l.w1) + Put32(l.w2) + Put32(l.w3) + Put32(l.w4)
    + Put32(l.w5) + Put32(l.w6) + Put32(l.w7) + Put32(l.w8) + Put32(l.w9)
  }

  function GetWords(b: seq<byte>, at: nat): Limbs
    requires at + 40 <= |b|
  {
    Limbs(Get32(b, at), Get32(b, at + 4), Get32(b, at + 8), Get32(b, at + 12), Get32(b, at + 16),
          Get32(b, at + 20), Get32(b, at + 24), Get32(b, at + 28), Get32(b, at + 32), Get32(b, at + 36))
  }

  function PutEntry(e: Entry): (r: seq<byte>)
    ensures |r| == 120
  {
    PutWords(e.x) + PutWords(e.y) + PutWords(e.z)
  }

  function GetEntry(b: seq<byte>, at: nat): Entry
    requires at + 120 <= |b|
  {
    Entry(GetWords(b, at), GetWords(b, at + 40), GetWords(b, at + 80))
  }

  lemma WordRoundTrip(w: uint32, b: seq<byte>, at: nat)
    requires at + 4 <= |b| && b[at..at + 4] == Put32(w)
    ensures Get32(b, at) == w
  {
    var r := Put32(w);
    assert b[at] == r[0] && b[at + 1] == b[at..at + 4][1] == r[1];
    assert b[at + 2] == b[at..at + 4][2] == r[2] && b[at + 3] == b[at..at + 4][3] == r[3];
    Base256(w as int);
  }

  lemma Base256(w: int)
    requires 0 <= w
    ensures w == w % 256 + w / 256 % 256 * 256 + w / 65536 % 256 * 65536 + w / 16777216 * 16777216
  {
    assert w / 65536 == w / 256 / 256 && w / 16777216 == w / 65536 / 256;
  }

  lemma WordsRoundTrip(l: Limbs, b: seq<byte>, at: nat)
    requires at + 40 <= |b| && b[at..at + 40] == PutWords(l)
    ensures GetWords(b, at) == l
  {
    hide Put32, Get32;
    var r := b[at..at + 40];
    assert r[0..4] == Put32(l.w0) && r[4..8] == Put32(l.w1) && r[8..12] == Put32(l.w2) && r[12..16] == Put32(l.w3);
    assert r[16..20] == Put32(l.w4) && r[20..24] == Put32(l.w5) && r[24..28] == Put32(l.w6) && r[28..32] == Put32(l.w7);
    assert r[32..36] == Put32(l.w8) && r[36..40] == Put32(l.w9);
    Slice(b, at, 40, 0, l.w0);
    Slice(b, at, 40, 4, l.w1);
    Slice(b, at, 40, 8, l.w2);
    Slice(b, at, 40, 12, l.w3);
    Slice(b, at, 40, 16, l.w4);
    Slice(b, at, 40, 20, l.w5);
    Slice(b, at, 40, 24, l.w6);
    Slice(b, at, 40, 28, l.w7);
    Slice(b, at, 40, 32, l.w8);
    Slice(b, at, 40, 36, l.w9);
  }

  lemma SliceOfSlice(b: seq<byte>, at: nat, n: nat, off: nat, len: nat)
    requires at + n <= |b| && off + len <= n
    ensures b[at..at + n][off..off + len] == b[at + off..at + off + len]
  {
    var x, y := b[at..at + n][off..off + len], b[at + off..at + off + len];
    forall i | 0 <= i < len
      ensures x[i] == y[i]
    {
      assert x[i] == b[at..at + n][off + i] == b[at + off + i];
    }
    assert x == y;
  }

  lemma Slice(b: seq<byte>, at: nat, n: nat, off: nat, w: uint32)
    requires at + n <= |b| && off + 4 <= n && b[at..at + n][off..off + 4] == Put32(w)
    ensures Get32(b, at + off) == w
  {
    hide Put32, Get32;
    SliceOfSlice(b, at, n, off, 4);
    WordRoundTrip(w, b, at + off);
  }

  /** What is written at an offset is what is read back there, whatever surrounds it. */
  lemma EntryRoundTrip(e: Entry, b: seq<byte>, at: nat)
    requires at + 120 <= |b| && b[at..at + 120] == PutEntry(e)
    ensures GetEntry(b, at) == e
  {
    hide PutWords, GetWords;
    var r := b[at..at + 120];
    assert r[0..40] == PutWords(e.x) && r[40..80] == PutWords(e.y) && r[80..120] == PutWords(e.z);
    SliceOfSlice(b, at, 120, 0, 40);
    SliceOfSlice(b, at, 120, 40, 40);
    SliceOfSlice(b, at, 120, 80, 40);
    WordsRoundTrip(e.x, b, at);
    WordsRoundTrip(e.y, b, at + 40);
    WordsRoundTrip(e.z, b, at + 80);
  }

  /** Later bytes do not change an entry. */
  lemma EntryPrefix(a: seq<byte>, b: seq<byte>, at: nat)
    requires at + 120 <= |a|
    ensures GetEntry(a + b, at) == GetEntry(a, at)
  {
  }

  ghost predicate Serialized(b: seq<byte>, n: nat) {
    && |b| == 120 * n
    && forall m: nat :: m < n ==> StoredAt(b, m)
  }

  /** Entry m of the serialized table is i * 256^(31 - w) times the base point for m = 256 * w + i. */
  ghost predicate StoredAt(b: seq<byte>, m: nat) {
    120 * m + 120 <= |b| && m < 8192 && Stores(GetEntry(b, 120 * m), m % 256 * Pow256(31 - m / 256))
  }

  lemma Append(b: seq<byte>, e: Entry, n: nat)
    requires Serialized(b, n) && n < 8192 && Stores(e, n % 256 * Pow256(31 - n / 256))
    ensures Serialized(b + PutEntry(e), n + 1)
  {
    hide GetEntry, PutEntry, Stores, Pow256;
    var c := b + PutEntry(e);
    forall m: nat | m < n + 1
      ensures StoredAt(c, m)
    {
      if m < n {
        assert StoredAt(b, m);
        EntryPrefix(b, PutEntry(e), 120 * m);
      } else {
        assert c[120 * n..120 * n + 120] == PutEntry(e);
        EntryRoundTrip(e, c, 120 * n);
      }
    }
  }

  lemma {:induction false} ByteShift(n: nat)
    ensures Pow2(8 * n) == Pow256(n)
  {
    if n > 0 {
      ByteShift(n - 1);
      Pow2Sum(8 * (n - 1), 8);
      assert Pow2(8) == 256;
    }
  }

  method SerializedBytePoints() returns (serialized: seq<byte>)
    requires Hypotheses()
    ensures Serialized(serialized, 8192)
  {
    hide Hypotheses, Stores, Pow2, Pow256, PutEntry, Doublings, StoredAt;
    var d := GetDoublingPoints();
    serialized := [];
    for byteNum := 0 to 32
      invariant Doublings(d) && Serialized(serialized, 256 * byteNum)
    {
      var startingBit := 8 * (32 - byteNum - 1);
      ByteShift(31 - byteNum);
      for i := 0 to 256
        invariant Doublings(d) && Serialized(serialized, 256 * byteNum + i)
      {
        var e;
        e, d := WindowPoint(d, startingBit, i);
        assert (256 * byteNum + i) % 256 == i && (256 * byteNum + i) / 256 == byteNum;
        Append(serialized, e, 256 * byteNum + i);
        serialized := serialized + PutEntry(e);
      }
    }
  }

  /** A window of the table: entry i is i * 256^(31 - w) times the base point. */
  ghost predicate Window(t: seq<Entry>, w: nat, n: nat)
    requires w < 32
  {
    |t| == n && forall i: nat :: i < n ==> Stores(t[i], i * Pow256(31 - w))
  }

  ghost predicate BytePoints(t: seq<seq<Entry>>) {
    |t| == 32 && forall w: nat :: w < 32 ==> Window(t[w], w, 256)
  }

  method LoadBytePoints(serialized: seq<byte>) returns (t: seq<seq<Entry>>)
    requires Serialized(serialized, 8192)
    ensures BytePoints(t)
  {
    hide Stores, Pow256, GetEntry;
    var offset := 0;
    t := [];
    for byteNum := 0 to 32
      invariant offset == 120 * (256 * byteNum)
      invariant |t| == byteNum && forall w: nat :: w < byteNum ==> Window(t[w], w, 256)
    {
      var window := [];
      for i := 0 to 256
        invariant offset == 120 * (256 * byteNum + i) && Window(window, byteNum, i)
      {
        assert StoredAt(serialized, 256 * byteNum + i);
        assert (256 * byteNum + i) % 256 == i && (256 * byteNum + i) / 256 == byteNum;
        window := window + [GetEntry(serialized, offset)];
        offset := offset + 120;
      }
      t := t + [window];
    }
  }

  // ----- multiplying the base point

  lemma DigitAdded(v: int, d: int, m: int, w: int)
    requires m == 256 * w
    ensures v * m + d * w == (v * 256 + d) * w
  {
  }

  /** ScalarBaseMult is multiplication of the base point, for every byte string. */
  method ScalarBaseMult(t: seq<seq<Entry>>, k: seq<byte>) returns (rx: nat, ry: nat)
    requires Hypotheses() && BytePoints(t)
    ensures Coordinates(rx, ry, ZMult(BigEndian(k), G))
  {
    hide Denotes, OnCurve, ZMult, Hypotheses, BigEndian, Pow256, Coordinates, Same;
    BasePointOnCurve();
    var newK := ModuloReduce(k);
    var n := |newK|;
    var diff := |t| - n;
    var qx := new FieldVal();
    var qy := new FieldVal();
    var qz := new FieldVal();
    ZeroDenotes();
    ZMultZero(G);
    BigEndianNone();
    assert newK[..0] == [] && newK[..n] == newK;
    for i := 0 to n
      invariant qx != qy && qx != qz && qy != qz && fresh(qx) && fresh(qy) && fresh(qz)
      invariant Denotes(qx.n, qy.n, qz.n, ZMult(BigEndian(newK[..i]) * Pow256(n - i), G))
    {
      var byteVal := newK[i] as nat;
      assert Window(t[diff + i], diff + i, 256);
      assert Stores(t[diff + i][byteVal], byteVal * Pow256(31 - (diff + i)));
      var px, py, pz := Load(t[diff + i][byteVal]);
      ghost var v, w := BigEndian(newK[..i]), Pow256(n - 1 - i);
      AddMultiple(qx, qy, qz, px, py, pz, v * Pow256(n - i), byteVal * w, G);
      PowStep(n - 1 - i);
      BigEndianSnoc(newK, i);
      DigitAdded(v, byteVal, Pow256(n - i), w);
    }
    PowNone();
    Reduced(k, newK);
    Scaled(BigEndian(k), G);
    rx, ry := JacobianToAffine(qx, qy, qz, ZMult(BigEndian(k), G));
  }

  lemma PowNone()
    ensures Pow256(0) == 1
  {
  }

  lemma Reduced(k: seq<byte>, r: seq<byte>)
    requires Hypotheses() && (if |k| <= 32 then r == k else BigEndian(r) == BigEndian(k) % N)
    ensures ZMult(BigEndian(r), G) == ZMult(BigEndian(k), G)
  {
    hide OnCurve, ZMult, Hypotheses, BigEndian;
    BasePointOnCurve();
    ScalarsModN(BigEndian(r), BigEndian(k), G);
  }

  /** With the table generated, serialized and loaded again, the windowed routine agrees with the general one on every byte
      string. */
  method BaseMultAgrees(k: seq<byte>) returns (rx: nat, ry: nat, sx: nat, sy: nat)
    requires Hypotheses()
    ensures rx == sx && ry == sy && Coordinates(rx, ry, ZMult(BigEndian(k), G))
  {
    hide Hypotheses, Serialized, BytePoints, OnCurve, ZMult, BigEndian;
    var serialized := SerializedBytePoints();
    var t := LoadBytePoints(serialized);
    rx, ry := ScalarBaseMult(t, k);
    BasePointOnCurve();
    sx, sy := ScalarMult(G.x, G.y, k);
  }
}
