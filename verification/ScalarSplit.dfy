/** The balanced length-two representation of a scalar (Algorithm 3.74 of GECC without the rounding). */
module ScalarSplit {
  import opened Words
  import opened FieldBytes

  const N: int := 0xFFFFFFFF_FFFFFFFF_FFFFFFFF_FFFFFFFE_BAAEDCE6_AF48A03B_BFD25E8C_D0364141
  const LAMBDA: int := 0x5363AD4C_C05C30E0_A5261C02_8812645A_122E22EA_20816678_DF02967C_1B23BD72
  const A1: int := 0x3086D221_A7D46BCD_E86C90E4_9284EB15
  const B1: int := -0xE4437ED6_010E8828_6F547FA9_0ABFE4C3
  const A2: int := 0x1_14CA50F7_A8E2F3F6_57C1108D_9D44CFD8
  const B2: int := 0x3086D221_A7D46BCD_E86C90E4_9284EB15

  /** The minimal big-endian bytes of a number (big.Int.Bytes). */
  function ToBytes(n: nat): seq<byte> {
    if n == 0 then [] else ToBytes(n / 256) + [(n % 256) as byte]
  }

  lemma {:induction false} ToBytesValue(n: nat)
    ensures BigEndian(ToBytes(n)) == n
  {
    if n > 0 {
      ToBytesValue(n / 256);
      assert (ToBytes(n / 256) + [(n % 256) as byte])[..|ToBytes(n / 256)|] == ToBytes(n / 256);
    }
  }

  function Sign(x: int): int {
    if x < 0 then -1 else if x == 0 then 0 else 1
  }

  function Abs(x: int): nat {
    if x < 0 then -x else x
  }

  /** The lattice vectors: (A1, B1) and (A2, B2) are short, independent and orthogonal to (1, LAMBDA) modulo N. */
  lemma Lattice()
    ensures (A1 + B1 * LAMBDA) % N == 0 && (A2 + B2 * LAMBDA) % N == 0
    ensures A1 * B2 - A2 * B1 == N && B2 - B1 == A2 && A1 == B2
  {
  }

  lemma SplitCongruence(k: int, c1: int, c2: int)
    ensures (k - c1 * A1 + c2 * A2 + (c2 * B2 - c1 * B1) * LAMBDA - k) % N == 0
  {
    Lattice();
    var u, v := (A1 + B1 * LAMBDA) / N, (A2 + B2 * LAMBDA) / N;
    assert A1 + B1 * LAMBDA == N * u && A2 + B2 * LAMBDA == N * v;
    assert k - c1 * A1 + c2 * A2 + (c2 * B2 - c1 * B1) * LAMBDA - k == N * (c2 * v - c1 * u);
  }

  lemma SplitBounds(k: int, c1: int, c2: int)
    requires c1 == (B2 * k) / N && c2 == (B1 * k) / N
    ensures -A2 < k - c1 * A1 + c2 * A2 < A1
    ensures -A2 < c2 * B2 - c1 * B1 <= 0
  {
    Lattice();
  }

  lemma SignAbs(x: int)
    ensures Sign(x) * Abs(x) == x && Sign(x) == Sign(Sign(x) * Abs(x)) && (Sign(x) == 0 ==> Abs(x) == 0)
  {
  }

  /** k1 and k2 with their signs represent k modulo N, and both are short. */
  predicate Represents(k: int, v1: int, v2: int) {
    (v1 + v2 * LAMBDA - k) % N == 0 && -A2 < v1 < A1 && -A2 < v2 <= 0
  }

  method SplitK(k: seq<byte>) returns (k1: seq<byte>, k2: seq<byte>, sign1: int, sign2: int)
    ensures Represents(BigEndian(k), sign1 * BigEndian(k1), sign2 * BigEndian(k2))
    ensures sign1 == Sign(sign1 * BigEndian(k1)) && sign2 == Sign(sign2 * BigEndian(k2))
    ensures (sign1 == 0 ==> BigEndian(k1) == 0) && (sign2 == 0 ==> BigEndian(k2) == 0)
  {
    hide BigEndian, ToBytes, Sign, Abs, Represents;
    var bigK := BigEndian(k);
    var c1 := (B2 * bigK) / N;
    var c2 := (B1 * bigK) / N;
    var v1 := bigK - c1 * A1;
    v1 := v1 + c2 * A2;
    var v2 := c2 * B2 - c1 * B1;
    SplitRepresents(bigK, c1, c2);
    k1, k2, sign1, sign2 := ToBytes(Abs(v1)), ToBytes(Abs(v2)), Sign(v1), Sign(v2);
    ToBytesValue(Abs(v1));
    ToBytesValue(Abs(v2));
    SignAbs(v1);
    SignAbs(v2);
  }

  lemma SplitRepresents(k: int, c1: int, c2: int)
    requires c1 == (B2 * k) / N && c2 == (B1 * k) / N
    ensures Represents(k, k - c1 * A1 + c2 * A2, c2 * B2 - c1 * B1)
  {
    SplitCongruence(k, c1, c2);
    SplitBounds(k, c1, c2);
  }

  method ModuloReduce(k: seq<byte>) returns (r: seq<byte>)
    ensures |k| <= 32 ==> r == k
    ensures |k| > 32 ==> BigEndian(r) == BigEndian(k) % N && |r| <= 32
  {
    hide BigEndian, ToBytes, Pow256;
    if |k| > 32 {
      var tmp := BigEndian(k) % N;
      r := ToBytes(tmp);
      ToBytesValue(tmp);
      Pow256At32();
      ToBytesLength(tmp, 32);
    } else {
      r := k;
    }
  }

  lemma Pow256At32()
    ensures Pow256(32) == 0x1_00000000_00000000_00000000_00000000_00000000_00000000_00000000_00000000
  {
    assert Pow256(8) == 0x1_00000000_00000000;
    assert Pow256(16) == 0x1_00000000_00000000_00000000_00000000;
    assert Pow256(24) == 0x1_00000000_00000000_00000000_00000000_00000000_00000000;
  }

  lemma {:induction false} ToBytesLength(n: nat, m: nat)
    requires n < Pow256(m)
    ensures |ToBytes(n)| <= m
  {
    if n > 0 {
      ToBytesLength(n / 256, m - 1);
    }
  }
}
