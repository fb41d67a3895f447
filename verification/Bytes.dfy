/**
 Bytes as Go's encoding/binary sees them: a byte is an integer below 256, and a uint32 is stored
 big-endian in four of them. Converting an int to uint32 keeps the low 32 bits, which is written
 out here as a remainder.
 */
module Bytes {

  type byte = b: int | 0 <= b < 256
  type bytes = seq<byte>

  const UINT32_LIMIT: nat := 0x1_0000_0000

  /** Go's conversion `uint32(n)`. */
  function ToUint32(n: nat): nat {
    n % UINT32_LIMIT
  }

  /** The low `k` bytes of `n`, most significant first. */
  function BigEndian(n: nat, k: nat): (b: bytes)
    ensures |b| == k
  {
    if k == 0 then [] else BigEndian(n / 256, k - 1) + [n % 256]
  }

  function Value(b: bytes): nat {
    if b == [] then 0 else Value(b[..|b| - 1]) * 256 + b[|b| - 1] as int
  }

  /** binary.BigEndian.PutUint32 applied to `uint32(n)`. */
  function PutUint32(n: nat): (b: bytes)
    ensures |b| == 4
  {
    BigEndian(n, 4)
  }

  /** binary.BigEndian.Uint32. */
  function Uint32(b: bytes): (n: nat)
    requires |b| == 4
    ensures n < UINT32_LIMIT
  {
    ValueBelow(b);
    Value(b)
  }

  /** The first byte weighs most. */
  lemma Uint32Is(b: bytes)
    requires |b| == 4
    ensures Uint32(b) == b[0] as int * 16777216 + b[1] as int * 65536 + b[2] as int * 256 + b[3] as int
  {
    assert b[..3][..2] == b[..2] && b[..2][..1] == b[..1] && b[..1][..0] == [];
    assert Value(b[..1]) == b[0] as int;
    assert Value(b[..2]) == Value(b[..1]) * 256 + b[1] as int;
    assert Value(b[..3]) == Value(b[..2]) * 256 + b[2] as int;
  }

  lemma ValueBelow(b: bytes)
    requires |b| == 4
    ensures Value(b) < UINT32_LIMIT
  {
    var b3, b2, b1 := b[..3], b[..2], b[..1];
    assert b3[..2] == b2 && b2[..1] == b1 && b1[..0] == [];
    assert Value(b1) < 0x100;
    assert Value(b2) < 0x1_0000;
    assert Value(b3) < 0x100_0000;
  }

  lemma ToUint32Small(n: nat)
    ensures ToUint32(n) == n <==> n < UINT32_LIMIT
  {
  }

  lemma ValueStep(n: nat, k: nat)
    requires k > 0
    ensures Value(BigEndian(n, k)) == Value(BigEndian(n / 256, k - 1)) * 256 + n % 256
  {
    assert BigEndian(n, k)[..k - 1] == BigEndian(n / 256, k - 1);
  }

  /** What is written is read back, up to the conversion to uint32. */
  lemma Uint32RoundTrip(n: nat)
    ensures Uint32(PutUint32(n)) == ToUint32(n)
    ensures Uint32(PutUint32(n)) == n <==> n < UINT32_LIMIT
  {
    var n1 := n / 256;
    var n2 := n1 / 256;
    var n3 := n2 / 256;
    ValueStep(n, 4);
    ValueStep(n1, 3);
    ValueStep(n2, 2);
    ValueStep(n3, 1);
    assert Uint32(PutUint32(n)) == ((n3 % 256 * 256 + n2 % 256) * 256 + n1 % 256) * 256 + n % 256;
    LowBytes(n, n1, n2, n3);
  }

  lemma LowBytes(n: nat, n1: nat, n2: nat, n3: nat)
    requires n1 == n / 256 && n2 == n1 / 256 && n3 == n2 / 256
    ensures ((n3 % 256 * 256 + n2 % 256) * 256 + n1 % 256) * 256 + n % 256 == n % UINT32_LIMIT
  {
    var q := n3 / 256;
    assert n == q * UINT32_LIMIT + (((n3 % 256 * 256 + n2 % 256) * 256 + n1 % 256) * 256 + n % 256);
  }

  /** Four bytes are what their own value is written as. */
  lemma Uint32Written(b: bytes)
    requires |b| == 4
    ensures PutUint32(Uint32(b)) == b
  {
    Rewritten(b);
  }

  lemma {:induction false} Rewritten(b: bytes)
    ensures BigEndian(Value(b), |b|) == b
  {
    if b == [] {
    } else {
      var front, last := b[..|b| - 1], b[|b| - 1] as int;
      Rewritten(front);
      assert Value(b) / 256 == Value(front) && Value(b) % 256 == last;
      assert b == front + [b[|b| - 1]];
    }
  }
}
