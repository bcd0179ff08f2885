/** Bytes, byte strings and the integers they spell. */
module Bytes {
  type byte = x: int | 0 <= x < 256

  /** `n >> (8 * i)`. */
  function ShiftBytes(n: nat, i: nat): nat {
    if i == 0 then n else ShiftBytes(n / 256, i - 1)
  }

  function Pow(b: nat, n: nat): (p: nat)
    ensures b > 0 ==> p > 0
  {
    if n == 0 then 1 else b * Pow(b, n - 1)
  }

  function Pow256(k: nat): (p: nat)
    ensures p > 0
  {
    Pow(256, k)
  }

  /** The last k bytes of n, most significant first. */
  function BigEndian(n: nat, k: nat): (s: seq<byte>)
    ensures |s| == k
  {
    if k == 0 then [] else BigEndian(n / 256, k - 1) + [n % 256]
  }

  function FromBigEndian(s: seq<byte>): nat {
    if s == [] then 0 else FromBigEndian(s[..|s| - 1]) * 256 + s[|s| - 1]
  }

  /** The low k bytes of n, least significant first. */
  function LittleEndian(n: nat, k: nat): (s: seq<byte>)
    ensures |s| == k
  {
    if k == 0 then [] else [n % 256] + LittleEndian(n / 256, k - 1)
  }

  function FromLittleEndian(s: seq<byte>): nat {
    if s == [] then 0 else s[0] + 256 * FromLittleEndian(s[1..])
  }

  lemma {:induction false} BigEndianAt(n: nat, k: nat, j: nat)
    requires j < k
    ensures BigEndian(n, k)[j] == ShiftBytes(n, k - 1 - j) % 256
  {
    if j < k - 1 {
      BigEndianAt(n / 256, k - 1, j);
    }
  }

  /** Printing k bytes and reading them back loses only what does not fit in k bytes. */
  lemma {:induction false} BigEndianInverse(n: nat, k: nat)
    ensures FromBigEndian(BigEndian(n, k)) == n % Pow256(k)
  {
    if k > 0 {
      var s := BigEndian(n, k);
      assert s[..k - 1] == BigEndian(n / 256, k - 1) && s[k - 1] == n % 256;
      BigEndianInverse(n / 256, k - 1);
      ModSplit(n, Pow256(k - 1));
    }
  }

  lemma {:induction false} LittleEndianInverse(n: nat, k: nat)
    ensures FromLittleEndian(LittleEndian(n, k)) == n % Pow256(k)
  {
    if k > 0 {
      var s := LittleEndian(n, k);
      assert s[1..] == LittleEndian(n / 256, k - 1);
      LittleEndianInverse(n / 256, k - 1);
      ModSplit(n, Pow256(k - 1));
    }
  }

  lemma ModSplit(n: nat, p: nat)
    requires p > 0
    ensures n % (256 * p) == (n / 256 % p) * 256 + n % 256
  {
    var q := n / 256 / p;
    assert n / 256 == q * p + n / 256 % p;
    var r := (n / 256 % p) * 256 + n % 256;
    assert n == q * (256 * p) + r by {
      assert n == (n / 256) * 256 + n % 256;
      assert (q * p) * 256 == q * (256 * p);
    }
    assert 0 <= r < 256 * p;
    DivModUnique(n, 256 * p, q, r);
  }

  lemma DivModUnique(n: nat, d: nat, q: nat, r: nat)
    requires d > 0 && n == q * d + r && r < d
    ensures n / d == q && n % d == r
  {
    var q', r' := n / d, n % d;
    assert n == d * q' + r';
    Apart(q, r, q', r', d);
  }

  lemma Apart(q: nat, r: nat, q': nat, r': nat, d: nat)
    requires r < d && r' < d && q * d + r == d * q' + r'
    ensures q == q' && r == r'
  {
    if q > q' {
      assert q * d == (q - q') * d + q' * d;
      AtLeastOnce(q - q', d);
    } else if q < q' {
      assert q' * d == (q' - q) * d + q * d;
      AtLeastOnce(q' - q, d);
    }
  }

  lemma AtLeastOnce(k: nat, d: nat)
    requires k > 0
    ensures k * d >= d
  {
    assert k * d == (k - 1) * d + d;
  }

  lemma {:induction false} FromBigEndianBound(s: seq<byte>)
    ensures FromBigEndian(s) < Pow256(|s|)
  {
    if s != [] { FromBigEndianBound(s[..|s| - 1]); }
  }

  lemma {:induction false} FromLittleEndianBound(s: seq<byte>)
    ensures FromLittleEndian(s) < Pow256(|s|)
  {
    if s != [] { FromLittleEndianBound(s[1..]); }
  }

  lemma Powers()
    ensures Pow256(1) == 0x100 && Pow256(2) == 0x1_0000 && Pow256(4) == 0x1_0000_0000
    ensures Pow256(8) == 0x1_0000_0000_0000_0000
  {
    assert Pow256(3) == 0x100_0000;
    assert Pow256(5) == 0x100_0000_0000;
    assert Pow256(6) == 0x1_0000_0000_0000;
    assert Pow256(7) == 0x100_0000_0000_0000;
  }

  function Pow2(n: nat): (p: nat)
    ensures p > 0
  {
    Pow(2, n)
  }

  /** Exclusive or of the low n bits, bit by bit. */
  function XorBits(a: nat, b: nat, n: nat): (r: nat)
    ensures r < Pow2(n)
  {
    if n == 0 then 0 else 2 * XorBits(a / 2, b / 2, n - 1) + (if a % 2 == b % 2 then 0 else 1)
  }

  lemma {:induction false} XorBitsTwice(a: nat, b: nat, n: nat)
    requires a < Pow2(n)
    ensures XorBits(XorBits(a, b, n), b, n) == a
  {
    if n > 0 {
      var x := XorBits(a, b, n);
      assert x / 2 == XorBits(a / 2, b / 2, n - 1);
      assert x % 2 == if a % 2 == b % 2 then 0 else 1;
      XorBitsTwice(a / 2, b / 2, n - 1);
    }
  }

  function Xor(a: byte, b: byte): byte {
    assert Pow2(8) == 256 by { assert Pow2(4) == 16; }
    XorBits(a, b, 8)
  }

  lemma XorTwice(a: byte, b: byte)
    ensures Xor(Xor(a, b), b) == a
  {
    assert Pow2(8) == 256 by { assert Pow2(4) == 16; }
    XorBitsTwice(a, b, 8);
  }

  /** Bit i of a number. */
  function Bit(n: nat, i: nat): nat {
    if i == 0 then n % 2 else Bit(n / 2, i - 1)
  }

  lemma {:induction false} XorBitsBit(a: nat, b: nat, n: nat, i: nat)
    requires i < n
    ensures Bit(XorBits(a, b, n), i) == (Bit(a, i) + Bit(b, i)) % 2
  {
    var x := XorBits(a, b, n);
    assert x / 2 == XorBits(a / 2, b / 2, n - 1);
    assert x % 2 == if a % 2 == b % 2 then 0 else 1;
    if i > 0 { XorBitsBit(a / 2, b / 2, n - 1, i - 1); }
  }

  /** Xor is the exclusive or, bit by bit. */
  lemma XorBit(a: byte, b: byte, i: nat)
    requires i < 8
    ensures Bit(Xor(a, b), i) == (Bit(a, i) + Bit(b, i)) % 2
  {
    XorBitsBit(a, b, 8, i);
  }

  // ---- The bytes of a number, written out ----

  lemma TwoDigits(n: nat)
    ensures BigEndian(n, 2) == [n / 256 % 256, n % 256]
  {
    assert BigEndian(n / 256, 1) == [n / 256 % 256];
  }

  lemma TwoRead(n: nat)
    requires n <= 65535
    ensures FromBigEndian([n / 256, n % 256]) == n
  {
    var a: byte, b: byte := n / 256, n % 256;
    assert [a, b][..1] == [a] && [a][..0] == [];
    assert FromBigEndian([a]) == a;
  }

  /** Eight bytes of a number, most significant first. */
  function EightBytes(n: nat): seq<byte> {
    [n / 0x100_0000_0000_0000 % 256, n / 0x1_0000_0000_0000 % 256, n / 0x100_0000_0000 % 256, n / 0x1_0000_0000 % 256,
     n / 0x100_0000 % 256, n / 0x1_0000 % 256, n / 0x100 % 256, n % 256]
  }

  lemma EightDigits(n: nat)
    ensures BigEndian(n, 8) == EightBytes(n)
  {
    var m := n / 0x1_0000_0000;
    FourBytes(n);
    FourBytes(m);
    SplitFour(n);
    assert n / 0x1_0000_0000 / 0x100 == n / 0x100_0000_0000;
    assert n / 0x1_0000_0000 / 0x1_0000 == n / 0x1_0000_0000_0000;
    assert n / 0x1_0000_0000 / 0x100_0000 == n / 0x100_0000_0000_0000;
  }

  /** Eight bytes spell the number they came from. */
  lemma EightRead(n: nat)
    requires n < 0x1_0000_0000_0000_0000
    ensures FromBigEndian(EightBytes(n)) == n
  {
    EightDigits(n);
    BigEndianInverse(n, 8);
    SmallRemainder(n);
  }

  lemma SmallRemainder(n: nat)
    requires n < 0x1_0000_0000_0000_0000
    ensures n % Pow256(8) == n
  {
    Powers();
  }

  lemma FourBytes(k: nat)
    ensures BigEndian(k, 4) == [k / 0x100_0000 % 256, k / 0x1_0000 % 256, k / 0x100 % 256, k % 256]
  {
    assert k / 256 / 256 == k / 0x1_0000 && k / 256 / 256 / 256 == k / 0x100_0000;
    assert BigEndian(k / 0x100_0000, 1) == [k / 0x100_0000 % 256];
    assert BigEndian(k / 0x1_0000, 2) == [k / 0x100_0000 % 256, k / 0x1_0000 % 256];
    assert BigEndian(k / 0x100, 3) == [k / 0x100_0000 % 256, k / 0x1_0000 % 256, k / 0x100 % 256];
  }

  lemma SplitFour(n: nat)
    ensures BigEndian(n, 8) == BigEndian(n / 0x1_0000_0000, 4) + BigEndian(n, 4)
  {
    SplitAt(n, 4, 4);
    assert ShiftBytes(n, 4) == n / 0x1_0000_0000 by {
      var m := n / 256 / 256 / 256;
      assert ShiftBytes(m, 1) == ShiftBytes(m / 256, 0) == m / 256;
      assert ShiftBytes(n, 4) == ShiftBytes(n / 256 / 256, 2) == ShiftBytes(m, 1);
      assert n / 256 / 256 / 256 / 256 == n / 0x1_0000_0000;
    }
  }

  lemma {:induction false} SplitAt(n: nat, j: nat, k: nat)
    ensures BigEndian(n, j + k) == BigEndian(ShiftBytes(n, k), j) + BigEndian(n, k)
  {
    if k > 0 { SplitAt(n / 256, j, k - 1); }
  }
}
