/** Bytes and little-endian words, as Python's struct packs them, and the bit arithmetic both image
    tools pad with. */
module LittleEndian {
  import opened Bytes

  /** The `width` low bytes of n, least significant first. */
  function Pack(n: nat, width: nat): (bytes: seq<byte>)
    ensures |bytes| == width
    decreases width
  {
    if width == 0 then [] else [n % 0x100] + Pack(n / 0x100, width - 1)
  }

  function Unpack(bytes: seq<byte>): nat
  {
    if bytes == [] then 0 else bytes[0] as int + 0x100 * Unpack(bytes[1..])
  }

  function Pow256(width: nat): (p: nat)
    ensures p > 0
  {
    if width == 0 then 1 else 0x100 * Pow256(width - 1)
  }

  /** struct.pack raises when the value does not fit; what fits is read back. */
  lemma {:induction false} PackUnpack(n: nat, width: nat)
    requires n < Pow256(width)
    ensures Unpack(Pack(n, width)) == n
    decreases width
  {
    if width > 0 {
      assert n / 0x100 < Pow256(width - 1);
      PackUnpack(n / 0x100, width - 1);
      assert Pack(n, width)[1..] == Pack(n / 0x100, width - 1);
    }
  }

  /** Least significant byte first. */
  lemma {:induction false} PackedByte(n: nat, width: nat, i: nat)
    requires i < width
    ensures Pack(n, width)[i] == n / Pow256(i) % 0x100
    decreases width
  {
    if i > 0 {
      PackedByte(n / 0x100, width - 1, i - 1);
      DivideTwice(n, 0x100, Pow256(i - 1));
    }
  }

  lemma DivideTwice(n: nat, a: nat, b: nat)
    requires a > 0 && b > 0
    ensures a * b > 0 && n / a / b == n / (a * b)
  {
    var q, r := n / a, n % a;
    var s, t := q / b, q % b;
    MulAtLeast(a, b - t);
    MulSplit(a, b, t);
    assert n == a * q + r && q == b * s + t;
    assert a * q == a * b * s + a * t;
    MulAtLeast(a, b);
    DivModUnique(n, a * b, s, a * t + r);
  }

  /** The other way round: every word is the packing of its value. */
  lemma {:induction false} UnpackPack(bytes: seq<byte>)
    ensures Unpack(bytes) < Pow256(|bytes|)
    ensures Pack(Unpack(bytes), |bytes|) == bytes
  {
    if bytes != [] {
      UnpackPack(bytes[1..]);
      assert Unpack(bytes) % 0x100 == bytes[0] && Unpack(bytes) / 0x100 == Unpack(bytes[1..]);
    }
  }

  lemma Pow256Values()
    ensures Pow256(4) == TwoTo32
  {
    assert Pow256(2) == 0x1_0000;
    assert Pow256(4) == 0x100 * (0x100 * Pow256(2));
  }

  lemma Pack32(n: nat)
    requires n < TwoTo32
    ensures Unpack(Pack(n, 4)) == n
  {
    Pow256Values();
    PackUnpack(n, 4);
  }

  function Zeros(count: nat): (bytes: seq<byte>)
    ensures |bytes| == count
  {
    seq(count, _ => 0)
  }

  /** The bitwise and of two naturals, binary digit by binary digit. */
  function BitAnd(x: nat, y: nat): (z: nat)
    decreases x
  {
    if x == 0 then 0 else 2 * BitAnd(x / 2, y / 2) + (if x % 2 == 1 && y % 2 == 1 then 1 else 0)
  }

  /** Masking with a power of two less one is the remainder. */
  lemma {:induction false} MaskIsModulo(x: nat, k: nat)
    ensures BitAnd(x, Pow2(k) - 1) == x % Pow2(k)
    decreases k
  {
    if k == 0 {
      AndZero(x);
    } else {
      var half := Pow2(k - 1);
      MaskIsModulo(x / 2, k - 1);
      assert (Pow2(k) - 1) / 2 == half - 1 && (Pow2(k) - 1) % 2 == 1;
      if x > 0 {
        assert BitAnd(x, Pow2(k) - 1) == 2 * BitAnd(x / 2, half - 1) + x % 2;
        HalvedModulo(x, half);
      } else {
        ModSmall(0, Pow2(k));
      }
    }
  }

  lemma {:induction false} AndZero(x: nat)
    ensures BitAnd(x, 0) == 0
    decreases x
  {
    if x > 0 {
      AndZero(x / 2);
    }
  }

  lemma ModSmall(x: nat, m: nat)
    requires x < m
    ensures x % m == x && x / m == 0
  {
  }

  lemma HalvedModulo(x: nat, half: nat)
    requires half > 0
    ensures x % (2 * half) == 2 * (x / 2 % half) + x % 2
  {
    var q, r := x / 2 / half, x / 2 % half;
    assert x / 2 == q * half + r;
    assert x == (2 * half) * q + (2 * r + x % 2);
    assert 2 * r + x % 2 < 2 * half;
    DivModUnique(x, 2 * half, q, 2 * r + x % 2);
  }

  lemma DivModUnique(x: int, m: int, q: int, r: int)
    requires m > 0 && x == m * q + r && 0 <= r < m
    ensures x / m == q && x % m == r
  {
    var q', r' := x / m, x % m;
    if q > q' {
      MulAtLeast(m, q - q');
      MulSplit(m, q, q');
    } else if q < q' {
      MulAtLeast(m, q' - q);
      MulSplit(m, q', q);
    }
  }

  lemma MulAtLeast(m: int, k: int)
    requires m > 0 && k >= 1
    ensures m * k >= m
  {
    assert m * (k - 1) >= 0;
  }

  lemma MulSplit(m: int, a: int, b: int)
    ensures m * (a - b) == m * a - m * b
  {
  }
}
