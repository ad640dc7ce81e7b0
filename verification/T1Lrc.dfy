/** kernel/files/snvm/protocol/ese_iso7816_t1.c: what the longitudinal redundancy code is, bit by bit, and what it
    detects. */
module T1Lrc {
  import opened Bytes
  import opened LittleEndian
  import opened T1

  function BitOf(n: nat, i: nat): nat
  {
    n / Pow2(i) % 2
  }

  lemma HalfBit(n: nat, i: nat)
    requires i > 0
    ensures BitOf(n, i) == BitOf(n / 2, i - 1)
  {
    DivideTwice(n, 2, Pow2(i - 1));
  }

  lemma XorHalves(a: nat, b: nat, width: nat)
    requires width > 0
    ensures XorBits(a, b, width) / 2 == XorBits(a / 2, b / 2, width - 1)
    ensures XorBits(a, b, width) % 2 == (a % 2 + b % 2) % 2
  {
    assert XorBits(a, b, width) == 2 * XorBits(a / 2, b / 2, width - 1) + (a + b) % 2;
  }

  /** Bit by bit, the exclusive or. */
  lemma {:induction false} XorBitExactly(a: nat, b: nat, width: nat, i: nat)
    requires i < width
    ensures BitOf(XorBits(a, b, width), i) == (BitOf(a, i) + BitOf(b, i)) % 2
    decreases width
  {
    XorHalves(a, b, width);
    if i > 0 {
      XorBitExactly(a / 2, b / 2, width - 1, i - 1);
      HalfBit(XorBits(a, b, width), i);
      HalfBit(a, i);
      HalfBit(b, i);
    } else {
      assert Pow2(0) == 1;
    }
  }

  lemma {:induction false} XorCommutes(a: nat, b: nat, width: nat)
    ensures XorBits(a, b, width) == XorBits(b, a, width)
    decreases width
  {
    if width > 0 {
      XorCommutes(a / 2, b / 2, width - 1);
    }
  }

  lemma HalvesTell(a: nat, b: nat, width: nat)
    requires width > 0 && a < Pow2(width) && b < Pow2(width) && a != b
    ensures a / 2 < Pow2(width - 1) && b / 2 < Pow2(width - 1)
    ensures a / 2 == b / 2 ==> a % 2 != b % 2
  {
  }

  lemma ParityTells(a: nat, b: nat, c: nat)
    requires a < 2 && b < 2 && a != b
    ensures (a + c) % 2 != (b + c) % 2
  {
  }

  lemma {:induction false} XorCancels(a: nat, b: nat, c: nat, width: nat)
    requires a < Pow2(width) && b < Pow2(width) && a != b
    ensures XorBits(a, c, width) != XorBits(b, c, width)
    decreases width
  {
    if width > 0 {
      HalvesTell(a, b, width);
      XorHalves(a, c, width);
      XorHalves(b, c, width);
      if a / 2 != b / 2 {
        XorCancels(a / 2, b / 2, c / 2, width - 1);
      } else {
        ParityTells(a % 2, b % 2, c % 2);
      }
    }
  }

  lemma XorTells(a: byte, b: byte, c: byte)
    requires a != b
    ensures Xor(a, c) != Xor(b, c) && Xor(c, a) != Xor(c, b)
  {
    assert Pow2(4) == 16 && Pow2(8) == 0x100;
    XorCancels(a, b, c, 8);
    XorCommutes(a, c, 8);
    XorCommutes(b, c, 8);
  }

  lemma {:induction false} LrcTells(data: seq<byte>, i: nat, b: byte)
    requires i < |data| && b != data[i]
    ensures Lrc(data[i := b]) != Lrc(data)
    decreases |data|
  {
    var last := |data| - 1;
    if i < last {
      LrcTells(data[..last], i, b);
      assert data[i := b][..last] == data[..last][i := b];
      XorTells(Lrc(data[..last][i := b]), Lrc(data[..last]), data[last]);
    } else {
      assert data[i := b][..last] == data[..last];
      XorTells(b, data[last], Lrc(data[..last]));
    }
  }

  /** One wrong byte in a sound frame is always noticed, wherever it is. */
  lemma OneWrongByteNoticed(frame: seq<byte>, i: nat, b: byte)
    requires |frame| > 1 && LrcOk(frame) && i < |frame| && b != frame[i]
    ensures !LrcOk(frame[i := b])
  {
    var last := |frame| - 1;
    if i < last {
      LrcTells(frame[..last], i, b);
      assert frame[i := b][..last] == frame[..last][i := b];
    } else {
      assert frame[i := b][..last] == frame[..last];
    }
  }
}
