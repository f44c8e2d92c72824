/** Unsigned machine words as integers: the shift and the bitwise operators of a
    64-bit word, bytes, and the big-endian encoding. */
module Words {

  const TWO64: nat := 0x1_0000_0000_0000_0000
  const MAX64: nat := 0xFFFF_FFFF_FFFF_FFFF

  type Uint64 = n: nat | n < 0x1_0000_0000_0000_0000
  type Byte = n: nat | n < 256
  type Bytes = seq<Byte>

  // ----- bitwise operators -----

  /** Bit k of n, bit 0 the least significant. */
  predicate Bit(n: nat, k: nat) {
    if k == 0 then n % 2 == 1 else Bit(n / 2, k - 1)
  }

  function Or(a: nat, b: nat): nat
    decreases a + b
  {
    if a == 0 then b else if b == 0 then a
    else 2 * Or(a / 2, b / 2) + (if a % 2 == 1 || b % 2 == 1 then 1 else 0)
  }

  function And(a: nat, b: nat): nat {
    if a == 0 || b == 0 then 0
    else 2 * And(a / 2, b / 2) + (if a % 2 == 1 && b % 2 == 1 then 1 else 0)
  }

  function Xor(a: nat, b: nat): nat
    decreases a + b
  {
    if a == 0 then b else if b == 0 then a
    else 2 * Xor(a / 2, b / 2) + (if a % 2 != b % 2 then 1 else 0)
  }

  /** `w << s` truncated to 64 bits, one place at a time. */
  function ShiftLeft(w: Uint64, s: nat): Uint64 {
    if s == 0 then w else (2 * ShiftLeft(w, s - 1)) % TWO64
  }

  lemma {:induction false} ZeroBits(k: nat)
    ensures !Bit(0, k)
  {
    if k > 0 {
      ZeroBits(k - 1);
    }
  }

  lemma {:induction false} OrBit(a: nat, b: nat, k: nat)
    ensures Bit(Or(a, b), k) <==> Bit(a, k) || Bit(b, k)
  {
    if a == 0 || b == 0 {
      ZeroBits(k);
    } else {
      OrParts(a, b);
      if k > 0 {
        OrBit(a / 2, b / 2, k - 1);
        hide Or;
      }
    }
  }

  lemma OrParts(a: nat, b: nat)
    requires a > 0 && b > 0
    ensures Or(a, b) / 2 == Or(a / 2, b / 2)
    ensures Or(a, b) % 2 == 1 <==> a % 2 == 1 || b % 2 == 1
  {
    DoubleParts(Or(a / 2, b / 2), if a % 2 == 1 || b % 2 == 1 then 1 else 0);
  }

  lemma DoubleParts(half: nat, bit: nat)
    requires bit <= 1
    ensures (2 * half + bit) / 2 == half && (2 * half + bit) % 2 == bit
  {}

  lemma {:induction false} OrBound(a: nat, b: nat, size: nat)
    requires a < Pow2(size) && b < Pow2(size)
    ensures Or(a, b) < Pow2(size)
  {
    if size > 0 {
      OrBound(a / 2, b / 2, size - 1);
    }
  }

  lemma {:induction false} AndBit(a: nat, b: nat, k: nat)
    ensures Bit(And(a, b), k) <==> Bit(a, k) && Bit(b, k)
  {
    if a == 0 || b == 0 {
      ZeroBits(k);
    } else {
      AndParts(a, b);
      if k > 0 {
        AndBit(a / 2, b / 2, k - 1);
        hide And;
      }
    }
  }

  lemma AndParts(a: nat, b: nat)
    requires a > 0 && b > 0
    ensures And(a, b) / 2 == And(a / 2, b / 2)
    ensures And(a, b) % 2 == 1 <==> a % 2 == 1 && b % 2 == 1
  {
    DoubleParts(And(a / 2, b / 2), if a % 2 == 1 && b % 2 == 1 then 1 else 0);
  }

  function Pow2(k: nat): (p: nat)
    ensures p > 0
  {
    if k == 0 then 1 else 2 * Pow2(k - 1)
  }

  lemma {:induction false} Pow2Bit(d: nat, k: nat)
    ensures Bit(Pow2(d), k) <==> k == d
  {
    if k > 0 && d > 0 {
      Pow2Bit(d - 1, k - 1);
    } else if k > 0 {
      ZeroBits(k - 1);
    }
  }

  lemma {:induction false} Pow2Monotone(j: nat, k: nat)
    requires j < k
    ensures Pow2(j) < Pow2(k)
  {
    if j < k - 1 {
      Pow2Monotone(j, k - 1);
    }
  }

  lemma Pow2Is64()
    ensures Pow2(64) == TWO64
  {
    assert Pow2(8) == 256;
    assert Pow2(16) == 0x1_0000;
    assert Pow2(24) == 0x100_0000;
    assert Pow2(32) == 0x1_0000_0000;
    assert Pow2(40) == 0x100_0000_0000;
    assert Pow2(48) == 0x1_0000_0000_0000;
    assert Pow2(56) == 0x100_0000_0000_0000;
  }

  /** The mask `1 << d` of the source is the d-th power of two. */
  lemma {:induction false} OneShifted(d: nat)
    requires d < 64
    ensures ShiftLeft(1, d) == Pow2(d)
  {
    if d > 0 {
      OneShifted(d - 1);
      Pow2Monotone(d, 64);
      Pow2Is64();
    }
  }

  /** The source's mask test reads bit d. */
  lemma {:induction false} MaskTest(w: nat, d: nat)
    ensures And(w, Pow2(d)) != 0 <==> Bit(w, d)
  {
    if d > 0 {
      MaskTest(w / 2, d - 1);
      ZeroBits(d);
    } else {
      assert And(w / 2, 0) == 0;
      ZeroBits(0);
    }
  }

  /** Adding a power of two does not disturb the bits below it. */
  lemma {:induction false} LowBits(n: nat, j: nat, k: nat)
    requires k < j
    ensures Bit(n + Pow2(j), k) <==> Bit(n, k)
  {
    if k > 0 {
      assert (n + Pow2(j)) / 2 == n / 2 + Pow2(j - 1);
      LowBits(n / 2, j - 1, k - 1);
    }
  }

  lemma DoubleBit(w: Uint64, k: nat)
    requires k < 64
    ensures Bit((2 * w) % TWO64, k) <==> k > 0 && Bit(w, k - 1)
  {
    var d := (2 * w) % TWO64;
    assert Bit(2 * w, k) <==> k > 0 && Bit(w, k - 1);
    if 2 * w >= TWO64 {
      Pow2Is64();
      assert 2 * w == d + Pow2(64);
      LowBits(d, 64, k);
    }
  }

  /** Shifting left by s moves bit j to bit s + j and clears everything below s. */
  lemma {:induction false} ShiftBit(w: Uint64, s: nat, k: nat)
    requires k < 64
    ensures Bit(ShiftLeft(w, s), k) <==> k >= s && Bit(w, k - s)
  {
    if s > 0 {
      DoubleBit(ShiftLeft(w, s - 1), k);
      if k > 0 {
        ShiftBit(w, s - 1, k - 1);
      }
    }
  }

  lemma {:induction false} XorBit(a: nat, b: nat, k: nat)
    ensures Bit(Xor(a, b), k) <==> Bit(a, k) != Bit(b, k)
  {
    if a == 0 || b == 0 {
      ZeroBits(k);
    } else {
      XorParts(a, b);
      if k > 0 {
        XorBit(a / 2, b / 2, k - 1);
        hide Xor;
      }
    }
  }

  lemma XorParts(a: nat, b: nat)
    requires a > 0 && b > 0
    ensures Xor(a, b) / 2 == Xor(a / 2, b / 2)
    ensures Xor(a, b) % 2 == 1 <==> a % 2 != b % 2
  {
    DoubleParts(Xor(a / 2, b / 2), if a % 2 != b % 2 then 1 else 0);
  }

  lemma {:induction false} XorCancels(a: nat, b: nat)
    ensures Xor(a, Xor(a, b)) == b
    decreases a + b
  {
    if a != 0 && b != 0 {
      XorCancels(a / 2, b / 2);
    } else if b == 0 {
      XorSelf(a);
    }
  }

  lemma {:induction false} XorSelf(a: nat)
    ensures Xor(a, a) == 0
  {
    if a > 0 {
      XorSelf(a / 2);
    }
  }

  lemma {:induction false} XorBound(a: nat, b: nat, size: nat)
    requires a < Pow2(size) && b < Pow2(size)
    ensures Xor(a, b) < Pow2(size)
  {
    if size > 0 {
      XorBound(a / 2, b / 2, size - 1);
    }
  }

  function XorByte(a: Byte, b: Byte): Byte {
    assert Pow2(8) == 256;
    XorBound(a, b, 8);
    Xor(a, b)
  }

  function Or64(a: Uint64, b: Uint64): Uint64 {
    Pow2Is64();
    OrBound(a, b, 64);
    Or(a, b)
  }

  // ----- big-endian encoding -----

  function Pow256(k: nat): (p: nat)
    ensures p > 0
  {
    if k == 0 then 1 else 256 * Pow256(k - 1)
  }

  /** The `width` low bytes of n, most significant first. */
  function PutBE(n: nat, width: nat): (b: Bytes)
    ensures |b| == width
  {
    if width == 0 then [] else PutBE(n / 256, width - 1) + [n % 256]
  }

  function GetBE(b: Bytes): nat {
    if b == [] then 0 else 256 * GetBE(b[..|b| - 1]) + b[|b| - 1]
  }

  /** Decoding the header recovers every number that fits it. */
  lemma {:induction false} BigEndianRoundTrip(n: nat, width: nat)
    requires n < Pow256(width)
    ensures GetBE(PutBE(n, width)) == n
  {
    if width > 0 {
      BigEndianRoundTrip(n / 256, width - 1);
      assert PutBE(n, width)[..width - 1] == PutBE(n / 256, width - 1);
    }
  }

  lemma Pow256Is64()
    ensures Pow256(8) == TWO64
  {
    assert Pow256(4) == 0x1_0000_0000;
  }

  lemma {:induction false} GetBound(b: Bytes)
    ensures GetBE(b) < Pow256(|b|)
  {
    if b != [] {
      GetBound(b[..|b| - 1]);
    }
  }

  /** Encoding the decoded bytes gives them back. */
  lemma {:induction false} BytesRoundTrip(b: Bytes)
    ensures PutBE(GetBE(b), |b|) == b
  {
    if b != [] {
      BytesRoundTrip(b[..|b| - 1]);
      DivideByte(GetBE(b[..|b| - 1]), b[|b| - 1]);
    }
  }

  lemma DivideByte(high: nat, low: Byte)
    ensures (256 * high + low) / 256 == high && (256 * high + low) % 256 == low
  {}

  lemma {:induction false} LowByte(n: nat, k: nat)
    requires k < 8
    ensures Bit(n % 256, k) <==> Bit(n, k)
  {
    if n >= 256 {
      LowByte(n - 256, k);
      ByteLess(n);
      LowBits(n - 256, 8, k);
      hide Bit, Pow2;
    }
  }

  lemma ByteLess(n: nat)
    requires n >= 256
    ensures (n - 256) % 256 == n % 256 && n - 256 + Pow2(8) == n
  {
    assert Pow2(8) == 256;
  }

  lemma HighBits(n: nat, k: nat)
    ensures Bit(n / 256, k) <==> Bit(n, k + 8)
  {
    var n1, n2, n3, n4 := n / 2, n / 4, n / 8, n / 16;
    var n5, n6, n7 := n / 32, n / 64, n / 128;
    assert n1 / 2 == n2 && n2 / 2 == n3 && n3 / 2 == n4 && n4 / 2 == n5 && n5 / 2 == n6 && n6 / 2 == n7;
    assert n7 / 2 == n / 256;
    assert Bit(n, k + 8) == Bit(n1, k + 7) == Bit(n2, k + 6) == Bit(n3, k + 5);
    assert Bit(n3, k + 5) == Bit(n4, k + 4) == Bit(n5, k + 3) == Bit(n6, k + 2) == Bit(n7, k + 1);
  }

  /** Which bit of the number each bit of the encoding is: the most significant byte first. */
  lemma {:induction false} BigEndianBits(n: nat, width: nat, i: nat, k: nat)
    requires i < width && k < 8
    ensures Bit(PutBE(n, width)[i], k) <==> Bit(n, 8 * (width - 1 - i) + k)
  {
    if i == width - 1 {
      LowByte(n, k);
    } else {
      BigEndianBits(n / 256, width - 1, i, k);
      HighBits(n, 8 * (width - 2 - i) + k);
    }
  }

  /** A byte is its eight bits. */
  lemma ByteBits(a: Byte, b: Byte)
    requires forall k: nat | k < 8 :: Bit(a, k) <==> Bit(b, k)
    ensures a == b
  {
    SameBits(a, b, 8);
  }

  lemma {:induction false} SameBits(a: nat, b: nat, size: nat)
    requires a < Pow2(size) && b < Pow2(size)
    requires forall k: nat | k < size :: Bit(a, k) <==> Bit(b, k)
    ensures a == b
  {
    if size > 0 {
      assert Bit(a, 0) <==> Bit(b, 0);
      forall k: nat | k < size - 1 ensures Bit(a / 2, k) <==> Bit(b / 2, k) {
        assert Bit(a, k + 1) <==> Bit(b, k + 1);
      }
      SameBits(a / 2, b / 2, size - 1);
    }
  }
}
