/** Bits of an unsigned integer, numbered from the least significant (bit 0),
    and the bitwise operators the header and the packet builder apply to
    their 16-bit words, defined on integers one bit at a time: `w | m` and
    `w & ~m` for a single-bit mask m, an n-bit field, and `|` and `&` on two
    words. */
module Bits {
  function Pow2(k: nat): (p: nat)
    ensures p >= 1
  {
    if k == 0 then 1 else 2 * Pow2(k - 1)
  }

  /** The powers a 16-bit word needs. */
  lemma Pow2Values()
    ensures Pow2(4) == 0x10 && Pow2(8) == 0x100
    ensures Pow2(15) == 0x8000 && Pow2(16) == 0x1_0000
  {
    assert Pow2(1) == 2 && Pow2(2) == 4 && Pow2(3) == 8 && Pow2(4) == 0x10;
    assert Pow2(5) == 0x20 && Pow2(6) == 0x40 && Pow2(7) == 0x80 && Pow2(8) == 0x100;
    assert Pow2(9) == 0x200 && Pow2(10) == 0x400 && Pow2(11) == 0x800 && Pow2(12) == 0x1000;
    assert Pow2(13) == 0x2000 && Pow2(14) == 0x4000 && Pow2(15) == 0x8000;
  }

  /** Bit k of w: `(w >> k) & 1`. */
  predicate Bit(w: nat, k: nat)
  {
    if k == 0 then w % 2 == 1 else Bit(w / 2, k - 1)
  }

  /** The only bit of `1 << k` is bit k. */
  lemma {:induction false} PowBits(k: nat, j: nat)
    ensures Bit(Pow2(k), j) <==> j == k
  {
    if k > 0 && j > 0 {
      PowBits(k - 1, j - 1);
    } else if k > 0 {
      assert Pow2(k) % 2 == 0;
    } else if j > 0 {
      ZeroHasNoBits(j - 1);
    }
  }

  lemma {:induction false} ZeroHasNoBits(j: nat)
    ensures !Bit(0, j)
  {
    if j > 0 {
      ZeroHasNoBits(j - 1);
    }
  }

  /** A word is zero exactly when it has no set bit. */
  lemma {:induction false} NonZeroHasBit(w: nat) returns (j: nat)
    requires w != 0
    ensures Bit(w, j)
    decreases w
  {
    if w % 2 == 1 {
      j := 0;
    } else {
      var i := NonZeroHasBit(w / 2);
      j := i + 1;
    }
  }

  /** A set bit k means the word is at least `1 << k`. */
  lemma {:induction false} BitBound(w: nat, k: nat)
    requires Bit(w, k)
    ensures w >= Pow2(k)
  {
    if k > 0 {
      BitBound(w / 2, k - 1);
    }
  }

  /** Adding `1 << k` to a word whose bit k is clear sets that bit and no
      other: it is `w | (1 << k)`. */
  lemma {:induction false} AddBit(w: nat, k: nat, j: nat)
    requires !Bit(w, k)
    ensures Bit(w + Pow2(k), j) == (j == k || Bit(w, j))
  {
    if k == 0 {
      if j > 0 {
        assert (w + 1) / 2 == w / 2;
      }
    } else if j > 0 {
      assert (w + Pow2(k)) / 2 == w / 2 + Pow2(k - 1);
      AddBit(w / 2, k - 1, j - 1);
    }
  }

  /** Subtracting `1 << k` from a word whose bit k is set clears that bit
      and no other: it is `w & ~(1 << k)`. */
  lemma {:induction false} SubBit(w: nat, k: nat, j: nat)
    requires Bit(w, k)
    ensures w >= Pow2(k)
    ensures Bit(w - Pow2(k), j) == (j != k && Bit(w, j))
  {
    BitBound(w, k);
    if k == 0 {
      if j > 0 {
        assert (w - 1) / 2 == w / 2;
      }
    } else if j > 0 {
      assert (w - Pow2(k)) / 2 == w / 2 - Pow2(k - 1);
      SubBit(w / 2, k - 1, j - 1);
    }
  }

  /** Setting a clear bit below bit n keeps the word below `1 << n`. */
  lemma {:induction false} AddBitBelow(w: nat, k: nat, n: nat)
    requires w < Pow2(n) && k < n && !Bit(w, k)
    ensures w + Pow2(k) < Pow2(n)
  {
    var half := Pow2(n - 1);
    assert Pow2(n) == 2 * half;
    if k > 0 {
      assert w / 2 < half;
      AddBitBelow(w / 2, k - 1, n - 1);
      assert Pow2(k) == 2 * Pow2(k - 1);
      assert w <= 2 * (w / 2) + 1;
    } else {
      assert w % 2 == 0;
      assert w == 2 * (w / 2);
    }
  }

  /** Two words below `1 << n` with the same n low bits are equal. */
  lemma {:induction false} BitsDetermine(v: nat, w: nat, n: nat)
    requires v < Pow2(n) && w < Pow2(n)
    requires forall j: nat :: j < n ==> Bit(v, j) == Bit(w, j)
    ensures v == w
  {
    if n > 0 {
      assert Bit(v, 0) == Bit(w, 0);
      forall j: nat | j < n - 1
        ensures Bit(v / 2, j) == Bit(w / 2, j)
      {
        assert Bit(v, j + 1) == Bit(w, j + 1);
      }
      BitsDetermine(v / 2, w / 2, n - 1);
    }
  }

  /** `w | (1 << k)` when `on`, `w & ~(1 << k)` otherwise. */
  function SetBit(w: nat, k: nat, on: bool): (r: nat)
    ensures Bit(r, k) == on
    ensures forall j: nat :: j != k ==> Bit(r, j) == Bit(w, j)
  {
    if Bit(w, k) == on then w
    else if on then
      assert forall j :: Bit(w + Pow2(k), j) == (j == k || Bit(w, j)) by {
        forall j { AddBit(w, k, j); }
      }
      w + Pow2(k)
    else
      BitBound(w, k);
      assert forall j :: Bit(w - Pow2(k), j) == (j != k && Bit(w, j)) by {
        forall j { SubBit(w, k, j); }
      }
      w - Pow2(k)
  }

  /** Setting or clearing a bit of a 16-bit word leaves a 16-bit word. */
  lemma SetBitBelow(w: nat, k: nat, on: bool, n: nat)
    requires w < Pow2(n) && k < n
    ensures SetBit(w, k, on) < Pow2(n)
  {
    if on && !Bit(w, k) {
      AddBitBelow(w, k, n);
    }
  }

  /** The n low bits of v, as a number: `v & ((1 << n) - 1)`. */
  function Low(v: nat, n: nat): (r: nat)
    ensures r < Pow2(n)
  {
    if n == 0 then 0 else v % 2 + 2 * Low(v / 2, n - 1)
  }

  /** The four low bits are the remainder by 16. */
  lemma Low4(v: nat)
    ensures Low(v, 4) == v % 16
  {
    var a, b, c := v / 2, v / 4, v / 8;
    assert v / 2 / 2 == b && v / 4 / 2 == c;
    assert Low(c, 1) == c % 2 + 2 * Low(c / 2, 0) == c % 2;
    assert Low(b, 2) == b % 2 + 2 * Low(c, 1);
    assert Low(a, 3) == a % 2 + 2 * Low(b, 2);
    assert Low(v, 4) == v % 2 + 2 * Low(a, 3);
    assert v == 16 * (v / 16) + 8 * (c % 2) + 4 * (b % 2) + 2 * (a % 2) + v % 2;
  }

  /** A value that fits in n bits is its own n low bits. */
  lemma {:induction false} LowOfSmall(v: nat, n: nat)
    requires v < Pow2(n)
    ensures Low(v, n) == v
  {
    if n > 0 {
      LowOfSmall(v / 2, n - 1);
    }
  }

  /** Below `1 << (n + 1)`, bit n is set exactly when the word is at least
      `1 << n`. */
  lemma {:induction false} TopBit(w: nat, n: nat)
    requires w < Pow2(n + 1)
    ensures Bit(w, n) <==> w >= Pow2(n)
  {
    if n > 0 {
      TopBit(w / 2, n - 1);
    }
  }

  /** The n-bit field starting at bit k, shifted down: `(w >> k) & mask`. */
  function Field(w: nat, k: nat, n: nat): (r: nat)
    ensures r < Pow2(n)
    decreases n
  {
    if n == 0 then 0 else (if Bit(w, k) then 1 else 0) + 2 * Field(w, k + 1, n - 1)
  }

  /** Bit j of the field at bit k is bit k + j of the word. */
  lemma {:induction false} FieldBit(w: nat, k: nat, n: nat, j: nat)
    requires j < n
    ensures Bit(Field(w, k, n), j) == Bit(w, k + j)
    decreases n
  {
    var lo := if Bit(w, k) then 1 else 0;
    HalfOf(lo, Field(w, k + 1, n - 1));
    if j > 0 {
      FieldBit(w, k + 1, n - 1, j - 1);
    }
  }

  lemma FieldBits(w: nat, k: nat, n: nat)
    ensures forall j: nat :: j < n ==> Bit(Field(w, k, n), j) == Bit(w, k + j)
  {
    forall j: nat | j < n
      ensures Bit(Field(w, k, n), j) == Bit(w, k + j)
    {
      FieldBit(w, k, n, j);
    }
  }

  /** A field depends only on its own bits. */
  lemma {:induction false} FieldFrame(v: nat, w: nat, k: nat, n: nat)
    requires forall j: nat :: k <= j < k + n ==> Bit(v, j) == Bit(w, j)
    ensures Field(v, k, n) == Field(w, k, n)
    decreases n
  {
    if n > 0 {
      FieldFrame(v, w, k + 1, n - 1);
    }
  }

  /** The n-bit field at bit k replaced by the n low bits of v:
      `(w & ~mask) | ((v << k) & mask)`. */
  function SetField(w: nat, k: nat, n: nat, v: nat): (r: nat)
    ensures Field(r, k, n) == Low(v, n)
    ensures forall j: nat :: (j < k || j >= k + n) ==> Bit(r, j) == Bit(w, j)
    decreases n
  {
    if n == 0 then w
    else
      var r := SetField(SetBit(w, k, v % 2 == 1), k + 1, n - 1, v / 2);
      assert Bit(r, k) == (v % 2 == 1);
      r
  }

  /** Every bit of a field written with SetField reads back. */
  lemma {:induction false} SetFieldBits(w: nat, k: nat, n: nat, v: nat, j: nat)
    requires k <= j < k + n
    ensures Bit(SetField(w, k, n, v), j) == Bit(Low(v, n), j - k)
    decreases n
  {
    var w' := SetBit(w, k, v % 2 == 1);
    if j == k {
    } else {
      SetFieldBits(w', k + 1, n - 1, v / 2, j);
      assert Bit(Low(v, n), j - k) == Bit(Low(v / 2, n - 1), j - k - 1);
    }
  }

  /** Writing an n-bit field below bit m keeps the word below `1 << m`. */
  lemma {:induction false} SetFieldBelow(w: nat, k: nat, n: nat, v: nat, m: nat)
    requires w < Pow2(m) && k + n <= m
    ensures SetField(w, k, n, v) < Pow2(m)
    decreases n
  {
    if n > 0 {
      SetBitBelow(w, k, v % 2 == 1, m);
      SetFieldBelow(SetBit(w, k, v % 2 == 1), k + 1, n - 1, v / 2, m);
    }
  }

  /** `a | b`. */
  function Or(a: nat, b: nat): (r: nat)
    decreases a + b
  {
    if a == 0 && b == 0 then 0
    else (if a % 2 == 1 || b % 2 == 1 then 1 else 0) + 2 * Or(a / 2, b / 2)
  }

  /** `a & b`. */
  function And(a: nat, b: nat): (r: nat)
    decreases a + b
  {
    if a == 0 || b == 0 then 0
    else (if a % 2 == 1 && b % 2 == 1 then 1 else 0) + 2 * And(a / 2, b / 2)
  }

  /** A low bit and the word above it. */
  lemma HalfOf(lo: nat, x: nat)
    requires lo < 2
    ensures (lo + 2 * x) / 2 == x && (lo + 2 * x) % 2 == lo
  {
  }

  /** Bit j of `a | b` is set when it is set in either. */
  lemma {:induction false} OrBits(a: nat, b: nat, j: nat)
    ensures Bit(Or(a, b), j) == (Bit(a, j) || Bit(b, j))
    decreases a + b
  {
    if a == 0 && b == 0 {
      ZeroHasNoBits(j);
    } else {
      var lo := if a % 2 == 1 || b % 2 == 1 then 1 else 0;
      assert Or(a, b) == lo + 2 * Or(a / 2, b / 2);
      HalfOf(lo, Or(a / 2, b / 2));
      if j > 0 {
        OrBits(a / 2, b / 2, j - 1);
      }
    }
  }

  lemma OrBitsAll(a: nat, b: nat)
    ensures forall j: nat :: Bit(Or(a, b), j) == (Bit(a, j) || Bit(b, j))
  {
    forall j: nat
      ensures Bit(Or(a, b), j) == (Bit(a, j) || Bit(b, j))
    {
      OrBits(a, b, j);
    }
  }

  /** Bit j of `a & b` is set when it is set in both. */
  lemma {:induction false} AndBits(a: nat, b: nat, j: nat)
    ensures Bit(And(a, b), j) == (Bit(a, j) && Bit(b, j))
    decreases a + b
  {
    if a == 0 || b == 0 {
      ZeroHasNoBits(j);
    } else {
      var lo := if a % 2 == 1 && b % 2 == 1 then 1 else 0;
      assert And(a, b) == lo + 2 * And(a / 2, b / 2);
      HalfOf(lo, And(a / 2, b / 2));
      if j > 0 {
        AndBits(a / 2, b / 2, j - 1);
      }
    }
  }

  /** `a | b` of two words below `1 << n` is below `1 << n`. */
  lemma {:induction false} OrBelow(a: nat, b: nat, n: nat)
    requires a < Pow2(n) && b < Pow2(n)
    ensures Or(a, b) < Pow2(n)
    decreases a + b
  {
    if a != 0 || b != 0 {
      assert n != 0;
      OrBelow(a / 2, b / 2, n - 1);
    }
  }

  /** `a & b` is no larger in bits than `a`. */
  lemma {:induction false} AndBelow(a: nat, b: nat, n: nat)
    requires a < Pow2(n)
    ensures And(a, b) < Pow2(n)
    decreases a + b
  {
    if a != 0 && b != 0 {
      assert n != 0;
      AndBelow(a / 2, b / 2, n - 1);
    }
  }

  /** `(1 << n) - 1` has exactly the bits below n. */
  lemma {:induction false} AllOnes(n: nat, j: nat)
    ensures Bit(Pow2(n) - 1, j) <==> j < n
  {
    if n == 0 {
      ZeroHasNoBits(j);
    } else if j > 0 {
      assert (Pow2(n) - 1) / 2 == Pow2(n - 1) - 1;
      AllOnes(n - 1, j - 1);
    }
  }

  /** Powers of two grow with the exponent. */
  lemma {:induction false} Pow2Less(k: nat, n: nat)
    requires k < n
    ensures Pow2(k) < Pow2(n)
  {
    if k < n - 1 {
      Pow2Less(k, n - 1);
    }
  }

  /** `(a & (1 << k)) != 0` tests bit k. */
  lemma TestBit(a: nat, k: nat)
    ensures And(a, Pow2(k)) != 0 <==> Bit(a, k)
  {
    if Bit(a, k) {
      AndBits(a, Pow2(k), k);
      PowBits(k, k);
      if And(a, Pow2(k)) == 0 {
        ZeroHasNoBits(k);
      }
    } else if And(a, Pow2(k)) != 0 {
      var j := NonZeroHasBit(And(a, Pow2(k)));
      AndBits(a, Pow2(k), j);
      PowBits(k, j);
    }
  }
}
