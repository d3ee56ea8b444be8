/** Bits of 64-bit words, and the scan for the least clear bit. */
module Bits {

  const ALL_ONES: bv64 := 0xffff_ffff_ffff_ffff
  const TOP: bv64 := 0x8000_0000_0000_0000

  function Meet(w: bv64, m: bv64): bv64 { w & m }

  function Set(w: bv64, m: bv64): bv64 { w | m }

  function Clear(w: bv64, m: bv64): bv64 { w & !m }

  function Half(w: bv64): bv64 { w >> 1 }

  function Double(w: bv64): bv64 { w << 1 }

  function Nibble(w: bv64): bv64 { w << 4 }

  /** `1u64 << i`. */
  function Mask(i: nat): bv64 {
    if i == 0 then 1 else Double(Mask(i - 1))
  }

  predicate Bit(w: bv64, i: nat) { Meet(w, Mask(i)) != 0 }

  /** `x.trailing_zeros()` for a nonzero x. */
  function TrailingZeros(x: bv64): nat
    requires x != 0
    decreases x
  {
    if Meet(x, 1) != 0 then 0
    else
      HalfIsSmaller(x);
      1 + TrailingZeros(Half(x))
  }

  function FindFirstZeroBit(word: bv64): nat
    requires word != ALL_ONES
  {
    NotAllOnes(word);
    TrailingZeros(!word)
  }

  // Facts about fixed-width words, each without recursion.

  lemma HalfIsSmaller(x: bv64)
    requires x != 0 && Meet(x, 1) == 0
    ensures Half(x) != 0 && Half(x) < x
  {
  }

  lemma NotAllOnes(w: bv64)
    requires w != ALL_ONES
    ensures !w != 0
  {
  }

  lemma MeetHalf(x: bv64, m: bv64)
    ensures Meet(x, Double(m)) != 0 <==> Meet(Half(x), m) != 0
  {
  }

  lemma MeetDouble(m: bv64, n: bv64)
    ensures Meet(m, n) == 0 ==> Meet(Double(m), Double(n)) == 0
    ensures Meet(1, Double(n)) == 0 && Meet(Double(n), 1) == 0
  {
  }

  lemma MeetSet(w: bv64, m: bv64, n: bv64)
    requires Meet(m, n) == 0
    ensures Meet(Set(w, m), n) == Meet(w, n)
  {
    OrAnd(w, m, n);
  }

  lemma OrAnd(w: bv64, m: bv64, n: bv64)
    requires m & n == 0
    ensures (w | m) & n == w & n
  {
    assert (w | m) & n == (w & n) | (m & n);
  }

  lemma MeetClear(w: bv64, m: bv64, n: bv64)
    requires Meet(m, n) == 0
    ensures Meet(Clear(w, m), n) == Meet(w, n)
  {
    assert n & !m == n;
    assert (w & !m) & n == w & (n & !m);
  }

  lemma MeetSame(w: bv64, m: bv64)
    ensures Meet(Set(w, m), m) == m && Meet(Clear(w, m), m) == 0
  {
  }

  lemma MeetNot(w: bv64, m: bv64)
    ensures Meet(w, m) == 0 ==> Meet(!w, m) == m
    ensures Meet(w, m) == m ==> Meet(!w, m) == 0
  {
  }

  lemma MeetDoubled(x: bv64, m: bv64)
    ensures Meet(x, Double(m)) == Double(Meet(Half(x), m))
  {
  }

  lemma MeetOne(x: bv64)
    ensures Meet(x, 1) == 0 || Meet(x, 1) == 1
  {
  }

  lemma HalfHasNoTop(x: bv64)
    ensures Meet(Half(x), TOP) == 0
  {
  }

  lemma DoubleNonzero(m: bv64)
    ensures Double(m) != 0 ==> m != 0
  {
  }

  lemma DoubleFour(m: bv64)
    ensures Double(Double(Double(Double(m)))) == Nibble(m)
  {
  }

  lemma NextMask(i: nat)
    ensures Mask(i + 1) == Double(Mask(i))
  {
  }

  lemma MaskFour(i: nat)
    ensures Mask(i + 4) == Nibble(Mask(i))
  {
    hide Mask, Double, Nibble;
    NextMask(i);
    NextMask(i + 1);
    NextMask(i + 2);
    NextMask(i + 3);
    DoubleFour(Mask(i));
  }

  lemma MaskSixteen(i: nat)
    ensures Mask(i + 16) == Nibble(Nibble(Nibble(Nibble(Mask(i)))))
  {
    hide Mask, Nibble;
    MaskFour(i);
    MaskFour(i + 4);
    MaskFour(i + 8);
    MaskFour(i + 12);
  }

  lemma TopShifts(n: bv64)
    requires n == Nibble(Nibble(Nibble(Nibble(Nibble(Nibble(Nibble(Nibble(Nibble(Nibble(Nibble(Nibble(Nibble(
                    Nibble(Nibble(1)))))))))))))))
    ensures Double(Double(Double(n))) == TOP
  {
  }

  lemma MaskTop()
    ensures Mask(63) == TOP
  {
    assert Mask(0) == 1;
    hide Mask, Double, Nibble;
    NextMask(60);
    NextMask(61);
    NextMask(62);
    MaskSixteen(0);
    MaskSixteen(16);
    MaskSixteen(32);
    MaskFour(48);
    MaskFour(52);
    MaskFour(56);
    TopShifts(Mask(60));
  }

  lemma {:induction false} MaskNonzero(i: nat)
    requires i < 64
    ensures Mask(i) != 0
    decreases 64 - i
  {
    if i < 63 {
      MaskNonzero(i + 1);
      DoubleNonzero(Mask(i));
    } else {
      MaskTop();
    }
  }

  lemma {:induction false} MasksDisjoint(i: nat, j: nat)
    requires i != j
    ensures Meet(Mask(i), Mask(j)) == 0
    decreases i
  {
    hide Meet, Double;
    if i == 0 {
      MeetDouble(0, Mask(j - 1));
    } else if j == 0 {
      MeetDouble(0, Mask(i - 1));
    } else {
      MasksDisjoint(i - 1, j - 1);
      MeetDouble(Mask(i - 1), Mask(j - 1));
    }
  }

  lemma SetBit(w: bv64, i: nat, j: nat)
    requires i < 64
    ensures Bit(Set(w, Mask(i)), j) <==> Bit(w, j) || j == i
    ensures Bit(Clear(w, Mask(i)), j) <==> Bit(w, j) && j != i
  {
    hide Mask, Meet, Set, Clear;
    MaskNonzero(i);
    if i != j {
      MasksDisjoint(i, j);
      MeetSet(w, Mask(i), Mask(j));
      MeetClear(w, Mask(i), Mask(j));
    } else {
      MeetSame(w, Mask(i));
    }
  }

  lemma {:induction false} MeetMask(w: bv64, i: nat)
    ensures Meet(w, Mask(i)) == 0 || Meet(w, Mask(i)) == Mask(i)
    decreases i
  {
    hide Meet, Double, Half;
    if i == 0 {
      MeetOne(w);
    } else {
      MeetMask(Half(w), i - 1);
      MeetDoubled(w, Mask(i - 1));
      DoubleZero();
    }
  }

  lemma DoubleZero()
    ensures Double(0) == 0
  {
  }

  lemma BitOfNot(w: bv64, i: nat)
    requires i < 64
    ensures Bit(!w, i) <==> !Bit(w, i)
  {
    hide Mask, Meet;
    MaskNonzero(i);
    MeetMask(w, i);
    MeetNot(w, Mask(i));
  }

  lemma BitOfHalf(x: bv64, i: nat)
    ensures Bit(x, i + 1) <==> Bit(Half(x), i)
  {
    hide Mask, Meet, Half, Double;
    NextMask(i);
    MeetHalf(x, Mask(i));
  }

  lemma NoBit63InHalf(x: bv64)
    ensures !Bit(Half(x), 63)
  {
    hide Mask, Meet, Half;
    MaskTop();
    HalfHasNoTop(x);
  }

  lemma {:induction false} TrailingZerosFirst(x: bv64)
    requires x != 0
    ensures TrailingZeros(x) < 64 && Bit(x, TrailingZeros(x))
    ensures forall i: nat :: i < TrailingZeros(x) ==> !Bit(x, i)
    decreases x
  {
    assert Bit(x, 0) <==> Meet(x, 1) != 0;
    hide Bit, Meet, Half;
    if Meet(x, 1) == 0 {
      HalfIsSmaller(x);
      TrailingZerosFirst(Half(x));
      var r := TrailingZeros(Half(x));
      NoBit63InHalf(x);
      BitOfHalf(x, r);
      forall i: nat | i < r + 1 ensures !Bit(x, i) {
        if i > 0 { BitOfHalf(x, i - 1); }
      }
    }
  }

  /** The bit scan finds the least clear bit. */
  lemma FirstZeroBit(word: bv64)
    requires word != ALL_ONES
    ensures var r := FindFirstZeroBit(word);
            r < 64 && !Bit(word, r) && forall i: nat :: i < r ==> Bit(word, i)
  {
    hide Bit;
    NotAllOnes(word);
    TrailingZerosFirst(!word);
    var r := FindFirstZeroBit(word);
    BitOfNot(word, r);
    forall i: nat | i < r ensures Bit(word, i) { BitOfNot(word, i); }
  }

  lemma AllOnesBits(i: nat)
    requires i < 64
    ensures Bit(ALL_ONES, i) && !Bit(0, i)
  {
    MaskNonzero(i);
    var m := Mask(i);
    assert Meet(ALL_ONES, m) == m && Meet(0, m) == 0;
  }

  lemma OneBits(i: nat)
    requires i < 64
    ensures Bit(1, i) <==> i == 0
    ensures Bit(3, i) <==> i < 2
  {
    AllOnesBits(i);
    assert Mask(0) == 1;
    assert Set(0, 1) == 1;
    assert Mask(1) == 2;
    assert Set(1, 2) == 3;
    hide Bit, Mask, Set;
    SetBit(0, 0, i);
    SetBit(1, 1, i);
  }
}
