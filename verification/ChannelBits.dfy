/** Channel flags as bits of a 16-bit word, and 16-bit words as little-endian bytes. */
module ChannelBits {

  const CHANNELS := 12

  // ----- words and bytes -----

  function Le16(w: bv16): (bytes: seq<bv8>)
    ensures |bytes| == 2
  {
    [LowHalf(w), HighHalf(w)]
  }

  function LowHalf(w: bv16): bv8 { (w & 0xFF) as bv8 }

  function HighHalf(w: bv16): bv8 { (w >> 8) as bv8 }

  function FromLe16(bytes: seq<bv8>): bv16
    requires |bytes| == 2
  {
    (bytes[0] as bv16) | ((bytes[1] as bv16) << 8)
  }

  lemma Le16RoundTrip(w: bv16)
    ensures FromLe16(Le16(w)) == w
  {
  }

  lemma Le16Inverse(bytes: seq<bv8>)
    requires |bytes| == 2
    ensures Le16(FromLe16(bytes)) == bytes
  {
  }

  /** A 16-bit word as it is read from two bytes, the low one first. */
  function Word(low: bv8, high: bv8): nat { low as int + 256 * (high as int) }

  lemma WordOfHalves(w: bv16)
    ensures Word(LowHalf(w), HighHalf(w)) == w as int
  {
  }

  // ----- one bit per channel -----

  /** 1 << i */
  function Mask(i: nat): bv16
    requires i < CHANNELS
  {
    match i
    case 0 => 0x0001 case 1 => 0x0002 case 2 => 0x0004 case 3 => 0x0008
    case 4 => 0x0010 case 5 => 0x0020 case 6 => 0x0040 case 7 => 0x0080
    case 8 => 0x0100 case 9 => 0x0200 case 10 => 0x0400 case _ => 0x0800
  }

  function Clear(w: bv16, m: bv16): bv16 { w & !m }

  predicate IsSet(w: bv16, m: bv16) { w & m != 0 }

  function Or16(a: bv16, b: bv16): bv16 { a | b }

  /** A non-zero byte is a set flag. */
  function AsFlags(bytes: seq<bv8>): (flags: seq<bool>)
    ensures |flags| == |bytes|
  {
    seq(|bytes|, i requires 0 <= i < |bytes| => bytes[i] != 0)
  }

  lemma ClearClears(w: bv16, m: bv16)
    ensures !IsSet(Clear(w, m), m)
  {
  }

  lemma ClearKeepsSet(w: bv16, m: bv16, m': bv16)
    requires !IsSet(m, m') && IsSet(w, m')
    ensures IsSet(Clear(w, m), m')
  {
  }

  lemma ClearKeepsClear(w: bv16, m: bv16, m': bv16)
    requires !IsSet(w, m')
    ensures !IsSet(Clear(w, m), m')
  {
  }

  lemma ClearKeeps(w: bv16, m: bv16, m': bv16)
    requires !IsSet(m, m')
    ensures IsSet(Clear(w, m), m') == IsSet(w, m')
  {
    if IsSet(w, m') {
      ClearKeepsSet(w, m, m');
    } else {
      ClearKeepsClear(w, m, m');
    }
  }

  lemma MasksDisjoint(i: nat, j: nat)
    requires i < CHANNELS && j < CHANNELS && i != j
    ensures !IsSet(Mask(i), Mask(j))
  {
  }

  lemma SetInFirst(a: bv16, b: bv16, m: bv16)
    requires IsSet(a, m)
    ensures IsSet(Or16(a, b), m)
  {
  }

  lemma SetInSecond(a: bv16, b: bv16, m: bv16)
    requires IsSet(b, m)
    ensures IsSet(Or16(a, b), m)
  {
  }

  lemma SetInNeither(a: bv16, b: bv16, m: bv16)
    requires !IsSet(a, m) && !IsSet(b, m)
    ensures !IsSet(Or16(a, b), m)
  {
  }

  lemma IsSetOr(a: bv16, b: bv16, m: bv16)
    ensures IsSet(Or16(a, b), m) <==> IsSet(a, m) || IsSet(b, m)
  {
    if IsSet(a, m) {
      SetInFirst(a, b, m);
    } else if IsSet(b, m) {
      SetInSecond(a, b, m);
    } else {
      SetInNeither(a, b, m);
    }
  }

  // ----- words as numbers -----

  function Power(n: nat): nat { if n == 0 then 1 else 2 * Power(n - 1) }

  /** The number whose binary digits are the first n flags, the first one being the lowest. */
  function Sum(on: seq<bool>, n: nat): nat
    requires n <= |on|
  {
    if n == 0 then 0 else Sum(on, n - 1) + if on[n - 1] then Power(n - 1) else 0
  }

  function Bit(on: bool): nat { if on then 1 else 0 }

  lemma SmallPowers()
    ensures Power(0) == 1 && Power(1) == 2 && Power(2) == 4 && Power(3) == 8
    ensures Power(4) == 16 && Power(5) == 32 && Power(6) == 64 && Power(7) == 128
    ensures Power(8) == 256 && Power(9) == 512 && Power(10) == 1024 && Power(11) == 2048
  {
    assert Power(2) == 4 && Power(4) == 16 && Power(6) == 64 && Power(8) == 256 && Power(10) == 1024;
  }

  /** The bit of channel i is the one that counts 2^i. */
  lemma MaskIsPower(i: nat)
    requires i < CHANNELS
    ensures Mask(i) as int == Power(i)
  {
    SmallPowers();
  }

  lemma OneMore(on: seq<bool>, n: nat)
    requires n < |on|
    ensures Sum(on, n + 1) == Sum(on, n) + Power(n) * Bit(on[n])
  {
  }

  lemma SumOfFour(on: seq<bool>)
    requires |on| == CHANNELS
    ensures Sum(on, 4) == Bit(on[0]) + 2 * Bit(on[1]) + 4 * Bit(on[2]) + 8 * Bit(on[3])
  {
    SmallPowers();
    OneMore(on, 0);
    OneMore(on, 1);
    OneMore(on, 2);
    OneMore(on, 3);
  }

  lemma SumOfEight(on: seq<bool>)
    requires |on| == CHANNELS
    ensures Sum(on, 8) == Sum(on, 4) + 16 * Bit(on[4]) + 32 * Bit(on[5]) + 64 * Bit(on[6]) + 128 * Bit(on[7])
  {
    SmallPowers();
    OneMore(on, 4);
    OneMore(on, 5);
    OneMore(on, 6);
    OneMore(on, 7);
  }

  lemma SumOfTwelve(on: seq<bool>)
    requires |on| == CHANNELS
    ensures Sum(on, CHANNELS) ==
            Sum(on, 8) + 256 * Bit(on[8]) + 512 * Bit(on[9]) + 1024 * Bit(on[10]) + 2048 * Bit(on[11])
  {
    SmallPowers();
    OneMore(on, 8);
    OneMore(on, 9);
    OneMore(on, 10);
    OneMore(on, 11);
  }

  lemma {:induction false} SumOfOthers(on: seq<bool>, off: seq<bool>, n: nat)
    requires |on| == |off| && n <= |on| && forall j :: 0 <= j < |on| ==> off[j] == !on[j]
    ensures Sum(on, n) + Sum(off, n) == Power(n) - 1
  {
    if n > 0 {
      SumOfOthers(on, off, n - 1);
    }
  }

  predicate IsSet8(b: bv8, m: bv8) { b & m != 0 }

  lemma ByteDigits(b: bv8)
    ensures b as int ==
            Bit(IsSet8(b, 0x01)) + 2 * Bit(IsSet8(b, 0x02)) + 4 * Bit(IsSet8(b, 0x04)) + 8 * Bit(IsSet8(b, 0x08))
            + 16 * Bit(IsSet8(b, 0x10)) + 32 * Bit(IsSet8(b, 0x20)) + 64 * Bit(IsSet8(b, 0x40))
            + 128 * Bit(IsSet8(b, 0x80))
  {
  }

  lemma LowBits16(w: bv16)
    ensures var b := LowHalf(w);
      && IsSet8(b, 0x01) == IsSet(w, 0x0001) && IsSet8(b, 0x02) == IsSet(w, 0x0002)
      && IsSet8(b, 0x04) == IsSet(w, 0x0004) && IsSet8(b, 0x08) == IsSet(w, 0x0008)
      && IsSet8(b, 0x10) == IsSet(w, 0x0010) && IsSet8(b, 0x20) == IsSet(w, 0x0020)
      && IsSet8(b, 0x40) == IsSet(w, 0x0040) && IsSet8(b, 0x80) == IsSet(w, 0x0080)
  {
  }

  lemma HighBits16(w: bv16)
    ensures var b := HighHalf(w);
      && IsSet8(b, 0x01) == IsSet(w, 0x0100) && IsSet8(b, 0x02) == IsSet(w, 0x0200)
      && IsSet8(b, 0x04) == IsSet(w, 0x0400) && IsSet8(b, 0x08) == IsSet(w, 0x0800)
      && IsSet8(b, 0x10) == IsSet(w, 0x1000) && IsSet8(b, 0x20) == IsSet(w, 0x2000)
      && IsSet8(b, 0x40) == IsSet(w, 0x4000) && IsSet8(b, 0x80) == IsSet(w, 0x8000)
  {
  }

  /** The four bits that no channel has. */
  function Unused(w: bv16): (n: nat)
    ensures n < 16
  {
    Bit(IsSet(w, 0x1000)) + 2 * Bit(IsSet(w, 0x2000)) + 4 * Bit(IsSet(w, 0x4000)) + 8 * Bit(IsSet(w, 0x8000))
  }

  lemma UnusedClear(w: bv16)
    requires !IsSet(w, 0xF000)
    ensures Unused(w) == 0
  {
  }

  lemma UnusedSet(w: bv16)
    requires w & 0xF000 == 0xF000
    ensures Unused(w) == 15
  {
  }

  lemma MaskValues()
    ensures Mask(0) == 0x001 && Mask(1) == 0x002 && Mask(2) == 0x004 && Mask(3) == 0x008
    ensures Mask(4) == 0x010 && Mask(5) == 0x020 && Mask(6) == 0x040 && Mask(7) == 0x080
    ensures Mask(8) == 0x100 && Mask(9) == 0x200 && Mask(10) == 0x400 && Mask(11) == 0x800
  {
  }

  /** The flags are the bits of the word. */
  ghost predicate AreBits(on: seq<bool>, w: bv16) {
    |on| == CHANNELS && forall j :: 0 <= j < CHANNELS ==> on[j] == IsSet(w, Mask(j))
  }

  lemma FirstBits(w: bv16, on: seq<bool>)
    requires AreBits(on, w)
    ensures on[0] == IsSet(w, 0x001) && on[1] == IsSet(w, 0x002) && on[2] == IsSet(w, 0x004) && on[3] == IsSet(w, 0x008)
    ensures on[4] == IsSet(w, 0x010) && on[5] == IsSet(w, 0x020) && on[6] == IsSet(w, 0x040) && on[7] == IsSet(w, 0x080)
  {
    MaskValues();
  }

  lemma LastBits(w: bv16, on: seq<bool>)
    requires AreBits(on, w)
    ensures on[8] == IsSet(w, 0x100) && on[9] == IsSet(w, 0x200)
    ensures on[10] == IsSet(w, 0x400) && on[11] == IsSet(w, 0x800)
  {
    MaskValues();
  }

  lemma LowHalfIs(w: bv16, on: seq<bool>)
    requires AreBits(on, w)
    ensures LowHalf(w) as int ==
            Bit(on[0]) + 2 * Bit(on[1]) + 4 * Bit(on[2]) + 8 * Bit(on[3])
            + 16 * Bit(on[4]) + 32 * Bit(on[5]) + 64 * Bit(on[6]) + 128 * Bit(on[7])
  {
    FirstBits(w, on);
    LowBits16(w);
    ByteDigits(LowHalf(w));
  }

  lemma HighHalfIs(w: bv16, on: seq<bool>)
    requires AreBits(on, w)
    ensures HighHalf(w) as int ==
            Bit(on[8]) + 2 * Bit(on[9]) + 4 * Bit(on[10]) + 8 * Bit(on[11]) + 16 * Unused(w)
  {
    LastBits(w, on);
    HighBits16(w);
    ByteDigits(HighHalf(w));
  }

  lemma SumOfBytes(low: int, high: int, rest: int, on: seq<bool>)
    requires |on| == CHANNELS
    requires low == Bit(on[0]) + 2 * Bit(on[1]) + 4 * Bit(on[2]) + 8 * Bit(on[3])
                    + 16 * Bit(on[4]) + 32 * Bit(on[5]) + 64 * Bit(on[6]) + 128 * Bit(on[7])
    requires high == Bit(on[8]) + 2 * Bit(on[9]) + 4 * Bit(on[10]) + 8 * Bit(on[11]) + 16 * rest
    ensures low + 256 * high == Sum(on, CHANNELS) + 0x1000 * rest
  {
    SumOfFour(on);
    SumOfEight(on);
    SumOfTwelve(on);
  }

  /** The two bytes of a word, as a number, in terms of the channels whose bits are set. */
  lemma WordIsSum(w: bv16, on: seq<bool>)
    requires AreBits(on, w)
    ensures Word(LowHalf(w), HighHalf(w)) == Sum(on, CHANNELS) + 0x1000 * Unused(w)
  {
    LowHalfIs(w, on);
    HighHalfIs(w, on);
    SumOfBytes(LowHalf(w) as int, HighHalf(w) as int, Unused(w), on);
  }

  lemma OddByte(b: bv8)
    ensures b as int % 2 == Bit(IsSet8(b, 0x01))
  {
    ByteDigits(b);
  }

  lemma OddLowHalf(w: bv16)
    ensures LowHalf(w) as int % 2 == Bit(IsSet(w, 0x0001))
  {
    OddByte(LowHalf(w));
    LowBits16(w);
  }

  lemma OddSum(n: int, low: int, high: int)
    requires n == low + 256 * high
    ensures n % 2 == low % 2
  {
  }

  /** The lowest bit of a word says whether it is odd. */
  lemma OddWord(w: bv16)
    ensures w as int % 2 == Bit(IsSet(w, 0x0001))
  {
    OddLowHalf(w);
    WordOfHalves(w);
    OddSum(w as int, LowHalf(w) as int, HighHalf(w) as int);
  }
}
