/** The supervisor telemetry frame: the 10-bit packing of SSM/App/Domain/CurrentMeasurement.c
    and the 8-byte encoding of SSM/App/Domain/VoltageCurrentFrame.c, against a decoder. */
module Telemetry {
  import opened ChannelBits

  const GROUPS := 4
  const CURRENT_MAX_10BIT: bv16 := 0x03FF

  // ----- ten bits in two places -----

  function Saturate(v: bv16): bv16 {
    if v > CURRENT_MAX_10BIT then CURRENT_MAX_10BIT else v
  }

  function Low(v: bv16): bv8 { (v & 0xFF) as bv8 }

  function High2(v: bv16): bv8 { ((v >> 8) & 0x03) as bv8 }

  function Join(low: bv8, high2: bv8): bv16 { (low as bv16) | ((high2 as bv16) << 8) }

  /** high2 << (2 * i) */
  function Placed(high2: bv8, i: nat): bv8
    requires i < GROUPS
  {
    match i
    case 0 => high2 case 1 => high2 << 2 case 2 => high2 << 4 case _ => high2 << 6
  }

  /** The two bits at position i. */
  function Field(packed: bv8, i: nat): bv8
    requires i < GROUPS
  {
    match i
    case 0 => packed & 0x03 case 1 => (packed >> 2) & 0x03 case 2 => (packed >> 4) & 0x03 case _ => packed >> 6
  }

  function Or8(a: bv8, b: bv8): bv8 { a | b }

  /** The packed byte after the first n currents. */
  function HighBits(currents: seq<bv16>, n: nat): bv8
    requires n <= |currents| == GROUPS
  {
    if n == 0 then 0
    else Or8(HighBits(currents, n - 1), Placed(High2(Saturate(currents[n - 1])), n - 1))
  }

  lemma JoinSplit(v: bv16)
    requires v <= CURRENT_MAX_10BIT
    ensures Join(Low(v), High2(v)) == v
  {
  }

  lemma SplitJoin(low: bv8, high2: bv8)
    requires high2 <= 3
    ensures Low(Join(low, high2)) == low && High2(Join(low, high2)) == high2
    ensures Join(low, high2) <= CURRENT_MAX_10BIT
  {
  }

  lemma High2Small(v: bv16)
    ensures High2(v) <= 3
  {
  }

  lemma FieldSmall(packed: bv8, i: nat)
    requires i < GROUPS
    ensures Field(packed, i) <= 3
  {
  }

  lemma FieldOfOr(a: bv8, b: bv8, i: nat)
    requires i < GROUPS
    ensures Field(Or8(a, b), i) == Or8(Field(a, i), Field(b, i))
  {
  }

  lemma FieldOfPlaced(high2: bv8, i: nat, j: nat)
    requires high2 <= 3 && i < GROUPS && j < GROUPS
    ensures Field(Placed(high2, i), j) == if j == i then high2 else 0
  {
  }

  lemma {:induction false} HighBitsMeaning(currents: seq<bv16>, n: nat, j: nat)
    requires n <= |currents| == GROUPS && j < GROUPS
    ensures Field(HighBits(currents, n), j) == if j < n then High2(Saturate(currents[j])) else 0
  {
    if n > 0 {
      var h := High2(Saturate(currents[n - 1]));
      High2Small(Saturate(currents[n - 1]));
      HighBitsMeaning(currents, n - 1, j);
      FieldOfOr(HighBits(currents, n - 1), Placed(h, n - 1), j);
      FieldOfPlaced(h, n - 1, j);
    }
  }

  // ----- the voltage bits -----

  /** The voltage word after the first n channels. */
  function VoltageBits(on: seq<bool>, n: nat): bv16
    requires n <= |on| == CHANNELS
  {
    if n == 0 then 0
    else if on[n - 1] then Or16(VoltageBits(on, n - 1), Mask(n - 1))
    else VoltageBits(on, n - 1)
  }

  function OnChannels(word: bv16): (on: seq<bool>)
    ensures |on| == CHANNELS
  {
    seq(CHANNELS, i requires 0 <= i < CHANNELS => IsSet(word, Mask(i)))
  }

  predicate TopClear(word: bv16) { !IsSet(word, 0xF000) }

  lemma MaskFacts(i: nat)
    requires i < CHANNELS
    ensures IsSet(Mask(i), Mask(i)) && TopClear(Mask(i)) && !IsSet(0, Mask(i))
  {
  }

  lemma {:induction false} VoltageBitsMeaning(on: seq<bool>, n: nat, j: nat)
    requires n <= |on| == CHANNELS && j < CHANNELS
    ensures Mask(j) as int == Power(j) && (IsSet(VoltageBits(on, n), Mask(j)) <==> j < n && on[j])
    ensures TopClear(VoltageBits(on, n))
  {
    MaskIsPower(j);
    MaskFacts(j);
    if n > 0 {
      VoltageBitsMeaning(on, n - 1, j);
      IsSetOr(VoltageBits(on, n - 1), Mask(n - 1), Mask(j));
      IsSetOr(VoltageBits(on, n - 1), Mask(n - 1), 0xF000);
      MaskFacts(n - 1);
      if j != n - 1 {
        MasksDisjoint(n - 1, j);
      }
    }
  }

  /** Twelve bits and a clear top make the word. */
  lemma SameBits(a: bv16, b: bv16)
    requires TopClear(a) && TopClear(b)
    requires IsSet(a, 0x001) == IsSet(b, 0x001) && IsSet(a, 0x002) == IsSet(b, 0x002)
    requires IsSet(a, 0x004) == IsSet(b, 0x004) && IsSet(a, 0x008) == IsSet(b, 0x008)
    requires IsSet(a, 0x010) == IsSet(b, 0x010) && IsSet(a, 0x020) == IsSet(b, 0x020)
    requires IsSet(a, 0x040) == IsSet(b, 0x040) && IsSet(a, 0x080) == IsSet(b, 0x080)
    requires IsSet(a, 0x100) == IsSet(b, 0x100) && IsSet(a, 0x200) == IsSet(b, 0x200)
    requires IsSet(a, 0x400) == IsSet(b, 0x400) && IsSet(a, 0x800) == IsSet(b, 0x800)
    ensures a == b
  {
  }

  lemma SameChannels(a: bv16, b: bv16)
    requires TopClear(a) && TopClear(b) && OnChannels(a) == OnChannels(b)
    ensures a == b
  {
    forall i | 0 <= i < CHANNELS ensures IsSet(a, Mask(i)) == IsSet(b, Mask(i)) {
      assert OnChannels(a)[i] == OnChannels(b)[i];
    }
    assert Mask(0) == 0x001 && Mask(1) == 0x002 && Mask(2) == 0x004 && Mask(3) == 0x008;
    assert Mask(4) == 0x010 && Mask(5) == 0x020 && Mask(6) == 0x040 && Mask(7) == 0x080;
    assert Mask(8) == 0x100 && Mask(9) == 0x200 && Mask(10) == 0x400 && Mask(11) == 0x800;
    SameBits(a, b);
  }

  // ----- the frame -----

  datatype Reading = Reading(on: seq<bool>, currents: seq<bv16>, status: bv8) {
    predicate WellFormed() {
      |on| == CHANNELS && |currents| == GROUPS
    }
  }

  function LowBytes(currents: seq<bv16>): (low: seq<bv8>)
    ensures |low| == |currents|
  {
    seq(|currents|, i requires 0 <= i < |currents| => Low(Saturate(currents[i])))
  }

  function Frame(r: Reading): (bytes: seq<bv8>)
    requires r.WellFormed()
    ensures |bytes| == 8
  {
    Le16(VoltageBits(r.on, CHANNELS)) + LowBytes(r.currents) + [HighBits(r.currents, GROUPS), r.status]
  }

  /** What a receiver of the frame reads out of it. */
  function DecodeFrame(bytes: seq<bv8>): (r: Reading)
    requires |bytes| == 8
    ensures r.WellFormed()
  {
    Reading(OnChannels(FromLe16(bytes[0..2])),
            seq(GROUPS, i requires 0 <= i < GROUPS => Join(bytes[2 + i], Field(bytes[6], i))),
            bytes[7])
  }

  function Saturated(r: Reading): Reading
    requires r.WellFormed()
  {
    r.(currents := seq(GROUPS, i requires 0 <= i < GROUPS => Saturate(r.currents[i])))
  }

  /** Every channel flag, every current up to 1023 mA and the status survive the wire. */
  lemma FrameIsDecodable(r: Reading)
    requires r.WellFormed()
    ensures DecodeFrame(Frame(r)) == Saturated(r)
    ensures Frame(r)[1] & 0xF0 == 0
  {
    var b, w := Frame(r), VoltageBits(r.on, CHANNELS);
    assert b[0..2] == Le16(w);
    Le16RoundTrip(w);
    forall j | 0 <= j < CHANNELS ensures OnChannels(w)[j] == r.on[j] {
      VoltageBitsMeaning(r.on, CHANNELS, j);
    }
    forall i | 0 <= i < GROUPS ensures Join(b[2 + i], Field(b[6], i)) == Saturate(r.currents[i]) {
      HighBitsMeaning(r.currents, GROUPS, i);
      assert b[2 + i] == LowBytes(r.currents)[i];
      JoinSplit(Saturate(r.currents[i]));
    }
    VoltageBitsMeaning(r.on, CHANNELS, 0);
    TopByte(w);
  }

  lemma TopByte(w: bv16)
    ensures Le16(w)[1] & 0xF0 == 0 <==> TopClear(w)
  {
  }

  lemma FieldsIdentify(a: bv8, b: bv8)
    requires Field(a, 0) == Field(b, 0) && Field(a, 1) == Field(b, 1)
    requires Field(a, 2) == Field(b, 2) && Field(a, 3) == Field(b, 3)
    ensures a == b
  {
  }

  /** The frames on the wire are exactly the byte strings with a clear top nibble in byte 1:
      each of them is the encoding of what it decodes to. */
  lemma DecodedIsReencoded(b: seq<bv8>)
    requires |b| == 8 && b[1] & 0xF0 == 0
    ensures Frame(DecodeFrame(b)) == b
  {
    var r, w := DecodeFrame(b), FromLe16(b[0..2]);
    Le16Inverse(b[0..2]);
    assert Le16(w)[1] == b[1];
    TopByte(w);
    var v := VoltageBits(r.on, CHANNELS);
    forall j | 0 <= j < CHANNELS ensures OnChannels(v)[j] == OnChannels(w)[j] {
      VoltageBitsMeaning(r.on, CHANNELS, j);
    }
    VoltageBitsMeaning(r.on, CHANNELS, 0);
    SameChannels(v, w);
    assert Le16(v) == b[0..2];
    CurrentsReencoded(b);
  }

  lemma CurrentsReencoded(b: seq<bv8>)
    requires |b| == 8
    ensures LowBytes(DecodeFrame(b).currents) == b[2..6]
    ensures HighBits(DecodeFrame(b).currents, GROUPS) == b[6]
  {
    var c := DecodeFrame(b).currents;
    forall i | 0 <= i < GROUPS
      ensures LowBytes(c)[i] == b[2 + i] && Field(HighBits(c, GROUPS), i) == Field(b[6], i)
    {
      FieldSmall(b[6], i);
      SplitJoin(b[2 + i], Field(b[6], i));
      HighBitsMeaning(c, GROUPS, i);
    }
    FieldsIdentify(HighBits(c, GROUPS), b[6]);
  }

  // ----- the frame in numbers -----

  /** A current as the frame can carry it, in mA. */
  function Reported(current: bv16): (ma: nat)
    ensures ma <= 1023
  {
    if current as int < 1023 then current as int else 1023
  }

  lemma SaturateNumber(v: bv16)
    ensures Saturate(v) as int == Reported(v) && Saturate(v) <= CURRENT_MAX_10BIT
  {
  }

  lemma HighNumber(v: bv16)
    requires v <= CURRENT_MAX_10BIT
    ensures High2(v) == HighHalf(v) && Low(v) == LowHalf(v)
  {
  }

  lemma SplitNumber(v: bv16)
    ensures Low(Saturate(v)) as int == Reported(v) % 256 && High2(Saturate(v)) as int == Quarters(v)
  {
    var s := Saturate(v);
    SaturateNumber(v);
    HighNumber(s);
    WordOfHalves(s);
    Quotient(Reported(v), High2(s) as int, Low(s) as int);
  }

  lemma Quotient(n: nat, q: nat, r: nat)
    requires r < 256 && r + 256 * q == n
    ensures n / 256 == q && n % 256 == r
  {
  }

  lemma PackedNumber(packed: bv8)
    ensures packed as int ==
            Field(packed, 0) as int + 4 * (Field(packed, 1) as int) + 16 * (Field(packed, 2) as int)
            + 64 * (Field(packed, 3) as int)
  {
  }

  /** What does not fit the low byte of a current: 0 to 3 times 256 mA. */
  function Quarters(current: bv16): (n: nat)
    ensures n <= 3
  {
    Reported(current) / 256
  }

  /** The number in byte 6: two bits of each current. */
  function HighSum(currents: seq<bv16>): nat
    requires |currents| == GROUPS
  {
    Quarters(currents[0]) + 4 * Quarters(currents[1]) + 16 * Quarters(currents[2]) + 64 * Quarters(currents[3])
  }

  lemma HighBitsNumber(currents: seq<bv16>)
    requires |currents| == GROUPS
    ensures HighBits(currents, GROUPS) as int == HighSum(currents)
  {
    var packed := HighBits(currents, GROUPS);
    PackedNumber(packed);
    forall i | 0 <= i < GROUPS ensures Field(packed, i) as int == Quarters(currents[i]) {
      HighBitsMeaning(currents, GROUPS, i);
      SplitNumber(currents[i]);
    }
  }

  /** Channel j of the voltage word counts 2^j. */
  lemma VoltageBitsNumber(on: seq<bool>)
    requires |on| == CHANNELS
    ensures var w := VoltageBits(on, CHANNELS); Word(LowHalf(w), HighHalf(w)) == Sum(on, CHANNELS)
  {
    var w := VoltageBits(on, CHANNELS);
    forall j | 0 <= j < CHANNELS ensures on[j] == IsSet(w, Mask(j)) {
      VoltageBitsMeaning(on, CHANNELS, j);
    }
    VoltageBitsMeaning(on, CHANNELS, 0);
    WordIsSum(w, on);
    UnusedClear(w);
  }

  // ----- the encoder -----

  /** CurrentMeasurement_Pack. */
  method Pack(currentsMa: seq<bv16>, curLow: array<bv8>) returns (curHighBitsPacked: bv8)
    requires |currentsMa| == GROUPS && curLow.Length == GROUPS
    modifies curLow
    ensures curLow[..] == LowBytes(currentsMa)
    ensures curHighBitsPacked == HighBits(currentsMa, GROUPS)
    ensures forall i :: 0 <= i < GROUPS ==> curLow[i] as int == Reported(currentsMa[i]) % 256
    ensures curHighBitsPacked as int == HighSum(currentsMa)
  {
    var highPacked: bv8 := 0;
    for i := 0 to GROUPS
      invariant forall j :: 0 <= j < i ==> curLow[j] == LowBytes(currentsMa)[j]
      invariant highPacked == HighBits(currentsMa, i)
    {
      var value := currentsMa[i];
      if value > CURRENT_MAX_10BIT {
        value := CURRENT_MAX_10BIT;
      }
      curLow[i] := Low(value);
      var high2 := High2(value);
      highPacked := Or8(highPacked, Placed(high2, i));
    }
    forall i | 0 <= i < GROUPS ensures LowBytes(currentsMa)[i] as int == Reported(currentsMa[i]) % 256 {
      SplitNumber(currentsMa[i]);
    }
    HighBitsNumber(currentsMa);
    return highPacked;
  }

  /** VoltageCurrentFrame_Encode: a non-zero byte of the image is an energised channel. */
  method Encode(voltageImage: seq<bv8>, curLow: seq<bv8>, curHighBitsPacked: bv8, status: bv8, outBytes: array<bv8>)
    requires |voltageImage| == CHANNELS && |curLow| == GROUPS && outBytes.Length == 8
    modifies outBytes
    ensures outBytes[..] == Le16(VoltageBits(AsFlags(voltageImage), CHANNELS)) + curLow + [curHighBitsPacked, status]
    ensures Word(outBytes[0], outBytes[1]) == Sum(AsFlags(voltageImage), CHANNELS)
  {
    var voltageBits: bv16 := 0;
    for i := 0 to CHANNELS
      invariant voltageBits == VoltageBits(AsFlags(voltageImage), i)
    {
      if voltageImage[i] != 0 {
        voltageBits := Or16(voltageBits, Mask(i));
      }
    }
    VoltageBitsNumber(AsFlags(voltageImage));
    outBytes[0], outBytes[1] := Le16(voltageBits)[0], Le16(voltageBits)[1];
    outBytes[2], outBytes[3], outBytes[4], outBytes[5] := curLow[0], curLow[1], curLow[2], curLow[3];
    outBytes[6] := curHighBitsPacked;
    outBytes[7] := status;
    assert outBytes[0] == LowHalf(voltageBits) && outBytes[1] == HighHalf(voltageBits);
  }

  /** The measurement task's pack and encode: the receiver reads back the sample. In numbers, the
      first two bytes hold 2^j for each energised channel j, the next four the low bytes of the
      currents, and byte 6 their upper two bits, two bits for each. */
  method BuildFrame(voltageImage: seq<bv8>, currentsMa: seq<bv16>, status: bv8, outBytes: array<bv8>)
    requires |voltageImage| == CHANNELS && |currentsMa| == GROUPS && outBytes.Length == 8
    modifies outBytes
    ensures DecodeFrame(outBytes[..]) == Saturated(Reading(AsFlags(voltageImage), currentsMa, status))
    ensures outBytes[1] & 0xF0 == 0
    ensures Word(outBytes[0], outBytes[1]) == Sum(AsFlags(voltageImage), CHANNELS)
    ensures forall i :: 0 <= i < GROUPS ==> outBytes[2 + i] as int == Reported(currentsMa[i]) % 256
    ensures outBytes[6] as int == HighSum(currentsMa) && outBytes[7] == status
  {
    var curLow := new bv8[GROUPS];
    var high := Pack(currentsMa, curLow);
    Encode(voltageImage, curLow[..], high, status, outBytes);
    ghost var r := Reading(AsFlags(voltageImage), currentsMa, status);
    assert outBytes[..] == Frame(r);
    FrameIsDecodable(r);
    assert outBytes[..][1] == outBytes[1];
    assert forall i :: 0 <= i < GROUPS ==> outBytes[..][2 + i] == curLow[..][i];
    assert outBytes[..][6] == high && outBytes[..][7] == status;
  }
}
