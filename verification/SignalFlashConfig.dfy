/** The persisted flash assignment of SSM/App/Domain/SignalFlashConfig.c: twelve channel flags in
    a 12-byte CRC-protected wire format, saved and loaded through the flash journal. */
module SignalFlashConfig {
  import opened ChannelBits
  import opened Crc32
  import opened Flash
  import opened PersistenceJournal
  import opened FlashPersistenceAdapter

  const WIRE_MAGIC: bv32 := 0x464D5353

  // ----- the inverted flag bits -----

  /** The flash bits after the first n channels: a flashing channel clears its bit. */
  function FlashBits(flags: seq<bool>, n: nat): bv16
    requires n <= |flags| == CHANNELS
    decreases n
  {
    if n == 0 then 0xFFFF
    else if flags[n - 1] then Clear(FlashBits(flags, n - 1), Mask(n - 1))
    else FlashBits(flags, n - 1)
  }

  function FlagsOf(bits: bv16): (flags: seq<bool>)
    ensures |flags| == CHANNELS
  {
    seq(CHANNELS, i requires 0 <= i < CHANNELS => !IsSet(bits, Mask(i)))
  }

  lemma {:induction false} FlashBitsMeaning(flags: seq<bool>, n: nat, j: nat)
    requires n <= |flags| == CHANNELS && j < CHANNELS
    ensures Mask(j) as int == Power(j) && (IsSet(FlashBits(flags, n), Mask(j)) <==> !(j < n && flags[j]))
    decreases n
  {
    MaskIsPower(j);
    if n == 0 {
      AllBitsSet(j);
    } else {
      FlashBitsMeaning(flags, n - 1, j);
      if j == n - 1 {
        ClearClears(FlashBits(flags, n - 1), Mask(j));
      } else {
        MasksDisjoint(n - 1, j);
        ClearKeeps(FlashBits(flags, n - 1), Mask(n - 1), Mask(j));
      }
    }
  }

  lemma AllBitsSet(j: nat)
    requires j < CHANNELS
    ensures IsSet(0xFFFF, Mask(j))
  {
  }

  lemma FlagsRoundTrip(flags: seq<bool>)
    requires |flags| == CHANNELS
    ensures FlagsOf(FlashBits(flags, CHANNELS)) == flags
  {
    forall j | 0 <= j < CHANNELS ensures FlagsOf(FlashBits(flags, CHANNELS))[j] == flags[j] {
      FlashBitsMeaning(flags, CHANNELS, j);
    }
  }

  predicate TopSet(w: bv16) { w & 0xF000 == 0xF000 }

  lemma ClearKeepsTop(w: bv16, i: nat)
    requires i < CHANNELS && TopSet(w)
    ensures TopSet(Clear(w, Mask(i)))
  {
  }

  lemma {:induction false} TopStaysSet(flags: seq<bool>, n: nat)
    requires n <= |flags| == CHANNELS
    ensures TopSet(FlashBits(flags, n))
    decreases n
  {
    if n > 0 {
      TopStaysSet(flags, n - 1);
      ClearKeepsTop(FlashBits(flags, n - 1), n - 1);
    }
  }

  /** As a number the flash bits are all ones less 2^j for each flashing channel j. */
  lemma FlashBitsNumber(flags: seq<bool>)
    requires |flags| == CHANNELS
    ensures var w := FlashBits(flags, CHANNELS); Word(LowHalf(w), HighHalf(w)) == 0xFFFF - Sum(flags, CHANNELS)
  {
    var w := FlashBits(flags, CHANNELS);
    FlagsRoundTrip(flags);
    FlagsNumber(w);
    TopStaysSet(flags, CHANNELS);
    UnusedSet(w);
  }

  /** The flags a word stands for, in numbers: 2^j is missing from it for each flashing channel j. */
  lemma FlagsNumber(w: bv16)
    ensures Word(LowHalf(w), HighHalf(w)) == 0xFFF - Sum(FlagsOf(w), CHANNELS) + 0x1000 * Unused(w)
    ensures Sum(FlagsOf(w), CHANNELS) <= 0xFFF
  {
    var flags := FlagsOf(w);
    var steady := seq(CHANNELS, i requires 0 <= i < CHANNELS => !flags[i]);
    forall j | 0 <= j < CHANNELS ensures steady[j] == IsSet(w, Mask(j)) {
      assert steady[j] == !flags[j] && flags[j] == !IsSet(w, Mask(j));
    }
    WordIsSum(w, steady);
    SumOfOthers(FlagsOf(w), steady, CHANNELS);
    SmallPowers();
    assert Power(12) == 4096;
  }

  // ----- the wire format -----

  function WireHead(flags: seq<bool>): (bytes: seq<bv8>)
    requires |flags| == CHANNELS
    ensures |bytes| == 8
  {
    Le32(WIRE_MAGIC) + Le16(FlashBits(flags, CHANNELS)) + Le16(0)
  }

  function Encode(flags: seq<bool>): (bytes: seq<bv8>)
    requires |flags| == CHANNELS
    ensures |bytes| == 12
  {
    WireHead(flags) + Le32(Crc(WireHead(flags)))
  }

  /** What Load makes of 12 stored bytes; None is a refused record. */
  function Decode(bytes: seq<bv8>): Option<seq<bool>>
    requires |bytes| == 12
  {
    if FromLe32(bytes[0..4]) != WIRE_MAGIC || Crc(bytes[..8]) != FromLe32(bytes[8..12]) then None
    else Some(FlagsOf(FromLe16(bytes[4..6])))
  }

  /** Save then load yields the same channel flags. */
  lemma DecodeEncode(flags: seq<bool>)
    requires |flags| == CHANNELS
    ensures Decode(Encode(flags)) == Some(flags)
  {
    var b := Encode(flags);
    assert b[0..4] == Le32(WIRE_MAGIC) && b[4..6] == Le16(FlashBits(flags, CHANNELS));
    assert b[..8] == WireHead(flags) && b[8..12] == Le32(Crc(WireHead(flags)));
    Le32RoundTrip(WIRE_MAGIC);
    Le32RoundTrip(Crc(WireHead(flags)));
    Le16RoundTrip(FlashBits(flags, CHANNELS));
    FlagsRoundTrip(flags);
  }

  lemma MagicBytes()
    ensures Le32(WIRE_MAGIC) == [0x53, 0x53, 0x4D, 0x46]
  {
  }

  /** The twelve bytes: the magic "SSMF", the inverted flags as a number, a reserved word and the CRC. */
  lemma WireBytes(flags: seq<bool>)
    requires |flags| == CHANNELS
    ensures var b := Encode(flags);
      && b[..4] == [0x53, 0x53, 0x4D, 0x46]
      && Word(b[4], b[5]) == 0xFFFF - Sum(flags, CHANNELS)
      && b[6] == b[7] == 0 && b[8..] == Le32(Crc(b[..8]))
  {
    var b, w := Encode(flags), FlashBits(flags, CHANNELS);
    MagicBytes();
    FlashBitsNumber(flags);
    assert b[..8] == WireHead(flags);
    assert b[4] == LowHalf(w) && b[5] == HighHalf(w);
    ZeroWord();
  }

  lemma ZeroWord()
    ensures Le16(0) == [0, 0]
  {
  }

  /** Load accepts exactly the bytes with this magic and CRC, and takes the flags from bytes 4 and 5
      whatever the four bits without a channel are. */
  lemma AcceptedWire(b: seq<bv8>)
    requires |b| == 12
    ensures Decode(b).Some? <==> b[..4] == [0x53, 0x53, 0x4D, 0x46] && b[8..] == Le32(Crc(b[..8]))
    ensures Decode(b).Some? ==>
      |Decode(b).value| == CHANNELS && Word(b[4], b[5]) % 0x1000 == 0xFFF - Sum(Decode(b).value, CHANNELS)
  {
    MagicBytes();
    assert b[0..4] == b[..4] && b[8..12] == b[8..];
    Le32RoundTrip(WIRE_MAGIC);
    Le32Inverse(b[..4]);
    Le32RoundTrip(Crc(b[..8]));
    Le32Inverse(b[8..]);
    FlagsBytes(b[4], b[5]);
    assert b[4..6] == [b[4], b[5]];
  }

  lemma FlagsBytes(low: bv8, high: bv8)
    ensures Word(low, high) % 0x1000 == 0xFFF - Sum(FlagsOf(FromLe16([low, high])), CHANNELS)
  {
    var w := FromLe16([low, high]);
    Le16Inverse([low, high]);
    assert Le16(w)[0] == low && Le16(w)[1] == high;
    FlagsNumber(w);
    Remainder(0xFFF - Sum(FlagsOf(w), CHANNELS), Unused(w));
  }

  lemma Remainder(r: nat, q: nat)
    requires r < 0x1000
    ensures (r + 0x1000 * q) % 0x1000 == r
  {
  }

  lemma AcceptedMeansResidue(bytes: seq<bv8>)
    requires |bytes| == 12 && Decode(bytes).Some?
    ensures Register(ALL_ONES, bytes) == RESIDUE
  {
    Le32Inverse(bytes[8..12]);
    assert bytes == bytes[..8] + bytes[8..12];
    ResidueIffCrc(bytes[..8], FromLe32(bytes[8..12]));
  }

  /** No nonempty change within 32 consecutive bits of an accepted record is accepted. */
  lemma BurstRefused(bytes: seq<bv8>, damaged: seq<bv8>, k: nat, n: nat)
    requires |bytes| == |damaged| == 12 && Decode(bytes).Some?
    requires bytes != damaged && DifferWithin(Bits(bytes), Bits(damaged), k, n)
    ensures Decode(damaged) == None
  {
    AcceptedMeansResidue(bytes);
    if Decode(damaged).Some? {
      AcceptedMeansResidue(damaged);
      BurstChangesRegister(ALL_ONES, bytes, damaged, k, n);
    }
  }

  // ----- load and save -----

  lemma DeliveredLength(stored: Option<Record>)
    requires stored.Some? ==> stored.value.WellFormed()
    ensures Delivered(stored, 12).Some? ==> |Delivered(stored, 12).value| == 12
  {
  }

  /** What Load reports, given the record the journal holds. */
  function LoadedFrom(stored: Option<Record>): Option<seq<bool>>
    requires stored.Some? ==> stored.value.WellFormed()
  {
    DeliveredLength(stored);
    match Delivered(stored, 12)
    case None => None
    case Some(bytes) => Decode(bytes)
  }

  function Loaded(s: Slots): Option<seq<bool>>
    requires s.WellFormed()
  {
    LoadedFrom(Stored(s))
  }

  /** Load's checks on the structure it has read; None is a refusal. */
  method CheckWire(bytes: seq<bv8>) returns (flashBits: Option<bv16>)
    requires |bytes| == 12
    ensures Decode(bytes) == match flashBits case None => None case Some(w) => Some(FlagsOf(w))
  {
    if FromLe32(bytes[0..4]) != WIRE_MAGIC {
      return None;
    }
    var crc := Compute(bytes, 8);
    if crc != FromLe32(bytes[8..12]) {
      return None;
    }
    return Some(FromLe16(bytes[4..6]));
  }

  /** Load's loop over the channels. */
  method Unpack(flashBits: bv16, out: array<bv8>)
    requires out.Length == CHANNELS
    modifies out
    ensures forall i :: 0 <= i < CHANNELS ==> out[i] == if FlagsOf(flashBits)[i] then 1 else 0
    ensures AsFlags(out[..]) == FlagsOf(flashBits)
  {
    var i := 0;
    while i < CHANNELS
      invariant 0 <= i <= CHANNELS
      invariant forall j :: 0 <= j < i ==> out[j] == if FlagsOf(flashBits)[j] then 1 else 0
    {
      out[i] := if !IsSet(flashBits, Mask(i)) then 1 else 0;
      i := i + 1;
    }
    AsFlagsOfOut(out[..], flashBits);
  }

  lemma AsFlagsOfOut(out: seq<bv8>, w: bv16)
    requires |out| == CHANNELS && forall i :: 0 <= i < CHANNELS ==> out[i] == if FlagsOf(w)[i] then 1 else 0
    ensures AsFlags(out) == FlagsOf(w)
  {
    assert forall i :: 0 <= i < CHANNELS ==> (out[i] != 0 <==> FlagsOf(w)[i]);
  }

  method Load(port: Adapter, out: array<bv8>) returns (ok: bool)
    requires port.device.Valid() && out.Length == CHANNELS && out != port.device.bank
    modifies out
    ensures var result := Loaded(old(port.SeenNow()));
      && ok == result.Some?
      && (ok ==> forall i :: 0 <= i < CHANNELS ==> out[i] == if result.value[i] then 1 else 0)
      && (!ok ==> out[..] == old(out[..]))
    ensures ok ==> var wire := Delivered(Stored(old(port.SeenNow())), 12);
      && wire.Some? && |wire.value| == 12
      && Word(wire.value[4], wire.value[5]) % 0x1000 == 0xFFF - Sum(AsFlags(out[..]), CHANNELS)
  {
    var wire := port.AdapterRead(12);
    if wire == None {
      return false;
    }
    DeliveredLength(Stored(port.SeenNow()));
    var flashBits := CheckWire(wire.value);
    if flashBits == None {
      return false;
    }
    Unpack(flashBits.value, out);
    AcceptedWire(wire.value);
    return true;
  }

  /** Save's loop over the channels. */
  method PackBits(isFlashing: seq<bv8>) returns (flashBits: bv16)
    requires |isFlashing| == CHANNELS
    ensures flashBits == FlashBits(AsFlags(isFlashing), CHANNELS)
    ensures Word(LowHalf(flashBits), HighHalf(flashBits)) == 0xFFFF - Sum(AsFlags(isFlashing), CHANNELS)
  {
    flashBits := 0xFFFF;
    var i := 0;
    while i < CHANNELS
      invariant 0 <= i <= CHANNELS
      invariant flashBits == FlashBits(AsFlags(isFlashing), i)
    {
      if isFlashing[i] != 0 {
        flashBits := Clear(flashBits, Mask(i));
      }
      i := i + 1;
    }
    FlashBitsNumber(AsFlags(isFlashing));
  }

  method BuildWire(isFlashing: seq<bv8>) returns (bytes: seq<bv8>)
    requires |isFlashing| == CHANNELS
    ensures bytes == Encode(AsFlags(isFlashing))
    ensures Word(bytes[4], bytes[5]) == 0xFFFF - Sum(AsFlags(isFlashing), CHANNELS)
  {
    var flashBits := PackBits(isFlashing);
    var head := Le32(WIRE_MAGIC) + Le16(flashBits) + Le16(0);
    var crc := Compute(head, 8);
    assert head[..8] == head;
    bytes := head + Le32(crc);
    WireBytes(AsFlags(isFlashing));
  }

  /** The bytes written are Encode's: as a number, bytes 4 and 5 lack 2^j for each flashing channel j. */
  method Save(port: Adapter, isFlashing: seq<bv8>) returns (ok: bool)
    requires port.device.Valid() && |isFlashing| == CHANNELS
    modifies port.device`operationsLeft, port.device.bank
    ensures var wire := Encode(AsFlags(isFlashing));
      Word(wire[4], wire[5]) == 0xFFFF - Sum(AsFlags(isFlashing), CHANNELS)
    ensures ok == (old(port.device.operationsLeft) >= 5)
    ensures old(port.device.operationsLeft) == 0 ==> port.device.bank[..] == old(port.device.bank[..])
    ensures old(port.device.operationsLeft) > 0 ==>
      SlotsOf(port.device.bank[..]) ==
      WrittenSeeing(SlotsOf(old(port.device.bank[..])), old(port.SeenNow()), Encode(AsFlags(isFlashing)), 12,
                    Min(old(port.device.operationsLeft) - 1, 4))
  {
    var bytes := BuildWire(isFlashing);
    ok := port.AdapterWrite(bytes, 12);
  }
}
