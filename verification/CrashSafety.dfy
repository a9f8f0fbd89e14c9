/** End to end: what a power cut during SignalFlashConfig_Save can do to the next Load, through
    the wire format, the journal record, the slot choice and the flash driver together. */
module CrashSafety {
  import opened ChannelBits
  import opened Crc32
  import opened Flash
  import opened PersistenceJournal
  import opened FlashPersistenceAdapter
  import opened SignalFlashConfig

  /** The one sequence number whose record, cut after two double-words, still has a valid CRC. */
  const POISON: bv32 := 0x24F556BB

  /** Bytes 8 to 23 of such a torn record: the rest of the header, the wire magic and the
      erased flash behind it. */
  function TornTail(): (bytes: seq<bv8>)
    ensures |bytes| == 16
  {
    [0x0C, 0x00, 0x01, 0xA5] + ErasedWire()
  }

  /** The wire magic with erased flash behind it. */
  function ErasedWire(): (bytes: seq<bv8>)
    ensures |bytes| == 12
  {
    [0x53, 0x53, 0x4D, 0x46] + [0xFF, 0xFF, 0xFF, 0xFF] + [0xFF, 0xFF, 0xFF, 0xFF]
  }

  // ----- evaluating the CRC of the poisoned record -----

  lemma AfterMagic()
    ensures Register(ALL_ONES, Le32(MAGIC)) == 0xDEA096F3
  {
    assert Le32(MAGIC) == [0x4D, 0x53, 0x53, 0x4A];
    RegisterOfFour(ALL_ONES, [0x4D, 0x53, 0x53, 0x4A]);
    assert ByteStep(0xFFFFFFFF, 0x4D) == 0x25902D5F;
    assert ByteStep(0x25902D5F, 0x53) == 0x0993DC06;
    assert ByteStep(0x0993DC06, 0x53) == 0x1B0836A7;
    assert ByteStep(0x1B0836A7, 0x4A) == 0xDEA096F3;
  }

  lemma AfterPoison()
    ensures Register(0xDEA096F3, Le32(POISON)) == 0x55AB5481
  {
    assert Le32(POISON) == [0xBB, 0x56, 0xF5, 0x24];
    RegisterOfFour(0xDEA096F3, [0xBB, 0x56, 0xF5, 0x24]);
    assert ByteStep(0xDEA096F3, 0xBB) == 0x78D96934;
    assert ByteStep(0x78D96934, 0x56) == 0xA3C4D91D;
    assert ByteStep(0xA3C4D91D, 0xF5) == 0xAE72AE93;
    assert ByteStep(0xAE72AE93, 0x24) == 0x55AB5481;
  }

  lemma AfterHeader()
    ensures Register(0x55AB5481, [0x0C, 0x00, 0x01, 0xA5]) == 0x9DD34EF5
  {
    RegisterOfFour(0x55AB5481, [0x0C, 0x00, 0x01, 0xA5]);
    assert ByteStep(0x55AB5481, 0x0C) == 0x935C54C9;
    assert ByteStep(0x935C54C9, 0x00) == 0xE22B2640;
    assert ByteStep(0xE22B2640, 0x01) == 0x01395A20;
    assert ByteStep(0x01395A20, 0xA5) == 0x9DD34EF5;
  }

  lemma AfterWireMagic()
    ensures Register(0x9DD34EF5, [0x53, 0x53, 0x4D, 0x46]) == 0x823DDA32
  {
    RegisterOfFour(0x9DD34EF5, [0x53, 0x53, 0x4D, 0x46]);
    assert ByteStep(0x9DD34EF5, 0x53) == 0x3F28D593;
    assert ByteStep(0x3F28D593, 0x53) == 0x9B5BEA65;
    assert ByteStep(0x9B5BEA65, 0x4D) == 0x352EF310;
    assert ByteStep(0x352EF310, 0x46) == 0x823DDA32;
  }

  lemma AfterFirstErasedWord()
    ensures Register(0x823DDA32, [0xFF, 0xFF, 0xFF, 0xFF]) == 0x6DD90A9D
  {
    RegisterOfFour(0x823DDA32, [0xFF, 0xFF, 0xFF, 0xFF]);
    assert ByteStep(0x823DDA32, 0xFF) == 0xE55783D7;
    assert ByteStep(0xE55783D7, 0xFF) == 0x3550FF79;
    assert ByteStep(0x3550FF79, 0xFF) == 0x04EE76EA;
    assert ByteStep(0x04EE76EA, 0xFF) == 0x6DD90A9D;
  }

  lemma AfterSecondErasedWord()
    ensures Register(0x6DD90A9D, [0xFF, 0xFF, 0xFF, 0xFF]) == ALL_ONES
  {
    RegisterOfFour(0x6DD90A9D, [0xFF, 0xFF, 0xFF, 0xFF]);
    assert ByteStep(0x6DD90A9D, 0xFF) == 0xA3D1D97E;
    assert ByteStep(0xA3D1D97E, 0xFF) == 0x9A1C626F;
    assert ByteStep(0x9A1C626F, 0xFF) == 0xF0958F26;
    assert ByteStep(0xF0958F26, 0xFF) == 0xFFFFFFFF;
  }

  lemma AfterTail()
    ensures Register(0x55AB5481, TornTail()) == ALL_ONES
  {
    var h, m, f: seq<bv8> := [0x0C, 0x00, 0x01, 0xA5], [0x53, 0x53, 0x4D, 0x46], [0xFF, 0xFF, 0xFF, 0xFF];
    RegisterConcat(0x55AB5481, h, m + f + f);
    RegisterConcat(0x9DD34EF5, m + f, f);
    RegisterConcat(0x9DD34EF5, m, f);
    AfterHeader();
    AfterWireMagic();
    AfterFirstErasedWord();
    AfterSecondErasedWord();
  }

  /** The torn header has CRC zero for exactly one of the 2^32 sequence numbers. */
  lemma OnlyPoisonHasZeroCrc(sequence: bv32)
    ensures Crc(Le32(MAGIC) + Le32(sequence) + TornTail()) == 0 <==> sequence == POISON
  {
    RegisterConcat(ALL_ONES, Le32(MAGIC) + Le32(sequence), TornTail());
    RegisterConcat(ALL_ONES, Le32(MAGIC), Le32(sequence));
    AfterMagic();
    AfterPoison();
    AfterTail();
    XorSelf(ALL_ONES);
    if sequence != POISON {
      TrailerUnique(0xDEA096F3, sequence, POISON);
      CommonTail(Register(0xDEA096F3, Le32(sequence)), 0x55AB5481, Bits(TornTail()));
      XorZero(Register(ALL_ONES, Le32(MAGIC) + Le32(sequence) + TornTail()), ALL_ONES);
    }
  }

  // ----- one save, cut anywhere -----

  lemma TwelveBytes(sequence: bv32, data: seq<bv8>)
    requires |data| == 12
    ensures var r := Built(sequence, data, 12);
            && r.magic == MAGIC && r.sequence == sequence && r.payloadSize == 12
            && r.version == VERSION && r.commit == COMMIT && r.payload[..12] == data
  {
    BuiltFields(sequence, data, 12, 12);
    assert data[..12] == data;
  }

  lemma RecordBytes(r: Record)
    requires r.WellFormed() && r.magic == MAGIC && r.payloadSize == 12 && r.version == VERSION && r.commit == COMMIT
    ensures Image(r)[..8] == Le32(MAGIC) + Le32(r.sequence)
    ensures Image(r)[8..12] == [0x0C, 0x00, 0x01, 0xA5]
    ensures Image(r)[12..24] == r.payload[..12] && Image(r)[12..16] == r.payload[..12][..4]
  {
    ImageFields(r);
    assert Le16(12) == [0x0C, 0x00];
    SliceOfSlice(Image(r));
  }

  lemma SliceOfSlice(b: seq<bv8>)
    requires |b| == 32
    ensures b[12..24] == b[12..28][..12] && b[12..16] == b[12..28][..12][..4]
  {
  }

  lemma NextRecordBytes(s: Slots, data: seq<bv8>)
    requires s.WellFormed() && |data| == 12
    ensures var b := Image(NextRecord(s, data, 12));
            && b[..8] == Le32(MAGIC) + Le32(NextSequence(s))
            && b[8..12] == [0x0C, 0x00, 0x01, 0xA5]
            && b[12..24] == data && b[12..16] == data[..4]
  {
    TwelveBytes(NextSequence(s), data);
    RecordBytes(NextRecord(s, data, 12));
  }

  lemma TornAfterTwo(image: seq<bv8>, head: seq<bv8>)
    requires |image| == 32 && image[..8] == head && image[8..12] == [0x0C, 0x00, 0x01, 0xA5]
    requires image[12..16] == [0x53, 0x53, 0x4D, 0x46]
    ensures Torn(image, 2)[..24] == head + TornTail() && Torn(image, 2)[12..24] == ErasedWire()
  {
    var t := Torn(image, 2);
    assert t[..8] == head && t[8..12] == image[8..12] && t[12..16] == image[12..16];
    assert t[12..24] == t[12..16] + [0xFF, 0xFF, 0xFF, 0xFF] + [0xFF, 0xFF, 0xFF, 0xFF];
    assert t[..24] == t[..8] + (t[8..12] + t[12..24]);
  }

  lemma TornFields(image: seq<bv8>, words: nat)
    requires |image| == 32 && 2 <= words <= 4 && image[8..12] == [0x0C, 0x00, 0x01, 0xA5]
    ensures var r := Parse(Torn(image, words));
            r.payloadSize == 12 && r.payload[..12] == Torn(image, words)[12..24]
  {
    var t := Torn(image, words);
    assert t[8] == image[8..12][0] && t[9] == image[8..12][1];
    assert t[8..10] == [0x0C, 0x00];
    assert FromLe16([0x0C, 0x00]) == 12;
  }

  /** The wire magic followed by erased flash is refused by Load. */
  lemma ErasedWireRefused()
    ensures Decode(ErasedWire()) == None
  {
    var m, f: seq<bv8> := [0x53, 0x53, 0x4D, 0x46], [0xFF, 0xFF, 0xFF, 0xFF];
    var b := m + f + f;
    assert b[..8] == m + f && b[8..12] == f && Le32(ALL_ONES) == f;
    Le32RoundTrip(ALL_ONES);
    RegisterConcat(ALL_ONES, m, f);
    AfterWireMagicAlone();
    OnesReturnToZero(0xB391C5AB);
    OnesMeansZero(Register(ALL_ONES, m + f));
  }

  lemma AfterWireMagicAlone()
    ensures Register(ALL_ONES, [0x53, 0x53, 0x4D, 0x46]) == 0xB391C5AB
  {
    RegisterOfFour(ALL_ONES, [0x53, 0x53, 0x4D, 0x46]);
    assert ByteStep(0xFFFFFFFF, 0x53) == 0xDF9F103C;
    assert ByteStep(0xDF9F103C, 0x53) == 0xDDD2E3D9;
    assert ByteStep(0xDDD2E3D9, 0x4D) == 0xF7BF85BE;
    assert ByteStep(0xF7BF85BE, 0x46) == 0xB391C5AB;
  }

  lemma WireStart(flags: seq<bool>)
    requires |flags| == CHANNELS
    ensures Encode(flags)[..4] == [0x53, 0x53, 0x4D, 0x46]
  {
    assert Le32(WIRE_MAGIC) == [0x53, 0x53, 0x4D, 0x46];
    assert Encode(flags)[..4] == WireHead(flags)[..4] == Le32(WIRE_MAGIC);
  }

  /** A torn record that is accepted delivers whatever payload bytes it holds. */
  lemma AcceptedTornLoads(image: seq<bv8>, words: nat)
    requires |image| == 32 && 2 <= words <= 4 && image[8..12] == [0x0C, 0x00, 0x01, 0xA5]
    ensures LoadedFrom(Some(Parse(Torn(image, words)))) == Decode(Torn(image, words)[12..24])
  {
    TornFields(image, words);
  }

  /** After two double-words the CRC of the torn record is zero for the poisoned sequence only. */
  lemma TwoWordsComplete(image: seq<bv8>, sequence: bv32)
    requires |image| == 32
    requires image[..8] == Le32(MAGIC) + Le32(sequence) && image[8..12] == [0x0C, 0x00, 0x01, 0xA5]
    requires image[12..16] == [0x53, 0x53, 0x4D, 0x46]
    ensures Complete(image, 2) <==> sequence == POISON
    ensures LoadedFrom(Some(Parse(Torn(image, 2)))) == None
  {
    TornAfterTwo(image, image[..8]);
    OnlyPoisonHasZeroCrc(sequence);
    AcceptedTornLoads(image, 2);
    ErasedWireRefused();
  }

  lemma CutAfterThreeOrFour(image: seq<bv8>, words: nat)
    requires |image| == 32 && 3 <= words <= 4 && image[8..12] == [0x0C, 0x00, 0x01, 0xA5]
    ensures LoadedFrom(Some(Parse(Torn(image, words)))) == Decode(image[12..24])
  {
    AcceptedTornLoads(image, words);
    assert Torn(image, words)[12..24] == image[12..24];
  }

  /** Three or four double-words carry the whole wire structure. */
  lemma LateCutLoads(image: seq<bv8>, flags: seq<bool>, words: nat)
    requires |image| == 32 && |flags| == CHANNELS && 3 <= words <= 4
    requires image[8..12] == [0x0C, 0x00, 0x01, 0xA5] && image[12..24] == Encode(flags)
    ensures LoadedFrom(Some(Parse(Torn(image, words)))) == Some(flags)
  {
    CutAfterThreeOrFour(image, words);
    DecodeEncode(flags);
  }

  /** The record for these flags has CRC zero as soon as its first 24 bytes are programmed, so that
      the erased rest completes it. */
  predicate EarlyComplete(sequence: bv32, flags: seq<bool>)
    requires |flags| == CHANNELS
  {
    Crc(Le32(MAGIC) + Le32(sequence) + ([0x0C, 0x00, 0x01, 0xA5] + Encode(flags))) == 0
  }

  /** For given flags that happens with one sequence number at most. */
  lemma EarlyCompleteUnique(flags: seq<bool>, sequence: bv32, other: bv32)
    requires |flags| == CHANNELS && EarlyComplete(sequence, flags) && EarlyComplete(other, flags)
    ensures sequence == other
  {
    var tail := [0x0C, 0x00, 0x01, 0xA5] + Encode(flags);
    if sequence != other {
      HeadsDiffer(sequence, other, tail);
      XorZero(Register(ALL_ONES, Le32(MAGIC) + Le32(sequence) + tail), ALL_ONES);
      XorZero(Register(ALL_ONES, Le32(MAGIC) + Le32(other) + tail), ALL_ONES);
    }
  }

  lemma HeadsDiffer(sequence: bv32, other: bv32, tail: seq<bv8>)
    requires sequence != other
    ensures Register(ALL_ONES, Le32(MAGIC) + Le32(sequence) + tail) !=
            Register(ALL_ONES, Le32(MAGIC) + Le32(other) + tail)
  {
    var r := Register(ALL_ONES, Le32(MAGIC));
    RegisterConcat(ALL_ONES, Le32(MAGIC) + Le32(sequence), tail);
    RegisterConcat(ALL_ONES, Le32(MAGIC) + Le32(other), tail);
    RegisterConcat(ALL_ONES, Le32(MAGIC), Le32(sequence));
    RegisterConcat(ALL_ONES, Le32(MAGIC), Le32(other));
    TrailerUnique(r, sequence, other);
    CommonTail(Register(r, Le32(sequence)), Register(r, Le32(other)), Bits(tail));
  }

  lemma ThreeWordsComplete(image: seq<bv8>, sequence: bv32, flags: seq<bool>)
    requires |image| == 32 && |flags| == CHANNELS
    requires image[..8] == Le32(MAGIC) + Le32(sequence) && image[8..12] == [0x0C, 0x00, 0x01, 0xA5]
    requires image[12..24] == Encode(flags)
    ensures Complete(image, 3) <==> EarlyComplete(sequence, flags)
  {
    assert Torn(image, 3)[..24] == image[..8] + (image[8..12] + image[12..24]);
  }

  /** After so many double-words of the record for these flags a valid record is in its slot. */
  predicate Commits(sequence: bv32, flags: seq<bool>, words: nat)
    requires |flags| == CHANNELS
  {
    match words
    case 0 => false
    case 1 => false
    case 2 => sequence == POISON
    case 3 => EarlyComplete(sequence, flags)
    case _ => true
  }

  /** What Load makes of a record that commits. */
  function Committed(flags: seq<bool>, words: nat): Option<seq<bool>> {
    if words == 2 then None else Some(flags)
  }

  lemma RecordCommits(image: seq<bv8>, sequence: bv32, flags: seq<bool>, words: nat)
    requires |image| == 32 && |flags| == CHANNELS && words <= 4
    requires image[..8] == Le32(MAGIC) + Le32(sequence) && image[8..12] == [0x0C, 0x00, 0x01, 0xA5]
    requires image[12..24] == Encode(flags) && image[12..16] == [0x53, 0x53, 0x4D, 0x46]
    ensures Complete(image, words) <==> Commits(sequence, flags, words)
    ensures words >= 2 ==> LoadedFrom(Some(Parse(Torn(image, words)))) == Committed(flags, words)
  {
    if words == 2 {
      TwoWordsComplete(image, sequence);
    } else if words >= 3 {
      LateCutLoads(image, flags, words);
      ThreeWordsComplete(image, sequence, flags);
    }
  }

  /** What Load returns after a save stopped after `words` double-words, whatever the slots held and
      whichever of them could be read: the saved flags if the record commits, or nothing if that was
      the poisoned cut; and what the survivor holds if it does not commit or is shadowed. */
  lemma CutSaveSeeing(s: Slots, r: Readable, flags: seq<bool>, words: nat)
    requires s.WellFormed() && |flags| == CHANNELS && words <= 4
    ensures Loaded(WrittenSeeing(s, Seen(s, r), Encode(flags), 12, words)) ==
            if Commits(NextSequence(Seen(s, r)), flags, words) && !Shadowed(s, r) then Committed(flags, words)
            else LoadedFrom(Survivor(s, r))
  {
    var seen := Seen(s, r);
    CutWriteSeeing(s, r, Encode(flags), 12, words);
    NextRecordBytes(seen, Encode(flags));
    WireStart(flags);
    RecordCommits(Image(NextRecord(seen, Encode(flags), 12)), NextSequence(seen), flags, words);
  }

  /** A save that does not commit leaves the stored configuration in place unless it mistakes the
      latest record. */
  lemma LeavesStored(s: Slots, r: Readable)
    requires s.WellFormed() && !MistakesLatest(s, r)
    ensures LoadedFrom(Survivor(s, r)) == Loaded(s)
  {
    SurvivorExactlyWhen(s, r);
  }

  /** If it does, Load falls back on the other slot, if that is valid. */
  lemma FallsBack(s: Slots, r: Readable)
    requires s.WellFormed() && MistakesLatest(s, r)
    ensures var other := Parse(if Chosen(s) == PickA then s.b else s.a);
            Survivor(s, r) == if RecordValid(other, MAX_SIZE) then Some(other) else None
  {
    OverwritesLatestExactlyWhen(s, r);
  }

  /** A save that reported success: Load then returns the saved flags, unless the save was shadowed;
      then whatever the old record of slot 1 holds. */
  lemma CompletedSaveLoads(s: Slots, r: Readable, flags: seq<bool>)
    requires s.WellFormed() && |flags| == CHANNELS
    ensures Loaded(WrittenSeeing(s, Seen(s, r), Encode(flags), 12, 4)) ==
            if Shadowed(s, r) then LoadedFrom(Some(Parse(s.b))) else Some(flags)
  {
    CutSaveSeeing(s, r, flags, 4);
    if Shadowed(s, r) {
      ShadowedSurvivor(s, r);
    }
  }

  /** With both slots read, an unfinished record that does not commit changes nothing. */
  lemma CutSave(s: Slots, flags: seq<bool>, words: nat)
    requires s.WellFormed() && |flags| == CHANNELS && words <= 4
    ensures Loaded(Written(s, Encode(flags), 12, words)) ==
            if Commits(NextSequence(s), flags, words) then Committed(flags, words) else Loaded(s)
  {
    BothReadable(s);
    CutSaveSeeing(s, Readable(true, true), flags, words);
  }

  /** A cut save leaves the old or the new configuration, except in exactly one case: it stopped
      after two double-words of the poisoned record and there was a configuration to lose. */
  lemma AtomicExactlyUnlessPoisoned(s: Slots, flags: seq<bool>, words: nat)
    requires s.WellFormed() && |flags| == CHANNELS && words <= 4
    ensures var after := Loaded(Written(s, Encode(flags), 12, words));
            (after == Loaded(s) || after == Some(flags)) <==>
            !(words == 2 && NextSequence(s) == POISON && Loaded(s) != None)
  {
    CutSave(s, flags, words);
  }

  lemma OnlySlotAIsValid(record: Record, other: seq<bv8>)
    requires record.WellFormed() && RecordValid(record, 12) && |other| == 32
    requires !RecordValid(Parse(other), 12)
    ensures Stored(Slots(Image(record), other)) == Some(record)
    ensures Loaded(Slots(Image(record), other)) == LoadedFrom(Some(record))
  {
    ParseImage(record);
  }

  lemma RecordLoads(r: Record)
    requires r.WellFormed() && r.payloadSize == 12
    ensures LoadedFrom(Some(r)) == Decode(r.payload[..12])
  {
  }

  /** A record in slot A alone, with a given configuration and sequence number. */
  function OneSlot(sequence: bv32, flags: seq<bool>): (s: Slots)
    requires |flags| == CHANNELS
    ensures s.WellFormed()
  {
    Slots(Image(Built(sequence, Encode(flags), 12)), Zeros())
  }

  lemma OneSlotLoads(sequence: bv32, flags: seq<bool>)
    requires |flags| == CHANNELS
    ensures Stored(OneSlot(sequence, flags)) == Some(Built(sequence, Encode(flags), 12))
    ensures Loaded(OneSlot(sequence, flags)) == Some(flags)
  {
    var data := Encode(flags);
    BuiltIsValid(sequence, data, 12, 12);
    TwelveBytes(sequence, data);
    ZerosAreInvalid();
    OnlySlotAIsValid(Built(sequence, data, 12), Zeros());
    RecordLoads(Built(sequence, data, 12));
    DecodeEncode(flags);
  }

  /** The exception is reachable: a stored configuration that such a cut makes unreadable. */
  lemma PoisonLosesTheConfiguration(flags: seq<bool>)
    requires |flags| == CHANNELS
    ensures Loaded(OneSlot(0x24F556BA, flags)) == Some(flags)
    ensures Loaded(Written(OneSlot(0x24F556BA, flags), Encode(flags), 12, 2)) == None
  {
    var s := OneSlot(0x24F556BA, flags);
    OneSlotLoads(0x24F556BA, flags);
    assert NextSequence(s) == Successor(0x24F556BA) == POISON;
    CutSave(s, flags, 2);
  }
}
