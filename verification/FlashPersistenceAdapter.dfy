/** The storage adapter of SSM/App/Adapters/STM32/FlashPersistenceAdapter.c: one key kept as a
    journal record in two flash slots, each at the start of its own page. */
module FlashPersistenceAdapter {
  import opened Crc32
  import opened Flash
  import opened PersistenceJournal

  const MAX_SIZE: bv16 := 12

  datatype Option<+T> = None | Some(value: T)

  /** The 32 bytes at the start of each of the two pages. */
  datatype Slots = Slots(a: seq<bv8>, b: seq<bv8>)
  {
    predicate WellFormed() { |a| == 32 && |b| == 32 }
  }

  function SlotsOf(bank: seq<bv8>): (s: Slots)
    requires |bank| == BANK_SIZE
    ensures s.WellFormed()
  {
    Slots(bank[SLOT0 - FLASH_BASE..SLOT0 - FLASH_BASE + 32], bank[SLOT1 - FLASH_BASE..SLOT1 - FLASH_BASE + 32])
  }

  /** Which of the two slot reads of an operation succeed. */
  datatype Readable = Readable(slot0: bool, slot1: bool)

  function Zeros(): (bytes: seq<bv8>)
    ensures |bytes| == 32
  {
    seq(32, _ => 0)
  }

  /** The slots as the adapter sees them: one that cannot be read counts as 32 zero bytes. */
  function Seen(s: Slots, r: Readable): (seen: Slots)
    requires s.WellFormed()
    ensures seen.WellFormed() && (r == Readable(true, true) ==> seen == s)
  {
    Slots(if r.slot0 then s.a else Zeros(), if r.slot1 then s.b else Zeros())
  }

  /** The choice SelectLatest makes between the two slots. */
  function Chosen(s: Slots): Choice
    requires s.WellFormed()
  {
    Select(Parse(s.a), Parse(s.b), MAX_SIZE)
  }

  /** The record a reader gets. */
  function Stored(s: Slots): (r: Option<Record>)
    requires s.WellFormed()
    ensures r.Some? ==> r.value.WellFormed()
  {
    match Chosen(s)
    case Neither => None
    case PickA => Some(Parse(s.a))
    case PickB => Some(Parse(s.b))
  }

  /** What AdapterRead delivers for a request of `size` bytes; None is PERSIST_FAIL. */
  function Delivered(stored: Option<Record>, size: bv16): (out: Option<seq<bv8>>)
    requires stored.Some? ==> stored.value.WellFormed()
  {
    if size == 0 || size > MAX_SIZE || stored == None || size > stored.value.payloadSize then None
    else SmallSize(size); Some(stored.value.payload[..size as int])
  }

  predicate RequestAccepted(size: bv16) { size != 0 && size <= MAX_SIZE }

  /** AdapterWrite overwrites the slot that was not chosen ... */
  function TargetSlot(s: Slots): uint32
    requires s.WellFormed()
  {
    if Chosen(s) == PickA then SLOT1 else SLOT0
  }

  function Successor(sequence: bv32): bv32 { sequence + 1 }

  /** ... with a record one sequence number after the stored one. */
  function NextSequence(s: Slots): bv32
    requires s.WellFormed()
  {
    match Stored(s) case None => 1 case Some(r) => Successor(r.sequence)
  }

  function NextRecord(s: Slots, data: seq<bv8>, size: bv16): (r: Record)
    requires s.WellFormed() && RequestAccepted(size) && size as int <= |data|
    ensures r.WellFormed()
  {
    Built(NextSequence(s), data, size)
  }

  function WithSlot(s: Slots, slot: uint32, image: seq<bv8>): Slots {
    if slot == SLOT0 then s.(a := image) else s.(b := image)
  }

  /** The slots after AdapterWrite, having seen them like this, erased its target and programmed
      `words` double-words. */
  function WrittenSeeing(s: Slots, seen: Slots, data: seq<bv8>, size: bv16, words: nat): (s': Slots)
    requires s.WellFormed() && seen.WellFormed()
    requires RequestAccepted(size) && size as int <= |data| && words <= 4
    ensures s'.WellFormed()
  {
    WithSlot(s, TargetSlot(seen), Torn(Image(NextRecord(seen, data, size)), words))
  }

  /** The same when both slots could be read. */
  function Written(s: Slots, data: seq<bv8>, size: bv16, words: nat): (s': Slots)
    requires s.WellFormed() && RequestAccepted(size) && size as int <= |data| && words <= 4
    ensures s'.WellFormed()
  {
    WrittenSeeing(s, s, data, size, words)
  }

  class Adapter {
    const device: FlashDevice
    /** Which read requests to the storage task will succeed. */
    var readable: Readable

    constructor (device: FlashDevice)
      ensures this.device == device && readable == Readable(true, true)
    {
      this.device := device;
      readable := Readable(true, true);
    }

    /** The slots as the next operation sees them. */
    ghost function SeenNow(): (s: Slots)
      requires device.Valid()
      reads this, device, device.bank
      ensures s.WellFormed()
    {
      Seen(SlotsOf(device.bank[..]), readable)
    }

    /** The 32 bytes at `address`, or zeros when the request fails or they cannot be read. */
    method RecordReadOrZero(address: uint32, served: bool) returns (bytes: seq<bv8>)
      requires device.Valid()
      ensures |bytes| == 32
      ensures served && ReadAccepted(address, 32) ==>
        bytes == device.bank[..][address - FLASH_BASE..address - FLASH_BASE + 32]
      ensures !(served && ReadAccepted(address, 32)) ==> bytes == Zeros()
    {
      var buffer := new bv8[32];
      var ok := false;
      if served {
        ok := device.FlashRead(address, buffer, 32);
      }
      if ok {
        var off := address - FLASH_BASE;
        assert buffer[..] == buffer[..32] == device.bank[off..off + 32] == device.bank[..][off..off + 32];
        bytes := buffer[..];
      } else {
        bytes := Zeros();
      }
    }

    method ReadBoth() returns (bytes0: seq<bv8>, bytes1: seq<bv8>)
      requires device.Valid()
      ensures Slots(bytes0, bytes1) == SeenNow()
    {
      bytes0 := RecordReadOrZero(SLOT0, readable.slot0);
      bytes1 := RecordReadOrZero(SLOT1, readable.slot1);
    }

    /** Both functions start by reading the two slots and selecting the latest record. */
    method ReadSlots() returns (record0: JournalRecord, record1: JournalRecord, latest: JournalRecord?)
      requires device.Valid()
      ensures fresh(record0) && fresh(record1) && record0 != record1
      ensures var s := SeenNow();
        && record0.Value() == Parse(s.a) && record1.Value() == Parse(s.b)
        && latest == match Chosen(s) case Neither => null case PickA => record0 case PickB => record1
    {
      var bytes0, bytes1 := ReadBoth();
      record0 := new JournalRecord();
      record0.Overlay(bytes0);
      record1 := new JournalRecord();
      record1.Overlay(bytes1);
      latest := SelectLatest(record0, record1, MAX_SIZE);
    }

    method AdapterRead(size: bv16) returns (out: Option<seq<bv8>>)
      requires device.Valid()
      ensures out == Delivered(Stored(SeenNow()), size)
      ensures out.Some? <==> 1 <= size <= 12 && Stored(SeenNow()).Some? && size <= Stored(SeenNow()).value.payloadSize
      ensures out.Some? ==>
        |out.value| == size as int <= 16 && out.value == Stored(SeenNow()).value.payload[..size as int]
    {
      if size == 0 || size > MAX_SIZE {
        return None;
      }
      var _, _, latest := ReadSlots();
      if latest == null || size > latest.payloadSize {
        return None;
      }
      SmallSize(size);
      return Some(latest.payload[..size as int]);
    }

    /** The storage request that writes a whole record to one slot. */
    method WriteRecord(slot: uint32, record: Record) returns (ok: bool)
      requires device.Valid() && record.WellFormed() && (slot == SLOT0 || slot == SLOT1)
      modifies device`operationsLeft, device.bank
      ensures ok == (old(device.operationsLeft) >= 5)
      ensures old(device.operationsLeft) == 0 ==> device.bank[..] == old(device.bank[..])
      ensures old(device.operationsLeft) > 0 ==>
        SlotsOf(device.bank[..]) ==
        WithSlot(SlotsOf(old(device.bank[..])), slot, Torn(Image(record), Min(old(device.operationsLeft) - 1, 4)))
    {
      var image := Image(record);
      ghost var before := device.bank[..];
      assert image[..32] == image;
      assert PageCount(slot, 32) == 1 && DoubleWords(32) == 4;
      ok := device.FlashWrite(slot, image, 32);
      SlotAfterWrite(device.bank[..], before, slot, image, old(device.operationsLeft));
    }

    method NextTarget() returns (targetSlot: uint32, nextSequence: bv32)
      requires device.Valid()
      ensures targetSlot == TargetSlot(SeenNow())
      ensures nextSequence == NextSequence(SeenNow())
    {
      targetSlot, nextSequence := SLOT0, 1;
      var record0, record1, latest := ReadSlots();
      if latest == record0 {
        targetSlot := SLOT1;
        nextSequence := Successor(record0.sequence);
      } else if latest == record1 {
        targetSlot := SLOT0;
        nextSequence := Successor(record1.sequence);
      }
    }

    method BuildRecord(nextSequence: bv32, data: seq<bv8>, size: bv16) returns (record: Option<Record>)
      requires size as int <= |data|
      ensures record == if BuildAccepted(data, size) then Some(Built(nextSequence, data, size)) else None
    {
      var newRecord := new JournalRecord();
      var built := newRecord.RecordBuild(nextSequence, data, size);
      record := if built then Some(newRecord.Value()) else None;
    }

    method AdapterWrite(data: seq<bv8>, size: bv16) returns (ok: bool)
      requires device.Valid() && size as int <= |data|
      modifies device`operationsLeft, device.bank
      ensures RequestAccepted(size) <==> 1 <= size <= 12
      ensures !RequestAccepted(size) ==> !ok && device.bank[..] == old(device.bank[..])
      ensures RequestAccepted(size) ==> ok == (old(device.operationsLeft) >= 5)
      ensures RequestAccepted(size) && old(device.operationsLeft) == 0 ==>
        device.bank[..] == old(device.bank[..])
      ensures RequestAccepted(size) && old(device.operationsLeft) > 0 ==>
        SlotsOf(device.bank[..]) ==
        WrittenSeeing(SlotsOf(old(device.bank[..])), old(SeenNow()), data, size, Min(old(device.operationsLeft) - 1, 4))
    {
      if size == 0 || size > MAX_SIZE {
        return false;
      }
      ghost var seen := SeenNow();
      var targetSlot, nextSequence := NextTarget();
      var newRecord := BuildRecord(nextSequence, data, size);
      if newRecord == None {
        return false;
      }
      assert newRecord.value == NextRecord(seen, data, size);
      ok := WriteRecord(targetSlot, newRecord.value);
    }
  }

  /** A 32-byte write to one slot, stopped after `operations` hardware operations, leaves a torn
      image there and does not touch the other slot. */
  lemma SlotAfterWrite(after: seq<bv8>, bank: seq<bv8>, slot: uint32, image: seq<bv8>, operations: nat)
    requires |bank| == BANK_SIZE && |image| == 32 && (slot == SLOT0 || slot == SLOT1)
    requires IsAfter(after, bank, slot, image, Min(operations, PageCount(slot, 32)), Programmed(slot, 32, operations))
    ensures |after| == BANK_SIZE
    ensures operations == 0 ==> after == bank
    ensures operations > 0 ==>
      SlotsOf(after) == WithSlot(SlotsOf(bank), slot, Torn(image, Min(operations - 1, 4)))
  {
    assert PageCount(slot, 32) == 1 && DoubleWords(32) == 4;
    var off := slot - FLASH_BASE;
    if operations > 0 {
      assert after[off..off + 32] == Torn(image, Min(operations - 1, 4));
    }
  }

  // ----- crash safety -----

  lemma SuccessorNotBefore(x: bv32)
    ensures NotBefore(Successor(x), x)
  {
  }

  lemma BeforeSuccessor(x: bv32)
    ensures !NotBefore(x, Successor(x))
  {
  }

  lemma SuccessorInOrder(x: bv32)
    ensures LaterOf(x, Successor(x)) == PickB && LaterOf(Successor(x), x) == PickA
  {
    SuccessorNotBefore(x);
    BeforeSuccessor(x);
  }

  lemma SuccessorSelected(older: Record, newer: Record)
    requires older.WellFormed() && newer.WellFormed()
    requires RecordValid(older, MAX_SIZE) && RecordValid(newer, MAX_SIZE)
    requires newer.sequence == Successor(older.sequence)
    ensures Select(older, newer, MAX_SIZE) == PickB && Select(newer, older, MAX_SIZE) == PickA
  {
    SuccessorInOrder(older.sequence);
  }

  /** An image that is no valid record leaves the stored record in place. */
  lemma RejectedImage(s: Slots, image: seq<bv8>)
    requires s.WellFormed() && |image| == 32 && !RecordValid(Parse(image), MAX_SIZE)
    ensures Stored(WithSlot(s, TargetSlot(s), image)) == Stored(s)
  {
  }

  /** A valid record with the next sequence number becomes the stored one. */
  lemma AcceptedImage(s: Slots, image: seq<bv8>)
    requires s.WellFormed() && |image| == 32 && RecordValid(Parse(image), MAX_SIZE)
    requires Parse(image).sequence == NextSequence(s)
    ensures Stored(WithSlot(s, TargetSlot(s), image)) == Some(Parse(image))
  {
    match Chosen(s) {
      case Neither =>
      case PickA => SuccessorSelected(Parse(s.a), Parse(image));
      case PickB => SuccessorSelected(Parse(s.b), Parse(image));
    }
  }

  lemma NextRecordFacts(s: Slots, data: seq<bv8>, size: bv16)
    requires s.WellFormed() && RequestAccepted(size) && size as int <= |data|
    ensures var r := NextRecord(s, data, size);
            RecordValid(r, MAX_SIZE) && r.sequence == NextSequence(s) && Parse(Image(r)) == r
  {
    BuiltIsValid(NextSequence(s), data, size, MAX_SIZE);
    ParseImage(NextRecord(s, data, size));
  }

  lemma TornSequence(image: seq<bv8>, words: nat)
    requires |image| == 32 && 1 <= words <= 4
    ensures Parse(Torn(image, words)).sequence == Parse(image).sequence
  {
    assert Torn(image, words)[4..8] == image[4..8];
  }

  // ----- saves while a slot cannot be read -----

  lemma ZerosAreInvalid()
    ensures !RecordValid(Parse(Zeros()), MAX_SIZE)
  {
    assert FromLe32(Zeros()[0..4]) == 0;
  }

  /** The slot that holds the stored record. */
  function LatestSlot(s: Slots): uint32
    requires s.WellFormed() && Chosen(s) != Neither
  {
    if Chosen(s) == PickA then SLOT0 else SLOT1
  }

  /** The write cannot read the slot of the stored record and, if that is slot 1, finds a valid
      record in slot 0 instead. */
  predicate MistakesLatest(s: Slots, r: Readable)
    requires s.WellFormed()
  {
    match Chosen(s)
    case Neither => false
    case PickA => !r.slot0
    case PickB => r.slot0 && !r.slot1 && RecordValid(Parse(s.a), MAX_SIZE)
  }

  /** A write targets the slot of the stored record exactly when it mistakes it so. */
  lemma OverwritesLatestExactlyWhen(s: Slots, r: Readable)
    requires s.WellFormed() && Chosen(s) != Neither
    ensures TargetSlot(Seen(s, r)) == LatestSlot(s) <==> MistakesLatest(s, r)
  {
    ZerosAreInvalid();
  }

  /** The record that is left for readers when the target slot holds nothing valid. */
  function Survivor(s: Slots, r: Readable): (left: Option<Record>)
    requires s.WellFormed()
    ensures left.Some? ==> left.value.WellFormed()
  {
    var other := Parse(if TargetSlot(Seen(s, r)) == SLOT0 then s.b else s.a);
    if RecordValid(other, MAX_SIZE) then Some(other) else None
  }

  /** The survivor is the stored record exactly when the write does not mistake it, or both slots
      hold the same record. */
  lemma SurvivorExactlyWhen(s: Slots, r: Readable)
    requires s.WellFormed()
    ensures Survivor(s, r) == Stored(s) <==> !MistakesLatest(s, r) || Parse(s.a) == Parse(s.b)
  {
    ZerosAreInvalid();
    SameIsNotBefore(Parse(s.a).sequence);
  }

  lemma SameIsNotBefore(x: bv32)
    ensures NotBefore(x, x)
  {
  }

  lemma InvalidBesideOther(s: Slots, r: Readable, image: seq<bv8>)
    requires s.WellFormed() && |image| == 32 && !RecordValid(Parse(image), MAX_SIZE)
    ensures Stored(WithSlot(s, TargetSlot(Seen(s, r)), image)) == Survivor(s, r)
  {
  }

  /** Sequence numbers that serial-number order puts at or after 1. */
  predicate AtOrAfterOne(sequence: bv32) { 1 <= sequence <= 0x80000000 }

  lemma OneIsNotLater(sequence: bv32)
    ensures LaterOf(1, sequence) == if AtOrAfterOne(sequence) then PickB else PickA
  {
  }

  /** The write sees no valid record, but only because it cannot read slot 1, which holds one with
      a sequence number at or after 1. */
  predicate Shadowed(s: Slots, r: Readable)
    requires s.WellFormed()
  {
    && Chosen(Seen(s, r)) == Neither && !r.slot1
    && RecordValid(Parse(s.b), MAX_SIZE) && AtOrAfterOne(Parse(s.b).sequence)
  }

  lemma WholeImage(record: Record)
    requires record.WellFormed()
    ensures Parse(Torn(Image(record), 4)) == record
  {
    ParseImage(record);
    assert Torn(Image(record), 4) == Image(record);
  }

  lemma NewAfterA(a: seq<bv8>, image: seq<bv8>)
    requires |a| == |image| == 32 && RecordValid(Parse(a), MAX_SIZE) && RecordValid(Parse(image), MAX_SIZE)
    requires Parse(image).sequence == Successor(Parse(a).sequence)
    ensures Stored(Slots(a, image)) == Some(Parse(image))
  {
    SuccessorSelected(Parse(a), Parse(image));
  }

  lemma NewAfterB(image: seq<bv8>, b: seq<bv8>)
    requires |b| == |image| == 32 && RecordValid(Parse(b), MAX_SIZE) && RecordValid(Parse(image), MAX_SIZE)
    requires Parse(image).sequence == Successor(Parse(b).sequence)
    ensures Stored(Slots(image, b)) == Some(Parse(image))
  {
    SuccessorSelected(Parse(b), Parse(image));
  }

  lemma FirstBesideB(image: seq<bv8>, b: seq<bv8>)
    requires |b| == |image| == 32 && RecordValid(Parse(image), MAX_SIZE) && Parse(image).sequence == 1
    ensures Stored(Slots(image, b)) ==
            if RecordValid(Parse(b), MAX_SIZE) && AtOrAfterOne(Parse(b).sequence) then Some(Parse(b))
            else Some(Parse(image))
  {
    OneIsNotLater(Parse(b).sequence);
  }

  lemma NewAgainstOther(s: Slots, r: Readable, image: seq<bv8>)
    requires s.WellFormed() && |image| == 32 && RecordValid(Parse(image), MAX_SIZE)
    requires Parse(image).sequence == NextSequence(Seen(s, r)) && !RecordValid(Parse(Zeros()), MAX_SIZE)
    ensures Stored(WithSlot(s, TargetSlot(Seen(s, r)), image)) ==
            if Shadowed(s, r) then Some(Parse(s.b)) else Some(Parse(image))
  {
    match Chosen(Seen(s, r)) {
      case Neither => FirstBesideB(image, s.b);
      case PickA => NewAfterA(s.a, image);
      case PickB => NewAfterB(image, s.b);
    }
  }

  lemma ShadowedSurvivor(s: Slots, r: Readable)
    requires s.WellFormed() && Shadowed(s, r)
    ensures Survivor(s, r) == Some(Parse(s.b))
  {
  }

  /** What is programmed is a valid record: all of it, or enough of it to have CRC zero. */
  predicate Complete(image: seq<bv8>, words: nat)
    requires |image| == 32 && words <= 4
  {
    words == 4 || (words >= 2 && Crc(Torn(image, words)[..24]) == 0)
  }

  lemma CompleteIsValid(image: seq<bv8>, words: nat)
    requires |image| == 32 && words <= 4 && RecordValid(Parse(image), MAX_SIZE)
    ensures RecordValid(Parse(Torn(image, words)), MAX_SIZE) <==> Complete(image, words)
  {
    if words <= 1 {
      ShortTornRejected(image, words, MAX_SIZE);
    } else if words == 4 {
      assert Torn(image, words) == image;
    } else {
      LongTornAcceptedIff(image, words, MAX_SIZE);
    }
  }

  /** A write stopped after `words` of its four double-words, from any contents of the two slots and
      with any slot reads: readers get what was programmed if that is a valid record and the write
      was not shadowed, and otherwise the survivor. */
  lemma CutWriteSeeing(s: Slots, r: Readable, data: seq<bv8>, size: bv16, words: nat)
    requires s.WellFormed() && RequestAccepted(size) && size as int <= |data| && words <= 4
    ensures var image := Image(NextRecord(Seen(s, r), data, size));
            Stored(WrittenSeeing(s, Seen(s, r), data, size, words)) ==
            if Complete(image, words) && !Shadowed(s, r) then Some(Parse(Torn(image, words))) else Survivor(s, r)
  {
    var seen := Seen(s, r);
    NextRecordFacts(seen, data, size);
    CutImage(s, r, Image(NextRecord(seen, data, size)), words);
  }

  lemma CutImage(s: Slots, r: Readable, image: seq<bv8>, words: nat)
    requires s.WellFormed() && |image| == 32 && words <= 4
    requires RecordValid(Parse(image), MAX_SIZE) && Parse(image).sequence == NextSequence(Seen(s, r))
    ensures Stored(WithSlot(s, TargetSlot(Seen(s, r)), Torn(image, words))) ==
            if Complete(image, words) && !Shadowed(s, r) then Some(Parse(Torn(image, words))) else Survivor(s, r)
  {
    var torn := Torn(image, words);
    CompleteIsValid(image, words);
    if Complete(image, words) {
      TornSequence(image, words);
      ZerosAreInvalid();
      NewAgainstOther(s, r, torn);
      if Shadowed(s, r) {
        ShadowedSurvivor(s, r);
      }
    } else {
      InvalidBesideOther(s, r, torn);
    }
  }

  lemma BothReadable(s: Slots)
    requires s.WellFormed()
    ensures var r := Readable(true, true);
      Seen(s, r) == s && !Shadowed(s, r) && !MistakesLatest(s, r) && Survivor(s, r) == Stored(s)
  {
    SurvivorExactlyWhen(s, Readable(true, true));
  }

  /** A write stopped after `words` of its four double-words, from any contents of the two slots:
      with zero or one the old record is still read; with two or three it is, unless the CRC of
      the first 24 bytes is zero, and then the torn record is read; with four the new one is. */
  lemma CutWrite(s: Slots, data: seq<bv8>, size: bv16, words: nat)
    requires s.WellFormed() && RequestAccepted(size) && size as int <= |data| && words <= 4
    ensures var torn := Torn(Image(NextRecord(s, data, size)), words);
            Stored(Written(s, data, size, words)) ==
            if words == 4 then Some(NextRecord(s, data, size))
            else if words >= 2 && Crc(torn[..24]) == 0 then Some(Parse(torn))
            else Stored(s)
  {
    BothReadable(s);
    CutWriteSeeing(s, Readable(true, true), data, size, words);
    WholeImage(NextRecord(s, data, size));
  }

  /** What a reader gets after a write that reported success: the new record, unless the write was
      shadowed; then the old record of slot 1, for good as far as this write goes. */
  lemma CompletedWriteIsRead(s: Slots, r: Readable, data: seq<bv8>, size: bv16)
    requires s.WellFormed() && RequestAccepted(size) && size as int <= |data|
    ensures Stored(WrittenSeeing(s, Seen(s, r), data, size, 4)) ==
            if Shadowed(s, r) then Some(Parse(s.b)) else Some(NextRecord(Seen(s, r), data, size))
  {
    CutWriteSeeing(s, r, data, size, 4);
    WholeImage(NextRecord(Seen(s, r), data, size));
    if Shadowed(s, r) {
      ShadowedSurvivor(s, r);
    }
  }
}
