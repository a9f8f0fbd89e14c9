/** The dual-slot journal record of SSM/App/Domain/PersistenceJournal.c: its 32-byte
    little-endian image, construction, validation and the choice between two slots. */
module PersistenceJournal {
  import opened ChannelBits
  import opened Crc32

  const MAGIC: bv32 := 0x4A53534D
  const VERSION: bv8 := 1
  const COMMIT: bv8 := 0xA5
  const MAX_PAYLOAD_SIZE: bv16 := 16

  datatype Record = Record(
    magic: bv32, sequence: bv32, payloadSize: bv16, version: bv8, commit: bv8,
    payload: seq<bv8>, crc32: bv32)
  {
    predicate WellFormed() { |payload| == 16 }
  }

  // ----- the record's bytes -----

  /** The bytes covered by the CRC: everything before the crc32 field. */
  function Covered(r: Record): (bytes: seq<bv8>)
    requires r.WellFormed()
    ensures |bytes| == 28
  {
    Le32(r.magic) + Le32(r.sequence) + Le16(r.payloadSize) + [r.version, r.commit] + r.payload
  }

  function Image(r: Record): (bytes: seq<bv8>)
    requires r.WellFormed()
    ensures |bytes| == 32
  {
    Covered(r) + Le32(r.crc32)
  }

  /** Overlaying the structure on 32 bytes read from flash. */
  function Parse(bytes: seq<bv8>): (r: Record)
    requires |bytes| == 32
    ensures r.WellFormed()
  {
    Record(FromLe32(bytes[0..4]), FromLe32(bytes[4..8]), FromLe16(bytes[8..10]), bytes[10], bytes[11],
           bytes[12..28], FromLe32(bytes[28..32]))
  }

  lemma ParseImage(r: Record)
    requires r.WellFormed()
    ensures Parse(Image(r)) == r
  {
    var b := Image(r);
    assert b[0..4] == Le32(r.magic) && b[4..8] == Le32(r.sequence) && b[8..10] == Le16(r.payloadSize);
    assert b[12..28] == r.payload;
    assert b[28..32] == b[28..] == Le32(r.crc32);
    Le32RoundTrip(r.magic);
    Le32RoundTrip(r.sequence);
    Le16RoundTrip(r.payloadSize);
    Le32RoundTrip(r.crc32);
  }

  lemma ImageParse(bytes: seq<bv8>)
    requires |bytes| == 32
    ensures Image(Parse(bytes)) == bytes && Covered(Parse(bytes)) == bytes[..28]
  {
    Le32Inverse(bytes[0..4]);
    Le32Inverse(bytes[4..8]);
    Le16Inverse(bytes[8..10]);
    Le32Inverse(bytes[28..32]);
  }

  // ----- construction and validation -----

  predicate HeaderValid(r: Record, maxPayloadSize: bv16) {
    && r.magic == MAGIC && r.version == VERSION && r.commit == COMMIT
    && r.payloadSize != 0 && r.payloadSize <= maxPayloadSize && r.payloadSize <= MAX_PAYLOAD_SIZE
  }

  predicate RecordValid(r: Record, maxPayloadSize: bv16)
    requires r.WellFormed()
  {
    HeaderValid(r, maxPayloadSize) && Crc(Covered(r)) == r.crc32
  }

  predicate BuildAccepted(payload: seq<bv8>, payloadSize: bv16) {
    payloadSize != 0 && payloadSize <= MAX_PAYLOAD_SIZE && payloadSize as int <= |payload|
  }

  lemma SmallSize(n: bv16)
    requires n <= MAX_PAYLOAD_SIZE
    ensures n as int <= 16
  {
  }

  /** The record that holds the first payloadSize bytes of a payload, zero-padded. */
  function Built(sequence: bv32, payload: seq<bv8>, payloadSize: bv16): (r: Record)
    requires BuildAccepted(payload, payloadSize)
    ensures r.WellFormed()
  {
    SmallSize(payloadSize);
    var n := payloadSize as int;
    var blank := Record(MAGIC, sequence, payloadSize, VERSION, COMMIT,
                        payload[..n] + seq(16 - n, _ => 0), 0);
    blank.(crc32 := Crc(Covered(blank)))
  }

  /** The fields of an image by position. */
  lemma ImageFields(r: Record)
    requires r.WellFormed()
    ensures Image(r)[..8] == Le32(r.magic) + Le32(r.sequence)
    ensures Image(r)[8..12] == Le16(r.payloadSize) + [r.version, r.commit]
    ensures Image(r)[12..28] == r.payload
  {
  }

  lemma BuiltFields(sequence: bv32, payload: seq<bv8>, payloadSize: bv16, n: nat)
    requires BuildAccepted(payload, payloadSize) && n == payloadSize as int
    ensures var r := Built(sequence, payload, payloadSize);
            && r.magic == MAGIC && r.sequence == sequence && r.payloadSize == payloadSize
            && r.version == VERSION && r.commit == COMMIT && n <= 16 && r.payload[..n] == payload[..n]
  {
    SmallSize(payloadSize);
  }

  /** The record field by field: the data, then zeros up to 16 bytes, and the CRC of the 28 bytes
      before it. */
  lemma BuiltExactly(sequence: bv32, data: seq<bv8>, size: bv16)
    requires BuildAccepted(data, size)
    ensures var r := Built(sequence, data, size);
      && r.magic == 0x4A53534D && r.sequence == sequence && r.payloadSize == size
      && r.version == 1 && r.commit == 0xA5 && size as int <= |r.payload| == 16
      && (forall i :: 0 <= i < 16 ==> r.payload[i] == if i < size as int then data[i] else 0)
      && r.crc32 == Crc(Le32(0x4A53534D) + Le32(sequence) + Le16(size) + [1, 0xA5] + r.payload)
  {
    SmallSize(size);
  }

  /** A record is valid exactly when its fields are these and its CRC field is the CRC of the 28 bytes
      before it. */
  lemma ValidExactlyWhen(r: Record, maxPayloadSize: bv16)
    requires r.WellFormed()
    ensures RecordValid(r, maxPayloadSize) <==>
            && r.magic == 0x4A53534D && r.version == 1 && r.commit == 0xA5
            && 1 <= r.payloadSize <= 16 && r.payloadSize <= maxPayloadSize
            && r.crc32 == Crc(Le32(r.magic) + Le32(r.sequence) + Le16(r.payloadSize) + [1, 0xA5] + r.payload)
  {
  }

  datatype Choice = Neither | PickA | PickB

  /** Steps from a to b, counting modulo 2^32. */
  function Distance(a: bv32, b: bv32): bv32 { b - a }

  predicate InLowerHalf(d: bv32) { d < 0x80000000 }

  predicate NotBefore(b: bv32, a: bv32) { InLowerHalf(Distance(a, b)) }

  /** SelectLatest's choice between two valid records with sequence numbers a and b. */
  function LaterOf(a: bv32, b: bv32): Choice {
    if NotBefore(b, a) then PickB else PickA
  }

  /** The later of two valid records in serial-number order, or the only valid one. */
  function Select(a: Record, b: Record, maxPayloadSize: bv16): Choice
    requires a.WellFormed() && b.WellFormed()
  {
    match (RecordValid(a, maxPayloadSize), RecordValid(b, maxPayloadSize))
    case (false, false) => Neither
    case (false, true) => PickB
    case (true, false) => PickA
    case (true, true) => LaterOf(a.sequence, b.sequence)
  }

  /** A journal record in memory, filled in and examined in place. */
  class JournalRecord {
    var magic: bv32
    var sequence: bv32
    var payloadSize: bv16
    var version: bv8
    var commit: bv8
    var payload: seq<bv8>
    var crc32: bv32

    function Value(): (r: Record)
      reads this
    {
      Record(magic, sequence, payloadSize, version, commit, payload, crc32)
    }

    /** An uninitialised structure. */
    constructor ()
      ensures Value().WellFormed()
    {
      payload := seq(16, _ => 0);
    }

    /** Overlays 32 bytes on the structure. */
    method Overlay(bytes: seq<bv8>)
      requires |bytes| == 32
      modifies this
      ensures Value() == Parse(bytes)
    {
      var r := Parse(bytes);
      magic, sequence, payloadSize, version := r.magic, r.sequence, r.payloadSize, r.version;
      commit, payload, crc32 := r.commit, r.payload, r.crc32;
    }

    method RecordBuild(newSequence: bv32, data: seq<bv8>, size: bv16) returns (ok: bool)
      requires Value().WellFormed() && size as int <= |data|
      modifies this
      ensures ok == BuildAccepted(data, size)
      ensures Value() == if ok then Built(newSequence, data, size) else old(Value())
      ensures ok <==> 1 <= size as int <= 16
      ensures ok ==>
        && magic == 0x4A53534D && sequence == newSequence && payloadSize == size && version == 1 && commit == 0xA5
        && |payload| == 16 && (forall i :: 0 <= i < 16 ==> payload[i] == if i < size as int then data[i] else 0)
        && crc32 == Crc(Le32(0x4A53534D) + Le32(newSequence) + Le16(size) + [1, 0xA5] + payload)
    {
      if size == 0 || size > MAX_PAYLOAD_SIZE {
        return false;
      }
      SmallSize(size);
      magic, sequence, payloadSize := MAGIC, newSequence, size;
      version, commit := VERSION, COMMIT;
      payload := data[..size as int] + seq(16 - size as int, _ => 0);
      crc32 := 0;
      var covered := Covered(Value());
      assert covered[..28] == covered;
      crc32 := Compute(covered, 28);
      BuiltExactly(newSequence, data, size);
      return true;
    }

    method RecordIsValid(maxPayloadSize: bv16) returns (valid: bool)
      requires Value().WellFormed()
      ensures valid == RecordValid(Value(), maxPayloadSize)
      ensures valid <==>
        && magic == 0x4A53534D && version == 1 && commit == 0xA5
        && 1 <= payloadSize <= 16 && payloadSize <= maxPayloadSize
        && crc32 == Crc(Le32(magic) + Le32(sequence) + Le16(payloadSize) + [1, 0xA5] + payload)
    {
      ValidExactlyWhen(Value(), maxPayloadSize);
      if magic != MAGIC || version != VERSION || commit != COMMIT {
        return false;
      }
      if payloadSize == 0 || payloadSize > maxPayloadSize || payloadSize > MAX_PAYLOAD_SIZE {
        return false;
      }
      var covered := Covered(Value());
      assert covered[..28] == covered;
      var crc := Compute(covered, 28);
      return crc == crc32;
    }
  }

  method SelectLatest(pA: JournalRecord, pB: JournalRecord, maxPayloadSize: bv16) returns (latest: JournalRecord?)
    requires pA.Value().WellFormed() && pB.Value().WellFormed()
    ensures latest != null ==> latest.Value().WellFormed()
    ensures latest == null <==> !RecordValid(pA.Value(), maxPayloadSize) && !RecordValid(pB.Value(), maxPayloadSize)
    ensures latest != null ==> RecordValid(latest.Value(), maxPayloadSize)
    ensures latest == match Select(pA.Value(), pB.Value(), maxPayloadSize)
                      case Neither => null
                      case PickA => pA
                      case PickB => pB
  {
    var aValid := pA.RecordIsValid(maxPayloadSize);
    var bValid := pB.RecordIsValid(maxPayloadSize);
    if !aValid && !bValid {
      return null;
    }
    if !aValid {
      return pB;
    }
    if !bValid {
      return pA;
    }
    return if NotBefore(pB.sequence, pA.sequence) then pB else pA;
  }

  // ----- error detection -----

  /** A 32-byte image is a valid record exactly when its header is in order and the register
      left by all 32 bytes, CRC field included, is the fixed residue. */
  lemma ValidIffResidue(bytes: seq<bv8>, maxPayloadSize: bv16)
    requires |bytes| == 32
    ensures RecordValid(Parse(bytes), maxPayloadSize) <==>
            HeaderValid(Parse(bytes), maxPayloadSize) && Register(ALL_ONES, bytes) == RESIDUE
  {
    ImageParse(bytes);
    ResidueIffCrc(bytes[..28], Parse(bytes).crc32);
  }

  /** What RecordBuild makes is valid for every caller that accepts its payload size. */
  lemma BuiltIsValid(sequence: bv32, payload: seq<bv8>, payloadSize: bv16, maxPayloadSize: bv16)
    requires BuildAccepted(payload, payloadSize)
    ensures RecordValid(Built(sequence, payload, payloadSize), maxPayloadSize) <==> payloadSize <= maxPayloadSize
  {
    var r := Built(sequence, payload, payloadSize);
    assert Covered(r) == Covered(r.(crc32 := 0));
  }

  /** No nonempty change within 32 consecutive bits of a valid image, wherever they lie in
      header, payload or CRC field, leaves a valid image. */
  lemma BurstRejected(image: seq<bv8>, damaged: seq<bv8>, k: nat, n: nat, max: bv16, max': bv16)
    requires |image| == |damaged| == 32 && RecordValid(Parse(image), max)
    requires image != damaged && DifferWithin(Bits(image), Bits(damaged), k, n)
    ensures !RecordValid(Parse(damaged), max')
  {
    ValidIffResidue(image, max);
    ValidIffResidue(damaged, max');
    BurstChangesRegister(ALL_ONES, image, damaged, k, n);
  }

  /** The same for four consecutive bytes of a freshly built record. */
  lemma FourByteDamageRejected(sequence: bv32, payload: seq<bv8>, payloadSize: bv16,
                               damaged: seq<bv8>, w: nat, max: bv16)
    requires BuildAccepted(payload, payloadSize) && |damaged| == 32 && w + 4 <= 32
    requires var image := Image(Built(sequence, payload, payloadSize));
             image != damaged && image[..w] == damaged[..w] && image[w + 4..] == damaged[w + 4..]
    ensures !RecordValid(Parse(damaged), max)
  {
    var r := Built(sequence, payload, payloadSize);
    BuiltIsValid(sequence, payload, payloadSize, payloadSize);
    ParseImage(r);
    FourBytesAreOneBurst(Image(r), damaged, w);
    BurstRejected(Image(r), damaged, 8 * w, 32, payloadSize, max);
  }

  // ----- serial-number order -----

  function Negate(d: bv32): bv32 { 0 - d }

  predicate Forward(d: bv32) { 1 <= d <= 0x7FFFFFFF }

  predicate Ambiguous(d: bv32) { d == 0 || d == 0x80000000 }

  lemma HalfSpace(d: bv32)
    ensures Forward(d) ==> InLowerHalf(d) && !InLowerHalf(Negate(d))
    ensures (InLowerHalf(d) == InLowerHalf(Negate(d))) <==> Ambiguous(d)
  {
  }

  lemma BothDirections(a: bv32, b: bv32)
    ensures NotBefore(a, b) == InLowerHalf(Negate(b - a)) && NotBefore(b, a) == InLowerHalf(b - a)
  {
  }

  lemma SerialOrder(a: bv32, b: bv32)
    ensures Forward(b - a) ==> NotBefore(b, a) && !NotBefore(a, b)
    ensures (NotBefore(b, a) == NotBefore(a, b)) <==> Ambiguous(b - a)
  {
    BothDirections(a, b);
    HalfSpace(b - a);
  }

  /** Of two valid records 1 .. 2^31 - 1 steps apart modulo 2^32, the later one is selected,
      whichever argument it is. */
  lemma LaterIsSelected(older: Record, newer: Record, max: bv16)
    requires older.WellFormed() && newer.WellFormed()
    requires RecordValid(older, max) && RecordValid(newer, max)
    requires Forward(newer.sequence - older.sequence)
    ensures Select(older, newer, max) == PickB && Select(newer, older, max) == PickA
  {
    SerialOrder(older.sequence, newer.sequence);
  }

  lemma BothChoices(a: bv32, b: bv32)
    ensures LaterOf(a, b) == if InLowerHalf(b - a) then PickB else PickA
    ensures LaterOf(b, a) == if InLowerHalf(Negate(b - a)) then PickB else PickA
  {
  }

  /** Swapping the two arguments changes which of two valid records is chosen exactly when
      their sequence numbers are equal or half the number space apart. */
  lemma OrderMattersExactlyWhen(a: bv32, b: bv32)
    ensures (LaterOf(a, b) == LaterOf(b, a)) <==> Ambiguous(b - a)
  {
    BothChoices(a, b);
    HalfSpace(b - a);
  }

  // ----- records whose programming was cut short -----

  /** The slot after an erase and the first `words` double-words of an image. */
  function Torn(image: seq<bv8>, words: nat): (bytes: seq<bv8>)
    requires |image| == 32 && words <= 4
    ensures |bytes| == 32
  {
    image[..8 * words] + seq(32 - 8 * words, _ => 0xFF)
  }

  /** With no or one double-word programmed nothing is ever accepted. */
  lemma ShortTornRejected(image: seq<bv8>, words: nat, max: bv16)
    requires |image| == 32 && words <= 1
    ensures !RecordValid(Parse(Torn(image, words)), max)
  {
    var t := Torn(image, words);
    assert t[10] == 0xFF;
  }

  lemma OnesReturnToZero(r: bv32)
    ensures Register(r, Le32(ALL_ONES)) == 0 <==> r == ALL_ONES
  {
    FeedOwnBytes(ALL_ONES);
    if r != ALL_ONES {
      CommonTail(r, ALL_ONES, Bits(Le32(ALL_ONES)));
    }
  }

  /** A tail of eight erased bytes completes 24 bytes to the residue exactly when their CRC is 0. */
  lemma ErasedTail(head: seq<bv8>)
    requires |head| == 24
    ensures Register(ALL_ONES, head + Le32(ALL_ONES) + Le32(ALL_ONES)) == RESIDUE <==> Crc(head) == 0
  {
    var r := Register(ALL_ONES, head);
    ResidueIffCrc(head + Le32(ALL_ONES), ALL_ONES);
    RegisterConcat(ALL_ONES, head, Le32(ALL_ONES));
    OnesReturnToZero(r);
    XorZero(r, ALL_ONES);
    XorSelf(r);
    OnesMeansZero(Register(r, Le32(ALL_ONES)));
  }

  lemma OnesMeansZero(r: bv32)
    ensures ALL_ONES == Xor(r, ALL_ONES) <==> r == 0
  {
  }

  /** The second double-word completes the header. */
  lemma TornHeader(image: seq<bv8>, words: nat, max: bv16)
    requires |image| == 32 && 2 <= words <= 4 && HeaderValid(Parse(image), max)
    ensures HeaderValid(Parse(Torn(image, words)), max)
  {
    var t := Torn(image, words);
    assert t[0..4] == image[0..4] && t[8..10] == image[8..10];
    assert t[10] == image[10] && t[11] == image[11];
  }

  lemma TornTailErased(image: seq<bv8>, words: nat)
    requires |image| == 32 && words <= 3
    ensures var t := Torn(image, words); t == t[..24] + Le32(ALL_ONES) + Le32(ALL_ONES)
  {
    assert Le32(ALL_ONES) == [0xFF, 0xFF, 0xFF, 0xFF];
  }

  /** With two or three double-words programmed the torn image of a valid record is accepted
      exactly when the CRC of its first 24 bytes happens to be zero. */
  lemma LongTornAcceptedIff(image: seq<bv8>, words: nat, max: bv16)
    requires |image| == 32 && 2 <= words <= 3 && RecordValid(Parse(image), max)
    ensures RecordValid(Parse(Torn(image, words)), max) <==> Crc(Torn(image, words)[..24]) == 0
  {
    var t := Torn(image, words);
    TornHeader(image, words, max);
    TornTailErased(image, words);
    ValidIffResidue(t, max);
    ErasedTail(t[..24]);
  }
}
