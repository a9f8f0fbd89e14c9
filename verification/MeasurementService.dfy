/** The persisted settings of PSM/App/Domain/MeasurementService.c: the flash period and the
    calibration offset, kept in EEPROM and mirrored in runtime fields. */
module MeasurementService {

  type uint8 = x: int | 0 <= x < 256
  type uint32 = x: int | 0 <= x < 0x1_0000_0000

  const DEFAULT_PERIOD: uint8 := 5
  const MAX_PERIOD: uint8 := 40
  const OFFSET_OPERATION_NONE: uint8 := 0
  const OFFSET_OPERATION_SUBTRACT: uint8 := 2
  const CP_PERIOD_SCALE: uint32 := 10
  const MEASUREMENT_TASK_PERIOD_MS: uint32 := 20
  const SENTINEL: uint8 := 0xF0
  const ADDR_PERIOD := 4
  const ADDR_OFFSET := 6
  const EEPROM_SIZE := 16

  predicate PeriodIsValid(period: uint8) { DEFAULT_PERIOD <= period <= MAX_PERIOD }

  predicate OffsetOpIsValid(op: uint8) { op <= OFFSET_OPERATION_SUBTRACT }

  // ----- the settings the EEPROM bytes stand for -----

  datatype Settings = Settings(period: uint8, op: uint8, val: uint8)

  /** The period record: a sentinel and a valid period; anything else means the default. */
  function StoredPeriod(bytes: seq<uint8>): uint8
    requires |bytes| == EEPROM_SIZE
  {
    if bytes[ADDR_PERIOD] == SENTINEL && PeriodIsValid(bytes[ADDR_PERIOD + 1]) then bytes[ADDR_PERIOD + 1]
    else DEFAULT_PERIOD
  }

  /** The offset record: a sentinel, a valid operation and a value; anything else means none. */
  function StoredOffset(bytes: seq<uint8>): (uint8, uint8)
    requires |bytes| == EEPROM_SIZE
  {
    if bytes[ADDR_OFFSET] == SENTINEL && OffsetOpIsValid(bytes[ADDR_OFFSET + 1])
    then (bytes[ADDR_OFFSET + 1], bytes[ADDR_OFFSET + 2])
    else (OFFSET_OPERATION_NONE, 0)
  }

  function StoredSettings(bytes: seq<uint8>): Settings
    requires |bytes| == EEPROM_SIZE
  {
    Settings(StoredPeriod(bytes), StoredOffset(bytes).0, StoredOffset(bytes).1)
  }

  /** The runtime fields and the EEPROM bytes. */
  datatype World = World(bytes: seq<uint8>, flashPeriod: uint32, op: uint8, val: uint8)
  {
    predicate WellFormed() { |bytes| == EEPROM_SIZE }

    predicate PeriodAgrees()
      requires WellFormed()
    {
      flashPeriod == 200 * StoredPeriod(bytes)
    }

    predicate OffsetAgrees()
      requires WellFormed()
    {
      (op, val) == StoredOffset(bytes)
    }

    /** The runtime fields agree with what the EEPROM stands for. */
    predicate Agrees()
      requires WellFormed()
    {
      PeriodAgrees() && OffsetAgrees()
    }
  }

  function Overwrite(bytes: seq<uint8>, address: nat, data: seq<uint8>): (r: seq<uint8>)
    requires address + |data| <= |bytes|
    ensures |r| == |bytes|
  {
    bytes[..address] + data + bytes[address + |data|..]
  }

  /** Which accesses to the two records will succeed; a failed write changes nothing. */
  datatype Health = Health(readPeriod: bool, readOffset: bool, writePeriod: bool, writeOffset: bool)

  class Eeprom {
    const bytes: array<uint8>
    var health: Health

    ghost predicate Valid() { bytes.Length == EEPROM_SIZE }

    constructor ()
      ensures Valid() && fresh(bytes)
    {
      bytes := new uint8[EEPROM_SIZE];
    }

    method Read(address: nat, size: nat) returns (ok: bool, data: seq<uint8>)
      requires Valid() && address + size <= EEPROM_SIZE
      ensures ok == if address == ADDR_PERIOD then health.readPeriod else health.readOffset
      ensures ok ==> data == bytes[address..address + size]
    {
      ok := if address == ADDR_PERIOD then health.readPeriod else health.readOffset;
      data := if ok then bytes[address..address + size] else [];
    }

    method Write(address: nat, data: seq<uint8>) returns (ok: bool)
      requires Valid() && address + |data| <= EEPROM_SIZE
      modifies bytes
      ensures ok == if address == ADDR_PERIOD then health.writePeriod else health.writeOffset
      ensures bytes[..] == if ok then Overwrite(old(bytes[..]), address, data) else old(bytes[..])
    {
      ok := if address == ADDR_PERIOD then health.writePeriod else health.writeOffset;
      if ok {
        forall i | 0 <= i < |data| {
          bytes[address + i] := data[i];
        }
      }
    }
  }

  class Service {
    const eeprom: Eeprom
    var flashPeriod: uint32
    var offsetOperation: uint8
    var offsetValue: uint8

    ghost predicate Valid() { eeprom.Valid() }

    function Value(): World
      reads this, eeprom.bytes
    {
      World(eeprom.bytes[..], flashPeriod, offsetOperation, offsetValue)
    }

    constructor (eeprom: Eeprom)
      requires eeprom.Valid()
      ensures Valid() && this.eeprom == eeprom && eeprom.bytes[..] == old(eeprom.bytes[..])
    {
      this.eeprom := eeprom;
      flashPeriod, offsetOperation, offsetValue := 0, 0, 0;
    }

    method PeriodPersist(period: uint8) returns (ok: bool)
      requires Valid()
      modifies eeprom.bytes
      ensures ok == (PeriodIsValid(period) && eeprom.health.writePeriod)
      ensures eeprom.bytes[..] == if ok then Overwrite(old(eeprom.bytes[..]), ADDR_PERIOD, [SENTINEL, period])
                                  else old(eeprom.bytes[..])
    {
      if !PeriodIsValid(period) {
        return false;
      }
      ok := eeprom.Write(ADDR_PERIOD, [SENTINEL, period]);
    }

    method OffsetPersist(op: uint8, val: uint8) returns (ok: bool)
      requires Valid()
      modifies eeprom.bytes
      ensures ok == (OffsetOpIsValid(op) && eeprom.health.writeOffset)
      ensures eeprom.bytes[..] == if ok then Overwrite(old(eeprom.bytes[..]), ADDR_OFFSET, [SENTINEL, op, val])
                                  else old(eeprom.bytes[..])
    {
      if !OffsetOpIsValid(op) {
        return false;
      }
      ok := eeprom.Write(ADDR_OFFSET, [SENTINEL, op, val]);
    }

    method PeriodApply(period: uint8)
      modifies `flashPeriod
      ensures flashPeriod == if PeriodIsValid(period) then 200 * period else old(flashPeriod)
    {
      if !PeriodIsValid(period) {
        return;
      }
      flashPeriod := period * CP_PERIOD_SCALE * MEASUREMENT_TASK_PERIOD_MS;
    }

    method OffsetApply(op: uint8, val: uint8)
      modifies `offsetOperation, `offsetValue
      ensures (offsetOperation, offsetValue) ==
              if OffsetOpIsValid(op) then (op, val) else (old(offsetOperation), old(offsetValue))
    {
      if !OffsetOpIsValid(op) {
        return;
      }
      offsetOperation, offsetValue := op, val;
    }

    method FlashPeriodCheck()
      requires Valid()
      modifies `flashPeriod, eeprom.bytes
      ensures flashPeriod == 200 * SeenPeriod(old(eeprom.bytes[..]), eeprom.health)
      ensures eeprom.bytes[..] == InitPeriodBytes(old(eeprom.bytes[..]), eeprom.health)
    {
      var ok, rec := eeprom.Read(ADDR_PERIOD, 2);
      if ok && rec[0] == SENTINEL && PeriodIsValid(rec[1]) {
        PeriodApply(rec[1]);
        return;
      }
      var _ := eeprom.Write(ADDR_PERIOD, [SENTINEL, DEFAULT_PERIOD]);
      PeriodApply(DEFAULT_PERIOD);
    }

    method OffsetCheck()
      requires Valid()
      modifies `offsetOperation, `offsetValue, eeprom.bytes
      ensures (offsetOperation, offsetValue) == SeenOffset(old(eeprom.bytes[..]), eeprom.health)
      ensures eeprom.bytes[..] == InitOffsetBytes(old(eeprom.bytes[..]), eeprom.health)
    {
      var ok, rec := eeprom.Read(ADDR_OFFSET, 3);
      if ok && rec[0] == SENTINEL && OffsetOpIsValid(rec[1]) {
        offsetOperation, offsetValue := rec[1], rec[2];
        return;
      }
      offsetOperation, offsetValue := OFFSET_OPERATION_NONE, 0;
      var _ := eeprom.Write(ADDR_OFFSET, [SENTINEL, OFFSET_OPERATION_NONE, 0]);
    }

    /** The settings part of Init. */
    method Init()
      requires Valid()
      modifies `flashPeriod, `offsetOperation, `offsetValue, eeprom.bytes
      ensures Value() == AfterInit(old(Value()), eeprom.health)
    {
      FlashPeriodCheck();
      OffsetCheck();
    }

    method PeriodSet(period: uint8)
      requires Valid()
      modifies `flashPeriod, eeprom.bytes
      ensures Value() == AfterPeriodSet(old(Value()), period, eeprom.health.writePeriod)
    {
      var newMs := period * CP_PERIOD_SCALE * MEASUREMENT_TASK_PERIOD_MS;
      if !PeriodIsValid(period) || flashPeriod == newMs {
        return;
      }
      var ok := PeriodPersist(period);
      if ok {
        PeriodApply(period);
      }
    }

    method OffsetSet(op: uint8, val: uint8)
      requires Valid()
      modifies `offsetOperation, `offsetValue, eeprom.bytes
      ensures Value() == AfterOffsetSet(old(Value()), op, val, eeprom.health.writeOffset)
    {
      if !OffsetOpIsValid(op) {
        return;
      }
      if offsetOperation == op && offsetValue == val {
        return;
      }
      var ok := OffsetPersist(op, val);
      if ok {
        OffsetApply(op, val);
      }
    }
  }

  // ----- the operations as functions of the world -----

  /** What Init makes of the period record: an unreadable one counts as a bad one. */
  function SeenPeriod(bytes: seq<uint8>, h: Health): uint8
    requires |bytes| == EEPROM_SIZE
  {
    if h.readPeriod then StoredPeriod(bytes) else DEFAULT_PERIOD
  }

  function SeenOffset(bytes: seq<uint8>, h: Health): (uint8, uint8)
    requires |bytes| == EEPROM_SIZE
  {
    if h.readOffset then StoredOffset(bytes) else (OFFSET_OPERATION_NONE, 0)
  }

  /** A record that is bad or unreadable is overwritten with its default, if it can be written. */
  function InitPeriodBytes(bytes: seq<uint8>, h: Health): (r: seq<uint8>)
    requires |bytes| == EEPROM_SIZE
    ensures |r| == EEPROM_SIZE
  {
    if h.readPeriod && bytes[ADDR_PERIOD] == SENTINEL && PeriodIsValid(bytes[ADDR_PERIOD + 1]) then bytes
    else if h.writePeriod then Overwrite(bytes, ADDR_PERIOD, [SENTINEL, DEFAULT_PERIOD])
    else bytes
  }

  function InitOffsetBytes(bytes: seq<uint8>, h: Health): (r: seq<uint8>)
    requires |bytes| == EEPROM_SIZE
    ensures |r| == EEPROM_SIZE
  {
    if h.readOffset && bytes[ADDR_OFFSET] == SENTINEL && OffsetOpIsValid(bytes[ADDR_OFFSET + 1]) then bytes
    else if h.writeOffset then Overwrite(bytes, ADDR_OFFSET, [SENTINEL, OFFSET_OPERATION_NONE, 0])
    else bytes
  }

  function AfterInit(w: World, h: Health): (w': World)
    requires w.WellFormed()
    ensures w'.WellFormed()
  {
    var bytes := InitPeriodBytes(w.bytes, h);
    World(InitOffsetBytes(bytes, h), 200 * SeenPeriod(w.bytes, h), SeenOffset(bytes, h).0, SeenOffset(bytes, h).1)
  }

  function AfterPeriodSet(w: World, period: uint8, writable: bool): (w': World)
    requires w.WellFormed()
    ensures w'.WellFormed()
  {
    if PeriodIsValid(period) && w.flashPeriod != 200 * period && writable
    then w.(bytes := Overwrite(w.bytes, ADDR_PERIOD, [SENTINEL, period]), flashPeriod := 200 * period)
    else w
  }

  function AfterOffsetSet(w: World, op: uint8, val: uint8, writable: bool): (w': World)
    requires w.WellFormed()
    ensures w'.WellFormed()
  {
    if OffsetOpIsValid(op) && (w.op, w.val) != (op, val) && writable
    then w.(bytes := Overwrite(w.bytes, ADDR_OFFSET, [SENTINEL, op, val]), op := op, val := val)
    else w
  }

  // ----- runtime and EEPROM agree over every run -----

  datatype Operation =
    | Init(health: Health)
    | PeriodSet(period: uint8, writable: bool)
    | OffsetSet(op: uint8, val: uint8, writable: bool)

  function After(w: World, o: Operation): (w': World)
    requires w.WellFormed()
    ensures w'.WellFormed()
  {
    match o
    case Init(health) => AfterInit(w, health)
    case PeriodSet(period, writable) => AfterPeriodSet(w, period, writable)
    case OffsetSet(op, val, writable) => AfterOffsetSet(w, op, val, writable)
  }

  function AfterAll(w: World, operations: seq<Operation>): (w': World)
    requires w.WellFormed()
    ensures w'.WellFormed()
    decreases |operations|
  {
    if operations == [] then w else AfterAll(After(w, operations[0]), operations[1..])
  }

  /** The two bytes of the period record do not lie in the offset record. */
  lemma PeriodBytesOnly(bytes: seq<uint8>, h: Health)
    requires |bytes| == EEPROM_SIZE
    ensures StoredOffset(InitPeriodBytes(bytes, h)) == StoredOffset(bytes)
    ensures StoredPeriod(InitPeriodBytes(bytes, h)) ==
            if h.readPeriod || !h.writePeriod then StoredPeriod(bytes) else DEFAULT_PERIOD
  {
  }

  lemma OffsetBytesOnly(bytes: seq<uint8>, h: Health)
    requires |bytes| == EEPROM_SIZE
    ensures StoredPeriod(InitOffsetBytes(bytes, h)) == StoredPeriod(bytes)
    ensures StoredOffset(InitOffsetBytes(bytes, h)) ==
            if h.readOffset || !h.writeOffset then StoredOffset(bytes) else (OFFSET_OPERATION_NONE, 0)
  {
  }

  // ----- exactly when runtime and EEPROM agree -----

  /** Init can tell what the period record holds, or overwrites it with what it assumes, or
      happens to assume what it holds. */
  predicate PeriodHeard(bytes: seq<uint8>, h: Health)
    requires |bytes| == EEPROM_SIZE
  {
    h.readPeriod || h.writePeriod || StoredPeriod(bytes) == DEFAULT_PERIOD
  }

  predicate OffsetHeard(bytes: seq<uint8>, h: Health)
    requires |bytes| == EEPROM_SIZE
  {
    h.readOffset || h.writeOffset || StoredOffset(bytes) == (OFFSET_OPERATION_NONE, 0)
  }

  /** The operation makes the period agree, whatever was before. */
  predicate RestoresPeriod(w: World, o: Operation)
    requires w.WellFormed()
  {
    match o
    case Init(h) => PeriodHeard(w.bytes, h)
    case PeriodSet(period, writable) => PeriodIsValid(period) && writable && w.flashPeriod != 200 * period
    case OffsetSet(_, _, _) => false
  }

  /** The operation makes the period disagree, whatever was before. */
  predicate BreaksPeriod(w: World, o: Operation)
    requires w.WellFormed()
  {
    o.Init? && !PeriodHeard(w.bytes, o.health)
  }

  predicate RestoresOffset(w: World, o: Operation)
    requires w.WellFormed()
  {
    match o
    case Init(h) => OffsetHeard(w.bytes, h)
    case PeriodSet(_, _) => false
    case OffsetSet(op, val, writable) => OffsetOpIsValid(op) && writable && (w.op, w.val) != (op, val)
  }

  predicate BreaksOffset(w: World, o: Operation)
    requires w.WellFormed()
  {
    o.Init? && !OffsetHeard(w.bytes, o.health)
  }

  /** After one operation the period agrees exactly when the operation restored it, or it agreed
      before and the operation did not break it; likewise the offset. */
  lemma StepAgreesExactlyWhen(w: World, o: Operation)
    requires w.WellFormed()
    ensures After(w, o).PeriodAgrees() <==> RestoresPeriod(w, o) || (w.PeriodAgrees() && !BreaksPeriod(w, o))
    ensures After(w, o).OffsetAgrees() <==> RestoresOffset(w, o) || (w.OffsetAgrees() && !BreaksOffset(w, o))
  {
    match o
    case Init(h) =>
      PeriodBytesOnly(w.bytes, h);
      OffsetBytesOnly(InitPeriodBytes(w.bytes, h), h);
    case _ =>
  }

  /** The world before operation number i of a run. */
  function Before(w: World, operations: seq<Operation>, i: nat): (w': World)
    requires w.WellFormed() && i <= |operations|
    ensures w'.WellFormed()
    decreases i
  {
    if i == 0 then w else After(Before(w, operations, i - 1), operations[i - 1])
  }

  lemma BeforeAll(w: World, operations: seq<Operation>)
    requires w.WellFormed()
    ensures Before(w, operations, |operations|) == AfterAll(w, operations)
  {
    BeforeIsAfterAll(w, operations, |operations|);
  }

  lemma {:induction false} BeforeIsAfterAll(w: World, operations: seq<Operation>, i: nat)
    requires w.WellFormed() && i <= |operations|
    ensures AfterAll(w, operations) == AfterAll(Before(w, operations, i), operations[i..])
    decreases i
  {
    if i > 0 {
      BeforeIsAfterAll(w, operations, i - 1);
      assert operations[i - 1..][1..] == operations[i..];
    } else {
      assert operations[0..] == operations;
    }
  }

  /** Something was restored at step i and not broken since. */
  ghost predicate RestoredAt(restores: seq<bool>, breaks: seq<bool>, i: nat)
    requires |restores| == |breaks| && i < |restores|
  {
    restores[i] && forall k :: i < k < |breaks| ==> !breaks[k]
  }

  /** It was so at first and never broken, or it was restored and not broken since. */
  ghost predicate SoInTheEnd(first: bool, restores: seq<bool>, breaks: seq<bool>)
    requires |restores| == |breaks|
  {
    || (first && forall k :: 0 <= k < |breaks| ==> !breaks[k])
    || exists i :: 0 <= i < |restores| && RestoredAt(restores, breaks, i)
  }

  lemma SoAfterOneMore(first: bool, restores: seq<bool>, breaks: seq<bool>, restored: bool, broken: bool)
    requires |restores| == |breaks|
    ensures SoInTheEnd(first, restores + [restored], breaks + [broken]) <==>
            restored || (SoInTheEnd(first, restores, breaks) && !broken)
  {
    var n, r, b := |restores|, restores + [restored], breaks + [broken];
    assert RestoredAt(r, b, n) <==> restored;
    assert b[n] == broken && forall k :: 0 <= k < n ==> b[k] == breaks[k];
    forall i | 0 <= i < n ensures RestoredAt(r, b, i) <==> RestoredAt(restores, breaks, i) && !broken {
    }
  }

  /** Which operations of a run restore and break the agreement of the period. */
  ghost function PeriodRestores(w: World, operations: seq<Operation>, n: nat): (s: seq<bool>)
    requires w.WellFormed() && n <= |operations|
    ensures |s| == n
  {
    if n == 0 then []
    else PeriodRestores(w, operations, n - 1) + [RestoresPeriod(Before(w, operations, n - 1), operations[n - 1])]
  }

  ghost function PeriodBreaks(w: World, operations: seq<Operation>, n: nat): (s: seq<bool>)
    requires w.WellFormed() && n <= |operations|
    ensures |s| == n
  {
    if n == 0 then []
    else PeriodBreaks(w, operations, n - 1) + [BreaksPeriod(Before(w, operations, n - 1), operations[n - 1])]
  }

  ghost function OffsetRestores(w: World, operations: seq<Operation>, n: nat): (s: seq<bool>)
    requires w.WellFormed() && n <= |operations|
    ensures |s| == n
  {
    if n == 0 then []
    else OffsetRestores(w, operations, n - 1) + [RestoresOffset(Before(w, operations, n - 1), operations[n - 1])]
  }

  ghost function OffsetBreaks(w: World, operations: seq<Operation>, n: nat): (s: seq<bool>)
    requires w.WellFormed() && n <= |operations|
    ensures |s| == n
  {
    if n == 0 then []
    else OffsetBreaks(w, operations, n - 1) + [BreaksOffset(Before(w, operations, n - 1), operations[n - 1])]
  }

  lemma {:induction false} AgreesBefore(w: World, operations: seq<Operation>, n: nat)
    requires w.WellFormed() && n <= |operations|
    ensures Before(w, operations, n).PeriodAgrees() <==>
            SoInTheEnd(w.PeriodAgrees(), PeriodRestores(w, operations, n), PeriodBreaks(w, operations, n))
    ensures Before(w, operations, n).OffsetAgrees() <==>
            SoInTheEnd(w.OffsetAgrees(), OffsetRestores(w, operations, n), OffsetBreaks(w, operations, n))
    decreases n
  {
    if n > 0 {
      var m := n - 1;
      var v, o := Before(w, operations, m), operations[m];
      AgreesBefore(w, operations, m);
      StepAgreesExactlyWhen(v, o);
      SoAfterOneMore(w.PeriodAgrees(), PeriodRestores(w, operations, m), PeriodBreaks(w, operations, m),
                     RestoresPeriod(v, o), BreaksPeriod(v, o));
      SoAfterOneMore(w.OffsetAgrees(), OffsetRestores(w, operations, m), OffsetBreaks(w, operations, m),
                     RestoresOffset(v, o), BreaksOffset(v, o));
    }
  }

  /** Over every run, from any world, with any failures: in the end the period agrees exactly when
      some operation restored it and none broke it since, or it agreed at the start and none broke
      it at all; and likewise the offset. */
  lemma AgreesExactlyWhen(w: World, operations: seq<Operation>)
    requires w.WellFormed()
    ensures var n := |operations|;
      && (AfterAll(w, operations).PeriodAgrees() <==>
            SoInTheEnd(w.PeriodAgrees(), PeriodRestores(w, operations, n), PeriodBreaks(w, operations, n)))
      && (AfterAll(w, operations).OffsetAgrees() <==>
            SoInTheEnd(w.OffsetAgrees(), OffsetRestores(w, operations, n), OffsetBreaks(w, operations, n)))
  {
    AgreesBefore(w, operations, |operations|);
    BeforeAll(w, operations);
  }

  // ----- what every run does, agreement or not -----

  /** The service as a caller sees it: the settings stored for the next start, and those live. */
  datatype View = View(stored: Settings, live: Settings)

  /** One operation on the pair. A setter whose settings are already live does nothing, even if
      other settings are stored; an Init with failing accesses can part the two. */
  function Act(v: View, o: Operation): View {
    match o
    case Init(h) =>
      var seen := Settings(
        if h.readPeriod then v.stored.period else 5,
        if h.readOffset then v.stored.op else 0,
        if h.readOffset then v.stored.val else 0);
      var kept := Settings(
        if h.writePeriod then seen.period else v.stored.period,
        if h.writeOffset then seen.op else v.stored.op,
        if h.writeOffset then seen.val else v.stored.val);
      View(kept, seen)
    case PeriodSet(period, writable) =>
      if 5 <= period <= 40 && period != v.live.period && writable
      then View(v.stored.(period := period), v.live.(period := period)) else v
    case OffsetSet(op, val, writable) =>
      if op in {0, 1, 2} && (op, val) != (v.live.op, v.live.val) && writable
      then View(v.stored.(op := op, val := val), v.live.(op := op, val := val)) else v
  }

  function Acts(v: View, operations: seq<Operation>): View
    decreases |operations|
  {
    if operations == [] then v else Acts(Act(v, operations[0]), operations[1..])
  }

  /** The world is one that the pair describes; its period is 200 * p with 5 <= p <= 40, and its
      records start with 0xF0 unless they stand for the defaults. */
  predicate Shows(w: World, v: View)
    requires w.WellFormed()
  {
    && v.stored == StoredSettings(w.bytes) == ReadOut(w.bytes)
    && 5 <= v.live.period <= 40
    && (w.flashPeriod, w.op, w.val) == (200 * v.live.period, v.live.op, v.live.val)
  }

  /** The two records, byte by byte: 0xF0 and a period from 5 to 40 at address 4, 0xF0, an operation up
      to 2 and its value at address 6; anything else stands for period 5 and no operation. */
  function ReadOut(bytes: seq<uint8>): Settings
    requires |bytes| == 16
  {
    var period := if bytes[4] == 0xF0 && 5 <= bytes[5] <= 40 then bytes[5] else 5;
    if bytes[6] == 0xF0 && bytes[7] <= 2 then Settings(period, bytes[7], bytes[8]) else Settings(period, 0, 0)
  }

  lemma StoredIsReadOut(bytes: seq<uint8>)
    requires |bytes| == EEPROM_SIZE
    ensures StoredSettings(bytes) == ReadOut(bytes)
  {
  }

  /** Init gives a world that the pair describes, whatever the runtime fields were. */
  lemma InitShows(w: World, h: Health, live: Settings)
    requires w.WellFormed()
    ensures Shows(AfterInit(w, h), Act(View(StoredSettings(w.bytes), live), Init(h)))
  {
    PeriodBytesOnly(w.bytes, h);
    OffsetBytesOnly(InitPeriodBytes(w.bytes, h), h);
  }

  lemma StepRefinesAct(w: World, v: View, o: Operation)
    requires w.WellFormed() && Shows(w, v)
    ensures Shows(After(w, o), Act(v, o))
  {
    match o
    case Init(h) => InitShows(w, h, v.live);
    case _ =>
  }

  lemma {:induction false} RunFromView(w: World, v: View, operations: seq<Operation>)
    requires w.WellFormed() && Shows(w, v)
    ensures Shows(AfterAll(w, operations), Acts(v, operations))
    decreases |operations|
  {
    if operations != [] {
      StepRefinesAct(w, v, operations[0]);
      RunFromView(After(w, operations[0]), Act(v, operations[0]), operations[1..]);
    }
  }

  /** Over every run that begins with Init, from any runtime fields and any EEPROM bytes, with any
      arguments and any failing reads and writes: the run is the run of the pair, and a further
      Init that can read both records makes exactly the stored settings live. */
  lemma RunRefinesActs(w: World, operations: seq<Operation>, live: Settings, again: Health)
    requires w.WellFormed() && operations != [] && operations[0].Init? && again.readPeriod && again.readOffset
    ensures var end, v := AfterAll(w, operations), Acts(View(StoredSettings(w.bytes), live), operations);
      && Shows(end, v)
      && (end.Agrees() <==> v.stored == v.live)
      && Shows(AfterInit(end, again), View(v.stored, v.stored))
  {
    var start := View(StoredSettings(w.bytes), live);
    InitShows(w, operations[0].health, live);
    RunFromView(After(w, operations[0]), Act(start, operations[0]), operations[1..]);
    var end, v := AfterAll(w, operations), Acts(start, operations);
    InitShows(end, again, v.live);
  }

  // ----- one pair of settings, as long as Init reaches the records -----

  /** Each record can be read, or, where it cannot, can at least be overwritten. */
  predicate Reachable(h: Health) {
    (h.readPeriod || h.writePeriod) && (h.readOffset || h.writeOffset)
  }

  ghost predicate AllReachable(operations: seq<Operation>) {
    forall o :: o in operations && o.Init? ==> Reachable(o.health)
  }

  /** What a caller who knows of one pair of settings only expects: a valid command whose write
      succeeds sets it, an Init that can write a record but not read it resets it. */
  function Command(s: Settings, o: Operation): Settings {
    match o
    case PeriodSet(period, true) => if PeriodIsValid(period) then s.(period := period) else s
    case OffsetSet(op, val, true) => if OffsetOpIsValid(op) then s.(op := op, val := val) else s
    case Init(h) =>
      var s1 := if h.readPeriod then s else s.(period := DEFAULT_PERIOD);
      if h.readOffset then s1 else s1.(op := OFFSET_OPERATION_NONE, val := 0)
    case _ => s
  }

  function Commands(s: Settings, operations: seq<Operation>): Settings
    decreases |operations|
  {
    if operations == [] then s else Commands(Command(s, operations[0]), operations[1..])
  }

  lemma {:induction false} ActsOnOnePair(s: Settings, operations: seq<Operation>)
    requires AllReachable(operations)
    ensures var c := Commands(s, operations); Acts(View(s, s), operations) == View(c, c)
    decreases |operations|
  {
    if operations != [] {
      var c := Command(s, operations[0]);
      assert Act(View(s, s), operations[0]) == View(c, c);
      ActsOnOnePair(c, operations[1..]);
    }
  }

  /** Over every run that begins with Init, from any runtime fields and any EEPROM bytes, in which
      every Init reaches both records one way or the other, there is only one pair of settings: in
      the end both the EEPROM and the runtime fields hold what was last commanded. */
  lemma RunRefinesCommands(w: World, operations: seq<Operation>)
    requires w.WellFormed() && operations != [] && operations[0].Init? && AllReachable(operations)
    ensures var c := Commands(StoredSettings(w.bytes), operations);
      Shows(AfterAll(w, operations), View(c, c)) && AfterAll(w, operations).Agrees()
  {
    var s := StoredSettings(w.bytes);
    RunRefinesActs(w, operations, s, Health(true, true, true, true));
    ActsOnOnePair(s, operations);
  }

  // ----- what a setter that takes effect leaves -----

  /** A PeriodSet takes effect exactly for a writable period from 5 to 40 that is not live, and then the
      record is 0xF0 and the period; an OffsetSet exactly for a writable operation 0, 1 or 2 that is not
      live with this value, and then the record is 0xF0, the operation and the value. */
  lemma SetterTakesEffectExactlyWhen(w: World, period: uint8, op: uint8, val: uint8, writable: bool)
    requires w.WellFormed()
    ensures var w1 := AfterPeriodSet(w, period, writable);
      if 5 <= period <= 40 && w.flashPeriod != 200 * period && writable
      then w1.flashPeriod == 200 * period && w1.bytes[4] == 0xF0 && w1.bytes[5] == period
      else w1 == w
    ensures var w1 := AfterOffsetSet(w, op, val, writable);
      if op <= 2 && (w.op != op || w.val != val) && writable
      then (w1.op, w1.val) == (op, val) && w1.bytes[6] == 0xF0 && w1.bytes[7] == op && w1.bytes[8] == val
      else w1 == w
  {
  }

  /** After an Init a record that could be written holds the live settings behind 0xF0, whatever it held
      before; one that could not is as it was, and so is one that was readable and in order. */
  lemma InitLeavesRecords(w: World, h: Health)
    requires w.WellFormed()
    ensures var w1 := AfterInit(w, h);
      && (h.writePeriod ==>
            w1.bytes[4] == 0xF0 && w1.flashPeriod == 200 * (w1.bytes[5] as int) && 5 <= w1.bytes[5] <= 40)
      && (h.writeOffset ==> w1.bytes[6] == 0xF0 && (w1.op, w1.val) == (w1.bytes[7], w1.bytes[8]) && w1.op <= 2)
      && (!h.writePeriod || (h.readPeriod && w.bytes[4] == 0xF0 && 5 <= w.bytes[5] <= 40) ==>
            w1.bytes[4..6] == w.bytes[4..6])
      && (!h.writeOffset || (h.readOffset && w.bytes[6] == 0xF0 && w.bytes[7] <= 2) ==>
            w1.bytes[6..9] == w.bytes[6..9])
  {
    var bytes := InitPeriodBytes(w.bytes, h);
    assert bytes[6] == w.bytes[6] && bytes[7] == w.bytes[7] && bytes[8] == w.bytes[8];
    assert AfterInit(w, h).bytes[4] == bytes[4] && AfterInit(w, h).bytes[5] == bytes[5];
  }

  // ----- a command that is dropped -----

  /** Where the two parted, the command that would mend the stored period is dropped: whatever
      valid period q other than the default is stored, an Init that can neither read nor write it
      runs with the default, a valid command for the default changes nothing although it could be
      written, and the next readable Init brings q back. */
  lemma CommandDropped(w: World, broken: Health, again: Health)
    requires w.WellFormed() && StoredPeriod(w.bytes) != DEFAULT_PERIOD
    requires !broken.readPeriod && !broken.writePeriod && again.readPeriod
    ensures var w1 := AfterInit(w, broken);
      && w1.flashPeriod == 200 * DEFAULT_PERIOD && !w1.PeriodAgrees()
      && AfterPeriodSet(w1, DEFAULT_PERIOD, true) == w1
      && AfterInit(w1, again).flashPeriod == 200 * StoredPeriod(w.bytes)
  {
    PeriodBytesOnly(w.bytes, broken);
    OffsetBytesOnly(InitPeriodBytes(w.bytes, broken), broken);
  }

  /** Such a world: a stored period of 40, that is 8 s, live as 1 s and back after a restart. */
  lemma CommandDroppedReachable()
    ensures var stored := Overwrite(seq(EEPROM_SIZE, _ => 0), ADDR_PERIOD, [SENTINEL, 40]);
      var w0 := World(stored, 0, 0, 0);
      var end := AfterAll(w0, [Init(Health(false, true, false, true)), PeriodSet(5, true)]);
      && end.flashPeriod == 1000 && StoredPeriod(end.bytes) == 40
      && AfterInit(end, Health(true, true, true, true)).flashPeriod == 8000
  {
    var stored := Overwrite(seq(EEPROM_SIZE, _ => 0), ADDR_PERIOD, [SENTINEL, 40]);
    assert stored[ADDR_PERIOD] == SENTINEL && stored[ADDR_PERIOD + 1] == 40;
    var w0 := World(stored, 0, 0, 0);
    var broken, again := Health(false, true, false, true), Health(true, true, true, true);
    CommandDropped(w0, broken, again);
    var operations := [Init(broken), PeriodSet(5, true)];
    assert operations[1..] == [PeriodSet(5, true)] && operations[1..][1..] == [];
    var w1 := AfterInit(w0, broken);
    assert After(w0, operations[0]) == w1 && After(w1, operations[1]) == AfterPeriodSet(w1, 5, true) == w1;
    assert AfterAll(w1, [PeriodSet(5, true)]) == AfterAll(w1, []) == w1;
  }

  /** A setter touches only the bytes of its own record. */
  lemma OwnBytesOnly(w: World, o: Operation, i: nat)
    requires w.WellFormed() && i < EEPROM_SIZE && After(w, o).bytes[i] != w.bytes[i]
    ensures match o
            case Init(_) => ADDR_PERIOD <= i < ADDR_OFFSET + 3
            case PeriodSet(_, _) => ADDR_PERIOD <= i < ADDR_OFFSET
            case OffsetSet(_, _, _) => ADDR_OFFSET <= i < ADDR_OFFSET + 3
  {
  }
}
