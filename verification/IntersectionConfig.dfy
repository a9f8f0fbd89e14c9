/** The persisted intersection configuration of CPM/Libs/Intersection/IntersectionConfig.h: the
    fields that validation, the defaults and the input mapping read or write. */
module IntersectionConfig {

  type uint8 = x: int | 0 <= x < 0x100
  type uint16 = x: int | 0 <= x < 0x1_0000
  type uint32 = x: int | 0 <= x < 0x1_0000_0000

  const PHASE_COUNT_MAX := 8
  const RING_COUNT_MAX := 2
  const BARRIER_COUNT_MAX := 2
  const RING_PHASE_COUNT_MAX := 4
  const CHANNEL_COUNT_MAX := 32
  const OVERLAP_COUNT_MAX := 32
  const PATTERN_COUNT_MAX := 8
  const SPLIT_COUNT_MAX := 4
  const TIMEBASE_ACTION_COUNT_MAX := 48
  const PREEMPT_COUNT_MAX := 8
  const PED_INPUT_COUNT_MAX := 8
  const VEHICLE_DETECTOR_COUNT_MAX := 16
  const BACKUP_CONTENT_COUNT_MAX := 8

  const LINE_SYNC := 2
  const RTC_SQWR := 3
  const GNSS := 5

  const OVERLAP_OTHER := 1
  const OVERLAP_NORMAL := 2

  function Min(a: nat, b: nat): nat {
    if a < b then a else b
  }

  // ----- option bits -----

  const PHASE_OPTIONS_ENABLED: bv16 := 0x0001
  const LOCK_MASK: bv8 := 0x0C
  const RED_LOCK: bv8 := 0x08
  const YELLOW_LOCK: bv8 := 0x04

  /** No bit outside the allowed mask is set. */
  predicate OnlyWithin(bits: bv8, allowed: bv8) {
    bits & !allowed == 0
  }

  predicate LocksBoth(options: bv8) {
    options & RED_LOCK != 0 && options & YELLOW_LOCK != 0
  }

  /** A detector asking for both locks is normalised to the yellow lock alone. */
  function NormalizeVehicleDetectorOptions(options: bv8): (r: bv8)
    ensures !LocksBoth(r)
    ensures r != options <==> LocksBoth(options)
    ensures r | 0x08 == options | 0x08
  {
    if options & LOCK_MASK == LOCK_MASK then options & !RED_LOCK else options
  }

  // ----- the records -----

  /** A counted list of object numbers in a fixed array. */
  datatype ReferenceList = ReferenceList(length: uint8, values: seq<uint8>)

  datatype PhaseConfig = PhaseConfig(
    phaseOptions: bv16, ring: uint8, startup: uint8, walkSeconds: uint16, pedClearSeconds: uint16,
    minGreenDs: uint16, phaseMaximum2Ds: uint16, maxGreenDs: uint16, phaseMaximum3Ds: uint16,
    passageDs: uint16, maxInitialDs: uint16, yellowChangeDs: uint16, redClearDs: uint16,
    minimumGapDs: uint8, concurrency: ReferenceList, pedWalkService: uint8,
    pedAlternateClearSeconds: uint16, pedAlternateWalkSeconds: uint16, pedAdvanceWalkDs: uint16,
    pedDelayDs: uint16, advWarnGrnStartTimeDs: uint8, altMinTimeTransitionSeconds: uint8)
  {
    predicate Enabled() {
      phaseOptions & PHASE_OPTIONS_ENABLED != 0
    }

    predicate AlternateTimesOk() {
      && pedWalkService != 0 && pedAlternateClearSeconds <= 255 && pedAlternateWalkSeconds <= 255
      && advWarnGrnStartTimeDs <= 128
      && (altMinTimeTransitionSeconds == 0 || minGreenDs <= 10 * altMinTimeTransitionSeconds)
    }
  }

  /** phaseOrder holds phase indices, counted from 0. */
  datatype RingPlan = RingPlan(phaseCount: uint8, barrierPhaseCount: uint8, phaseOrder: seq<uint8>)

  datatype Pattern = Pattern(
    cycleTimeSeconds: uint8, offsetTimeSeconds: uint8, splitNumber: uint8, sequenceNumber: uint8,
    coordSyncPoint: uint8, options: uint8)

  datatype SplitPhase = SplitPhase(timeSeconds: uint8, mode: uint8, coordPhase: uint8, options: bv8)

  datatype Coordination = Coordination(
    correctionMode: uint8, maximumMode: uint8, forceMode: uint8, unitCoordSyncPoint: uint8,
    patterns: seq<Pattern>, splits: seq<seq<SplitPhase>>)

  datatype TimebaseAction = TimebaseAction(pattern: uint8, auxiliaryFunction: bv8)

  datatype Unit = Unit(
    autoPedestrianClear: uint8, userDefinedBackupTimeSeconds: uint32, startUpFlashMode: uint8,
    failureFlashPeriodDs: uint8, timeSourceCommanded: uint8, elevationOffsetMeters: uint8)

  datatype BackupContent = BackupContent(oidLength: uint8, descriptionLength: uint8)

  datatype VehicleDetector = VehicleDetector(
    options: bv8, callPhase: uint8, switchPhase: uint8, delayDs: uint16, options2: bv8,
    pairedDetector: uint8, avgVehicleLengthCm: uint16, detectorLengthCm: uint16, travelMode: uint8)
  {
    predicate LengthsOk() {
      && 1 <= avgVehicleLengthCm <= 4000
      && (1 <= detectorLengthCm <= 4000 || detectorLengthCm == 65535)
    }
  }

  datatype PedDetector = PedDetector(callPhase: uint8, options: bv8)

  datatype DetectorReports = DetectorReports(
    volumeOccupancyPeriodV3Seconds: uint16, pedestrianDetectorPeriodSeconds: uint16)
  {
    predicate VehiclePeriodOk() {
      volumeOccupancyPeriodV3Seconds <= 3600 || volumeOccupancyPeriodV3Seconds == 65535
    }

    predicate PedPeriodOk() {
      pedestrianDetectorPeriodSeconds <= 3600 || pedestrianDetectorPeriodSeconds in {65534, 65535}
    }
  }

  datatype Preempt = Preempt(
    control: bv8, link: uint8, trackPhases: ReferenceList, dwellPhases: ReferenceList,
    dwellPeds: ReferenceList, exitPhases: ReferenceList, trackOverlaps: ReferenceList,
    dwellOverlaps: ReferenceList, cyclingPhases: ReferenceList, cyclingPeds: ReferenceList,
    cyclingOverlaps: ReferenceList, sequenceNumber: uint8, exitType: uint8)
  {
    ghost predicate Shaped() {
      && |trackPhases.values| == |dwellPhases.values| == |dwellPeds.values| == PHASE_COUNT_MAX
      && |exitPhases.values| == |cyclingPhases.values| == |cyclingPeds.values| == PHASE_COUNT_MAX
      && |trackOverlaps.values| == |dwellOverlaps.values| == |cyclingOverlaps.values| == OVERLAP_COUNT_MAX
    }
  }

  /** Entry p is the input that calls phase p + 1, or 0. */
  datatype InputMapping = InputMapping(
    phaseDetectors: seq<uint8>, phasePedInputs: seq<uint8>,
    preemptInputs: seq<uint8>, preemptControls: seq<uint8>)
  {
    ghost predicate Shaped() {
      && |phaseDetectors| == |phasePedInputs| == PHASE_COUNT_MAX
      && |preemptInputs| == |preemptControls| == PREEMPT_COUNT_MAX
    }
  }

  datatype Channel = Channel(
    controlSource: uint8, controlType: uint8, flashMask: bv8, dimMask: bv8, greenType: uint8,
    greenIncluded: ReferenceList)
  {
    ghost predicate Shaped() {
      |greenIncluded.values| == CHANNEL_COUNT_MAX
    }
  }

  datatype Overlap = Overlap(
    overlapType: uint8, includedPhases: ReferenceList, modifierPhases: ReferenceList,
    trailGreenDs: uint16, trailYellowDs: uint16, trailRedDs: uint16, walkSeconds: uint16,
    pedClearSeconds: uint16, conflictingPedPhases: ReferenceList)
  {
    ghost predicate Shaped() {
      |includedPhases.values| == |modifierPhases.values| == |conflictingPedPhases.values| == PHASE_COUNT_MAX
    }
  }

  datatype Config = Config(
    phaseCount: uint8, ringCount: uint8, barrierCount: uint8,
    phases: seq<PhaseConfig>, rings: seq<RingPlan>, coordination: Coordination,
    timebaseActions: seq<TimebaseAction>, unit: Unit, preempts: seq<Preempt>,
    vehicleDetectors: seq<VehicleDetector>, pedestrianDetectors: seq<PedDetector>,
    detectorReports: DetectorReports, preemptQueueDelayWeights: seq<seq<uint16>>,
    userDefinedBackupContents: seq<BackupContent>, inputMapping: InputMapping,
    channels: seq<Channel>, overlaps: seq<Overlap>)
  {
    /** The array sizes of the C structure. */
    ghost predicate Shaped() {
      && |phases| == PHASE_COUNT_MAX
      && (forall i :: 0 <= i < |phases| ==> |phases[i].concurrency.values| == PHASE_COUNT_MAX)
      && |rings| == RING_COUNT_MAX && (forall r :: 0 <= r < |rings| ==> |rings[r].phaseOrder| == RING_PHASE_COUNT_MAX)
      && |coordination.patterns| == PATTERN_COUNT_MAX
      && |coordination.splits| == SPLIT_COUNT_MAX
      && (forall s :: 0 <= s < |coordination.splits| ==> |coordination.splits[s]| == PHASE_COUNT_MAX)
      && |timebaseActions| == TIMEBASE_ACTION_COUNT_MAX
      && |preempts| == PREEMPT_COUNT_MAX && (forall i :: 0 <= i < |preempts| ==> preempts[i].Shaped())
      && |vehicleDetectors| == VEHICLE_DETECTOR_COUNT_MAX
      && |pedestrianDetectors| == PED_INPUT_COUNT_MAX
      && |preemptQueueDelayWeights| == PREEMPT_COUNT_MAX
      && (forall i :: 0 <= i < |preemptQueueDelayWeights| ==>
            |preemptQueueDelayWeights[i]| == VEHICLE_DETECTOR_COUNT_MAX)
      && |userDefinedBackupContents| == BACKUP_CONTENT_COUNT_MAX
      && inputMapping.Shaped()
      && |channels| == CHANNEL_COUNT_MAX && (forall i :: 0 <= i < |channels| ==> channels[i].Shaped())
      && |overlaps| == OVERLAP_COUNT_MAX && (forall i :: 0 <= i < |overlaps| ==> overlaps[i].Shaped())
    }
  }

  // ----- reference lists -----

  ghost predicate Distinct<T>(s: seq<T>) {
    forall i, j :: 0 <= i < j < |s| ==> s[i] != s[j]
  }

  /** The list fits its array and names existing objects 1..count, each at most once. */
  ghost predicate ListOk(list: ReferenceList, count: nat) {
    && list.length <= |list.values|
    && (forall k :: 0 <= k < list.length ==> 1 <= list.values[k] <= count)
    && Distinct(list.values[..list.length])
  }

  /** Every entry of the phase's concurrency list is an enabled phase of another ring. */
  ghost predicate ConcurrencyOk(c: Config, i: nat)
    requires c.Shaped() && i < PHASE_COUNT_MAX
  {
    var list := c.phases[i].concurrency;
    && ListOk(list, Min(c.phaseCount, PHASE_COUNT_MAX))
    && forall k :: 0 <= k < list.length ==>
         var other := c.phases[list.values[k] - 1];
         other.Enabled() && other.ring != c.phases[i].ring
  }

  ghost predicate PhaseList(list: ReferenceList, phaseCount: uint8) {
    ListOk(list, Min(phaseCount, PHASE_COUNT_MAX))
  }

  ghost predicate OverlapList(list: ReferenceList) {
    ListOk(list, OVERLAP_COUNT_MAX)
  }

  ghost predicate ChannelList(list: ReferenceList) {
    ListOk(list, CHANNEL_COUNT_MAX)
  }

  // ----- the parts in use -----

  /** The phases in use. A count beyond the array is an error reported before it matters. */
  function Phases(c: Config): (n: nat)
    ensures n <= PHASE_COUNT_MAX
  {
    Min(c.phaseCount, PHASE_COUNT_MAX)
  }

  function Rings(c: Config): (n: nat)
    ensures n <= RING_COUNT_MAX
  {
    Min(c.ringCount, RING_COUNT_MAX)
  }

  /** The slots in use of a ring. */
  function Slots(c: Config, r: nat): (n: nat)
    requires r < |c.rings|
    ensures n <= RING_PHASE_COUNT_MAX
  {
    Min(c.rings[r].phaseCount, RING_PHASE_COUNT_MAX)
  }

  /** The phase index planned in a slot. */
  ghost function Planned(c: Config, r: nat, s: nat): uint8
    requires c.Shaped() && r < RING_COUNT_MAX && s < RING_PHASE_COUNT_MAX
  {
    c.rings[r].phaseOrder[s]
  }

  // ----- the input mapping -----

  /** The least-numbered input that calls the phase, counted from 1; 0 if none does. */
  function FirstCaller(calls: seq<uint8>, phase: nat): (d: nat)
    ensures d <= |calls|
    ensures d == 0 <==> phase !in calls
    ensures d > 0 ==> calls[d - 1] == phase
    ensures forall e :: 0 <= e < d - 1 ==> calls[e] != phase
  {
    if calls == [] then 0
    else
      var d := FirstCaller(calls[..|calls| - 1], phase);
      if d != 0 then d else if calls[|calls| - 1] == phase then |calls| else 0
  }

  function FirstCallers(calls: seq<uint8>): (m: seq<uint8>)
    requires |calls| < 0x100
    ensures |m| == PHASE_COUNT_MAX
  {
    seq(PHASE_COUNT_MAX, p requires 0 <= p < PHASE_COUNT_MAX => FirstCaller(calls, p + 1))
  }

  lemma FirstCallersMean(calls: seq<uint8>)
    requires |calls| < 0x100
    ensures var m := FirstCallers(calls);
      forall p :: 0 <= p < 8 ==>
        && (m[p] == 0 <==> p + 1 !in calls)
        && (m[p] > 0 ==> m[p] <= |calls| && calls[m[p] - 1] == p + 1 && p + 1 !in calls[..m[p] - 1])
  {
    var m := FirstCallers(calls);
    forall p | 0 <= p < 8
      ensures m[p] == 0 <==> p + 1 !in calls
      ensures m[p] > 0 ==> m[p] <= |calls| && calls[m[p] - 1] == p + 1 && p + 1 !in calls[..m[p] - 1]
    {
      assert m[p] == FirstCaller(calls, p + 1);
    }
  }

  /** One more call gives its phase an entry, if that has none yet. */
  lemma OneMoreCaller(calls: seq<uint8>, d: nat)
    requires d < |calls| < 0x100
    ensures var m, phase := FirstCallers(calls[..d]), calls[d];
      FirstCallers(calls[..d + 1]) ==
      if phase != 0 && phase <= PHASE_COUNT_MAX && m[phase - 1] == 0 then m[phase - 1 := d + 1] else m
  {
    assert calls[..d + 1][..d] == calls[..d];
  }

  function VehicleCalls(c: Config): (calls: seq<uint8>)
    ensures |calls| == |c.vehicleDetectors|
  {
    seq(|c.vehicleDetectors|, d requires 0 <= d < |c.vehicleDetectors| => c.vehicleDetectors[d].callPhase)
  }

  function PedCalls(c: Config): (calls: seq<uint8>)
    ensures |calls| == |c.pedestrianDetectors|
  {
    seq(|c.pedestrianDetectors|, d requires 0 <= d < |c.pedestrianDetectors| => c.pedestrianDetectors[d].callPhase)
  }

  /** The configuration with its phase inputs derived from the detectors' call phases. */
  function Rebuilt(c: Config): (r: Config)
    requires c.Shaped()
    ensures r.Shaped()
  {
    c.(inputMapping := c.inputMapping.(
         phaseDetectors := FirstCallers(VehicleCalls(c)), phasePedInputs := FirstCallers(PedCalls(c))))
  }

  /** The entry of phase index p is the first vehicle detector that calls the phase, 0 if none does. */
  ghost predicate HasFirstDetector(c: Config, p: nat)
    requires c.Shaped() && p < 8
  {
    var d := c.inputMapping.phaseDetectors[p];
    && d <= 16
    && (d == 0 ==> forall e :: 0 <= e < 16 ==> c.vehicleDetectors[e].callPhase != p + 1)
    && (d > 0 ==>
          && c.vehicleDetectors[d - 1].callPhase == p + 1
          && forall e :: 0 <= e < d - 1 ==> c.vehicleDetectors[e].callPhase != p + 1)
  }

  /** The entry of phase index p is the first pedestrian input that calls the phase, 0 if none does. */
  ghost predicate HasFirstPedInput(c: Config, p: nat)
    requires c.Shaped() && p < 8
  {
    var d := c.inputMapping.phasePedInputs[p];
    && d <= 8
    && (d == 0 ==> forall e :: 0 <= e < 8 ==> c.pedestrianDetectors[e].callPhase != p + 1)
    && (d > 0 ==>
          && c.pedestrianDetectors[d - 1].callPhase == p + 1
          && forall e :: 0 <= e < d - 1 ==> c.pedestrianDetectors[e].callPhase != p + 1)
  }

  lemma RebuiltDetector(c: Config, p: nat)
    requires c.Shaped() && p < 8
    ensures HasFirstDetector(Rebuilt(c), p)
  {
    var calls := VehicleCalls(c);
    assert forall e :: 0 <= e < 16 ==> calls[e] == c.vehicleDetectors[e].callPhase;
    assert Rebuilt(c).inputMapping.phaseDetectors[p] == FirstCaller(calls, p + 1);
  }

  lemma RebuiltPedInput(c: Config, p: nat)
    requires c.Shaped() && p < 8
    ensures HasFirstPedInput(Rebuilt(c), p)
  {
    var calls := PedCalls(c);
    assert forall e :: 0 <= e < 8 ==> calls[e] == c.pedestrianDetectors[e].callPhase;
    assert Rebuilt(c).inputMapping.phasePedInputs[p] == FirstCaller(calls, p + 1);
  }

  /** After a rebuild each phase has its first caller, and nothing but the phase inputs has changed. */
  lemma RebuiltMaps(c: Config)
    requires c.Shaped()
    ensures var r := Rebuilt(c);
      && (forall p :: 0 <= p < 8 ==> HasFirstDetector(r, p) && HasFirstPedInput(r, p))
      && r == c.(inputMapping := c.inputMapping.(phaseDetectors := r.inputMapping.phaseDetectors,
                                                 phasePedInputs := r.inputMapping.phasePedInputs))
  {
    forall p | 0 <= p < 8 ensures HasFirstDetector(Rebuilt(c), p) && HasFirstPedInput(Rebuilt(c), p) {
      RebuiltDetector(c, p);
      RebuiltPedInput(c, p);
    }
  }

  /** Each entry is 0 or an existing input, and no input serves two phases. */
  ghost predicate InputsOk(m: seq<uint8>, count: nat) {
    && (forall p :: 0 <= p < |m| ==> m[p] <= count)
    && (forall p, q :: 0 <= p < q < |m| ==> m[p] == 0 || m[p] != m[q])
  }

  lemma FirstCallersOk(calls: seq<uint8>)
    requires |calls| < 0x100
    ensures InputsOk(FirstCallers(calls), |calls|)
  {
    var m := FirstCallers(calls);
    forall p, q | 0 <= p < q < |m| ensures m[p] == 0 || m[p] != m[q] {
      assert m[p] == FirstCaller(calls, p + 1) && m[q] == FirstCaller(calls, q + 1);
    }
  }

  /** Rebuilding makes the phase inputs consistent whatever they and the detectors were. */
  lemma RebuildRepairsInputs(c: Config)
    requires c.Shaped()
    ensures InputsOk(Rebuilt(c).inputMapping.phaseDetectors, VEHICLE_DETECTOR_COUNT_MAX)
    ensures InputsOk(Rebuilt(c).inputMapping.phasePedInputs, PED_INPUT_COUNT_MAX)
  {
    FirstCallersOk(VehicleCalls(c));
    FirstCallersOk(PedCalls(c));
  }

  // ----- the defaults -----

  function Repeat<T>(n: nat, v: T): (s: seq<T>)
    ensures |s| == n && forall i :: 0 <= i < n ==> s[i] == v
  {
    seq(n, _ => v)
  }

  function EmptyList(capacity: nat): (list: ReferenceList)
    ensures list.length == 0 && |list.values| == capacity
  {
    ReferenceList(0, Repeat(capacity, 0))
  }

  function DefaultPhase(i: nat): (p: PhaseConfig)
    ensures |p.concurrency.values| == PHASE_COUNT_MAX
  {
    PhaseConfig(PHASE_OPTIONS_ENABLED, if i < 4 then 0 else 1, 4, 7, 12, 50, 300, 300, 300, 30, 70, 40, 20,
                30, EmptyList(PHASE_COUNT_MAX), 1, 0, 0, 0, 0, 0, 0)
  }

  function DefaultRing(r: nat): (p: RingPlan)
    requires r < RING_COUNT_MAX
    ensures |p.phaseOrder| == RING_PHASE_COUNT_MAX
  {
    RingPlan(RING_PHASE_COUNT_MAX, 2, seq(RING_PHASE_COUNT_MAX, i requires 0 <= i < 4 => r * RING_PHASE_COUNT_MAX + i))
  }

  function DefaultCoordination(): (k: Coordination)
    ensures |k.patterns| == PATTERN_COUNT_MAX && |k.splits| == SPLIT_COUNT_MAX
    ensures forall s :: 0 <= s < |k.splits| ==> |k.splits[s]| == PHASE_COUNT_MAX
  {
    Coordination(2, 2, 2, 2,
                 Repeat(PATTERN_COUNT_MAX, Pattern(120, 0, 1, 1, 3, 2)),
                 Repeat(SPLIT_COUNT_MAX, Repeat(PHASE_COUNT_MAX, SplitPhase(0, 2, 0, 0))))
  }

  function DefaultPreempt(): (p: Preempt)
    ensures p.Shaped()
  {
    var phases, overlaps := EmptyList(PHASE_COUNT_MAX), EmptyList(OVERLAP_COUNT_MAX);
    Preempt(0, 0, phases, phases, phases, phases, overlaps, overlaps, phases, phases, overlaps, 1, 1)
  }

  function DefaultDetector(d: nat): VehicleDetector {
    VehicleDetector(0x94, if d < PHASE_COUNT_MAX then d + 1 else 0, 0, 0, 0, 0, 500, 180, 1)
  }

  function Numbered(n: nat): (s: seq<uint8>)
    requires n < 0x100
    ensures |s| == n
  {
    seq(n, i requires 0 <= i < n => i + 1)
  }

  /** The defaults before the phase inputs are rebuilt: all of them unmapped. */
  function BlankDefaults(): (c: Config)
    ensures c.Shaped()
  {
    var none := EmptyList(PHASE_COUNT_MAX);
    Config(PHASE_COUNT_MAX, RING_COUNT_MAX, BARRIER_COUNT_MAX,
           seq(PHASE_COUNT_MAX, i requires 0 <= i < PHASE_COUNT_MAX => DefaultPhase(i)),
           [DefaultRing(0), DefaultRing(1)],
           DefaultCoordination(),
           Repeat(TIMEBASE_ACTION_COUNT_MAX, TimebaseAction(0, 0)),
           Unit(1, 0, 1, 5, GNSS, 31),
           Repeat(PREEMPT_COUNT_MAX, DefaultPreempt()),
           seq(VEHICLE_DETECTOR_COUNT_MAX, d requires 0 <= d < VEHICLE_DETECTOR_COUNT_MAX => DefaultDetector(d)),
           seq(PED_INPUT_COUNT_MAX, i requires 0 <= i < PED_INPUT_COUNT_MAX => PedDetector(i + 1, 0)),
           DetectorReports(0, 0),
           Repeat(PREEMPT_COUNT_MAX, Repeat(VEHICLE_DETECTOR_COUNT_MAX, 0)),
           Repeat(BACKUP_CONTENT_COUNT_MAX, BackupContent(0, 0)),
           InputMapping(Repeat(PHASE_COUNT_MAX, 0), Repeat(PHASE_COUNT_MAX, 0),
                        Numbered(PREEMPT_COUNT_MAX), Numbered(PREEMPT_COUNT_MAX)),
           Repeat(CHANNEL_COUNT_MAX, Channel(0, 1, 0, 0, 1, EmptyList(CHANNEL_COUNT_MAX))),
           Repeat(OVERLAP_COUNT_MAX, Overlap(OVERLAP_OTHER, none, none, 0, 0, 0, 0, 0, none)))
  }

  /** In the defaults input p calls phase p, and the rebuild maps each phase to its own inputs. */
  lemma DefaultInputs()
    ensures Rebuilt(BlankDefaults()).inputMapping ==
            InputMapping([1, 2, 3, 4, 5, 6, 7, 8], [1, 2, 3, 4, 5, 6, 7, 8],
                         [1, 2, 3, 4, 5, 6, 7, 8], [1, 2, 3, 4, 5, 6, 7, 8])
  {
    var m := Rebuilt(BlankDefaults()).inputMapping;
    forall p | 0 <= p < 8 ensures m.phaseDetectors[p] == p + 1 && m.phasePedInputs[p] == p + 1 {
      DefaultInput(p);
    }
    CountsUp(m.phaseDetectors);
    CountsUp(m.phasePedInputs);
    CountsUp(Numbered(PREEMPT_COUNT_MAX));
  }

  lemma CountsUp(s: seq<uint8>)
    requires |s| == 8 && forall p :: 0 <= p < 8 ==> s[p] == p + 1
    ensures s == [1, 2, 3, 4, 5, 6, 7, 8]
  {
  }

  lemma DefaultInput(p: nat)
    requires p < 8
    ensures var m := Rebuilt(BlankDefaults()).inputMapping;
      m.phaseDetectors[p] == p + 1 && m.phasePedInputs[p] == p + 1
  {
    var c := BlankDefaults();
    RebuiltDetector(c, p);
    RebuiltPedInput(c, p);
    assert c.vehicleDetectors[p].callPhase == p + 1 && c.pedestrianDetectors[p].callPhase == p + 1;
  }

  /** The plan of the defaults in numbers: eight enabled phases, 1 to 4 in the first ring and 5 to 8 in
      the second, each ring in order with its barrier after two phases; no lists and no driven channel. */
  lemma DefaultPlan(i: nat)
    requires i < 8
    ensures var c := Rebuilt(BlankDefaults());
      && (c.phaseCount, c.ringCount, c.barrierCount) == (8, 2, 2)
      && c.rings == [RingPlan(4, 2, [0, 1, 2, 3]), RingPlan(4, 2, [4, 5, 6, 7])]
      && var p := c.phases[i];
         && p.Enabled() && p.ring == i / 4 && p.concurrency.length == 0
         && (p.walkSeconds, p.pedClearSeconds, p.minGreenDs, p.maxGreenDs) == (7, 12, 50, 300)
         && (p.passageDs, p.maxInitialDs, p.yellowChangeDs, p.redClearDs) == (30, 70, 40, 20)
    ensures forall j :: 0 <= j < 32 ==> Rebuilt(BlankDefaults()).channels[j].controlSource == 0
  {
    var c := Rebuilt(BlankDefaults());
    assert DefaultRing(0).phaseOrder == [0, 1, 2, 3] && DefaultRing(1).phaseOrder == [4, 5, 6, 7];
    assert c.phases[i] == DefaultPhase(i);
    EnabledByDefault(DefaultPhase(i));
  }

  lemma EnabledByDefault(p: PhaseConfig)
    requires p.phaseOptions == 1
    ensures p.Enabled()
  {
  }
}
