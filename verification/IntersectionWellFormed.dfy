/** Well-formed intersection configurations: a declarative predicate over the fields, which knows
    nothing of rules, errors or scan order. Limits are written as numbers. */
module IntersectionWellFormed {
  import opened IntersectionConfig

  // ----- the unit -----

  ghost predicate CountsOk(c: Config) {
    1 <= c.phaseCount <= 8 && 1 <= c.ringCount <= 2
  }

  predicate UnitParametersOk(u: Unit) {
    && u.autoPedestrianClear in {1, 2}
    && u.startUpFlashMode in {1, 2, 3}
    && u.failureFlashPeriodDs in {5, 10, 20, 40}
    && u.timeSourceCommanded in {2, 3, 5}
    && u.elevationOffsetMeters < 32
    && u.userDefinedBackupTimeSeconds <= 0x100_0000
  }

  predicate BackupOk(b: BackupContent) {
    b.oidLength <= 32 && b.descriptionLength <= 64
  }

  ghost predicate UnitOk(c: Config)
    requires c.Shaped()
  {
    && CountsOk(c) && 1 <= c.barrierCount <= 2
    && UnitParametersOk(c.unit)
    && forall i :: 0 <= i < BACKUP_CONTENT_COUNT_MAX ==> BackupOk(c.userDefinedBackupContents[i])
  }

  // ----- lists of objects -----

  /** The list fits its array and names objects from 1 to count, none of them twice. */
  ghost predicate Names(list: ReferenceList, count: nat) {
    && list.length <= |list.values|
    && (forall k :: 0 <= k < list.length ==> 0 < list.values[k] <= count)
    && forall j, k :: 0 <= j < k < list.length ==> list.values[j] != list.values[k]
  }

  ghost predicate NamesPhases(list: ReferenceList, phaseCount: uint8) {
    Names(list, if phaseCount < 8 then phaseCount else 8)
  }

  // ----- phases -----

  /** A maximum green that is in use covers the minimum green. */
  predicate Covers(maximumDs: uint16, p: PhaseConfig) {
    maximumDs == 0 || p.minGreenDs <= maximumDs
  }

  /** The vehicle and pedestrian times of an enabled phase fit together. */
  predicate TimesOk(p: PhaseConfig) {
    && 0 < p.minGreenDs <= p.maxInitialDs <= p.maxGreenDs
    && 0 < p.passageDs <= p.maxGreenDs && p.minimumGapDs <= p.passageDs
    && Covers(p.phaseMaximum2Ds, p) && Covers(p.phaseMaximum3Ds, p) && p.phaseMaximum3Ds <= 60000
    && 0 < p.yellowChangeDs && 0 < p.redClearDs
    && p.walkSeconds < 256 && p.pedClearSeconds < 256 && p.pedAdvanceWalkDs < 256 && p.pedDelayDs < 256
    && 1 <= p.pedWalkService && p.pedAlternateClearSeconds < 256 && p.pedAlternateWalkSeconds < 256
    && p.advWarnGrnStartTimeDs <= 128
    && (p.altMinTimeTransitionSeconds > 0 ==> p.minGreenDs <= 10 * p.altMinTimeTransitionSeconds)
  }

  /** Every entry of the phase's concurrency list is an enabled phase of another ring. */
  ghost predicate ServesWithOthers(c: Config, i: nat)
    requires c.Shaped() && i < PHASE_COUNT_MAX
  {
    var list := c.phases[i].concurrency;
    && NamesPhases(list, c.phaseCount)
    && forall k :: 0 <= k < list.length ==> EnabledElsewhere(c, list.values[k], c.phases[i].ring)
  }

  /** A phase number, counted from 1, of an enabled phase in another ring. */
  ghost predicate EnabledElsewhere(c: Config, number: int, ring: uint8)
    requires c.Shaped()
  {
    1 <= number <= 8 && c.phases[number - 1].Enabled() && c.phases[number - 1].ring != ring
  }

  ghost predicate PhaseOk(c: Config, i: nat)
    requires c.Shaped() && i < PHASE_COUNT_MAX
  {
    var p := c.phases[i];
    && p.ring < c.ringCount && 1 <= p.startup <= 6
    && (p.Enabled() ==> TimesOk(p) && ServesWithOthers(c, i))
  }

  ghost predicate PhasesOk(c: Config)
    requires c.Shaped()
  {
    forall i :: 0 <= i < Phases(c) ==> PhaseOk(c, i)
  }

  ghost predicate PhaseRingsExist(c: Config)
    requires c.Shaped()
  {
    forall i :: 0 <= i < Phases(c) ==> c.phases[i].ring < c.ringCount
  }

  // ----- rings -----

  /** The phase indices a ring serves, in service order. */
  ghost function RingOrder(c: Config, r: nat): (order: seq<uint8>)
    requires c.Shaped() && r < RING_COUNT_MAX
    ensures |order| == Slots(c, r)
  {
    c.rings[r].phaseOrder[..Slots(c, r)]
  }

  /** An enabled phase that belongs to the ring. */
  ghost predicate BelongsTo(c: Config, phase: int, r: nat)
    requires c.Shaped()
  {
    0 <= phase < Phases(c) && c.phases[phase].Enabled() && c.phases[phase].ring == r
  }

  /** The plan serves exactly the ring's enabled phases, each once per cycle. */
  ghost predicate RingPlanOk(c: Config, r: nat)
    requires c.Shaped() && r < RING_COUNT_MAX
  {
    && 1 <= c.rings[r].phaseCount <= RING_PHASE_COUNT_MAX
    && 1 <= c.rings[r].barrierPhaseCount <= c.rings[r].phaseCount
    && Distinct(RingOrder(c, r))
    && forall p :: p in RingOrder(c, r) <==> BelongsTo(c, p, r)
  }

  ghost predicate RingPlansOk(c: Config)
    requires c.Shaped()
  {
    forall r :: 0 <= r < Rings(c) ==> RingPlanOk(c, r)
  }

  // ----- coordination and time base -----

  predicate ModesOk(k: Coordination) {
    && 1 <= k.correctionMode <= 5 && 1 <= k.maximumMode <= 5
    && 1 <= k.forceMode <= 3 && 1 <= k.unitCoordSyncPoint <= 7
  }

  predicate PatternOk(p: Pattern) {
    && 1 <= p.splitNumber <= 4 && p.sequenceNumber == 1
    && 1 <= p.coordSyncPoint <= 8 && 1 <= p.options <= 6
  }

  predicate SplitOk(s: SplitPhase) {
    1 <= s.mode <= 8 && s.coordPhase in {0, 1} && s.options < 2
  }

  predicate ActionOk(a: TimebaseAction) {
    (a.pattern <= 8 || 254 <= a.pattern) && a.auxiliaryFunction < 16
  }

  ghost predicate SplitRowOk(c: Config, r: nat)
    requires c.Shaped() && r < SPLIT_COUNT_MAX
  {
    forall s :: 0 <= s < Phases(c) ==> SplitOk(c.coordination.splits[r][s])
  }

  ghost predicate CoordinationOk(c: Config)
    requires c.Shaped()
  {
    && ModesOk(c.coordination)
    && (forall i :: 0 <= i < PATTERN_COUNT_MAX ==> PatternOk(c.coordination.patterns[i]))
    && (forall r :: 0 <= r < SPLIT_COUNT_MAX ==> SplitRowOk(c, r))
    && (forall i :: 0 <= i < TIMEBASE_ACTION_COUNT_MAX ==> ActionOk(c.timebaseActions[i]))
  }

  // ----- detectors -----

  /** A detector calls and switches to existing phases and is not paired with itself. */
  predicate VehicleDetectorOk(d: VehicleDetector, phaseCount: uint8, number: nat) {
    && d.callPhase <= phaseCount && d.switchPhase <= phaseCount
    && d.pairedDetector <= 16 && d.pairedDetector != number
    && d.options & 0x0C != 0x0C && d.options2 < 8
    && d.delayDs <= 2550 && 1 <= d.travelMode <= 4
    && 0 < d.avgVehicleLengthCm <= 4000 && (0 < d.detectorLengthCm <= 4000 || d.detectorLengthCm == 0xFFFF)
  }

  predicate PedDetectorOk(d: PedDetector, phaseCount: uint8) {
    d.callPhase <= phaseCount && d.options < 8
  }

  /** A report period of up to an hour, or one of the special values at the top of the range. */
  predicate ReportPeriodsOk(d: DetectorReports) {
    && (d.volumeOccupancyPeriodV3Seconds <= 3600 || d.volumeOccupancyPeriodV3Seconds == 0xFFFF)
    && (d.pedestrianDetectorPeriodSeconds <= 3600 || 0xFFFE <= d.pedestrianDetectorPeriodSeconds)
  }

  ghost predicate DetectorsOk(c: Config)
    requires c.Shaped()
  {
    && (forall i :: 0 <= i < VEHICLE_DETECTOR_COUNT_MAX ==>
          VehicleDetectorOk(c.vehicleDetectors[i], c.phaseCount, i + 1))
    && (forall i :: 0 <= i < PED_INPUT_COUNT_MAX ==> PedDetectorOk(c.pedestrianDetectors[i], c.phaseCount))
    && ReportPeriodsOk(c.detectorReports)
  }

  // ----- pre-emption -----

  /** Every list of a pre-emption names existing phases or overlaps, each once. */
  ghost predicate PreemptListsOk(p: Preempt, phaseCount: uint8) {
    && NamesPhases(p.trackPhases, phaseCount) && NamesPhases(p.dwellPhases, phaseCount)
    && NamesPhases(p.dwellPeds, phaseCount) && NamesPhases(p.exitPhases, phaseCount)
    && NamesPhases(p.cyclingPhases, phaseCount) && NamesPhases(p.cyclingPeds, phaseCount)
    && Names(p.trackOverlaps, 32) && Names(p.dwellOverlaps, 32) && Names(p.cyclingOverlaps, 32)
  }

  ghost predicate PreemptOk(c: Config, i: nat)
    requires c.Shaped() && i < PREEMPT_COUNT_MAX
  {
    var p := c.preempts[i];
    && p.control < 64 && p.link <= 8
    && p.sequenceNumber == 1 && 1 <= p.exitType <= 4
    && PreemptListsOk(p, c.phaseCount)
    && forall d :: 0 <= d < VEHICLE_DETECTOR_COUNT_MAX ==> c.preemptQueueDelayWeights[i][d] <= 1000
  }

  ghost predicate PreemptsOk(c: Config)
    requires c.Shaped()
  {
    forall i :: 0 <= i < PREEMPT_COUNT_MAX ==> PreemptOk(c, i)
  }

  // ----- inputs and outputs -----

  /** No detector or pedestrian input serves two phases, and all of them exist. */
  ghost predicate PhaseInputsOk(c: Config)
    requires c.Shaped()
  {
    && InputsOk(c.inputMapping.phaseDetectors, 16)
    && InputsOk(c.inputMapping.phasePedInputs, 8)
  }

  predicate PreemptInputOk(m: InputMapping, i: nat)
    requires i < |m.preemptInputs| && i < |m.preemptControls|
  {
    m.preemptInputs[i] <= 8 && m.preemptControls[i] <= 8
  }

  /** The highest object number that may drive a channel of this type: a phase for types 2 and 3, an
      overlap for types 4 to 6, none for the others. */
  function HighestSource(controlType: uint8, phaseCount: uint8): uint8 {
    match controlType
    case 2 => phaseCount
    case 3 => phaseCount
    case 4 => 32
    case 5 => 32
    case 6 => 32
    case _ => 0
  }

  /** A channel is driven by nothing or by an existing object of its control type. */
  ghost predicate ChannelOk(h: Channel, phaseCount: uint8) {
    && 1 <= h.controlType <= 6 && h.controlSource <= HighestSource(h.controlType, phaseCount)
    && 1 <= h.greenType <= 5 && Names(h.greenIncluded, 32)
    && h.flashMask in {0, 2, 4, 6, 8, 10, 12, 14} && h.dimMask < 16
  }

  /** An overlap is unused or a normal one with at least one included phase. */
  ghost predicate OverlapOk(o: Overlap, phaseCount: uint8) {
    && (o.overlapType == 1 || (o.overlapType == 2 && o.includedPhases.length > 0))
    && NamesPhases(o.includedPhases, phaseCount) && NamesPhases(o.modifierPhases, phaseCount)
    && NamesPhases(o.conflictingPedPhases, phaseCount)
    && o.trailGreenDs <= 2550 && o.trailYellowDs < 256 && o.trailRedDs < 256
    && o.walkSeconds < 256 && o.pedClearSeconds < 256
  }

  ghost predicate ChannelsOk(c: Config)
    requires c.Shaped()
  {
    && (forall i :: 0 <= i < PREEMPT_COUNT_MAX ==> PreemptInputOk(c.inputMapping, i))
    && (forall i :: 0 <= i < CHANNEL_COUNT_MAX ==> ChannelOk(c.channels[i], c.phaseCount))
    && (forall i :: 0 <= i < OVERLAP_COUNT_MAX ==> OverlapOk(c.overlaps[i], c.phaseCount))
  }

  // ----- the whole configuration -----

  /** Everything but the phase inputs. */
  ghost predicate WellFormedApartFromInputs(c: Config)
    requires c.Shaped()
  {
    && UnitOk(c) && PhasesOk(c) && RingPlansOk(c) && CoordinationOk(c) && DetectorsOk(c)
    && PreemptsOk(c) && ChannelsOk(c)
  }

  ghost predicate WellFormed(c: Config)
    requires c.Shaped()
  {
    WellFormedApartFromInputs(c) && PhaseInputsOk(c)
  }
}
