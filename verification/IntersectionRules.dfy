/** The table of rules that IntersectionConfigValidate in CPM/Libs/Intersection/IntersectionConfig.c
    checks, in scan order, with the error and object index of each. */
module IntersectionRules {
  import opened ValidationRules
  import opened IntersectionConfig

  datatype ConfigError =
    | NoError | PhaseCount | RingCount | BarrierCount
    | UnitAutoPedestrianClear | UnitStartupFlashMode | UnitFailureFlashPeriod | UnitTimeSource
    | UnitElevationOffset | UnitUserDefinedBackupTime | UnitUserDefinedBackupOid
    | UnitUserDefinedBackupDescription
    | PhaseRing | PhaseStartup | MinGreen | Walk | PedClear | MaxGreen | YellowChange | RedClear
    | Passage | MaxInitial | PedAdvanceWalk | PedDelay | PhaseMaximum2 | PhaseMaximum3 | MinimumGap
    | PhaseAltMinTimeTransition | PhaseConcurrency
    | RingPhaseCount | RingBarrierPosition | RingPhaseOrder | PhaseAssignment
    | CoordCorrectionMode | CoordMaximumMode | CoordForceMode | CoordUnitSyncPoint
    | PatternSplitNumber | PatternSequenceNumber | PatternSyncPoint | PatternOptions
    | SplitMode | SplitCoordPhase | SplitOptions
    | TimebaseActionPattern | TimebaseActionAuxiliaryFunction
    | VehicleDetectorOptions | VehicleDetectorCallPhase | VehicleDetectorSwitchPhase
    | VehicleDetectorDelay | VehicleDetectorOptions2 | VehicleDetectorPaired
    | VehicleDetectorTravelMode | PedDetectorCallPhase | PedDetectorOptions
    | VehicleReportPeriodV3 | PedReportPeriod
    | PreemptControl | PreemptLink | PreemptTrackPhases | PreemptDwellPhases | PreemptDwellPeds
    | PreemptExitPhases | PreemptTrackOverlaps | PreemptDwellOverlaps | PreemptCyclingPhases
    | PreemptCyclingPeds | PreemptCyclingOverlaps | PreemptSequenceNumber | PreemptExitType
    | PreemptQueueDelayWeight
    | PhaseDetectorInput | PhasePedInput | PreemptInputSource | PreemptControlSource
    | ChannelControlType | ChannelFlashMask | ChannelDimMask | ChannelGreenType
    | ChannelGreenIncluded | ChannelControlSource
    | OverlapType | OverlapIncludedPhases | OverlapModifierPhases | OverlapConflictingPedPhases
    | OverlapTrailGreen | OverlapTrailYellow | OverlapTrailRed | OverlapWalk | OverlapPedClear

  type Table = seq<Rules<ConfigError>>

  // ----- unit and phases -----

  /** The counts and the unit parameters. */
  ghost function UnitRules(c: Config): Rules<ConfigError>
    requires c.Shaped()
  {
    [Rule(1 <= c.phaseCount <= PHASE_COUNT_MAX, PhaseCount, 0),
     Rule(1 <= c.ringCount <= RING_COUNT_MAX, RingCount, 0),
     Rule(1 <= c.barrierCount <= BARRIER_COUNT_MAX, BarrierCount, 0),
     Rule(c.unit.autoPedestrianClear in {1, 2}, UnitAutoPedestrianClear, 0),
     Rule(1 <= c.unit.startUpFlashMode <= 3, UnitStartupFlashMode, 0),
     Rule(c.unit.failureFlashPeriodDs in {5, 10, 20, 40}, UnitFailureFlashPeriod, 0),
     Rule(c.unit.timeSourceCommanded in {RTC_SQWR, GNSS, LINE_SYNC}, UnitTimeSource, 0),
     Rule(c.unit.elevationOffsetMeters <= 31, UnitElevationOffset, 0),
     Rule(c.unit.userDefinedBackupTimeSeconds <= 16777216, UnitUserDefinedBackupTime, 0)]
  }

  function BackupRules(b: BackupContent, index: nat): Rules<ConfigError> {
    [Rule(b.oidLength <= 32, UnitUserDefinedBackupOid, index),
     Rule(b.descriptionLength <= 64, UnitUserDefinedBackupDescription, index)]
  }

  /** The first rules of one phase; those after the second bind enabled phases only. */
  function PhaseGreenRules(p: PhaseConfig, ringCount: uint8, index: nat): Rules<ConfigError> {
    [Rule(p.ring < ringCount, PhaseRing, index),
     Rule(1 <= p.startup <= 6, PhaseStartup, index),
     Rule(!p.Enabled() || p.minGreenDs > 0, MinGreen, index),
     Rule(!p.Enabled() || p.walkSeconds <= 255, Walk, index),
     Rule(!p.Enabled() || p.pedClearSeconds <= 255, PedClear, index),
     Rule(!p.Enabled() || p.minGreenDs <= p.maxGreenDs, MaxGreen, index),
     Rule(!p.Enabled() || p.yellowChangeDs > 0, YellowChange, index),
     Rule(!p.Enabled() || p.redClearDs > 0, RedClear, index)]
  }

  /** The remaining rules of one phase. */
  ghost function PhaseTimingRules(c: Config, i: nat): Rules<ConfigError>
    requires c.Shaped() && i < PHASE_COUNT_MAX
  {
    var p := c.phases[i];
    [Rule(!p.Enabled() || 1 <= p.passageDs <= p.maxGreenDs, Passage, i + 1),
     Rule(!p.Enabled() || (0 < p.maxInitialDs && p.minGreenDs <= p.maxInitialDs <= p.maxGreenDs), MaxInitial, i + 1),
     Rule(!p.Enabled() || p.pedAdvanceWalkDs <= 255, PedAdvanceWalk, i + 1),
     Rule(!p.Enabled() || p.pedDelayDs <= 255, PedDelay, i + 1),
     Rule(!p.Enabled() || p.phaseMaximum2Ds == 0 || p.minGreenDs <= p.phaseMaximum2Ds, PhaseMaximum2, i + 1),
     Rule(!p.Enabled() || p.phaseMaximum3Ds == 0 || p.minGreenDs <= p.phaseMaximum3Ds <= 60000, PhaseMaximum3, i + 1),
     Rule(!p.Enabled() || p.minimumGapDs <= p.passageDs, MinimumGap, i + 1),
     Rule(!p.Enabled() || p.AlternateTimesOk(), PhaseAltMinTimeTransition, i + 1),
     Rule(!p.Enabled() || ConcurrencyOk(c, i), PhaseConcurrency, i + 1)]
  }

  ghost function PhaseRules(c: Config, i: nat): Rules<ConfigError>
    requires c.Shaped() && i < PHASE_COUNT_MAX
  {
    PhaseGreenRules(c.phases[i], c.ringCount, i + 1) + PhaseTimingRules(c, i)
  }

  ghost function PhaseTable(c: Config): Table
    requires c.Shaped()
  {
    var n := Phases(c);
    seq(n, i requires 0 <= i < n => PhaseRules(c, i))
  }

  // ----- ring plans -----

  /** A slot in use before slot s of ring r, in scan order, plans the phase. */
  ghost predicate ListedBefore(c: Config, r: nat, s: nat, phase: int)
    requires c.Shaped()
  {
    exists r', s' :: 0 <= r' < RING_COUNT_MAX && 0 <= s' < Slots(c, r') && (r' < r || (r' == r && s' < s))
                     && Planned(c, r', s') == phase
  }

  function RingHeadRules(p: RingPlan, index: nat): Rules<ConfigError> {
    [Rule(1 <= p.phaseCount <= RING_PHASE_COUNT_MAX, RingPhaseCount, index),
     Rule(1 <= p.barrierPhaseCount <= p.phaseCount, RingBarrierPosition, index)]
  }

  ghost function SlotRules(c: Config, r: nat, s: nat): Rules<ConfigError>
    requires c.Shaped() && r < RING_COUNT_MAX && s < RING_PHASE_COUNT_MAX
  {
    var p := Planned(c, r, s);
    [Rule(p < Phases(c), RingPhaseOrder, r + 1),
     Rule(!ListedBefore(c, r, s, p), RingPhaseOrder, r + 1),
     Rule(p < Phases(c) && c.phases[p].Enabled() && c.phases[p].ring == r, PhaseAssignment, p + 1)]
  }

  /** The head of the plan, then its slots in use. */
  ghost function RingTable(c: Config, r: nat): Table
    requires c.Shaped() && r < RING_COUNT_MAX
  {
    var n := Slots(c, r);
    [RingHeadRules(c.rings[r], r + 1)] + seq(n, s requires 0 <= s < n => SlotRules(c, r, s))
  }

  ghost function RingTables(c: Config): seq<Table>
    requires c.Shaped()
  {
    var n := Rings(c);
    seq(n, r requires 0 <= r < n => RingTable(c, r))
  }

  ghost function UnassignedRules(c: Config, i: nat): Rules<ConfigError>
    requires c.Shaped() && i < PHASE_COUNT_MAX
  {
    [Rule(!c.phases[i].Enabled() || ListedBefore(c, Rings(c), 0, i), PhaseAssignment, i + 1)]
  }

  ghost function UnassignedTable(c: Config): Table
    requires c.Shaped()
  {
    var n := Phases(c);
    seq(n, i requires 0 <= i < n => UnassignedRules(c, i))
  }

  // ----- coordination, time base, detectors -----

  function CoordRules(k: Coordination): Rules<ConfigError> {
    [Rule(1 <= k.correctionMode <= 5, CoordCorrectionMode, 0),
     Rule(1 <= k.maximumMode <= 5, CoordMaximumMode, 0),
     Rule(1 <= k.forceMode <= 3, CoordForceMode, 0),
     Rule(1 <= k.unitCoordSyncPoint <= 7, CoordUnitSyncPoint, 0)]
  }

  function PatternRules(p: Pattern, index: nat): Rules<ConfigError> {
    [Rule(1 <= p.splitNumber <= SPLIT_COUNT_MAX, PatternSplitNumber, index),
     Rule(p.sequenceNumber == 1, PatternSequenceNumber, index),
     Rule(1 <= p.coordSyncPoint <= 8, PatternSyncPoint, index),
     Rule(1 <= p.options <= 6, PatternOptions, index)]
  }

  function SplitRules(s: SplitPhase, index: nat): Rules<ConfigError> {
    [Rule(1 <= s.mode <= 8, SplitMode, index),
     Rule(s.coordPhase <= 1, SplitCoordPhase, index),
     Rule(OnlyWithin(s.options, 0x01), SplitOptions, index)]
  }

  ghost function SplitTable(c: Config, r: nat): Table
    requires c.Shaped() && r < SPLIT_COUNT_MAX
  {
    var n := Phases(c);
    seq(n, s requires 0 <= s < n => SplitRules(c.coordination.splits[r][s], r * PHASE_COUNT_MAX + s + 1))
  }

  ghost function SplitTables(c: Config): seq<Table>
    requires c.Shaped()
  {
    seq(SPLIT_COUNT_MAX, r requires 0 <= r < SPLIT_COUNT_MAX => SplitTable(c, r))
  }

  function ActionRules(a: TimebaseAction, index: nat): Rules<ConfigError> {
    [Rule(a.pattern <= PATTERN_COUNT_MAX || a.pattern in {254, 255}, TimebaseActionPattern, index),
     Rule(OnlyWithin(a.auxiliaryFunction, 0x0F), TimebaseActionAuxiliaryFunction, index)]
  }

  function VehicleRules(d: VehicleDetector, phaseCount: uint8, index: nat): Rules<ConfigError> {
    [Rule(!LocksBoth(d.options), VehicleDetectorOptions, index),
     Rule(d.callPhase <= phaseCount, VehicleDetectorCallPhase, index),
     Rule(d.switchPhase <= phaseCount, VehicleDetectorSwitchPhase, index),
     Rule(d.delayDs <= 2550, VehicleDetectorDelay, index),
     Rule(OnlyWithin(d.options2, 0x07), VehicleDetectorOptions2, index),
     Rule(d.pairedDetector <= VEHICLE_DETECTOR_COUNT_MAX && d.pairedDetector != index, VehicleDetectorPaired, index),
     Rule(d.LengthsOk(), VehicleDetectorOptions2, index),
     Rule(1 <= d.travelMode <= 4, VehicleDetectorTravelMode, index)]
  }

  function PedRules(d: PedDetector, phaseCount: uint8, index: nat): Rules<ConfigError> {
    [Rule(d.callPhase <= phaseCount, PedDetectorCallPhase, index),
     Rule(OnlyWithin(d.options, 0x07), PedDetectorOptions, index)]
  }

  function ReportRules(d: DetectorReports): Rules<ConfigError> {
    [Rule(d.VehiclePeriodOk(), VehicleReportPeriodV3, 1),
     Rule(d.PedPeriodOk(), PedReportPeriod, 1)]
  }

  // ----- pre-emption -----

  ghost function PreemptServiceRules(p: Preempt, phaseCount: uint8, index: nat): Rules<ConfigError>
    requires p.Shaped()
  {
    [Rule(OnlyWithin(p.control, 0x3F), PreemptControl, index),
     Rule(p.link <= PREEMPT_COUNT_MAX, PreemptLink, index),
     Rule(PhaseList(p.trackPhases, phaseCount), PreemptTrackPhases, index),
     Rule(PhaseList(p.dwellPhases, phaseCount), PreemptDwellPhases, index),
     Rule(PhaseList(p.dwellPeds, phaseCount), PreemptDwellPeds, index),
     Rule(PhaseList(p.exitPhases, phaseCount), PreemptExitPhases, index)]
  }

  ghost function PreemptCyclingRules(p: Preempt, phaseCount: uint8, index: nat): Rules<ConfigError>
    requires p.Shaped()
  {
    [Rule(OverlapList(p.trackOverlaps), PreemptTrackOverlaps, index),
     Rule(OverlapList(p.dwellOverlaps), PreemptDwellOverlaps, index),
     Rule(PhaseList(p.cyclingPhases, phaseCount), PreemptCyclingPhases, index),
     Rule(PhaseList(p.cyclingPeds, phaseCount), PreemptCyclingPeds, index),
     Rule(OverlapList(p.cyclingOverlaps), PreemptCyclingOverlaps, index),
     Rule(p.sequenceNumber == 1, PreemptSequenceNumber, index),
     Rule(1 <= p.exitType <= 4, PreemptExitType, index)]
  }

  ghost function PreemptRules(p: Preempt, phaseCount: uint8, index: nat): Rules<ConfigError>
    requires p.Shaped()
  {
    PreemptServiceRules(p, phaseCount, index) + PreemptCyclingRules(p, phaseCount, index)
  }

  function WeightRules(weight: uint16, index: nat): Rules<ConfigError> {
    [Rule(weight <= 1000, PreemptQueueDelayWeight, index)]
  }

  /** The rules of a pre-emption, then its sixteen queue-delay weights. */
  ghost function PreemptTable(c: Config, i: nat): Table
    requires c.Shaped() && i < PREEMPT_COUNT_MAX
  {
    var weights := c.preemptQueueDelayWeights[i];
    [PreemptRules(c.preempts[i], c.phaseCount, i + 1)]
    + seq(VEHICLE_DETECTOR_COUNT_MAX, d requires 0 <= d < VEHICLE_DETECTOR_COUNT_MAX =>
        WeightRules(weights[d], i * VEHICLE_DETECTOR_COUNT_MAX + d + 1))
  }

  ghost function PreemptTables(c: Config): seq<Table>
    requires c.Shaped()
  {
    seq(PREEMPT_COUNT_MAX, i requires 0 <= i < PREEMPT_COUNT_MAX => PreemptTable(c, i))
  }

  // ----- input mapping, channels, overlaps -----

  /** The entry is 0 or differs from every earlier one. */
  ghost predicate FirstUse(m: seq<uint8>, i: nat)
    requires i < |m|
  {
    m[i] == 0 || forall j :: 0 <= j < i ==> m[j] != m[i]
  }

  ghost function InputRules(m: InputMapping, i: nat): Rules<ConfigError>
    requires m.Shaped() && i < PHASE_COUNT_MAX
  {
    [Rule(m.phaseDetectors[i] <= VEHICLE_DETECTOR_COUNT_MAX, PhaseDetectorInput, i + 1),
     Rule(FirstUse(m.phaseDetectors, i), PhaseDetectorInput, i + 1),
     Rule(m.phasePedInputs[i] <= PED_INPUT_COUNT_MAX, PhasePedInput, i + 1),
     Rule(FirstUse(m.phasePedInputs, i), PhasePedInput, i + 1)]
  }

  ghost function PreemptInputRules(m: InputMapping, i: nat): Rules<ConfigError>
    requires m.Shaped() && i < PREEMPT_COUNT_MAX
  {
    [Rule(m.preemptInputs[i] <= PREEMPT_COUNT_MAX, PreemptInputSource, i + 1),
     Rule(m.preemptControls[i] <= PREEMPT_COUNT_MAX, PreemptControlSource, i + 1)]
  }

  /** The object that drives the channel exists: a phase, an overlap, or nothing. */
  predicate SourceExists(h: Channel, phaseCount: uint8) {
    || h.controlSource == 0
    || (h.controlType in {2, 3} && h.controlSource <= phaseCount)
    || (h.controlType in {4, 5, 6} && h.controlSource <= OVERLAP_COUNT_MAX)
  }

  ghost function ChannelRules(h: Channel, phaseCount: uint8, index: nat): Rules<ConfigError>
    requires h.Shaped()
  {
    [Rule(1 <= h.controlType <= 6, ChannelControlType, index),
     Rule(OnlyWithin(h.flashMask, 0x0E), ChannelFlashMask, index),
     Rule(OnlyWithin(h.dimMask, 0x0F), ChannelDimMask, index),
     Rule(1 <= h.greenType <= 5, ChannelGreenType, index),
     Rule(ChannelList(h.greenIncluded), ChannelGreenIncluded, index),
     Rule(SourceExists(h, phaseCount), ChannelControlSource, index)]
  }

  ghost function OverlapRules(o: Overlap, phaseCount: uint8, index: nat): Rules<ConfigError>
    requires o.Shaped()
  {
    [Rule(1 <= o.overlapType <= 10, OverlapType, index),
     Rule(PhaseList(o.includedPhases, phaseCount), OverlapIncludedPhases, index),
     Rule(PhaseList(o.modifierPhases, phaseCount), OverlapModifierPhases, index),
     Rule(PhaseList(o.conflictingPedPhases, phaseCount), OverlapConflictingPedPhases, index)]
  }

  /** Only normal overlaps, with at least one included phase, or the type "other" are accepted. */
  function OverlapTimeRules(o: Overlap, index: nat): Rules<ConfigError> {
    [Rule(o.trailGreenDs <= 2550, OverlapTrailGreen, index),
     Rule(o.trailYellowDs <= 255, OverlapTrailYellow, index),
     Rule(o.trailRedDs <= 255, OverlapTrailRed, index),
     Rule(o.walkSeconds <= 255, OverlapWalk, index),
     Rule(o.pedClearSeconds <= 255, OverlapPedClear, index),
     Rule(o.overlapType == OVERLAP_OTHER || o.includedPhases.length > 0, OverlapIncludedPhases, index),
     Rule(o.overlapType in {OVERLAP_OTHER, OVERLAP_NORMAL}, OverlapType, index)]
  }

  ghost function AllOverlapRules(o: Overlap, phaseCount: uint8, index: nat): Rules<ConfigError>
    requires o.Shaped()
  {
    OverlapRules(o, phaseCount, index) + OverlapTimeRules(o, index)
  }

  // ----- the whole scan -----

  const SECTIONS := 17

  /** The sections of the configuration, in scan order. */
  ghost function Section(c: Config, k: nat): Table
    requires c.Shaped() && k < SECTIONS
  {
    match k
    case 0 => [UnitRules(c)]
    case 1 => seq(BACKUP_CONTENT_COUNT_MAX, i requires 0 <= i < BACKUP_CONTENT_COUNT_MAX =>
                BackupRules(c.userDefinedBackupContents[i], i + 1))
    case 2 => PhaseTable(c)
    case 3 => Flatten(RingTables(c))
    case 4 => UnassignedTable(c)
    case 5 => [CoordRules(c.coordination)]
    case 6 => seq(PATTERN_COUNT_MAX, i requires 0 <= i < PATTERN_COUNT_MAX =>
                PatternRules(c.coordination.patterns[i], i + 1))
    case 7 => Flatten(SplitTables(c))
    case 8 => seq(TIMEBASE_ACTION_COUNT_MAX, i requires 0 <= i < TIMEBASE_ACTION_COUNT_MAX =>
                ActionRules(c.timebaseActions[i], i + 1))
    case 9 => seq(VEHICLE_DETECTOR_COUNT_MAX, i requires 0 <= i < VEHICLE_DETECTOR_COUNT_MAX =>
                VehicleRules(c.vehicleDetectors[i], c.phaseCount, i + 1))
    case 10 => seq(PED_INPUT_COUNT_MAX, i requires 0 <= i < PED_INPUT_COUNT_MAX =>
                 PedRules(c.pedestrianDetectors[i], c.phaseCount, i + 1))
    case 11 => [ReportRules(c.detectorReports)]
    case 12 => Flatten(PreemptTables(c))
    case 13 => seq(PHASE_COUNT_MAX, i requires 0 <= i < PHASE_COUNT_MAX => InputRules(c.inputMapping, i))
    case 14 => seq(PREEMPT_COUNT_MAX, i requires 0 <= i < PREEMPT_COUNT_MAX => PreemptInputRules(c.inputMapping, i))
    case 15 => seq(CHANNEL_COUNT_MAX, i requires 0 <= i < CHANNEL_COUNT_MAX =>
                 ChannelRules(c.channels[i], c.phaseCount, i + 1))
    case _ => seq(OVERLAP_COUNT_MAX, i requires 0 <= i < OVERLAP_COUNT_MAX =>
                AllOverlapRules(c.overlaps[i], c.phaseCount, i + 1))
  }

  ghost function Sections(c: Config): (sections: seq<Table>)
    requires c.Shaped()
    ensures |sections| == SECTIONS
  {
    seq(SECTIONS, k requires 0 <= k < SECTIONS => Section(c, k))
  }

  /** All rules of the configuration, object by object, in scan order. */
  ghost function RuleTable(c: Config): Table
    requires c.Shaped()
  {
    Flatten(Sections(c))
  }
}
