/** The validator of CPM/Libs/Intersection/IntersectionConfig.c as it runs: loops that stop at the
    first failing rule, with arrays of what has been seen, proved to report what the rule table of
    IntersectionRules says. */
module IntersectionValidate {
  import opened ValidationRules
  import opened IntersectionConfig
  import opened IntersectionRules
  import opened IntersectionWellFormed
  import opened IntersectionDecision
  import opened IntersectionGuarantees
  import opened IntersectionErrors

  // ----- reference lists -----

  /** The three list validators: phases, channels and overlaps differ only in their bounds. */
  method ValidateReferenceList(list: ReferenceList, capacity: uint8, count: uint8) returns (ok: bool)
    requires |list.values| == capacity && count <= capacity
    ensures ok <==> ListOk(list, count)
  {
    var seen := new uint8[capacity](_ => 0);
    if list.length > capacity {
      return false;
    }
    ghost var used := list.values[..list.length];
    for index := 0 to list.length
      invariant forall k :: 0 <= k < index ==> 1 <= used[k] <= count
      invariant Distinct(used[..index])
      invariant forall i :: 0 <= i < count ==> (seen[i] != 0 <==> i + 1 in used[..index])
    {
      var number := list.values[index];
      assert used[..index + 1] == used[..index] + [number];
      if number == 0 || number > count {
        assert used[index] == number;
        return false;
      }
      if seen[number - 1] != 0 {
        ghost var j :| 0 <= j < index && used[..index][j] == number;
        assert used[j] == used[index];
        return false;
      }
      seen[number - 1] := 1;
    }
    assert used[..list.length] == used;
    return true;
  }

  method ValidatePhaseConcurrencyList(c: Config, phaseIndex: nat, list: ReferenceList) returns (ok: bool)
    requires c.Shaped() && phaseIndex < c.phaseCount <= PHASE_COUNT_MAX && list == c.phases[phaseIndex].concurrency
    ensures ok <==> ConcurrencyOk(c, phaseIndex)
  {
    var listOk := ValidateReferenceList(list, PHASE_COUNT_MAX, c.phaseCount);
    if !listOk {
      return false;
    }
    for index := 0 to list.length
      invariant forall k :: 0 <= k < index ==>
                  var other := c.phases[list.values[k] - 1];
                  other.Enabled() && other.ring != c.phases[phaseIndex].ring
    {
      var other := list.values[index] - 1;
      if other == phaseIndex {
        return false;
      }
      if other >= c.phaseCount || !c.phases[other].Enabled() || c.phases[other].ring == c.phases[phaseIndex].ring {
        return false;
      }
    }
    return true;
  }

  predicate ValidFailureFlashPeriodDs(ds: uint8) {
    ds == 5 || ds == 10 || ds == 20 || ds == 40
  }

  // ----- the checks on one object -----

  /** A failing check: the first of the object's rules to fail names the error. */
  method Reject(ghost rules: Rules<ConfigError>, ghost k: nat, error: ConfigError, index: nat)
    returns (outcome: Outcome<ConfigError>)
    requires FailsFirst(rules, k, error, index)
    ensures outcome == Rejected(error, index) && ReportsObject(rules, outcome)
  {
    return Rejected(error, index);
  }

  method CheckUnit(c: Config) returns (outcome: Outcome<ConfigError>)
    requires c.Shaped()
    ensures ReportsObject(UnitRules(c), outcome)
  {
    ghost var rules := UnitRules(c);
    if c.phaseCount == 0 || c.phaseCount > PHASE_COUNT_MAX {
      outcome := Reject(rules, 0, PhaseCount, 0);
      return;
    }
    if c.ringCount == 0 || c.ringCount > RING_COUNT_MAX {
      outcome := Reject(rules, 1, RingCount, 0);
      return;
    }
    if c.barrierCount == 0 || c.barrierCount > BARRIER_COUNT_MAX {
      outcome := Reject(rules, 2, BarrierCount, 0);
      return;
    }
    if c.unit.autoPedestrianClear != 1 && c.unit.autoPedestrianClear != 2 {
      outcome := Reject(rules, 3, UnitAutoPedestrianClear, 0);
      return;
    }
    if c.unit.startUpFlashMode < 1 || c.unit.startUpFlashMode > 3 {
      outcome := Reject(rules, 4, UnitStartupFlashMode, 0);
      return;
    }
    if !ValidFailureFlashPeriodDs(c.unit.failureFlashPeriodDs) {
      outcome := Reject(rules, 5, UnitFailureFlashPeriod, 0);
      return;
    }
    if c.unit.timeSourceCommanded != RTC_SQWR && c.unit.timeSourceCommanded != GNSS
       && c.unit.timeSourceCommanded != LINE_SYNC {
      outcome := Reject(rules, 6, UnitTimeSource, 0);
      return;
    }
    if c.unit.elevationOffsetMeters > 31 {
      outcome := Reject(rules, 7, UnitElevationOffset, 0);
      return;
    }
    if c.unit.userDefinedBackupTimeSeconds > 16777216 {
      outcome := Reject(rules, 8, UnitUserDefinedBackupTime, 0);
      return;
    }
    return Accepted;
  }

  method CheckBackup(b: BackupContent, index: nat) returns (outcome: Outcome<ConfigError>)
    ensures ReportsObject(BackupRules(b, index), outcome)
  {
    ghost var rules := BackupRules(b, index);
    if b.oidLength > 32 {
      outcome := Reject(rules, 0, UnitUserDefinedBackupOid, index);
      return;
    }
    if b.descriptionLength > 64 {
      outcome := Reject(rules, 1, UnitUserDefinedBackupDescription, index);
      return;
    }
    return Accepted;
  }

  method CheckPhaseGreen(p: PhaseConfig, ringCount: uint8, index: nat) returns (outcome: Outcome<ConfigError>)
    ensures ReportsObject(PhaseGreenRules(p, ringCount, index), outcome)
  {
    ghost var rules := PhaseGreenRules(p, ringCount, index);
    if p.ring >= ringCount {
      outcome := Reject(rules, 0, PhaseRing, index);
      return;
    }
    if p.startup < 1 || p.startup > 6 {
      outcome := Reject(rules, 1, PhaseStartup, index);
      return;
    }
    if !p.Enabled() {
      return Accepted;
    }
    if p.minGreenDs == 0 {
      outcome := Reject(rules, 2, MinGreen, index);
      return;
    }
    if p.walkSeconds > 255 {
      outcome := Reject(rules, 3, Walk, index);
      return;
    }
    if p.pedClearSeconds > 255 {
      outcome := Reject(rules, 4, PedClear, index);
      return;
    }
    if p.maxGreenDs < p.minGreenDs {
      outcome := Reject(rules, 5, MaxGreen, index);
      return;
    }
    if p.yellowChangeDs == 0 {
      outcome := Reject(rules, 6, YellowChange, index);
      return;
    }
    if p.redClearDs == 0 {
      outcome := Reject(rules, 7, RedClear, index);
      return;
    }
    return Accepted;
  }

  method CheckPhaseTiming(c: Config, i: nat) returns (outcome: Outcome<ConfigError>)
    requires c.Shaped() && i < c.phaseCount <= PHASE_COUNT_MAX
    ensures ReportsObject(PhaseTimingRules(c, i), outcome)
  {
    var p := c.phases[i];
    ghost var rules := PhaseTimingRules(c, i);
    if !p.Enabled() {
      return Accepted;
    }
    if p.passageDs == 0 || p.passageDs > p.maxGreenDs {
      outcome := Reject(rules, 0, Passage, i + 1);
      return;
    }
    if p.maxInitialDs == 0 || p.maxInitialDs > p.maxGreenDs || p.maxInitialDs < p.minGreenDs {
      outcome := Reject(rules, 1, MaxInitial, i + 1);
      return;
    }
    if p.pedAdvanceWalkDs > 255 {
      outcome := Reject(rules, 2, PedAdvanceWalk, i + 1);
      return;
    }
    if p.pedDelayDs > 255 {
      outcome := Reject(rules, 3, PedDelay, i + 1);
      return;
    }
    if p.phaseMaximum2Ds != 0 && p.phaseMaximum2Ds < p.minGreenDs {
      outcome := Reject(rules, 4, PhaseMaximum2, i + 1);
      return;
    }
    if p.phaseMaximum3Ds > 60000 || (p.phaseMaximum3Ds != 0 && p.phaseMaximum3Ds < p.minGreenDs) {
      outcome := Reject(rules, 5, PhaseMaximum3, i + 1);
      return;
    }
    if p.minimumGapDs != 0 && p.minimumGapDs > p.passageDs {
      outcome := Reject(rules, 6, MinimumGap, i + 1);
      return;
    }
    if p.pedWalkService == 0 || p.pedAlternateClearSeconds > 255 || p.pedAlternateWalkSeconds > 255
         || p.advWarnGrnStartTimeDs > 128
         || (p.altMinTimeTransitionSeconds != 0 && p.altMinTimeTransitionSeconds * 10 < p.minGreenDs) {
      outcome := Reject(rules, 7, PhaseAltMinTimeTransition, i + 1);
      return;
    }
    var concurrent := ValidatePhaseConcurrencyList(c, i, p.concurrency);
    if !concurrent {
      outcome := Reject(rules, 8, PhaseConcurrency, i + 1);
      return;
    }
    return Accepted;
  }

  method CheckCoordination(k: Coordination) returns (outcome: Outcome<ConfigError>)
    ensures ReportsObject(CoordRules(k), outcome)
  {
    ghost var rules := CoordRules(k);
    if k.correctionMode < 1 || k.correctionMode > 5 {
      outcome := Reject(rules, 0, CoordCorrectionMode, 0);
      return;
    }
    if k.maximumMode < 1 || k.maximumMode > 5 {
      outcome := Reject(rules, 1, CoordMaximumMode, 0);
      return;
    }
    if k.forceMode < 1 || k.forceMode > 3 {
      outcome := Reject(rules, 2, CoordForceMode, 0);
      return;
    }
    if k.unitCoordSyncPoint < 1 || k.unitCoordSyncPoint > 7 {
      outcome := Reject(rules, 3, CoordUnitSyncPoint, 0);
      return;
    }
    return Accepted;
  }

  method CheckPattern(p: Pattern, index: nat) returns (outcome: Outcome<ConfigError>)
    ensures ReportsObject(PatternRules(p, index), outcome)
  {
    ghost var rules := PatternRules(p, index);
    if p.splitNumber == 0 || p.splitNumber > SPLIT_COUNT_MAX {
      outcome := Reject(rules, 0, PatternSplitNumber, index);
      return;
    }
    if p.sequenceNumber == 0 || p.sequenceNumber > 1 {
      outcome := Reject(rules, 1, PatternSequenceNumber, index);
      return;
    }
    if p.coordSyncPoint < 1 || p.coordSyncPoint > 8 {
      outcome := Reject(rules, 2, PatternSyncPoint, index);
      return;
    }
    if p.options < 1 || p.options > 6 {
      outcome := Reject(rules, 3, PatternOptions, index);
      return;
    }
    return Accepted;
  }

  method CheckSplit(s: SplitPhase, index: nat) returns (outcome: Outcome<ConfigError>)
    ensures ReportsObject(SplitRules(s, index), outcome)
  {
    ghost var rules := SplitRules(s, index);
    if s.mode < 1 || s.mode > 8 {
      outcome := Reject(rules, 0, SplitMode, index);
      return;
    }
    if s.coordPhase > 1 {
      outcome := Reject(rules, 1, SplitCoordPhase, index);
      return;
    }
    if !OnlyWithin(s.options, 0x01) {
      outcome := Reject(rules, 2, SplitOptions, index);
      return;
    }
    return Accepted;
  }

  method CheckAction(a: TimebaseAction, index: nat) returns (outcome: Outcome<ConfigError>)
    ensures ReportsObject(ActionRules(a, index), outcome)
  {
    ghost var rules := ActionRules(a, index);
    if a.pattern != 0 && a.pattern > PATTERN_COUNT_MAX && a.pattern != 254 && a.pattern != 255 {
      outcome := Reject(rules, 0, TimebaseActionPattern, index);
      return;
    }
    if !OnlyWithin(a.auxiliaryFunction, 0x0F) {
      outcome := Reject(rules, 1, TimebaseActionAuxiliaryFunction, index);
      return;
    }
    return Accepted;
  }

  method CheckVehicleDetector(d: VehicleDetector, phaseCount: uint8, index: nat) returns (outcome: Outcome<ConfigError>)
    ensures ReportsObject(VehicleRules(d, phaseCount, index), outcome)
  {
    ghost var rules := VehicleRules(d, phaseCount, index);
    if NormalizeVehicleDetectorOptions(d.options) != d.options {
      outcome := Reject(rules, 0, VehicleDetectorOptions, index);
      return;
    }
    if d.callPhase > phaseCount {
      outcome := Reject(rules, 1, VehicleDetectorCallPhase, index);
      return;
    }
    if d.switchPhase > phaseCount {
      outcome := Reject(rules, 2, VehicleDetectorSwitchPhase, index);
      return;
    }
    if d.delayDs > 2550 {
      outcome := Reject(rules, 3, VehicleDetectorDelay, index);
      return;
    }
    if !OnlyWithin(d.options2, 0x07) {
      outcome := Reject(rules, 4, VehicleDetectorOptions2, index);
      return;
    }
    if d.pairedDetector > VEHICLE_DETECTOR_COUNT_MAX || d.pairedDetector == index {
      outcome := Reject(rules, 5, VehicleDetectorPaired, index);
      return;
    }
    if d.avgVehicleLengthCm == 0 || d.avgVehicleLengthCm > 4000
         || (d.detectorLengthCm != 65535 && (d.detectorLengthCm == 0 || d.detectorLengthCm > 4000)) {
      outcome := Reject(rules, 6, VehicleDetectorOptions2, index);
      return;
    }
    if d.travelMode < 1 || d.travelMode > 4 {
      outcome := Reject(rules, 7, VehicleDetectorTravelMode, index);
      return;
    }
    return Accepted;
  }

  method CheckPedDetector(d: PedDetector, phaseCount: uint8, index: nat) returns (outcome: Outcome<ConfigError>)
    ensures ReportsObject(PedRules(d, phaseCount, index), outcome)
  {
    ghost var rules := PedRules(d, phaseCount, index);
    if d.callPhase > phaseCount {
      outcome := Reject(rules, 0, PedDetectorCallPhase, index);
      return;
    }
    if !OnlyWithin(d.options, 0x07) {
      outcome := Reject(rules, 1, PedDetectorOptions, index);
      return;
    }
    return Accepted;
  }

  method CheckReports(d: DetectorReports) returns (outcome: Outcome<ConfigError>)
    ensures ReportsObject(ReportRules(d), outcome)
  {
    ghost var rules := ReportRules(d);
    if d.volumeOccupancyPeriodV3Seconds != 0 && d.volumeOccupancyPeriodV3Seconds > 3600
       && d.volumeOccupancyPeriodV3Seconds != 65535 {
      outcome := Reject(rules, 0, VehicleReportPeriodV3, 1);
      return;
    }
    if d.pedestrianDetectorPeriodSeconds != 0 && d.pedestrianDetectorPeriodSeconds > 3600
       && d.pedestrianDetectorPeriodSeconds != 65534 && d.pedestrianDetectorPeriodSeconds != 65535 {
      outcome := Reject(rules, 1, PedReportPeriod, 1);
      return;
    }
    return Accepted;
  }

  method CheckPreemptService(p: Preempt, phaseCount: uint8, index: nat) returns (outcome: Outcome<ConfigError>)
    requires p.Shaped() && phaseCount <= PHASE_COUNT_MAX
    ensures ReportsObject(PreemptServiceRules(p, phaseCount, index), outcome)
  {
    ghost var rules := PreemptServiceRules(p, phaseCount, index);
    if !OnlyWithin(p.control, 0x3F) {
      outcome := Reject(rules, 0, PreemptControl, index);
      return;
    }
    if p.link > PREEMPT_COUNT_MAX {
      outcome := Reject(rules, 1, PreemptLink, index);
      return;
    }
    var listOk := ValidateReferenceList(p.trackPhases, PHASE_COUNT_MAX, phaseCount);
    if !listOk {
      outcome := Reject(rules, 2, PreemptTrackPhases, index);
      return;
    }
    listOk := ValidateReferenceList(p.dwellPhases, PHASE_COUNT_MAX, phaseCount);
    if !listOk {
      outcome := Reject(rules, 3, PreemptDwellPhases, index);
      return;
    }
    listOk := ValidateReferenceList(p.dwellPeds, PHASE_COUNT_MAX, phaseCount);
    if !listOk {
      outcome := Reject(rules, 4, PreemptDwellPeds, index);
      return;
    }
    listOk := ValidateReferenceList(p.exitPhases, PHASE_COUNT_MAX, phaseCount);
    if !listOk {
      outcome := Reject(rules, 5, PreemptExitPhases, index);
      return;
    }
    return Accepted;
  }

  method CheckPreemptCycling(p: Preempt, phaseCount: uint8, index: nat) returns (outcome: Outcome<ConfigError>)
    requires p.Shaped() && phaseCount <= PHASE_COUNT_MAX
    ensures ReportsObject(PreemptCyclingRules(p, phaseCount, index), outcome)
  {
    ghost var rules := PreemptCyclingRules(p, phaseCount, index);
    var listOk := ValidateReferenceList(p.trackOverlaps, OVERLAP_COUNT_MAX, OVERLAP_COUNT_MAX);
    if !listOk {
      outcome := Reject(rules, 0, PreemptTrackOverlaps, index);
      return;
    }
    listOk := ValidateReferenceList(p.dwellOverlaps, OVERLAP_COUNT_MAX, OVERLAP_COUNT_MAX);
    if !listOk {
      outcome := Reject(rules, 1, PreemptDwellOverlaps, index);
      return;
    }
    listOk := ValidateReferenceList(p.cyclingPhases, PHASE_COUNT_MAX, phaseCount);
    if !listOk {
      outcome := Reject(rules, 2, PreemptCyclingPhases, index);
      return;
    }
    listOk := ValidateReferenceList(p.cyclingPeds, PHASE_COUNT_MAX, phaseCount);
    if !listOk {
      outcome := Reject(rules, 3, PreemptCyclingPeds, index);
      return;
    }
    listOk := ValidateReferenceList(p.cyclingOverlaps, OVERLAP_COUNT_MAX, OVERLAP_COUNT_MAX);
    if !listOk {
      outcome := Reject(rules, 4, PreemptCyclingOverlaps, index);
      return;
    }
    if p.sequenceNumber == 0 || p.sequenceNumber > 1 {
      outcome := Reject(rules, 5, PreemptSequenceNumber, index);
      return;
    }
    if p.exitType < 1 || p.exitType > 4 {
      outcome := Reject(rules, 6, PreemptExitType, index);
      return;
    }
    return Accepted;
  }

  method CheckPreemptInput(m: InputMapping, i: nat) returns (outcome: Outcome<ConfigError>)
    requires m.Shaped() && i < PREEMPT_COUNT_MAX
    ensures ReportsObject(PreemptInputRules(m, i), outcome)
  {
    ghost var rules := PreemptInputRules(m, i);
    if m.preemptInputs[i] > PREEMPT_COUNT_MAX {
      outcome := Reject(rules, 0, PreemptInputSource, i + 1);
      return;
    }
    if m.preemptControls[i] > PREEMPT_COUNT_MAX {
      outcome := Reject(rules, 1, PreemptControlSource, i + 1);
      return;
    }
    return Accepted;
  }

  method CheckChannel(h: Channel, phaseCount: uint8, index: nat) returns (outcome: Outcome<ConfigError>)
    requires h.Shaped() && phaseCount <= PHASE_COUNT_MAX
    ensures ReportsObject(ChannelRules(h, phaseCount, index), outcome)
  {
    ghost var rules := ChannelRules(h, phaseCount, index);
    if h.controlType < 1 || h.controlType > 6 {
      outcome := Reject(rules, 0, ChannelControlType, index);
      return;
    }
    if !OnlyWithin(h.flashMask, 0x0E) {
      outcome := Reject(rules, 1, ChannelFlashMask, index);
      return;
    }
    if !OnlyWithin(h.dimMask, 0x0F) {
      outcome := Reject(rules, 2, ChannelDimMask, index);
      return;
    }
    if h.greenType < 1 || h.greenType > 5 {
      outcome := Reject(rules, 3, ChannelGreenType, index);
      return;
    }
    var listOk := ValidateReferenceList(h.greenIncluded, CHANNEL_COUNT_MAX, CHANNEL_COUNT_MAX);
    if !listOk {
      outcome := Reject(rules, 4, ChannelGreenIncluded, index);
      return;
    }
    if h.controlSource != 0 {
      match h.controlType
      case 2 | 3 =>
        if h.controlSource > phaseCount {
          outcome := Reject(rules, 5, ChannelControlSource, index);
          return;
        }
      case 4 | 5 | 6 =>
        if h.controlSource > OVERLAP_COUNT_MAX {
          outcome := Reject(rules, 5, ChannelControlSource, index);
          return;
        }
      case _ =>
        outcome := Reject(rules, 5, ChannelControlSource, index);
        return;
    }
    return Accepted;
  }

  method CheckOverlapLists(o: Overlap, phaseCount: uint8, index: nat) returns (outcome: Outcome<ConfigError>)
    requires o.Shaped() && phaseCount <= PHASE_COUNT_MAX
    ensures ReportsObject(OverlapRules(o, phaseCount, index), outcome)
  {
    ghost var rules := OverlapRules(o, phaseCount, index);
    if o.overlapType < 1 || o.overlapType > 10 {
      outcome := Reject(rules, 0, OverlapType, index);
      return;
    }
    var listOk := ValidateReferenceList(o.includedPhases, PHASE_COUNT_MAX, phaseCount);
    if !listOk {
      outcome := Reject(rules, 1, OverlapIncludedPhases, index);
      return;
    }
    listOk := ValidateReferenceList(o.modifierPhases, PHASE_COUNT_MAX, phaseCount);
    if !listOk {
      outcome := Reject(rules, 2, OverlapModifierPhases, index);
      return;
    }
    listOk := ValidateReferenceList(o.conflictingPedPhases, PHASE_COUNT_MAX, phaseCount);
    if !listOk {
      outcome := Reject(rules, 3, OverlapConflictingPedPhases, index);
      return;
    }
    return Accepted;
  }

  method CheckOverlapTimes(o: Overlap, index: nat) returns (outcome: Outcome<ConfigError>)
    ensures ReportsObject(OverlapTimeRules(o, index), outcome)
  {
    ghost var rules := OverlapTimeRules(o, index);
    if o.trailGreenDs > 2550 {
      outcome := Reject(rules, 0, OverlapTrailGreen, index);
      return;
    }
    if o.trailYellowDs > 255 {
      outcome := Reject(rules, 1, OverlapTrailYellow, index);
      return;
    }
    if o.trailRedDs > 255 {
      outcome := Reject(rules, 2, OverlapTrailRed, index);
      return;
    }
    if o.walkSeconds > 255 {
      outcome := Reject(rules, 3, OverlapWalk, index);
      return;
    }
    if o.pedClearSeconds > 255 {
      outcome := Reject(rules, 4, OverlapPedClear, index);
      return;
    }
    if o.overlapType == OVERLAP_OTHER {
      return Accepted;
    }
    if o.includedPhases.length == 0 {
      outcome := Reject(rules, 5, OverlapIncludedPhases, index);
      return;
    }
    if o.overlapType != OVERLAP_NORMAL {
      outcome := Reject(rules, 6, OverlapType, index);
      return;
    }
    return Accepted;
  }

  /** One turn of the phase loop. */
  method CheckPhase(c: Config, i: nat) returns (outcome: Outcome<ConfigError>)
    requires c.Shaped() && i < c.phaseCount <= PHASE_COUNT_MAX
    ensures ReportsObject(PhaseRules(c, i), outcome)
  {
    ghost var green, timing := PhaseGreenRules(c.phases[i], c.ringCount, i + 1), PhaseTimingRules(c, i);
    outcome := CheckPhaseGreen(c.phases[i], c.ringCount, i + 1);
    ObjectConcat(green, timing, outcome);
    if outcome.Rejected? {
      return;
    }
    outcome := CheckPhaseTiming(c, i);
    ObjectConcat(green, timing, outcome);
  }

  method CheckPreempt(p: Preempt, phaseCount: uint8, index: nat) returns (outcome: Outcome<ConfigError>)
    requires p.Shaped() && phaseCount <= PHASE_COUNT_MAX
    ensures ReportsObject(PreemptRules(p, phaseCount, index), outcome)
  {
    ghost var service, cycling := PreemptServiceRules(p, phaseCount, index), PreemptCyclingRules(p, phaseCount, index);
    outcome := CheckPreemptService(p, phaseCount, index);
    ObjectConcat(service, cycling, outcome);
    if outcome.Rejected? {
      return;
    }
    outcome := CheckPreemptCycling(p, phaseCount, index);
    ObjectConcat(service, cycling, outcome);
  }

  method CheckOverlap(o: Overlap, phaseCount: uint8, index: nat) returns (outcome: Outcome<ConfigError>)
    requires o.Shaped() && phaseCount <= PHASE_COUNT_MAX
    ensures ReportsObject(AllOverlapRules(o, phaseCount, index), outcome)
  {
    ghost var lists, times := OverlapRules(o, phaseCount, index), OverlapTimeRules(o, index);
    outcome := CheckOverlapLists(o, phaseCount, index);
    ObjectConcat(lists, times, outcome);
    if outcome.Rejected? {
      return;
    }
    outcome := CheckOverlapTimes(o, index);
    ObjectConcat(lists, times, outcome);
  }

  // ----- the loops over objects -----

  method CheckBackups(c: Config) returns (outcome: Outcome<ConfigError>)
    requires c.Shaped()
    ensures Reports(Section(c, 1), outcome)
  {
    ghost var table := Section(c, 1);
    for i := 0 to BACKUP_CONTENT_COUNT_MAX
      invariant forall p :: 0 <= p < i ==> AllHold(table[p])
    {
      outcome := CheckBackup(c.userDefinedBackupContents[i], i + 1);
      assert ReportsObject(table[i], outcome);
      if outcome.Rejected? {
        return;
      }
    }
    return Accepted;
  }

  method CheckPhases(c: Config) returns (outcome: Outcome<ConfigError>)
    requires c.Shaped() && c.phaseCount <= PHASE_COUNT_MAX
    ensures Reports(Section(c, 2), outcome)
  {
    ghost var table := Section(c, 2);
    for i := 0 to c.phaseCount
      invariant forall p :: 0 <= p < i ==> AllHold(table[p])
    {
      outcome := CheckPhase(c, i);
      assert ReportsObject(table[i], outcome);
      if outcome.Rejected? {
        return;
      }
    }
    return Accepted;
  }

  method CheckPatterns(c: Config) returns (outcome: Outcome<ConfigError>)
    requires c.Shaped()
    ensures Reports(Section(c, 6), outcome)
  {
    ghost var table := Section(c, 6);
    for i := 0 to PATTERN_COUNT_MAX
      invariant forall p :: 0 <= p < i ==> AllHold(table[p])
    {
      outcome := CheckPattern(c.coordination.patterns[i], i + 1);
      assert ReportsObject(table[i], outcome);
      if outcome.Rejected? {
        return;
      }
    }
    return Accepted;
  }

  method CheckActions(c: Config) returns (outcome: Outcome<ConfigError>)
    requires c.Shaped()
    ensures Reports(Section(c, 8), outcome)
  {
    ghost var table := Section(c, 8);
    for i := 0 to TIMEBASE_ACTION_COUNT_MAX
      invariant forall p :: 0 <= p < i ==> AllHold(table[p])
    {
      outcome := CheckAction(c.timebaseActions[i], i + 1);
      assert ReportsObject(table[i], outcome);
      if outcome.Rejected? {
        return;
      }
    }
    return Accepted;
  }

  method CheckVehicleDetectors(c: Config) returns (outcome: Outcome<ConfigError>)
    requires c.Shaped()
    ensures Reports(Section(c, 9), outcome)
  {
    ghost var table := Section(c, 9);
    for i := 0 to VEHICLE_DETECTOR_COUNT_MAX
      invariant forall p :: 0 <= p < i ==> AllHold(table[p])
    {
      outcome := CheckVehicleDetector(c.vehicleDetectors[i], c.phaseCount, i + 1);
      assert ReportsObject(table[i], outcome);
      if outcome.Rejected? {
        return;
      }
    }
    return Accepted;
  }

  method CheckPedDetectors(c: Config) returns (outcome: Outcome<ConfigError>)
    requires c.Shaped()
    ensures Reports(Section(c, 10), outcome)
  {
    ghost var table := Section(c, 10);
    for i := 0 to PED_INPUT_COUNT_MAX
      invariant forall p :: 0 <= p < i ==> AllHold(table[p])
    {
      outcome := CheckPedDetector(c.pedestrianDetectors[i], c.phaseCount, i + 1);
      assert ReportsObject(table[i], outcome);
      if outcome.Rejected? {
        return;
      }
    }
    return Accepted;
  }

  method CheckPreemptInputs(c: Config) returns (outcome: Outcome<ConfigError>)
    requires c.Shaped()
    ensures Reports(Section(c, 14), outcome)
  {
    ghost var table := Section(c, 14);
    for i := 0 to PREEMPT_COUNT_MAX
      invariant forall p :: 0 <= p < i ==> AllHold(table[p])
    {
      outcome := CheckPreemptInput(c.inputMapping, i);
      assert ReportsObject(table[i], outcome);
      if outcome.Rejected? {
        return;
      }
    }
    return Accepted;
  }

  method CheckChannels(c: Config) returns (outcome: Outcome<ConfigError>)
    requires c.Shaped() && c.phaseCount <= PHASE_COUNT_MAX
    ensures Reports(Section(c, 15), outcome)
  {
    ghost var table := Section(c, 15);
    for i := 0 to CHANNEL_COUNT_MAX
      invariant forall p :: 0 <= p < i ==> AllHold(table[p])
    {
      outcome := CheckChannel(c.channels[i], c.phaseCount, i + 1);
      assert ReportsObject(table[i], outcome);
      if outcome.Rejected? {
        return;
      }
    }
    return Accepted;
  }

  method CheckOverlaps(c: Config) returns (outcome: Outcome<ConfigError>)
    requires c.Shaped() && c.phaseCount <= PHASE_COUNT_MAX
    ensures Reports(Section(c, 16), outcome)
  {
    ghost var table := Section(c, 16);
    for i := 0 to OVERLAP_COUNT_MAX
      invariant forall p :: 0 <= p < i ==> AllHold(table[p])
    {
      outcome := CheckOverlap(c.overlaps[i], c.phaseCount, i + 1);
      assert ReportsObject(table[i], outcome);
      if outcome.Rejected? {
        return;
      }
    }
    return Accepted;
  }

  // ----- nested loops -----

  method CheckSplitRow(c: Config, r: nat) returns (outcome: Outcome<ConfigError>)
    requires c.Shaped() && c.phaseCount <= PHASE_COUNT_MAX && r < SPLIT_COUNT_MAX
    ensures Reports(SplitTable(c, r), outcome)
  {
    ghost var table := SplitTable(c, r);
    for s := 0 to c.phaseCount
      invariant forall p :: 0 <= p < s ==> AllHold(table[p])
    {
      outcome := CheckSplit(c.coordination.splits[r][s], r * PHASE_COUNT_MAX + s + 1);
      assert ReportsObject(table[s], outcome);
      if outcome.Rejected? {
        return;
      }
    }
    return Accepted;
  }

  method CheckSplits(c: Config) returns (outcome: Outcome<ConfigError>)
    requires c.Shaped() && c.phaseCount <= PHASE_COUNT_MAX
    ensures Reports(Section(c, 7), outcome)
  {
    ghost var tables := SplitTables(c);
    for r := 0 to SPLIT_COUNT_MAX
      invariant Reports(Flatten(tables[..r]), Accepted)
    {
      outcome := CheckSplitRow(c, r);
      ScanOn(tables, r, outcome);
      if outcome.Rejected? {
        return;
      }
    }
    assert tables[..SPLIT_COUNT_MAX] == tables;
    return Accepted;
  }

  /** A pre-emption and then its queue-delay weights. */
  method CheckPreemptAndWeights(c: Config, i: nat) returns (outcome: Outcome<ConfigError>)
    requires c.Shaped() && c.phaseCount <= PHASE_COUNT_MAX && i < PREEMPT_COUNT_MAX
    ensures Reports(PreemptTable(c, i), outcome)
  {
    ghost var table := PreemptTable(c, i);
    outcome := CheckPreempt(c.preempts[i], c.phaseCount, i + 1);
    assert ReportsObject(table[0], outcome);
    if outcome.Rejected? {
      return;
    }
    for d := 0 to VEHICLE_DETECTOR_COUNT_MAX
      invariant forall p :: 0 <= p <= d ==> AllHold(table[p])
    {
      var index := i * VEHICLE_DETECTOR_COUNT_MAX + d + 1;
      if c.preemptQueueDelayWeights[i][d] > 1000 {
        outcome := Reject(table[d + 1], 0, PreemptQueueDelayWeight, index);
        return;
      }
    }
    return Accepted;
  }

  method CheckPreempts(c: Config) returns (outcome: Outcome<ConfigError>)
    requires c.Shaped() && c.phaseCount <= PHASE_COUNT_MAX
    ensures Reports(Section(c, 12), outcome)
  {
    ghost var tables := PreemptTables(c);
    for i := 0 to PREEMPT_COUNT_MAX
      invariant Reports(Flatten(tables[..i]), Accepted)
    {
      outcome := CheckPreemptAndWeights(c, i);
      ScanOn(tables, i, outcome);
      if outcome.Rejected? {
        return;
      }
    }
    assert tables[..PREEMPT_COUNT_MAX] == tables;
    return Accepted;
  }

  // ----- ring plans: one array of phases seen, shared by all rings -----

  /** The array marks exactly the phases listed before the slot. */
  ghost predicate Marks(phaseSeen: array<uint8>, c: Config, r: nat, s: nat)
    requires c.Shaped()
    reads phaseSeen
  {
    && phaseSeen.Length == PHASE_COUNT_MAX
    && forall p :: 0 <= p < PHASE_COUNT_MAX ==> (phaseSeen[p] != 0 <==> ListedBefore(c, r, s, p))
  }

  method CheckSlot(c: Config, r: nat, s: nat, phaseSeen: array<uint8>) returns (outcome: Outcome<ConfigError>)
    requires c.Shaped() && c.phaseCount <= PHASE_COUNT_MAX && r < RING_COUNT_MAX && s < Slots(c, r)
    requires Marks(phaseSeen, c, r, s)
    modifies phaseSeen
    ensures ReportsObject(SlotRules(c, r, s), outcome)
    ensures outcome.Accepted? ==> Marks(phaseSeen, c, r, s + 1)
  {
    ghost var rules := SlotRules(c, r, s);
    var planned := c.rings[r].phaseOrder[s];
    if planned >= c.phaseCount {
      outcome := Reject(rules, 0, RingPhaseOrder, r + 1);
      return;
    }
    if phaseSeen[planned] != 0 {
      outcome := Reject(rules, 1, RingPhaseOrder, r + 1);
      return;
    }
    if !c.phases[planned].Enabled() || c.phases[planned].ring != r {
      outcome := Reject(rules, 2, PhaseAssignment, planned + 1);
      return;
    }
    phaseSeen[planned] := 1;
    ListedNext(c, r, s);
    return Accepted;
  }

  lemma ListedNext(c: Config, r: nat, s: nat)
    requires c.Shaped() && r < RING_COUNT_MAX && s < Slots(c, r)
    ensures forall p :: ListedBefore(c, r, s + 1, p) <==> ListedBefore(c, r, s, p) || p == Planned(c, r, s)
  {
    assert ListedBefore(c, r, s + 1, Planned(c, r, s));
  }

  /** Past the last slot of a ring is before the first slot of the next. */
  lemma ListedAcross(c: Config, r: nat)
    requires c.Shaped() && r < RING_COUNT_MAX
    ensures forall p :: ListedBefore(c, r, Slots(c, r), p) <==> ListedBefore(c, r + 1, 0, p)
  {
  }

  method CheckRing(c: Config, r: nat, phaseSeen: array<uint8>) returns (outcome: Outcome<ConfigError>)
    requires c.Shaped() && c.phaseCount <= PHASE_COUNT_MAX && r < RING_COUNT_MAX && Marks(phaseSeen, c, r, 0)
    modifies phaseSeen
    ensures Reports(RingTable(c, r), outcome)
    ensures outcome.Accepted? ==> Marks(phaseSeen, c, r + 1, 0)
  {
    ghost var table := RingTable(c, r);
    var plan := c.rings[r];
    if plan.phaseCount == 0 || plan.phaseCount > RING_PHASE_COUNT_MAX {
      outcome := Reject(table[0], 0, RingPhaseCount, r + 1);
      return;
    }
    if plan.barrierPhaseCount == 0 || plan.barrierPhaseCount > plan.phaseCount {
      outcome := Reject(table[0], 1, RingBarrierPosition, r + 1);
      return;
    }
    for s := 0 to plan.phaseCount
      invariant Marks(phaseSeen, c, r, s)
      invariant forall p :: 0 <= p <= s ==> AllHold(table[p])
    {
      outcome := CheckSlot(c, r, s, phaseSeen);
      assert ReportsObject(table[s + 1], outcome);
      if outcome.Rejected? {
        return;
      }
    }
    ListedAcross(c, r);
    return Accepted;
  }

  method CheckRings(c: Config, phaseSeen: array<uint8>) returns (outcome: Outcome<ConfigError>)
    requires c.Shaped() && CountsOk(c) && Marks(phaseSeen, c, 0, 0)
    modifies phaseSeen
    ensures Reports(Section(c, 3), outcome)
    ensures outcome.Accepted? ==> Marks(phaseSeen, c, c.ringCount, 0)
  {
    ghost var tables := RingTables(c);
    for r := 0 to c.ringCount
      invariant Marks(phaseSeen, c, r, 0)
      invariant Reports(Flatten(tables[..r]), Accepted)
    {
      outcome := CheckRing(c, r, phaseSeen);
      ScanOn(tables, r, outcome);
      if outcome.Rejected? {
        return;
      }
    }
    assert tables[..c.ringCount] == tables;
    return Accepted;
  }

  method CheckUnassigned(c: Config, phaseSeen: array<uint8>) returns (outcome: Outcome<ConfigError>)
    requires c.Shaped() && CountsOk(c) && Marks(phaseSeen, c, c.ringCount, 0)
    ensures Reports(Section(c, 4), outcome)
  {
    ghost var table := UnassignedTable(c);
    for i := 0 to c.phaseCount
      invariant forall p :: 0 <= p < i ==> AllHold(table[p])
    {
      assert table[i] == UnassignedRules(c, i);
      if c.phases[i].Enabled() && phaseSeen[i] == 0 {
        outcome := Reject(table[i], 0, PhaseAssignment, i + 1);
        return;
      }
    }
    return Accepted;
  }

  // ----- input mapping: arrays of detectors and pedestrian inputs seen -----

  /** The array marks exactly the non-zero entries before index i. */
  ghost predicate MarksUsed(seen: array<uint8>, m: seq<uint8>, i: nat)
    requires i <= |m|
    reads seen
  {
    forall d :: 0 <= d < seen.Length ==> (seen[d] != 0 <==> d + 1 in m[..i])
  }

  lemma FirstUseExactlyWhen(m: seq<uint8>, i: nat)
    requires i < |m|
    ensures FirstUse(m, i) <==> m[i] == 0 || m[i] !in m[..i]
  {
    if m[i] in m[..i] {
      var j :| 0 <= j < i && m[..i][j] == m[i];
      assert m[j] == m[i];
    } else {
      forall j | 0 <= j < i ensures m[j] != m[i] {
        assert m[..i][j] == m[j];
      }
    }
  }

  datatype InputUse = OutOfRange | Repeated | Fresh

  method CheckInput(m: seq<uint8>, i: nat, seen: array<uint8>) returns (use: InputUse)
    requires i < |m| && MarksUsed(seen, m, i)
    modifies seen
    ensures use.OutOfRange? <==> m[i] > seen.Length
    ensures !use.OutOfRange? ==> (use.Repeated? <==> !FirstUse(m, i))
    ensures use.Fresh? ==> MarksUsed(seen, m, i + 1)
  {
    FirstUseExactlyWhen(m, i);
    assert m[..i + 1] == m[..i] + [m[i]];
    if m[i] > seen.Length {
      return OutOfRange;
    }
    if m[i] != 0 {
      if seen[m[i] - 1] != 0 {
        return Repeated;
      }
      seen[m[i] - 1] := 1;
    }
    return Fresh;
  }

  method CheckPhaseInputs(c: Config) returns (outcome: Outcome<ConfigError>)
    requires c.Shaped()
    ensures Reports(Section(c, 13), outcome)
  {
    ghost var table := Section(c, 13);
    var seenDetectors := new uint8[VEHICLE_DETECTOR_COUNT_MAX](_ => 0);
    var seenPedInputs := new uint8[PED_INPUT_COUNT_MAX](_ => 0);
    for i := 0 to PHASE_COUNT_MAX
      invariant MarksUsed(seenDetectors, c.inputMapping.phaseDetectors, i)
      invariant MarksUsed(seenPedInputs, c.inputMapping.phasePedInputs, i)
      invariant forall p :: 0 <= p < i ==> AllHold(table[p])
    {
      outcome := CheckPhaseInput(c.inputMapping, i, seenDetectors, seenPedInputs);
      assert ReportsObject(table[i], outcome);
      if outcome.Rejected? {
        return;
      }
    }
    return Accepted;
  }

  method CheckPhaseInput(m: InputMapping, i: nat, seenDetectors: array<uint8>, seenPedInputs: array<uint8>)
    returns (outcome: Outcome<ConfigError>)
    requires m.Shaped() && i < PHASE_COUNT_MAX && seenDetectors != seenPedInputs
    requires seenDetectors.Length == VEHICLE_DETECTOR_COUNT_MAX && MarksUsed(seenDetectors, m.phaseDetectors, i)
    requires seenPedInputs.Length == PED_INPUT_COUNT_MAX && MarksUsed(seenPedInputs, m.phasePedInputs, i)
    modifies seenDetectors, seenPedInputs
    ensures ReportsObject(InputRules(m, i), outcome)
    ensures outcome.Accepted? ==> MarksUsed(seenDetectors, m.phaseDetectors, i + 1)
    ensures outcome.Accepted? ==> MarksUsed(seenPedInputs, m.phasePedInputs, i + 1)
  {
    ghost var rules := InputRules(m, i);
    var use := CheckInput(m.phaseDetectors, i, seenDetectors);
    if use.OutOfRange? {
      outcome := Reject(rules, 0, PhaseDetectorInput, i + 1);
      return;
    }
    if use.Repeated? {
      outcome := Reject(rules, 1, PhaseDetectorInput, i + 1);
      return;
    }
    use := CheckInput(m.phasePedInputs, i, seenPedInputs);
    if use.OutOfRange? {
      outcome := Reject(rules, 2, PhasePedInput, i + 1);
      return;
    }
    if use.Repeated? {
      outcome := Reject(rules, 3, PhasePedInput, i + 1);
      return;
    }
    return Accepted;
  }

  // ----- the validator -----

  /** The scan has passed the first k sections. */
  ghost predicate Passed(c: Config, k: nat)
    requires c.Shaped() && k <= SECTIONS
  {
    Reports(Flatten(Sections(c)[..k]), Accepted)
  }

  /** A section's outcome lets the scan go on, or is the verdict. */
  lemma OneSection(c: Config, k: nat, outcome: Outcome<ConfigError>)
    requires c.Shaped() && k < SECTIONS && Passed(c, k) && Reports(Section(c, k), outcome)
    ensures outcome.Accepted? ==> Passed(c, k + 1)
    ensures outcome.Rejected? ==> Reports(RuleTable(c), outcome)
  {
    ScanOn(Sections(c), k, outcome);
  }

  lemma OneObjectSection(rules: Rules<ConfigError>, outcome: Outcome<ConfigError>)
    requires ReportsObject(rules, outcome)
    ensures Reports([rules], outcome)
  {
    AcceptedOne(rules);
    assert [rules][0] == rules;
  }

  method CheckUnitSection(c: Config) returns (outcome: Outcome<ConfigError>)
    requires c.Shaped()
    ensures Reports(Section(c, 0), outcome)
  {
    outcome := CheckUnit(c);
    OneObjectSection(UnitRules(c), outcome);
  }

  method CheckCoordinationSection(c: Config) returns (outcome: Outcome<ConfigError>)
    requires c.Shaped()
    ensures Reports(Section(c, 5), outcome)
  {
    outcome := CheckCoordination(c.coordination);
    OneObjectSection(CoordRules(c.coordination), outcome);
  }

  method CheckReportSection(c: Config) returns (outcome: Outcome<ConfigError>)
    requires c.Shaped()
    ensures Reports(Section(c, 11), outcome)
  {
    outcome := CheckReports(c.detectorReports);
    OneObjectSection(ReportRules(c.detectorReports), outcome);
  }

  /** The unit and the phases. */
  method CheckPlan(c: Config) returns (outcome: Outcome<ConfigError>)
    requires c.Shaped() && Passed(c, 0)
    ensures outcome.Accepted? ==> Passed(c, 3) && CountsOk(c)
    ensures outcome.Rejected? ==> Reports(RuleTable(c), outcome)
  {
    outcome := CheckUnitSection(c);
    OneSection(c, 0, outcome);
    if outcome.Rejected? {
      return;
    }
    AcceptedOne(UnitRules(c));
    UnitRulesMean(c);
    outcome := CheckBackups(c);
    OneSection(c, 1, outcome);
    if outcome.Rejected? {
      return;
    }
    outcome := CheckPhases(c);
    OneSection(c, 2, outcome);
  }

  /** The ring plans and the phases they leave out. */
  method CheckService(c: Config) returns (outcome: Outcome<ConfigError>)
    requires c.Shaped() && CountsOk(c) && Passed(c, 3)
    ensures outcome.Accepted? ==> Passed(c, 5)
    ensures outcome.Rejected? ==> Reports(RuleTable(c), outcome)
  {
    var phaseSeen := new uint8[PHASE_COUNT_MAX](_ => 0);
    outcome := CheckRings(c, phaseSeen);
    OneSection(c, 3, outcome);
    if outcome.Rejected? {
      return;
    }
    outcome := CheckUnassigned(c, phaseSeen);
    OneSection(c, 4, outcome);
  }

  /** Coordination and the time base. */
  method CheckTiming(c: Config) returns (outcome: Outcome<ConfigError>)
    requires c.Shaped() && CountsOk(c) && Passed(c, 5)
    ensures outcome.Accepted? ==> Passed(c, 9)
    ensures outcome.Rejected? ==> Reports(RuleTable(c), outcome)
  {
    outcome := CheckCoordinationSection(c);
    OneSection(c, 5, outcome);
    if outcome.Rejected? {
      return;
    }
    outcome := CheckPatterns(c);
    OneSection(c, 6, outcome);
    if outcome.Rejected? {
      return;
    }
    outcome := CheckSplits(c);
    OneSection(c, 7, outcome);
    if outcome.Rejected? {
      return;
    }
    outcome := CheckActions(c);
    OneSection(c, 8, outcome);
    if outcome.Rejected? {
      return;
    }
  }

  /** Detectors and pre-emption. */
  method CheckInputs(c: Config) returns (outcome: Outcome<ConfigError>)
    requires c.Shaped() && CountsOk(c) && Passed(c, 9)
    ensures outcome.Accepted? ==> Passed(c, 13)
    ensures outcome.Rejected? ==> Reports(RuleTable(c), outcome)
  {
    outcome := CheckVehicleDetectors(c);
    OneSection(c, 9, outcome);
    if outcome.Rejected? {
      return;
    }
    outcome := CheckPedDetectors(c);
    OneSection(c, 10, outcome);
    if outcome.Rejected? {
      return;
    }
    outcome := CheckReportSection(c);
    OneSection(c, 11, outcome);
    if outcome.Rejected? {
      return;
    }
    outcome := CheckPreempts(c);
    OneSection(c, 12, outcome);
    if outcome.Rejected? {
      return;
    }
  }

  /** The input mapping, channels and overlaps. */
  method CheckOutputs(c: Config) returns (outcome: Outcome<ConfigError>)
    requires c.Shaped() && CountsOk(c) && Passed(c, 13)
    ensures outcome.Accepted? ==> Passed(c, 17)
    ensures outcome.Rejected? ==> Reports(RuleTable(c), outcome)
  {
    outcome := CheckPhaseInputs(c);
    OneSection(c, 13, outcome);
    if outcome.Rejected? {
      return;
    }
    outcome := CheckPreemptInputs(c);
    OneSection(c, 14, outcome);
    if outcome.Rejected? {
      return;
    }
    outcome := CheckChannels(c);
    OneSection(c, 15, outcome);
    if outcome.Rejected? {
      return;
    }
    outcome := CheckOverlaps(c);
    OneSection(c, 16, outcome);
    if outcome.Rejected? {
      return;
    }
  }

  /** The scan from beginning to end. */
  method CheckAll(c: Config) returns (outcome: Outcome<ConfigError>)
    requires c.Shaped()
    ensures Reports(RuleTable(c), outcome)
  {
    outcome := CheckPlan(c);
    if outcome.Rejected? {
      return;
    }
    outcome := CheckService(c);
    if outcome.Rejected? {
      return;
    }
    outcome := CheckTiming(c);
    if outcome.Rejected? {
      return;
    }
    outcome := CheckInputs(c);
    if outcome.Rejected? {
      return;
    }
    outcome := CheckOutputs(c);
    assert Sections(c)[..SECTIONS] == Sections(c);
  }

  class ErrorInfo {
    var error: ConfigError
    var objectIndex: nat

    constructor ()
      ensures error == NoError && objectIndex == 0
    {
      error, objectIndex := NoError, 0;
    }
  }

  /** IntersectionConfigValidate: true exactly for a well-formed configuration; otherwise errorInfo
      names the first failing rule in scan order, and with it a field that is out of order. */
  method Validate(c: Config, errorInfo: ErrorInfo) returns (ok: bool)
    requires c.Shaped()
    modifies errorInfo
    ensures ok <==> WellFormed(c)
    ensures ok ==> errorInfo.error == NoError && errorInfo.objectIndex == 0
    ensures !ok ==> Reports(RuleTable(c), Rejected(errorInfo.error, errorInfo.objectIndex))
    ensures !ok ==> Blames(c, errorInfo.error, errorInfo.objectIndex)
  {
    errorInfo.error, errorInfo.objectIndex := NoError, 0;
    AcceptedExactlyWhenWellFormed(c);
    var outcome := CheckAll(c);
    if outcome.Rejected? {
      errorInfo.error, errorInfo.objectIndex := outcome.error, outcome.index;
      if WellFormed(c) {
        OutcomeIsUnique(RuleTable(c), outcome, Accepted);
      }
      RejectionBlames(c, outcome.error, outcome.index);
      return false;
    }
    return true;
  }

  // ----- the configuration updated in place -----

  /** One detector loop of RebuildLegacyInputMapping: the first caller of each phase. */
  method MapCallers(calls: seq<uint8>) returns (m: seq<uint8>)
    requires |calls| < 0x100
    ensures m == FirstCallers(calls)
    ensures |m| == 8 && forall p :: 0 <= p < 8 ==>
      && (m[p] == 0 <==> p + 1 !in calls)
      && (m[p] > 0 ==> m[p] <= |calls| && calls[m[p] - 1] == p + 1 && p + 1 !in calls[..m[p] - 1])
  {
    m := seq(PHASE_COUNT_MAX, _ => 0);
    for d := 0 to |calls|
      invariant m == FirstCallers(calls[..d])
    {
      OneMoreCaller(calls, d);
      var phaseNumber := calls[d];
      if phaseNumber != 0 && phaseNumber <= PHASE_COUNT_MAX && m[phaseNumber - 1] == 0 {
        m := m[phaseNumber - 1 := d + 1];
      }
    }
    assert calls[..|calls|] == calls;
    FirstCallersMean(calls);
  }

  class Store {
    var config: Config

    constructor (c: Config)
      ensures config == c
    {
      config := c;
    }

    method RebuildLegacyInputMapping()
      requires config.Shaped()
      modifies this
      ensures config == Rebuilt(old(config)) && config.Shaped()
      ensures forall p :: 0 <= p < 8 ==> HasFirstDetector(config, p) && HasFirstPedInput(config, p)
      ensures config == old(config).(inputMapping := old(config).inputMapping.(
                phaseDetectors := config.inputMapping.phaseDetectors,
                phasePedInputs := config.inputMapping.phasePedInputs))
    {
      RebuiltMaps(config);
      var phaseDetectors := MapCallers(VehicleCalls(config));
      config := config.(inputMapping := config.inputMapping.(phaseDetectors := phaseDetectors));
      var phasePedInputs := MapCallers(PedCalls(config));
      config := config.(inputMapping := config.inputMapping.(phasePedInputs := phasePedInputs));
    }

    /** The defaults, which the validator accepts. */
    method InitDefaults()
      modifies this
      ensures config == Rebuilt(BlankDefaults())
      ensures config.Shaped() && WellFormed(config)
      ensures config.inputMapping == InputMapping([1, 2, 3, 4, 5, 6, 7, 8], [1, 2, 3, 4, 5, 6, 7, 8],
                                                  [1, 2, 3, 4, 5, 6, 7, 8], [1, 2, 3, 4, 5, 6, 7, 8])
    {
      DefaultInputs();
      config := BlankDefaults();
      RebuildLegacyInputMapping();
      DefaultsAccepted();
      AcceptedExactlyWhenWellFormed(config);
    }
  }
}
