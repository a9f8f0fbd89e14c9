/** What a reported error and object index say about the configuration: the field they blame is out
    of order. Stated over the fields, without the rule table. */
module IntersectionErrors {
  import opened ValidationRules
  import opened IntersectionConfig
  import opened IntersectionRules
  import opened IntersectionWellFormed
  import opened IntersectionDecision
  import opened IntersectionGuarantees

  // ----- the field behind each error -----

  predicate UnitBlamed(c: Config, error: ConfigError, index: nat) {
    index == 0 &&
    match error
    case PhaseCount => c.phaseCount == 0 || c.phaseCount > 8
    case RingCount => c.ringCount == 0 || c.ringCount > 2
    case BarrierCount => c.barrierCount == 0 || c.barrierCount > 2
    case UnitAutoPedestrianClear => c.unit.autoPedestrianClear !in {1, 2}
    case UnitStartupFlashMode => c.unit.startUpFlashMode !in {1, 2, 3}
    case UnitFailureFlashPeriod => c.unit.failureFlashPeriodDs !in {5, 10, 20, 40}
    case UnitTimeSource => c.unit.timeSourceCommanded !in {2, 3, 5}
    case UnitElevationOffset => c.unit.elevationOffsetMeters > 31
    case UnitUserDefinedBackupTime => c.unit.userDefinedBackupTimeSeconds > 0x100_0000
    case CoordCorrectionMode => !(1 <= c.coordination.correctionMode <= 5)
    case CoordMaximumMode => !(1 <= c.coordination.maximumMode <= 5)
    case CoordForceMode => !(1 <= c.coordination.forceMode <= 3)
    case CoordUnitSyncPoint => !(1 <= c.coordination.unitCoordSyncPoint <= 7)
    case _ => false
  }

  /** The errors of the first part of the phase scan. */
  predicate GreenBlamed(p: PhaseConfig, ringCount: uint8, error: ConfigError) {
    match error
    case PhaseRing => p.ring >= ringCount
    case PhaseStartup => !(1 <= p.startup <= 6)
    case MinGreen => p.Enabled() && p.minGreenDs == 0
    case Walk => p.Enabled() && p.walkSeconds > 255
    case PedClear => p.Enabled() && p.pedClearSeconds > 255
    case MaxGreen => p.Enabled() && p.maxGreenDs < p.minGreenDs
    case YellowChange => p.Enabled() && p.yellowChangeDs == 0
    case RedClear => p.Enabled() && p.redClearDs == 0
    case _ => false
  }

  /** The errors of the second part, but for the concurrency list. */
  predicate TimingBlamed(p: PhaseConfig, error: ConfigError) {
    p.Enabled() &&
    match error
    case Passage => p.passageDs == 0 || p.passageDs > p.maxGreenDs
    case MaxInitial => p.maxInitialDs == 0 || p.maxInitialDs < p.minGreenDs || p.maxInitialDs > p.maxGreenDs
    case PedAdvanceWalk => p.pedAdvanceWalkDs > 255
    case PedDelay => p.pedDelayDs > 255
    case PhaseMaximum2 => 0 < p.phaseMaximum2Ds < p.minGreenDs
    case PhaseMaximum3 => 0 < p.phaseMaximum3Ds < p.minGreenDs || p.phaseMaximum3Ds > 60000
    case MinimumGap => p.minimumGapDs > p.passageDs
    case PhaseAltMinTimeTransition =>
      || p.pedWalkService == 0 || p.pedAlternateClearSeconds > 255 || p.pedAlternateWalkSeconds > 255
      || p.advWarnGrnStartTimeDs > 128
      || (p.altMinTimeTransitionSeconds != 0 && 10 * p.altMinTimeTransitionSeconds < p.minGreenDs)
    case _ => false
  }

  ghost predicate PhaseBlamed(c: Config, error: ConfigError, index: nat)
    requires c.Shaped()
  {
    && 1 <= index <= Phases(c)
    && var p := c.phases[index - 1];
       || GreenBlamed(p, c.ringCount, error) || TimingBlamed(p, error)
       || (error == PhaseConcurrency && p.Enabled() && !ServesWithOthers(c, index - 1))
  }

  /** A slot in use of this ring or an earlier one, but not slot s of ring r. */
  ghost predicate Elsewhere(c: Config, r: nat, s: nat, r': nat, s': nat)
    requires c.Shaped() && r < 2
  {
    r' <= r && s' < Slots(c, r') && (r' != r || s' != s)
  }

  /** Slot s of ring r plans a phase that another slot, of this ring or an earlier one, plans too. */
  ghost predicate PlannedTwice(c: Config, r: nat, s: nat)
    requires c.Shaped() && r < 2 && s < 4
  {
    exists r': nat, s': nat :: Elsewhere(c, r, s, r', s') && Planned(c, r', s') == Planned(c, r, s)
  }

  ghost predicate SlotBlamed(c: Config, r: nat, s: nat)
    requires c.Shaped() && r < 2 && s < 4
  {
    Planned(c, r, s) >= Phases(c) || PlannedTwice(c, r, s)
  }

  ghost predicate SomeSlotBlamed(c: Config, r: nat)
    requires c.Shaped() && r < 2
  {
    exists s: nat :: s < Slots(c, r) && SlotBlamed(c, r, s)
  }

  ghost predicate RingBlamed(c: Config, error: ConfigError, index: nat)
    requires c.Shaped()
  {
    && 1 <= index <= Rings(c)
    && match error
       case RingPhaseCount => !(1 <= c.rings[index - 1].phaseCount <= 4)
       case RingBarrierPosition => !(1 <= c.rings[index - 1].barrierPhaseCount <= c.rings[index - 1].phaseCount)
       case RingPhaseOrder => SomeSlotBlamed(c, index - 1)
       case _ => false
  }

  /** The phase is planned in a slot although disabled or of another ring, or enabled and planned in none. */
  ghost predicate AssignmentBlamed(c: Config, error: ConfigError, index: nat)
    requires c.Shaped()
  {
    && error == PhaseAssignment && 1 <= index <= Phases(c)
    && (Misplaced(c, index - 1) || (c.phases[index - 1].Enabled() && NowhereServed(c, index - 1)))
  }

  ghost predicate Misplaced(c: Config, phase: nat)
    requires c.Shaped() && phase < Phases(c)
  {
    exists r: nat, s: nat :: Serves(c, r, s, phase) && (!c.phases[phase].Enabled() || c.phases[phase].ring != r)
  }

  ghost predicate NowhereServed(c: Config, phase: nat)
    requires c.Shaped()
  {
    forall r: nat, s: nat :: !Serves(c, r, s, phase)
  }

  predicate BackupBlamed(b: BackupContent, error: ConfigError) {
    match error
    case UnitUserDefinedBackupOid => b.oidLength > 32
    case UnitUserDefinedBackupDescription => b.descriptionLength > 64
    case _ => false
  }

  predicate PatternBlamed(p: Pattern, error: ConfigError) {
    match error
    case PatternSplitNumber => !(1 <= p.splitNumber <= 4)
    case PatternSequenceNumber => p.sequenceNumber != 1
    case PatternSyncPoint => !(1 <= p.coordSyncPoint <= 8)
    case PatternOptions => !(1 <= p.options <= 6)
    case _ => false
  }

  predicate ActionBlamed(a: TimebaseAction, error: ConfigError) {
    match error
    case TimebaseActionPattern => 9 <= a.pattern <= 253
    case TimebaseActionAuxiliaryFunction => a.auxiliaryFunction >= 16
    case _ => false
  }

  predicate SplitBlamed(s: SplitPhase, error: ConfigError) {
    match error
    case SplitMode => !(1 <= s.mode <= 8)
    case SplitCoordPhase => s.coordPhase > 1
    case SplitOptions => s.options >= 2
    case _ => false
  }

  /** Split s of row r, for a phase in use; eight of them make a row. */
  ghost predicate SplitAt(c: Config, r: nat, s: nat, index: nat)
    requires c.Shaped()
  {
    r < 4 && s < Phases(c) && index == 8 * r + s + 1
  }

  ghost predicate SplitsBlamed(c: Config, error: ConfigError, index: nat)
    requires c.Shaped()
  {
    exists r: nat, s: nat :: SplitAt(c, r, s, index) && SplitBlamed(c.coordination.splits[r][s], error)
  }

  predicate VehicleBlamed(d: VehicleDetector, phaseCount: uint8, error: ConfigError, index: nat) {
    match error
    case VehicleDetectorOptions => d.options & 0x0C == 0x0C
    case VehicleDetectorCallPhase => d.callPhase > phaseCount
    case VehicleDetectorSwitchPhase => d.switchPhase > phaseCount
    case VehicleDetectorDelay => d.delayDs > 2550
    case VehicleDetectorOptions2 =>
      || d.options2 >= 8 || d.avgVehicleLengthCm == 0 || d.avgVehicleLengthCm > 4000
      || d.detectorLengthCm == 0 || 4001 <= d.detectorLengthCm <= 65534
    case VehicleDetectorPaired => d.pairedDetector > 16 || d.pairedDetector == index
    case VehicleDetectorTravelMode => !(1 <= d.travelMode <= 4)
    case _ => false
  }

  predicate PedBlamed(d: PedDetector, phaseCount: uint8, error: ConfigError) {
    match error
    case PedDetectorCallPhase => d.callPhase > phaseCount
    case PedDetectorOptions => d.options >= 8
    case _ => false
  }

  predicate ReportBlamed(d: DetectorReports, error: ConfigError) {
    match error
    case VehicleReportPeriodV3 => 3601 <= d.volumeOccupancyPeriodV3Seconds <= 65534
    case PedReportPeriod => 3601 <= d.pedestrianDetectorPeriodSeconds <= 65533
    case _ => false
  }

  ghost predicate PreemptBlamed(p: Preempt, phaseCount: uint8, error: ConfigError) {
    match error
    case PreemptControl => p.control >= 64
    case PreemptLink => p.link > 8
    case PreemptTrackPhases => !NamesPhases(p.trackPhases, phaseCount)
    case PreemptDwellPhases => !NamesPhases(p.dwellPhases, phaseCount)
    case PreemptDwellPeds => !NamesPhases(p.dwellPeds, phaseCount)
    case PreemptExitPhases => !NamesPhases(p.exitPhases, phaseCount)
    case PreemptTrackOverlaps => !Names(p.trackOverlaps, 32)
    case PreemptDwellOverlaps => !Names(p.dwellOverlaps, 32)
    case PreemptCyclingPhases => !NamesPhases(p.cyclingPhases, phaseCount)
    case PreemptCyclingPeds => !NamesPhases(p.cyclingPeds, phaseCount)
    case PreemptCyclingOverlaps => !Names(p.cyclingOverlaps, 32)
    case PreemptSequenceNumber => p.sequenceNumber != 1
    case PreemptExitType => !(1 <= p.exitType <= 4)
    case _ => false
  }

  /** The queue-delay weight of detector d for pre-emption i; sixteen of them belong to one. */
  ghost predicate WeightAt(i: nat, d: nat, index: nat) {
    i < 8 && d < 16 && index == 16 * i + d + 1
  }

  ghost predicate WeightsBlamed(c: Config, error: ConfigError, index: nat)
    requires c.Shaped()
  {
    && error == PreemptQueueDelayWeight
    && exists i: nat, d: nat :: WeightAt(i, d, index) && c.preemptQueueDelayWeights[i][d] > 1000
  }

  /** The entry does not exist, or an earlier phase has it too. */
  ghost predicate InputBlamed(m: seq<uint8>, i: nat, count: nat)
    requires i < |m|
  {
    m[i] > count || (m[i] != 0 && exists j :: 0 <= j < i && m[j] == m[i])
  }

  ghost predicate MappingBlamed(m: InputMapping, error: ConfigError, index: nat)
    requires m.Shaped()
  {
    && 1 <= index <= 8
    && match error
       case PhaseDetectorInput => InputBlamed(m.phaseDetectors, index - 1, 16)
       case PhasePedInput => InputBlamed(m.phasePedInputs, index - 1, 8)
       case PreemptInputSource => m.preemptInputs[index - 1] > 8
       case PreemptControlSource => m.preemptControls[index - 1] > 8
       case _ => false
  }

  ghost predicate ChannelBlamed(h: Channel, phaseCount: uint8, error: ConfigError) {
    match error
    case ChannelControlType => !(1 <= h.controlType <= 6)
    case ChannelFlashMask => h.flashMask !in {0, 2, 4, 6, 8, 10, 12, 14}
    case ChannelDimMask => h.dimMask >= 16
    case ChannelGreenType => !(1 <= h.greenType <= 5)
    case ChannelGreenIncluded => !Names(h.greenIncluded, 32)
    case ChannelControlSource => h.controlSource > HighestSource(h.controlType, phaseCount)
    case _ => false
  }

  ghost predicate OverlapBlamed(o: Overlap, phaseCount: uint8, error: ConfigError) {
    match error
    case OverlapType => o.overlapType !in {1, 2}
    case OverlapIncludedPhases =>
      !NamesPhases(o.includedPhases, phaseCount) || (o.overlapType != 1 && o.includedPhases.length == 0)
    case OverlapModifierPhases => !NamesPhases(o.modifierPhases, phaseCount)
    case OverlapConflictingPedPhases => !NamesPhases(o.conflictingPedPhases, phaseCount)
    case OverlapTrailGreen => o.trailGreenDs > 2550
    case OverlapTrailYellow => o.trailYellowDs > 255
    case OverlapTrailRed => o.trailRedDs > 255
    case OverlapWalk => o.walkSeconds > 255
    case OverlapPedClear => o.pedClearSeconds > 255
    case _ => false
  }

  /** The error and the index name a field of the configuration that is out of order. */
  ghost predicate Blames(c: Config, error: ConfigError, index: nat)
    requires c.Shaped()
  {
    || UnitBlamed(c, error, index) || BlamesPlan(c, error, index) || BlamesTimeBase(c, error, index)
    || BlamesDetectors(c, error, index) || BlamesPreempt(c, error, index) || WeightsBlamed(c, error, index)
    || MappingBlamed(c.inputMapping, error, index) || BlamesOutputs(c, error, index)
  }

  ghost predicate BlamesPlan(c: Config, error: ConfigError, index: nat)
    requires c.Shaped()
  {
    PhaseBlamed(c, error, index) || RingBlamed(c, error, index) || AssignmentBlamed(c, error, index)
  }

  ghost predicate BlamesTimeBase(c: Config, error: ConfigError, index: nat)
    requires c.Shaped()
  {
    || (1 <= index <= 8 && BackupBlamed(c.userDefinedBackupContents[index - 1], error))
    || (1 <= index <= 8 && PatternBlamed(c.coordination.patterns[index - 1], error))
    || (1 <= index <= 48 && ActionBlamed(c.timebaseActions[index - 1], error))
    || SplitsBlamed(c, error, index)
  }

  ghost predicate BlamesDetectors(c: Config, error: ConfigError, index: nat)
    requires c.Shaped()
  {
    || (1 <= index <= 16 && VehicleBlamed(c.vehicleDetectors[index - 1], c.phaseCount, error, index))
    || (1 <= index <= 8 && PedBlamed(c.pedestrianDetectors[index - 1], c.phaseCount, error))
    || (index == 1 && ReportBlamed(c.detectorReports, error))
  }

  ghost predicate BlamesPreempt(c: Config, error: ConfigError, index: nat)
    requires c.Shaped()
  {
    1 <= index <= 8 && PreemptBlamed(c.preempts[index - 1], c.phaseCount, error)
  }

  ghost predicate BlamesOutputs(c: Config, error: ConfigError, index: nat)
    requires c.Shaped()
  {
    && 1 <= index <= 32
    && (|| ChannelBlamed(c.channels[index - 1], c.phaseCount, error)
        || OverlapBlamed(c.overlaps[index - 1], c.phaseCount, error))
  }

  // ----- a rule that fails blames its field -----

  ghost predicate FirstToFail(rules: Rules<ConfigError>, k: nat) {
    k < |rules| && !rules[k].holds && forall j :: 0 <= j < k ==> rules[j].holds
  }

  /** The first rule of the object to fail, if any, blames a field. */
  ghost predicate RulesBlame(c: Config, rules: Rules<ConfigError>)
    requires c.Shaped()
  {
    forall k: nat :: FirstToFail(rules, k) ==> Blames(c, rules[k].error, rules[k].index)
  }

  ghost predicate TableBlames(c: Config, table: Table)
    requires c.Shaped()
  {
    forall o :: 0 <= o < |table| ==> RulesBlame(c, table[o])
  }

  lemma FirstOfTwo(a: Rules<ConfigError>, b: Rules<ConfigError>, k: nat)
    requires FirstToFail(a + b, k)
    ensures k < |a| ==> FirstToFail(a, k) && (a + b)[k] == a[k]
    ensures k >= |a| ==> FirstToFail(b, k - |a|) && (a + b)[k] == b[k - |a|]
  {
    forall j | 0 <= j < k ensures if j < |a| then a[j].holds else b[j - |a|].holds {
      assert (a + b)[j].holds;
    }
    if k >= |a| {
      forall j | 0 <= j < k - |a| ensures b[j].holds {
        assert (a + b)[|a| + j] == b[j];
      }
    }
  }

  lemma UnitRuleBlames(c: Config, k: nat)
    requires c.Shaped() && FirstToFail(UnitRules(c), k)
    ensures UnitBlamed(c, UnitRules(c)[k].error, UnitRules(c)[k].index)
  {
  }

  lemma CoordRuleBlames(c: Config, k: nat)
    requires c.Shaped() && FirstToFail(CoordRules(c.coordination), k)
    ensures UnitBlamed(c, CoordRules(c.coordination)[k].error, CoordRules(c.coordination)[k].index)
  {
  }

  lemma BackupRuleBlames(b: BackupContent, i: nat, k: nat)
    requires FirstToFail(BackupRules(b, i), k)
    ensures var r := BackupRules(b, i)[k]; r.index == i && BackupBlamed(b, r.error)
  {
  }

  lemma GreenRuleBlames(p: PhaseConfig, ringCount: uint8, i: nat, k: nat)
    requires FirstToFail(PhaseGreenRules(p, ringCount, i), k)
    ensures var r := PhaseGreenRules(p, ringCount, i)[k]; r.index == i && GreenBlamed(p, ringCount, r.error)
  {
  }

  lemma TimingRuleBlames(c: Config, i: nat, k: nat)
    requires c.Shaped() && i < 8 && FirstToFail(PhaseTimingRules(c, i), k)
    ensures var p, r := c.phases[i], PhaseTimingRules(c, i)[k];
      && r.index == i + 1
      && (TimingBlamed(p, r.error) || (r.error == PhaseConcurrency && p.Enabled() && !ServesWithOthers(c, i)))
  {
    ConcurrencyMeans(c, i);
  }

  lemma PhaseRuleBlames(c: Config, i: nat, k: nat)
    requires c.Shaped() && i < 8 && FirstToFail(PhaseRules(c, i), k)
    ensures var p, r := c.phases[i], PhaseRules(c, i)[k];
      && r.index == i + 1
      && (|| GreenBlamed(p, c.ringCount, r.error) || TimingBlamed(p, r.error)
          || (r.error == PhaseConcurrency && p.Enabled() && !ServesWithOthers(c, i)))
  {
    var a, b := PhaseGreenRules(c.phases[i], c.ringCount, i + 1), PhaseTimingRules(c, i);
    FirstOfTwo(a, b, k);
    if k < |a| {
      GreenRuleBlames(c.phases[i], c.ringCount, i + 1, k);
    } else {
      TimingRuleBlames(c, i, k - |a|);
    }
  }

  lemma PhaseRulesBlame(c: Config, i: nat)
    requires c.Shaped() && i < Phases(c)
    ensures RulesBlame(c, PhaseRules(c, i))
  {
    var rules := PhaseRules(c, i);
    forall k: nat | FirstToFail(rules, k) ensures PhaseBlamed(c, rules[k].error, rules[k].index) {
      PhaseRuleBlames(c, i, k);
    }
  }

  lemma RingHeadBlames(c: Config, r: nat)
    requires c.Shaped() && r < Rings(c)
    ensures RulesBlame(c, RingHeadRules(c.rings[r], r + 1))
  {
    var rules := RingHeadRules(c.rings[r], r + 1);
    forall k: nat | FirstToFail(rules, k) ensures RingBlamed(c, rules[k].error, rules[k].index) {
    }
  }

  lemma ListedIsPlannedTwice(c: Config, r: nat, s: nat)
    requires c.Shaped() && r < 2 && s < Slots(c, r) && ListedBefore(c, r, s, Planned(c, r, s))
    ensures PlannedTwice(c, r, s)
  {
    var r', s' :| 0 <= r' < RING_COUNT_MAX && 0 <= s' < Slots(c, r') && (r' < r || (r' == r && s' < s))
                  && Planned(c, r', s') == Planned(c, r, s);
    assert Elsewhere(c, r, s, r', s');
  }

  lemma SlotOrderBlames(c: Config, r: nat, s: nat)
    requires c.Shaped() && r < Rings(c) && s < Slots(c, r)
    requires Planned(c, r, s) >= Phases(c) || ListedBefore(c, r, s, Planned(c, r, s))
    ensures BlamesPlan(c, RingPhaseOrder, r + 1)
  {
    if Planned(c, r, s) < Phases(c) {
      ListedIsPlannedTwice(c, r, s);
    }
    assert SlotBlamed(c, r, s) && SomeSlotBlamed(c, r);
    assert RingBlamed(c, RingPhaseOrder, r + 1);
  }

  lemma SlotPhaseBlames(c: Config, r: nat, s: nat)
    requires c.Shaped() && r < Rings(c) && s < Slots(c, r) && Planned(c, r, s) < Phases(c)
    requires var p := c.phases[Planned(c, r, s)]; !p.Enabled() || p.ring != r
    ensures BlamesPlan(c, PhaseAssignment, Planned(c, r, s) + 1)
  {
    assert Serves(c, r, s, Planned(c, r, s)) && Misplaced(c, Planned(c, r, s));
  }

  lemma SlotRulesBlame(c: Config, r: nat, s: nat)
    requires c.Shaped() && r < Rings(c) && s < Slots(c, r)
    ensures RulesBlame(c, SlotRules(c, r, s))
  {
    var rules := SlotRules(c, r, s);
    forall k: nat | FirstToFail(rules, k) ensures BlamesPlan(c, rules[k].error, rules[k].index) {
      if k < 2 {
        SlotOrderBlames(c, r, s);
      } else {
        assert rules[0].holds;
        SlotPhaseBlames(c, r, s);
      }
    }
  }

  lemma UnassignedRulesBlame(c: Config, i: nat)
    requires c.Shaped() && i < Phases(c)
    ensures RulesBlame(c, UnassignedRules(c, i))
  {
    var rules := UnassignedRules(c, i);
    forall k: nat | FirstToFail(rules, k) ensures AssignmentBlamed(c, rules[k].error, rules[k].index) {
      forall r: nat, s: nat ensures !Serves(c, r, s, i) {
        if Serves(c, r, s, i) {
          assert ListedBefore(c, Rings(c), 0, i);
        }
      }
      assert NowhereServed(c, i);
    }
  }

  lemma PatternRuleBlames(p: Pattern, i: nat, k: nat)
    requires FirstToFail(PatternRules(p, i), k)
    ensures var r := PatternRules(p, i)[k]; r.index == i && PatternBlamed(p, r.error)
  {
  }

  lemma ActionRuleBlames(a: TimebaseAction, i: nat, k: nat)
    requires FirstToFail(ActionRules(a, i), k)
    ensures var r := ActionRules(a, i)[k]; r.index == i && ActionBlamed(a, r.error)
  {
    MasksMean(a.auxiliaryFunction);
  }

  lemma SplitRuleBlames(s: SplitPhase, i: nat, k: nat)
    requires FirstToFail(SplitRules(s, i), k)
    ensures var r := SplitRules(s, i)[k]; r.index == i && SplitBlamed(s, r.error)
  {
    MasksMean(s.options);
  }

  lemma SplitRulesBlame(c: Config, r: nat, s: nat)
    requires c.Shaped() && r < 4 && s < Phases(c)
    ensures RulesBlame(c, SplitTable(c, r)[s])
  {
    var split, rules := c.coordination.splits[r][s], SplitTable(c, r)[s];
    forall k: nat | FirstToFail(rules, k) ensures SplitsBlamed(c, rules[k].error, rules[k].index) {
      SplitRuleBlames(split, r * PHASE_COUNT_MAX + s + 1, k);
      assert SplitAt(c, r, s, rules[k].index);
    }
  }

  lemma VehicleRuleBlames(d: VehicleDetector, phaseCount: uint8, i: nat, k: nat)
    requires FirstToFail(VehicleRules(d, phaseCount, i), k)
    ensures var r := VehicleRules(d, phaseCount, i)[k]; r.index == i && VehicleBlamed(d, phaseCount, r.error, i)
  {
    MasksMean(d.options2);
    LocksMean(d.options);
  }

  lemma PedRuleBlames(d: PedDetector, phaseCount: uint8, i: nat, k: nat)
    requires FirstToFail(PedRules(d, phaseCount, i), k)
    ensures var r := PedRules(d, phaseCount, i)[k]; r.index == i && PedBlamed(d, phaseCount, r.error)
  {
    MasksMean(d.options);
  }

  lemma ReportRuleBlames(d: DetectorReports, k: nat)
    requires FirstToFail(ReportRules(d), k)
    ensures ReportRules(d)[k].index == 1 && ReportBlamed(d, ReportRules(d)[k].error)
  {
  }

  lemma PreemptServiceBlames(p: Preempt, phaseCount: uint8, i: nat, k: nat)
    requires p.Shaped() && FirstToFail(PreemptServiceRules(p, phaseCount, i), k)
    ensures var r := PreemptServiceRules(p, phaseCount, i)[k]; r.index == i && PreemptBlamed(p, phaseCount, r.error)
  {
    MasksMean(p.control);
    PhaseListMeans(p.trackPhases, phaseCount);
    PhaseListMeans(p.dwellPhases, phaseCount);
    PhaseListMeans(p.dwellPeds, phaseCount);
    PhaseListMeans(p.exitPhases, phaseCount);
  }

  lemma PhaseListMeans(list: ReferenceList, phaseCount: uint8)
    ensures PhaseList(list, phaseCount) <==> NamesPhases(list, phaseCount)
  {
    ListMeans(list, Min(phaseCount, PHASE_COUNT_MAX));
  }

  lemma PreemptCyclingBlames(p: Preempt, phaseCount: uint8, i: nat, k: nat)
    requires p.Shaped() && FirstToFail(PreemptCyclingRules(p, phaseCount, i), k)
    ensures var r := PreemptCyclingRules(p, phaseCount, i)[k]; r.index == i && PreemptBlamed(p, phaseCount, r.error)
  {
    PhaseListMeans(p.cyclingPhases, phaseCount);
    PhaseListMeans(p.cyclingPeds, phaseCount);
    ListMeans(p.trackOverlaps, OVERLAP_COUNT_MAX);
    ListMeans(p.dwellOverlaps, OVERLAP_COUNT_MAX);
    ListMeans(p.cyclingOverlaps, OVERLAP_COUNT_MAX);
  }

  lemma PreemptRuleBlames(p: Preempt, phaseCount: uint8, i: nat, k: nat)
    requires p.Shaped() && FirstToFail(PreemptRules(p, phaseCount, i), k)
    ensures var r := PreemptRules(p, phaseCount, i)[k]; r.index == i && PreemptBlamed(p, phaseCount, r.error)
  {
    var a, b := PreemptServiceRules(p, phaseCount, i), PreemptCyclingRules(p, phaseCount, i);
    FirstOfTwo(a, b, k);
    if k < |a| {
      PreemptServiceBlames(p, phaseCount, i, k);
    } else {
      PreemptCyclingBlames(p, phaseCount, i, k - |a|);
    }
  }

  lemma WeightRulesBlame(c: Config, i: nat, d: nat)
    requires c.Shaped() && i < 8 && d < 16
    ensures RulesBlame(c, WeightRules(c.preemptQueueDelayWeights[i][d], i * VEHICLE_DETECTOR_COUNT_MAX + d + 1))
  {
    var rules := WeightRules(c.preemptQueueDelayWeights[i][d], i * VEHICLE_DETECTOR_COUNT_MAX + d + 1);
    forall k: nat | FirstToFail(rules, k) ensures WeightsBlamed(c, rules[k].error, rules[k].index) {
      assert WeightAt(i, d, rules[k].index);
    }
  }

  lemma InputRuleBlames(m: InputMapping, i: nat, k: nat)
    requires m.Shaped() && i < 8 && FirstToFail(InputRules(m, i), k)
    ensures var r := InputRules(m, i)[k]; r.index == i + 1 && MappingBlamed(m, r.error, i + 1)
  {
  }

  lemma PreemptInputRuleBlames(m: InputMapping, i: nat, k: nat)
    requires m.Shaped() && i < 8 && FirstToFail(PreemptInputRules(m, i), k)
    ensures var r := PreemptInputRules(m, i)[k]; r.index == i + 1 && MappingBlamed(m, r.error, i + 1)
  {
  }

  lemma ChannelRuleBlames(h: Channel, phaseCount: uint8, i: nat, k: nat)
    requires h.Shaped() && FirstToFail(ChannelRules(h, phaseCount, i), k)
    ensures var r := ChannelRules(h, phaseCount, i)[k]; r.index == i && ChannelBlamed(h, phaseCount, r.error)
  {
    MasksMean(h.dimMask);
    FlashMaskMeans(h.flashMask);
    ListMeans(h.greenIncluded, CHANNEL_COUNT_MAX);
  }

  lemma OverlapListBlames(o: Overlap, phaseCount: uint8, i: nat, k: nat)
    requires o.Shaped() && FirstToFail(OverlapRules(o, phaseCount, i), k)
    ensures var r := OverlapRules(o, phaseCount, i)[k]; r.index == i && OverlapBlamed(o, phaseCount, r.error)
  {
    PhaseListMeans(o.includedPhases, phaseCount);
    PhaseListMeans(o.modifierPhases, phaseCount);
    PhaseListMeans(o.conflictingPedPhases, phaseCount);
  }

  lemma OverlapTimeBlames(o: Overlap, phaseCount: uint8, i: nat, k: nat)
    requires FirstToFail(OverlapTimeRules(o, i), k)
    ensures var r := OverlapTimeRules(o, i)[k]; r.index == i && OverlapBlamed(o, phaseCount, r.error)
  {
  }

  lemma OverlapRuleBlames(o: Overlap, phaseCount: uint8, i: nat, k: nat)
    requires o.Shaped() && FirstToFail(AllOverlapRules(o, phaseCount, i), k)
    ensures var r := AllOverlapRules(o, phaseCount, i)[k]; r.index == i && OverlapBlamed(o, phaseCount, r.error)
  {
    var a, b := OverlapRules(o, phaseCount, i), OverlapTimeRules(o, i);
    FirstOfTwo(a, b, k);
    if k < |a| {
      OverlapListBlames(o, phaseCount, i, k);
    } else {
      OverlapTimeBlames(o, phaseCount, i, k - |a|);
    }
  }

  // ----- the sections -----

  lemma UnitSectionBlames(c: Config)
    requires c.Shaped()
    ensures TableBlames(c, Section(c, 0))
  {
    var rules := Section(c, 0)[0];
    forall k: nat | FirstToFail(rules, k) ensures UnitBlamed(c, rules[k].error, rules[k].index) {
      UnitRuleBlames(c, k);
    }
  }

  lemma CoordSectionBlames(c: Config)
    requires c.Shaped()
    ensures TableBlames(c, Section(c, 5))
  {
    var rules := Section(c, 5)[0];
    forall k: nat | FirstToFail(rules, k) ensures UnitBlamed(c, rules[k].error, rules[k].index) {
      CoordRuleBlames(c, k);
    }
  }

  lemma BackupRulesBlame(c: Config, i: nat)
    requires c.Shaped() && i < 8
    ensures RulesBlame(c, BackupRules(c.userDefinedBackupContents[i], i + 1))
  {
    var rules := BackupRules(c.userDefinedBackupContents[i], i + 1);
    forall k: nat | FirstToFail(rules, k) ensures BlamesTimeBase(c, rules[k].error, rules[k].index) {
      BackupRuleBlames(c.userDefinedBackupContents[i], i + 1, k);
    }
  }

  lemma BackupSectionBlames(c: Config)
    requires c.Shaped()
    ensures TableBlames(c, Section(c, 1))
  {
    var table := Section(c, 1);
    forall i | 0 <= i < 8 ensures RulesBlame(c, table[i]) {
      assert table[i] == BackupRules(c.userDefinedBackupContents[i], i + 1);
      BackupRulesBlame(c, i);
    }
  }

  lemma PatternRulesBlame(c: Config, i: nat)
    requires c.Shaped() && i < 8
    ensures RulesBlame(c, PatternRules(c.coordination.patterns[i], i + 1))
  {
    var rules := PatternRules(c.coordination.patterns[i], i + 1);
    forall k: nat | FirstToFail(rules, k) ensures BlamesTimeBase(c, rules[k].error, rules[k].index) {
      PatternRuleBlames(c.coordination.patterns[i], i + 1, k);
    }
  }

  lemma PatternSectionBlames(c: Config)
    requires c.Shaped()
    ensures TableBlames(c, Section(c, 6))
  {
    var table := Section(c, 6);
    forall i | 0 <= i < 8 ensures RulesBlame(c, table[i]) {
      assert table[i] == PatternRules(c.coordination.patterns[i], i + 1);
      PatternRulesBlame(c, i);
    }
  }

  lemma ActionRulesBlame(c: Config, i: nat)
    requires c.Shaped() && i < 48
    ensures RulesBlame(c, ActionRules(c.timebaseActions[i], i + 1))
  {
    var rules := ActionRules(c.timebaseActions[i], i + 1);
    forall k: nat | FirstToFail(rules, k) ensures BlamesTimeBase(c, rules[k].error, rules[k].index) {
      ActionRuleBlames(c.timebaseActions[i], i + 1, k);
    }
  }

  lemma ActionSectionBlames(c: Config)
    requires c.Shaped()
    ensures TableBlames(c, Section(c, 8))
  {
    var table := Section(c, 8);
    forall i | 0 <= i < 48 ensures RulesBlame(c, table[i]) {
      assert table[i] == ActionRules(c.timebaseActions[i], i + 1);
      ActionRulesBlame(c, i);
    }
  }

  lemma VehicleRulesBlame(c: Config, i: nat)
    requires c.Shaped() && i < 16
    ensures RulesBlame(c, VehicleRules(c.vehicleDetectors[i], c.phaseCount, i + 1))
  {
    var rules := VehicleRules(c.vehicleDetectors[i], c.phaseCount, i + 1);
    forall k: nat | FirstToFail(rules, k) ensures BlamesDetectors(c, rules[k].error, rules[k].index) {
      VehicleRuleBlames(c.vehicleDetectors[i], c.phaseCount, i + 1, k);
    }
  }

  lemma VehicleSectionBlames(c: Config)
    requires c.Shaped()
    ensures TableBlames(c, Section(c, 9))
  {
    var table := Section(c, 9);
    forall i | 0 <= i < 16 ensures RulesBlame(c, table[i]) {
      assert table[i] == VehicleRules(c.vehicleDetectors[i], c.phaseCount, i + 1);
      VehicleRulesBlame(c, i);
    }
  }

  lemma PedRulesBlame(c: Config, i: nat)
    requires c.Shaped() && i < 8
    ensures RulesBlame(c, PedRules(c.pedestrianDetectors[i], c.phaseCount, i + 1))
  {
    var rules := PedRules(c.pedestrianDetectors[i], c.phaseCount, i + 1);
    forall k: nat | FirstToFail(rules, k) ensures BlamesDetectors(c, rules[k].error, rules[k].index) {
      PedRuleBlames(c.pedestrianDetectors[i], c.phaseCount, i + 1, k);
    }
  }

  lemma PedSectionBlames(c: Config)
    requires c.Shaped()
    ensures TableBlames(c, Section(c, 10))
  {
    var table := Section(c, 10);
    forall i | 0 <= i < 8 ensures RulesBlame(c, table[i]) {
      assert table[i] == PedRules(c.pedestrianDetectors[i], c.phaseCount, i + 1);
      PedRulesBlame(c, i);
    }
  }

  lemma ReportSectionBlames(c: Config)
    requires c.Shaped()
    ensures TableBlames(c, Section(c, 11))
  {
    var rules := Section(c, 11)[0];
    forall k: nat | FirstToFail(rules, k) ensures BlamesDetectors(c, rules[k].error, rules[k].index) {
      ReportRuleBlames(c.detectorReports, k);
    }
  }

  lemma InputRulesBlame(c: Config, i: nat)
    requires c.Shaped() && i < 8
    ensures RulesBlame(c, InputRules(c.inputMapping, i))
  {
    var rules := InputRules(c.inputMapping, i);
    forall k: nat | FirstToFail(rules, k) ensures MappingBlamed(c.inputMapping, rules[k].error, rules[k].index) {
      InputRuleBlames(c.inputMapping, i, k);
    }
  }

  lemma InputSectionBlames(c: Config)
    requires c.Shaped()
    ensures TableBlames(c, Section(c, 13))
  {
    var table := Section(c, 13);
    forall i | 0 <= i < 8 ensures RulesBlame(c, table[i]) {
      assert table[i] == InputRules(c.inputMapping, i);
      InputRulesBlame(c, i);
    }
  }

  lemma PreemptInputRulesBlame(c: Config, i: nat)
    requires c.Shaped() && i < 8
    ensures RulesBlame(c, PreemptInputRules(c.inputMapping, i))
  {
    var rules := PreemptInputRules(c.inputMapping, i);
    forall k: nat | FirstToFail(rules, k) ensures MappingBlamed(c.inputMapping, rules[k].error, rules[k].index) {
      PreemptInputRuleBlames(c.inputMapping, i, k);
    }
  }

  lemma PreemptInputSectionBlames(c: Config)
    requires c.Shaped()
    ensures TableBlames(c, Section(c, 14))
  {
    var table := Section(c, 14);
    forall i | 0 <= i < 8 ensures RulesBlame(c, table[i]) {
      assert table[i] == PreemptInputRules(c.inputMapping, i);
      PreemptInputRulesBlame(c, i);
    }
  }

  lemma ChannelRulesBlame(c: Config, i: nat)
    requires c.Shaped() && i < 32
    ensures RulesBlame(c, ChannelRules(c.channels[i], c.phaseCount, i + 1))
  {
    var rules := ChannelRules(c.channels[i], c.phaseCount, i + 1);
    forall k: nat | FirstToFail(rules, k) ensures BlamesOutputs(c, rules[k].error, rules[k].index) {
      ChannelRuleBlames(c.channels[i], c.phaseCount, i + 1, k);
    }
  }

  lemma ChannelSectionBlames(c: Config)
    requires c.Shaped()
    ensures TableBlames(c, Section(c, 15))
  {
    var table := Section(c, 15);
    forall i | 0 <= i < 32 ensures RulesBlame(c, table[i]) {
      assert table[i] == ChannelRules(c.channels[i], c.phaseCount, i + 1);
      ChannelRulesBlame(c, i);
    }
  }

  lemma OverlapRulesBlame(c: Config, i: nat)
    requires c.Shaped() && i < 32
    ensures RulesBlame(c, AllOverlapRules(c.overlaps[i], c.phaseCount, i + 1))
  {
    var rules := AllOverlapRules(c.overlaps[i], c.phaseCount, i + 1);
    forall k: nat | FirstToFail(rules, k) ensures BlamesOutputs(c, rules[k].error, rules[k].index) {
      OverlapRuleBlames(c.overlaps[i], c.phaseCount, i + 1, k);
    }
  }

  lemma OverlapSectionBlames(c: Config)
    requires c.Shaped()
    ensures TableBlames(c, Section(c, 16))
  {
    var table := Section(c, 16);
    forall i | 0 <= i < 32 ensures RulesBlame(c, table[i]) {
      assert table[i] == AllOverlapRules(c.overlaps[i], c.phaseCount, i + 1);
      OverlapRulesBlame(c, i);
    }
  }

  lemma PhaseSectionsBlame(c: Config)
    requires c.Shaped()
    ensures TableBlames(c, Section(c, 2)) && TableBlames(c, Section(c, 4))
  {
    forall i | 0 <= i < Phases(c)
      ensures RulesBlame(c, PhaseTable(c)[i]) && RulesBlame(c, UnassignedTable(c)[i])
    {
      PhaseRulesBlame(c, i);
      UnassignedRulesBlame(c, i);
    }
  }

  lemma {:induction false} FlattenBlames(c: Config, tables: seq<Table>)
    requires c.Shaped() && forall k :: 0 <= k < |tables| ==> TableBlames(c, tables[k])
    ensures TableBlames(c, Flatten(tables))
  {
    if tables != [] {
      FlattenBlames(c, tables[..|tables| - 1]);
    }
  }

  lemma RingTableBlames(c: Config, r: nat)
    requires c.Shaped() && r < Rings(c)
    ensures TableBlames(c, RingTable(c, r))
  {
    RingHeadBlames(c, r);
    forall s | 0 <= s < Slots(c, r) ensures RulesBlame(c, SlotRules(c, r, s)) {
      SlotRulesBlame(c, r, s);
    }
  }

  lemma RingSectionBlames(c: Config)
    requires c.Shaped()
    ensures TableBlames(c, Section(c, 3))
  {
    forall r | 0 <= r < Rings(c) ensures TableBlames(c, RingTables(c)[r]) {
      RingTableBlames(c, r);
    }
    FlattenBlames(c, RingTables(c));
  }

  lemma SplitTableBlames(c: Config, r: nat)
    requires c.Shaped() && r < 4
    ensures TableBlames(c, SplitTable(c, r))
  {
    forall s | 0 <= s < Phases(c) ensures RulesBlame(c, SplitTable(c, r)[s]) {
      SplitRulesBlame(c, r, s);
    }
  }

  lemma SplitSectionBlames(c: Config)
    requires c.Shaped()
    ensures TableBlames(c, Section(c, 7))
  {
    forall r | 0 <= r < SPLIT_COUNT_MAX ensures TableBlames(c, SplitTables(c)[r]) {
      SplitTableBlames(c, r);
    }
    FlattenBlames(c, SplitTables(c));
  }

  lemma PreemptRulesBlame(c: Config, i: nat)
    requires c.Shaped() && i < 8
    ensures RulesBlame(c, PreemptRules(c.preempts[i], c.phaseCount, i + 1))
  {
    var rules := PreemptRules(c.preempts[i], c.phaseCount, i + 1);
    forall k: nat | FirstToFail(rules, k) ensures BlamesPreempt(c, rules[k].error, rules[k].index) {
      PreemptRuleBlames(c.preempts[i], c.phaseCount, i + 1, k);
    }
  }

  lemma PreemptTableBlames(c: Config, i: nat)
    requires c.Shaped() && i < 8
    ensures TableBlames(c, PreemptTable(c, i))
  {
    var table, weights := PreemptTable(c, i), c.preemptQueueDelayWeights[i];
    PreemptRulesBlame(c, i);
    forall o | 1 <= o < |table| ensures RulesBlame(c, table[o]) {
      var d: nat := o - 1;
      assert table[o] == WeightRules(weights[d], i * VEHICLE_DETECTOR_COUNT_MAX + d + 1);
      WeightRulesBlame(c, i, d);
    }
  }

  lemma PreemptSectionBlames(c: Config)
    requires c.Shaped()
    ensures TableBlames(c, Section(c, 12))
  {
    forall i | 0 <= i < PREEMPT_COUNT_MAX ensures TableBlames(c, PreemptTables(c)[i]) {
      PreemptTableBlames(c, i);
    }
    FlattenBlames(c, PreemptTables(c));
  }

  lemma FirstSectionsBlame(c: Config, k: nat)
    requires c.Shaped() && k < 9
    ensures TableBlames(c, Section(c, k))
  {
    match k
    case 0 => UnitSectionBlames(c);
    case 1 => BackupSectionBlames(c);
    case 2 => PhaseSectionsBlame(c);
    case 3 => RingSectionBlames(c);
    case 4 => PhaseSectionsBlame(c);
    case 5 => CoordSectionBlames(c);
    case 6 => PatternSectionBlames(c);
    case 7 => SplitSectionBlames(c);
    case _ => ActionSectionBlames(c);
  }

  lemma LastSectionsBlame(c: Config, k: nat)
    requires c.Shaped() && 9 <= k < SECTIONS
    ensures TableBlames(c, Section(c, k))
  {
    match k
    case 9 => VehicleSectionBlames(c);
    case 10 => PedSectionBlames(c);
    case 11 => ReportSectionBlames(c);
    case 12 => PreemptSectionBlames(c);
    case 13 => InputSectionBlames(c);
    case 14 => PreemptInputSectionBlames(c);
    case 15 => ChannelSectionBlames(c);
    case _ => OverlapSectionBlames(c);
  }

  /** A rejection names a field that is out of order. */
  lemma RejectionBlames(c: Config, error: ConfigError, index: nat)
    requires c.Shaped() && Reports(RuleTable(c), Rejected(error, index))
    ensures Blames(c, error, index)
  {
    forall k | 0 <= k < SECTIONS ensures TableBlames(c, Sections(c)[k]) {
      if k < 9 {
        FirstSectionsBlame(c, k);
      } else {
        LastSectionsBlame(c, k);
      }
    }
    FlattenBlames(c, Sections(c));
    RejectedByRule(c, RuleTable(c), error, index);
  }

  lemma RejectedByRule(c: Config, table: Table, error: ConfigError, index: nat)
    requires c.Shaped() && TableBlames(c, table) && Reports(table, Rejected(error, index))
    ensures Blames(c, error, index)
  {
    var o :| 0 <= o < |table| && ReportsObject(table[o], Rejected(error, index));
    var k :| FailsFirst(table[o], k, error, index);
    assert FirstToFail(table[o], k) && RulesBlame(c, table[o]);
  }

  // ----- what is blamed is out of order -----

  lemma PhaseInOrder(c: Config, i: nat, error: ConfigError)
    requires c.Shaped() && i < PHASE_COUNT_MAX && PhaseOk(c, i)
    ensures !GreenBlamed(c.phases[i], c.ringCount, error) && !TimingBlamed(c.phases[i], error)
    ensures c.phases[i].Enabled() ==> ServesWithOthers(c, i)
  {
  }

  lemma AssignmentInOrder(c: Config, i: nat)
    requires c.Shaped() && WellFormed(c) && i < Phases(c)
    ensures !Misplaced(c, i) && (c.phases[i].Enabled() ==> !NowhereServed(c, i))
  {
    EnabledPhasesServedOnce(c, i);
    forall r: nat, s: nat | Serves(c, r, s, i) ensures c.phases[i].Enabled() && c.phases[i].ring == r {
      assert BelongsTo(c, i, r);
    }
  }

  lemma SlotInOrder(c: Config, r: nat, s: nat)
    requires c.Shaped() && WellFormed(c) && r < Rings(c) && s < Slots(c, r)
    ensures !SlotBlamed(c, r, s)
  {
    var p := Planned(c, r, s);
    EnabledPhasesServedOnce(c, p);
    assert Serves(c, r, s, p) && BelongsTo(c, p, r);
    forall r': nat, s': nat | Elsewhere(c, r, s, r', s') ensures Planned(c, r', s') != p {
      assert Planned(c, r', s') == p ==> Serves(c, r', s', p);
    }
  }

  lemma PhasesInOrder(c: Config, error: ConfigError, index: nat)
    requires c.Shaped() && PhasesOk(c)
    ensures !PhaseBlamed(c, error, index)
  {
    if 1 <= index <= Phases(c) {
      PhaseInOrder(c, index - 1, error);
    }
  }

  lemma AssignmentsInOrder(c: Config, error: ConfigError, index: nat)
    requires c.Shaped() && WellFormed(c)
    ensures !AssignmentBlamed(c, error, index)
  {
    if 1 <= index <= Phases(c) {
      AssignmentInOrder(c, index - 1);
    }
  }

  lemma RingsInOrder(c: Config, error: ConfigError, index: nat)
    requires c.Shaped() && WellFormed(c)
    ensures !RingBlamed(c, error, index)
  {
    if 1 <= index <= Rings(c) {
      var r: nat := index - 1;
      assert RingPlanOk(c, r);
      forall s: nat | s < Slots(c, r) ensures !SlotBlamed(c, r, s) {
        SlotInOrder(c, r, s);
      }
      assert !SomeSlotBlamed(c, r);
    }
  }

  lemma PlanInOrder(c: Config, error: ConfigError, index: nat)
    requires c.Shaped() && WellFormed(c)
    ensures !BlamesPlan(c, error, index)
  {
    PhasesInOrder(c, error, index);
    AssignmentsInOrder(c, error, index);
    RingsInOrder(c, error, index);
  }

  lemma UnitInOrder(c: Config, error: ConfigError, index: nat)
    requires c.Shaped() && UnitOk(c) && CoordinationOk(c)
    ensures !UnitBlamed(c, error, index)
  {
  }

  lemma TimeBaseInOrder(c: Config, error: ConfigError, index: nat)
    requires c.Shaped() && UnitOk(c) && CoordinationOk(c)
    ensures !BlamesTimeBase(c, error, index)
  {
    SplitsInOrder(c, error, index);
    if 1 <= index <= 8 {
      assert BackupOk(c.userDefinedBackupContents[index - 1]) && PatternOk(c.coordination.patterns[index - 1]);
    }
    if 1 <= index <= 48 {
      assert ActionOk(c.timebaseActions[index - 1]);
    }
  }

  lemma SplitsInOrder(c: Config, error: ConfigError, index: nat)
    requires c.Shaped() && CoordinationOk(c)
    ensures !SplitsBlamed(c, error, index)
  {
    forall r: nat, s: nat | SplitAt(c, r, s, index) ensures !SplitBlamed(c.coordination.splits[r][s], error) {
      assert SplitRowOk(c, r) && SplitOk(c.coordination.splits[r][s]);
    }
  }

  lemma VehicleInOrder(d: VehicleDetector, phaseCount: uint8, number: nat, error: ConfigError)
    requires VehicleDetectorOk(d, phaseCount, number)
    ensures !VehicleBlamed(d, phaseCount, error, number)
  {
  }

  lemma PedInOrder(d: PedDetector, phaseCount: uint8, error: ConfigError)
    requires PedDetectorOk(d, phaseCount)
    ensures !PedBlamed(d, phaseCount, error)
  {
  }

  lemma ReportsInOrder(d: DetectorReports, error: ConfigError)
    requires ReportPeriodsOk(d)
    ensures !ReportBlamed(d, error)
  {
  }

  lemma DetectorsInOrder(c: Config, error: ConfigError, index: nat)
    requires c.Shaped() && DetectorsOk(c)
    ensures !BlamesDetectors(c, error, index)
  {
    if 1 <= index <= 16 {
      VehicleInOrder(c.vehicleDetectors[index - 1], c.phaseCount, index, error);
    }
    if 1 <= index <= 8 {
      PedInOrder(c.pedestrianDetectors[index - 1], c.phaseCount, error);
    }
    ReportsInOrder(c.detectorReports, error);
  }

  lemma PreemptInOrder(c: Config, error: ConfigError, index: nat)
    requires c.Shaped() && PreemptsOk(c)
    ensures !BlamesPreempt(c, error, index)
  {
    if 1 <= index <= 8 {
      assert PreemptOk(c, index - 1);
    }
  }

  lemma WeightsInOrder(c: Config, error: ConfigError, index: nat)
    requires c.Shaped() && PreemptsOk(c)
    ensures !WeightsBlamed(c, error, index)
  {
    forall i: nat, d: nat | WeightAt(i, d, index) ensures c.preemptQueueDelayWeights[i][d] <= 1000 {
      assert PreemptOk(c, i);
    }
  }

  lemma MappingInOrder(c: Config, error: ConfigError, index: nat)
    requires c.Shaped() && PhaseInputsOk(c) && ChannelsOk(c)
    ensures !MappingBlamed(c.inputMapping, error, index)
  {
    if 1 <= index <= 8 {
      assert PreemptInputOk(c.inputMapping, index - 1);
    }
  }

  lemma OutputsInOrder(c: Config, error: ConfigError, index: nat)
    requires c.Shaped() && ChannelsOk(c)
    ensures !BlamesOutputs(c, error, index)
  {
    if 1 <= index <= 32 {
      assert ChannelOk(c.channels[index - 1], c.phaseCount) && OverlapOk(c.overlaps[index - 1], c.phaseCount);
    }
  }

  /** In a well-formed configuration no field is blamed. */
  lemma NothingToBlame(c: Config, error: ConfigError, index: nat)
    requires c.Shaped() && Blames(c, error, index)
    ensures !WellFormed(c)
  {
    if WellFormed(c) {
      UnitInOrder(c, error, index);
      PlanInOrder(c, error, index);
      TimeBaseInOrder(c, error, index);
      DetectorsInOrder(c, error, index);
      PreemptInOrder(c, error, index);
      WeightsInOrder(c, error, index);
      MappingInOrder(c, error, index);
      OutputsInOrder(c, error, index);
    }
  }
}
