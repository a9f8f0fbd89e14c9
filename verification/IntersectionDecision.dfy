/** The rule table of IntersectionRules decides the predicate of IntersectionWellFormed: section by
    section, its rules hold exactly for the fields that the predicate accepts. */
module IntersectionDecision {
  import B = ChannelBits
  import opened ValidationRules
  import opened IntersectionConfig
  import opened IntersectionRules
  import opened IntersectionWellFormed

  // ----- what the option bits and the lists mean -----

  /** An enabled phase is one with an odd option word. */
  lemma EnabledMeans(p: PhaseConfig)
    ensures p.Enabled() <==> p.phaseOptions as int % 2 == 1
  {
    B.OddWord(p.phaseOptions);
    assert p.Enabled() <==> B.IsSet(p.phaseOptions, 0x0001);
  }

  lemma MasksMean(b: bv8)
    ensures OnlyWithin(b, 0x01) <==> b < 2
    ensures OnlyWithin(b, 0x07) <==> b < 8
    ensures OnlyWithin(b, 0x0F) <==> b < 16
    ensures OnlyWithin(b, 0x3F) <==> b < 64
  {
  }

  lemma FlashMaskMeans(b: bv8)
    ensures OnlyWithin(b, 0x0E) <==> b in {0, 2, 4, 6, 8, 10, 12, 14}
  {
  }

  lemma LocksMean(b: bv8)
    ensures LocksBoth(b) <==> b & 0x0C == 0x0C
  {
  }

  lemma ListMeans(list: ReferenceList, count: nat)
    ensures ListOk(list, count) <==> Names(list, count)
  {
    if list.length <= |list.values| {
      var used := list.values[..list.length];
      assert forall k :: 0 <= k < list.length ==> used[k] == list.values[k];
    }
  }

  lemma ConcurrencyMeans(c: Config, i: nat)
    requires c.Shaped() && i < PHASE_COUNT_MAX
    ensures ConcurrencyOk(c, i) <==> ServesWithOthers(c, i)
  {
    ListMeans(c.phases[i].concurrency, Min(c.phaseCount, PHASE_COUNT_MAX));
  }

  // ----- the ring table means that each plan serves exactly its ring -----

  ghost predicate RingRulesHold(c: Config, r: nat)
    requires c.Shaped() && r < RING_COUNT_MAX
  {
    && AllHold(RingHeadRules(c.rings[r], r + 1))
    && forall s :: 0 <= s < Slots(c, r) ==> AllHold(SlotRules(c, r, s))
  }

  lemma RingTableHolds(c: Config, r: nat)
    requires c.Shaped() && r < RING_COUNT_MAX
    ensures Reports(RingTable(c, r), Accepted) <==> RingRulesHold(c, r)
  {
    var head := RingHeadRules(c.rings[r], r + 1);
    var n := Slots(c, r);
    var slots := seq(n, s requires 0 <= s < n => SlotRules(c, r, s));
    AcceptedOne(head);
    AcceptedConcat([head], slots);
    assert forall s :: 0 <= s < n ==> slots[s] == SlotRules(c, r, s);
    assert Reports(slots, Accepted) <==> forall s :: 0 <= s < n ==> AllHold(slots[s]);
  }

  lemma SlotRulesMean(c: Config, r: nat, s: nat)
    requires c.Shaped() && r < RING_COUNT_MAX && s < RING_PHASE_COUNT_MAX
    ensures AllHold(SlotRules(c, r, s)) <==>
            BelongsTo(c, Planned(c, r, s), r) && !ListedBefore(c, r, s, Planned(c, r, s))
  {
    var rules := SlotRules(c, r, s);
    assert AllHold(rules) <==> rules[0].holds && rules[1].holds && rules[2].holds;
  }

  lemma RingHeadRulesMean(c: Config, r: nat)
    requires c.Shaped() && r < RING_COUNT_MAX
    ensures AllHold(RingHeadRules(c.rings[r], r + 1)) <==>
            1 <= c.rings[r].phaseCount <= RING_PHASE_COUNT_MAX
            && 1 <= c.rings[r].barrierPhaseCount <= c.rings[r].phaseCount
  {
    var rules := RingHeadRules(c.rings[r], r + 1);
    assert AllHold(rules) <==> rules[0].holds && rules[1].holds;
  }

  /** Every enabled phase occupies some slot in use. */
  ghost predicate AllAssigned(c: Config)
    requires c.Shaped()
  {
    forall i :: 0 <= i < Phases(c) && c.phases[i].Enabled() ==> ListedBefore(c, Rings(c), 0, i)
  }

  lemma PlanFromRules(c: Config, r: nat)
    requires c.Shaped() && r < Rings(c) && AllAssigned(c)
    requires forall r' :: 0 <= r' < Rings(c) ==> RingRulesHold(c, r')
    ensures RingPlanOk(c, r)
  {
    var order := RingOrder(c, r);
    assert RingRulesHold(c, r);
    RingHeadRulesMean(c, r);
    forall s | 0 <= s < Slots(c, r)
      ensures BelongsTo(c, order[s], r) && forall i :: 0 <= i < s ==> order[i] != order[s]
    {
      SlotRulesMean(c, r, s);
      assert AllHold(SlotRules(c, r, s)) && Planned(c, r, s) == order[s];
      forall i | 0 <= i < s ensures order[i] != order[s] {
        assert Planned(c, r, i) == order[i];
      }
    }
    forall p | BelongsTo(c, p, r) ensures p in order {
      var r', s' :| 0 <= r' < RING_COUNT_MAX && 0 <= s' < Slots(c, r') && (r' < Rings(c) || (r' == Rings(c) && s' < 0))
                    && Planned(c, r', s') == p;
      assert RingRulesHold(c, r') && AllHold(SlotRules(c, r', s'));
      SlotRulesMean(c, r', s');
      assert order[s'] == p;
    }
  }

  lemma RulesFromPlan(c: Config, r: nat, s: nat)
    requires c.Shaped() && RingPlansOk(c) && r < Rings(c) && s < Slots(c, r)
    ensures AllHold(SlotRules(c, r, s))
  {
    var p := Planned(c, r, s);
    assert RingPlanOk(c, r) && RingOrder(c, r)[s] == p;
    assert p in RingOrder(c, r);
    forall r', s' | 0 <= r' < RING_COUNT_MAX && 0 <= s' < Slots(c, r') && (r' < r || (r' == r && s' < s))
      ensures Planned(c, r', s') != p
    {
      assert RingPlanOk(c, r') && RingOrder(c, r')[s'] == Planned(c, r', s');
      assert Planned(c, r', s') in RingOrder(c, r');
    }
    SlotRulesMean(c, r, s);
  }

  lemma AssignedFromPlan(c: Config, i: nat)
    requires c.Shaped() && CountsOk(c) && PhaseRingsExist(c) && RingPlansOk(c)
    requires i < Phases(c) && c.phases[i].Enabled()
    ensures ListedBefore(c, Rings(c), 0, i)
  {
    var r := c.phases[i].ring;
    assert RingPlanOk(c, r) && BelongsTo(c, i, r);
    var s :| 0 <= s < |RingOrder(c, r)| && RingOrder(c, r)[s] == i;
    assert Planned(c, r, s) == i;
  }

  /** The ring and assignment rules hold exactly when every ring in use serves its own enabled
      phases, each once, and nothing else. */
  lemma RingRulesMean(c: Config)
    requires c.Shaped() && CountsOk(c) && PhaseRingsExist(c)
    ensures (forall r :: 0 <= r < Rings(c) ==> RingRulesHold(c, r)) && AllAssigned(c) <==> RingPlansOk(c)
  {
    if (forall r :: 0 <= r < Rings(c) ==> RingRulesHold(c, r)) && AllAssigned(c) {
      forall r | 0 <= r < Rings(c) ensures RingPlanOk(c, r) {
        PlanFromRules(c, r);
      }
    }
    if RingPlansOk(c) {
      forall r | 0 <= r < Rings(c) ensures RingRulesHold(c, r) {
        assert RingPlanOk(c, r);
        RingHeadRulesMean(c, r);
        forall s | 0 <= s < Slots(c, r) ensures AllHold(SlotRules(c, r, s)) {
          RulesFromPlan(c, r, s);
        }
      }
      forall i | 0 <= i < Phases(c) && c.phases[i].Enabled() ensures ListedBefore(c, Rings(c), 0, i) {
        AssignedFromPlan(c, i);
      }
    }
  }

  // ----- the rules of one object mean the predicate on its fields -----

  lemma UnitRulesMean(c: Config)
    requires c.Shaped()
    ensures AllHold(UnitRules(c)) <==>
            CountsOk(c) && 1 <= c.barrierCount <= BARRIER_COUNT_MAX && UnitParametersOk(c.unit)
  {
    var r := UnitRules(c);
    assert AllHold(r) <==>
      && r[0].holds && r[1].holds && r[2].holds && r[3].holds && r[4].holds
      && r[5].holds && r[6].holds && r[7].holds && r[8].holds;
  }

  lemma BackupRulesMean(b: BackupContent, index: nat)
    ensures AllHold(BackupRules(b, index)) <==> BackupOk(b)
  {
    var r := BackupRules(b, index);
    assert AllHold(r) <==> r[0].holds && r[1].holds;
  }

  lemma PhaseGreenMeans(p: PhaseConfig, ringCount: uint8, index: nat)
    ensures AllHold(PhaseGreenRules(p, ringCount, index)) <==>
            && p.ring < ringCount && 1 <= p.startup <= 6
            && (p.Enabled() ==>
                  && 0 < p.minGreenDs <= p.maxGreenDs && p.walkSeconds < 256 && p.pedClearSeconds < 256
                  && 0 < p.yellowChangeDs && 0 < p.redClearDs)
  {
    var r := PhaseGreenRules(p, ringCount, index);
    assert AllHold(r) <==>
      && r[0].holds && r[1].holds && r[2].holds && r[3].holds
      && r[4].holds && r[5].holds && r[6].holds && r[7].holds;
  }

  lemma PhaseTimingMeans(c: Config, i: nat)
    requires c.Shaped() && i < PHASE_COUNT_MAX
    ensures var p := c.phases[i];
      AllHold(PhaseTimingRules(c, i)) <==>
      (p.Enabled() ==>
         && 0 < p.passageDs <= p.maxGreenDs
         && 0 < p.maxInitialDs && p.minGreenDs <= p.maxInitialDs <= p.maxGreenDs
         && p.pedAdvanceWalkDs < 256 && p.pedDelayDs < 256
         && Covers(p.phaseMaximum2Ds, p) && Covers(p.phaseMaximum3Ds, p) && p.phaseMaximum3Ds <= 60000
         && p.minimumGapDs <= p.passageDs && p.AlternateTimesOk() && ServesWithOthers(c, i))
  {
    ConcurrencyMeans(c, i);
    var r := PhaseTimingRules(c, i);
    assert AllHold(r) <==>
      && r[0].holds && r[1].holds && r[2].holds && r[3].holds && r[4].holds
      && r[5].holds && r[6].holds && r[7].holds && r[8].holds;
  }

  lemma PhaseRulesMean(c: Config, i: nat)
    requires c.Shaped() && i < PHASE_COUNT_MAX
    ensures AllHold(PhaseRules(c, i)) <==> PhaseOk(c, i)
  {
    AllHoldConcat(PhaseGreenRules(c.phases[i], c.ringCount, i + 1), PhaseTimingRules(c, i));
    PhaseGreenMeans(c.phases[i], c.ringCount, i + 1);
    PhaseTimingMeans(c, i);
  }

  lemma CoordRulesMean(k: Coordination)
    ensures AllHold(CoordRules(k)) <==> ModesOk(k)
  {
    var r := CoordRules(k);
    assert AllHold(r) <==> r[0].holds && r[1].holds && r[2].holds && r[3].holds;
  }

  lemma PatternRulesMean(p: Pattern, index: nat)
    ensures AllHold(PatternRules(p, index)) <==> PatternOk(p)
  {
    var r := PatternRules(p, index);
    assert AllHold(r) <==> r[0].holds && r[1].holds && r[2].holds && r[3].holds;
  }

  lemma SplitRulesMean(s: SplitPhase, index: nat)
    ensures AllHold(SplitRules(s, index)) <==> SplitOk(s)
  {
    var r := SplitRules(s, index);
    MasksMean(s.options);
    assert AllHold(r) <==> r[0].holds && r[1].holds && r[2].holds;
  }

  lemma ActionRulesMean(a: TimebaseAction, index: nat)
    ensures AllHold(ActionRules(a, index)) <==> ActionOk(a)
  {
    var r := ActionRules(a, index);
    MasksMean(a.auxiliaryFunction);
    assert AllHold(r) <==> r[0].holds && r[1].holds;
  }

  lemma VehicleRulesMean(d: VehicleDetector, phaseCount: uint8, index: nat)
    ensures AllHold(VehicleRules(d, phaseCount, index)) <==> VehicleDetectorOk(d, phaseCount, index)
  {
    var r := VehicleRules(d, phaseCount, index);
    MasksMean(d.options2);
    LocksMean(d.options);
    assert AllHold(r) <==>
      && r[0].holds && r[1].holds && r[2].holds && r[3].holds
      && r[4].holds && r[5].holds && r[6].holds && r[7].holds;
  }

  lemma PedRulesMean(d: PedDetector, phaseCount: uint8, index: nat)
    ensures AllHold(PedRules(d, phaseCount, index)) <==> PedDetectorOk(d, phaseCount)
  {
    var r := PedRules(d, phaseCount, index);
    MasksMean(d.options);
    assert AllHold(r) <==> r[0].holds && r[1].holds;
  }

  lemma ReportRulesMean(d: DetectorReports)
    ensures AllHold(ReportRules(d)) <==> ReportPeriodsOk(d)
  {
    var r := ReportRules(d);
    assert AllHold(r) <==> r[0].holds && r[1].holds;
  }

  lemma PreemptListsMean(p: Preempt, phaseCount: uint8)
    ensures PreemptListsOk(p, phaseCount) <==>
            && PhaseList(p.trackPhases, phaseCount) && PhaseList(p.dwellPhases, phaseCount)
            && PhaseList(p.dwellPeds, phaseCount) && PhaseList(p.exitPhases, phaseCount)
            && PhaseList(p.cyclingPhases, phaseCount) && PhaseList(p.cyclingPeds, phaseCount)
            && OverlapList(p.trackOverlaps) && OverlapList(p.dwellOverlaps) && OverlapList(p.cyclingOverlaps)
  {
    var n := Min(phaseCount, PHASE_COUNT_MAX);
    ListMeans(p.trackPhases, n);
    ListMeans(p.dwellPhases, n);
    ListMeans(p.dwellPeds, n);
    ListMeans(p.exitPhases, n);
    ListMeans(p.cyclingPhases, n);
    ListMeans(p.cyclingPeds, n);
    ListMeans(p.trackOverlaps, OVERLAP_COUNT_MAX);
    ListMeans(p.dwellOverlaps, OVERLAP_COUNT_MAX);
    ListMeans(p.cyclingOverlaps, OVERLAP_COUNT_MAX);
  }

  lemma PreemptRulesMean(p: Preempt, phaseCount: uint8, index: nat)
    requires p.Shaped()
    ensures AllHold(PreemptRules(p, phaseCount, index)) <==>
            && p.control < 64 && p.link <= 8
            && p.sequenceNumber == 1 && 1 <= p.exitType <= 4 && PreemptListsOk(p, phaseCount)
  {
    MasksMean(p.control);
    PreemptListsMean(p, phaseCount);
    var r, s := PreemptServiceRules(p, phaseCount, index), PreemptCyclingRules(p, phaseCount, index);
    AllHoldConcat(r, s);
    assert AllHold(r) <==>
      r[0].holds && r[1].holds && r[2].holds && r[3].holds && r[4].holds && r[5].holds;
    assert AllHold(s) <==>
      s[0].holds && s[1].holds && s[2].holds && s[3].holds && s[4].holds && s[5].holds && s[6].holds;
  }

  lemma PreemptInputRulesMean(m: InputMapping, i: nat)
    requires m.Shaped() && i < PREEMPT_COUNT_MAX
    ensures AllHold(PreemptInputRules(m, i)) <==> PreemptInputOk(m, i)
  {
    var r := PreemptInputRules(m, i);
    assert AllHold(r) <==> r[0].holds && r[1].holds;
  }

  lemma ChannelRulesMean(h: Channel, phaseCount: uint8, index: nat)
    requires h.Shaped()
    ensures AllHold(ChannelRules(h, phaseCount, index)) <==> ChannelOk(h, phaseCount)
  {
    var r := ChannelRules(h, phaseCount, index);
    MasksMean(h.dimMask);
    FlashMaskMeans(h.flashMask);
    ListMeans(h.greenIncluded, CHANNEL_COUNT_MAX);
    assert AllHold(r) <==>
      r[0].holds && r[1].holds && r[2].holds && r[3].holds && r[4].holds && r[5].holds;
  }

  lemma OverlapRulesMean(o: Overlap, phaseCount: uint8, index: nat)
    requires o.Shaped()
    ensures AllHold(AllOverlapRules(o, phaseCount, index)) <==> OverlapOk(o, phaseCount)
  {
    var r, s := OverlapRules(o, phaseCount, index), OverlapTimeRules(o, index);
    AllHoldConcat(r, s);
    var n := Min(phaseCount, PHASE_COUNT_MAX);
    ListMeans(o.includedPhases, n);
    ListMeans(o.modifierPhases, n);
    ListMeans(o.conflictingPedPhases, n);
    assert AllHold(r) <==> r[0].holds && r[1].holds && r[2].holds && r[3].holds;
    assert AllHold(s) <==>
      s[0].holds && s[1].holds && s[2].holds && s[3].holds && s[4].holds && s[5].holds && s[6].holds;
  }

  // ----- the table decides the predicate -----

  ghost predicate Passes(c: Config, k: nat)
    requires c.Shaped() && k < SECTIONS
  {
    Reports(Section(c, k), Accepted)
  }

  lemma EachSection(s: seq<Table>)
    requires |s| == SECTIONS
    ensures (forall k :: 0 <= k < SECTIONS ==> Reports(s[k], Accepted)) <==>
            && Reports(s[0], Accepted) && Reports(s[1], Accepted) && Reports(s[2], Accepted)
            && Reports(s[3], Accepted) && Reports(s[4], Accepted) && Reports(s[5], Accepted)
            && Reports(s[6], Accepted) && Reports(s[7], Accepted) && Reports(s[8], Accepted)
            && Reports(s[9], Accepted) && Reports(s[10], Accepted) && Reports(s[11], Accepted)
            && Reports(s[12], Accepted) && Reports(s[13], Accepted) && Reports(s[14], Accepted)
            && Reports(s[15], Accepted) && Reports(s[16], Accepted)
  {
  }

  lemma TableHolds(c: Config)
    requires c.Shaped()
    ensures Reports(RuleTable(c), Accepted) <==>
            && Passes(c, 0) && Passes(c, 1) && Passes(c, 2) && Passes(c, 3) && Passes(c, 4) && Passes(c, 5)
            && Passes(c, 6) && Passes(c, 7) && Passes(c, 8) && Passes(c, 9) && Passes(c, 10) && Passes(c, 11)
            && Passes(c, 12) && Passes(c, 13) && Passes(c, 14) && Passes(c, 15) && Passes(c, 16)
  {
    FlattenAccepted(Sections(c));
    EachSection(Sections(c));
  }

  lemma UnitSections(c: Config)
    requires c.Shaped()
    ensures Passes(c, 0) && Passes(c, 1) <==> UnitOk(c)
  {
    AcceptedOne(UnitRules(c));
    UnitRulesMean(c);
    var table := Section(c, 1);
    forall i | 0 <= i < BACKUP_CONTENT_COUNT_MAX
      ensures AllHold(table[i]) <==> BackupOk(c.userDefinedBackupContents[i])
    {
      BackupRulesMean(c.userDefinedBackupContents[i], i + 1);
    }
  }

  lemma PhaseSection(c: Config)
    requires c.Shaped()
    ensures Passes(c, 2) <==> PhasesOk(c)
  {
    var table := PhaseTable(c);
    forall i | 0 <= i < Phases(c) ensures AllHold(table[i]) <==> PhaseOk(c, i) {
      PhaseRulesMean(c, i);
    }
  }

  lemma PhasesGiveRings(c: Config)
    requires c.Shaped() && PhasesOk(c)
    ensures PhaseRingsExist(c)
  {
    forall i | 0 <= i < Phases(c) ensures c.phases[i].ring < c.ringCount {
      assert PhaseOk(c, i);
    }
  }

  lemma RingSections(c: Config)
    requires c.Shaped() && CountsOk(c) && PhaseRingsExist(c)
    ensures Passes(c, 3) && Passes(c, 4) <==> RingPlansOk(c)
  {
    var tables := RingTables(c);
    FlattenAccepted(tables);
    forall r | 0 <= r < Rings(c) ensures Reports(tables[r], Accepted) <==> RingRulesHold(c, r) {
      RingTableHolds(c, r);
    }
    UnassignedSection(c);
    RingRulesMean(c);
  }

  lemma UnassignedSection(c: Config)
    requires c.Shaped()
    ensures Passes(c, 4) <==> AllAssigned(c)
  {
    var table := UnassignedTable(c);
    forall i | 0 <= i < Phases(c)
      ensures AllHold(table[i]) <==> !c.phases[i].Enabled() || ListedBefore(c, Rings(c), 0, i)
    {
      assert table[i] == UnassignedRules(c, i);
      assert AllHold(table[i]) <==> table[i][0].holds;
    }
  }

  lemma CoordSections(c: Config)
    requires c.Shaped()
    ensures Passes(c, 5) && Passes(c, 6) && Passes(c, 7) && Passes(c, 8) <==> CoordinationOk(c)
  {
    AcceptedOne(CoordRules(c.coordination));
    CoordRulesMean(c.coordination);
    PatternSection(c);
    SplitSection(c);
    ActionSection(c);
  }

  lemma PatternSection(c: Config)
    requires c.Shaped()
    ensures Passes(c, 6) <==> forall i :: 0 <= i < PATTERN_COUNT_MAX ==> PatternOk(c.coordination.patterns[i])
  {
    var table := Section(c, 6);
    forall i | 0 <= i < PATTERN_COUNT_MAX ensures AllHold(table[i]) <==> PatternOk(c.coordination.patterns[i]) {
      PatternRulesMean(c.coordination.patterns[i], i + 1);
    }
  }

  lemma ActionSection(c: Config)
    requires c.Shaped()
    ensures Passes(c, 8) <==> forall i :: 0 <= i < TIMEBASE_ACTION_COUNT_MAX ==> ActionOk(c.timebaseActions[i])
  {
    var table := Section(c, 8);
    forall i | 0 <= i < TIMEBASE_ACTION_COUNT_MAX ensures AllHold(table[i]) <==> ActionOk(c.timebaseActions[i]) {
      ActionRulesMean(c.timebaseActions[i], i + 1);
    }
  }

  lemma SplitSection(c: Config)
    requires c.Shaped()
    ensures Passes(c, 7) <==> forall r :: 0 <= r < SPLIT_COUNT_MAX ==> SplitRowOk(c, r)
  {
    var tables := SplitTables(c);
    FlattenAccepted(tables);
    forall r | 0 <= r < SPLIT_COUNT_MAX ensures Reports(tables[r], Accepted) <==> SplitRowOk(c, r) {
      SplitTableHolds(c, r);
    }
  }

  lemma SplitTableHolds(c: Config, r: nat)
    requires c.Shaped() && r < SPLIT_COUNT_MAX
    ensures Reports(SplitTable(c, r), Accepted) <==> SplitRowOk(c, r)
  {
    var table := SplitTable(c, r);
    forall s | 0 <= s < Phases(c) ensures AllHold(table[s]) <==> SplitOk(c.coordination.splits[r][s]) {
      SplitRulesMean(c.coordination.splits[r][s], r * PHASE_COUNT_MAX + s + 1);
    }
  }

  lemma DetectorSections(c: Config)
    requires c.Shaped()
    ensures Passes(c, 9) && Passes(c, 10) && Passes(c, 11) <==> DetectorsOk(c)
  {
    AcceptedOne(ReportRules(c.detectorReports));
    ReportRulesMean(c.detectorReports);
    VehicleSection(c);
    PedSection(c);
  }

  lemma VehicleSection(c: Config)
    requires c.Shaped()
    ensures Passes(c, 9) <==>
            forall i :: 0 <= i < VEHICLE_DETECTOR_COUNT_MAX ==>
              VehicleDetectorOk(c.vehicleDetectors[i], c.phaseCount, i + 1)
  {
    var table := Section(c, 9);
    forall i | 0 <= i < VEHICLE_DETECTOR_COUNT_MAX
      ensures AllHold(table[i]) <==> VehicleDetectorOk(c.vehicleDetectors[i], c.phaseCount, i + 1)
    {
      VehicleRulesMean(c.vehicleDetectors[i], c.phaseCount, i + 1);
    }
  }

  lemma PedSection(c: Config)
    requires c.Shaped()
    ensures Passes(c, 10) <==>
            forall i :: 0 <= i < PED_INPUT_COUNT_MAX ==> PedDetectorOk(c.pedestrianDetectors[i], c.phaseCount)
  {
    var table := Section(c, 10);
    forall i | 0 <= i < PED_INPUT_COUNT_MAX
      ensures AllHold(table[i]) <==> PedDetectorOk(c.pedestrianDetectors[i], c.phaseCount)
    {
      PedRulesMean(c.pedestrianDetectors[i], c.phaseCount, i + 1);
    }
  }

  lemma PreemptSection(c: Config)
    requires c.Shaped()
    ensures Passes(c, 12) <==> PreemptsOk(c)
  {
    FlattenAccepted(PreemptTables(c));
    PreemptTablesHold(c);
  }

  lemma PreemptTablesHold(c: Config)
    requires c.Shaped()
    ensures (forall i :: 0 <= i < PREEMPT_COUNT_MAX ==> Reports(PreemptTables(c)[i], Accepted)) <==> PreemptsOk(c)
  {
    forall i | 0 <= i < PREEMPT_COUNT_MAX ensures Reports(PreemptTables(c)[i], Accepted) <==> PreemptOk(c, i) {
      PreemptTableHolds(c, i);
    }
  }

  lemma PreemptTableHolds(c: Config, i: nat)
    requires c.Shaped() && i < PREEMPT_COUNT_MAX
    ensures Reports(PreemptTable(c, i), Accepted) <==> PreemptOk(c, i)
  {
    var rules, weights := PreemptRules(c.preempts[i], c.phaseCount, i + 1), c.preemptQueueDelayWeights[i];
    var table := seq(VEHICLE_DETECTOR_COUNT_MAX, d requires 0 <= d < VEHICLE_DETECTOR_COUNT_MAX =>
      WeightRules(weights[d], i * VEHICLE_DETECTOR_COUNT_MAX + d + 1));
    AcceptedOne(rules);
    AcceptedConcat([rules], table);
    PreemptRulesMean(c.preempts[i], c.phaseCount, i + 1);
    forall d | 0 <= d < VEHICLE_DETECTOR_COUNT_MAX ensures AllHold(table[d]) <==> weights[d] <= 1000 {
      assert AllHold(table[d]) <==> table[d][0].holds;
    }
  }

  lemma FirstUsesMean(m: seq<uint8>)
    ensures (forall i :: 0 <= i < |m| ==> FirstUse(m, i)) <==>
            forall p, q :: 0 <= p < q < |m| ==> m[p] == 0 || m[p] != m[q]
  {
    if forall i :: 0 <= i < |m| ==> FirstUse(m, i) {
      forall p, q | 0 <= p < q < |m| ensures m[p] == 0 || m[p] != m[q] {
        assert FirstUse(m, q);
      }
    }
  }

  lemma InputSection(c: Config)
    requires c.Shaped()
    ensures Passes(c, 13) <==> PhaseInputsOk(c)
  {
    var table, m := Section(c, 13), c.inputMapping;
    forall i | 0 <= i < PHASE_COUNT_MAX
      ensures AllHold(table[i]) <==>
              m.phaseDetectors[i] <= VEHICLE_DETECTOR_COUNT_MAX && FirstUse(m.phaseDetectors, i)
              && m.phasePedInputs[i] <= PED_INPUT_COUNT_MAX && FirstUse(m.phasePedInputs, i)
    {
      var rules := table[i];
      assert rules == InputRules(m, i);
      assert AllHold(rules) <==> rules[0].holds && rules[1].holds && rules[2].holds && rules[3].holds;
    }
    FirstUsesMean(m.phaseDetectors);
    FirstUsesMean(m.phasePedInputs);
  }

  lemma PreemptInputSection(c: Config)
    requires c.Shaped()
    ensures Passes(c, 14) <==> forall i :: 0 <= i < PREEMPT_COUNT_MAX ==> PreemptInputOk(c.inputMapping, i)
  {
    var table := Section(c, 14);
    forall i | 0 <= i < PREEMPT_COUNT_MAX ensures AllHold(table[i]) <==> PreemptInputOk(c.inputMapping, i) {
      PreemptInputRulesMean(c.inputMapping, i);
    }
  }

  lemma ChannelSection(c: Config)
    requires c.Shaped()
    ensures Passes(c, 15) <==> forall i :: 0 <= i < CHANNEL_COUNT_MAX ==> ChannelOk(c.channels[i], c.phaseCount)
  {
    var table := Section(c, 15);
    forall i | 0 <= i < CHANNEL_COUNT_MAX ensures AllHold(table[i]) <==> ChannelOk(c.channels[i], c.phaseCount) {
      ChannelRulesMean(c.channels[i], c.phaseCount, i + 1);
    }
  }

  lemma OverlapSection(c: Config)
    requires c.Shaped()
    ensures Passes(c, 16) <==> forall i :: 0 <= i < OVERLAP_COUNT_MAX ==> OverlapOk(c.overlaps[i], c.phaseCount)
  {
    var table := Section(c, 16);
    forall i | 0 <= i < OVERLAP_COUNT_MAX ensures AllHold(table[i]) <==> OverlapOk(c.overlaps[i], c.phaseCount) {
      OverlapRulesMean(c.overlaps[i], c.phaseCount, i + 1);
    }
  }

  lemma FirstSections(c: Config)
    requires c.Shaped()
    ensures Passes(c, 0) && Passes(c, 1) && Passes(c, 2) && Passes(c, 3) && Passes(c, 4) <==>
            UnitOk(c) && PhasesOk(c) && RingPlansOk(c)
  {
    UnitSections(c);
    PhaseSection(c);
    if UnitOk(c) && PhasesOk(c) {
      PhasesGiveRings(c);
      RingSections(c);
    }
  }

  lemma LastSections(c: Config)
    requires c.Shaped()
    ensures Passes(c, 14) && Passes(c, 15) && Passes(c, 16) <==> ChannelsOk(c)
  {
    PreemptInputSection(c);
    ChannelSection(c);
    OverlapSection(c);
  }

  /** The scan finds no failing rule exactly when the configuration is well formed. */
  lemma AcceptedExactlyWhenWellFormed(c: Config)
    requires c.Shaped()
    ensures Reports(RuleTable(c), Accepted) <==> WellFormed(c)
  {
    TableHolds(c);
    FirstSections(c);
    CoordSections(c);
    DetectorSections(c);
    PreemptSection(c);
    InputSection(c);
    LastSections(c);
  }
}
