/** What an accepted intersection configuration guarantees, that rebuilding the input mapping
    never breaks it, and that the factory defaults are accepted. Accepted and well formed are the
    same by IntersectionDecision. */
module IntersectionGuarantees {
  import opened ValidationRules
  import opened IntersectionConfig
  import opened IntersectionRules
  import opened IntersectionWellFormed
  import opened IntersectionDecision

  // ----- rings -----

  ghost function Elements(s: seq<uint8>): set<uint8> {
    set x | x in s
  }

  lemma {:induction false} DistinctSize(s: seq<uint8>)
    requires Distinct(s)
    ensures |Elements(s)| == |s|
  {
    if s != [] {
      var front, last := s[..|s| - 1], s[|s| - 1];
      DistinctSize(front);
      assert Elements(s) == Elements(front) + {last};
      assert last !in front;
    }
  }

  /** Pigeonhole: distinct numbers one above members of a set are no more than its members. */
  lemma {:induction false} NoMoreThan(values: seq<uint8>, members: set<int>)
    requires Distinct(values) && forall k :: 0 <= k < |values| ==> values[k] as int - 1 in members
    ensures |values| <= |members|
  {
    if values != [] {
      var last := values[|values| - 1];
      NoMoreThan(values[..|values| - 1], members - {last as int - 1});
    }
  }

  ghost function RingPhases(c: Config, r: nat): set<int>
    requires c.Shaped()
  {
    set p | 0 <= p < Phases(c) && BelongsTo(c, p, r)
  }

  ghost function EnabledPhases(c: Config): set<int>
    requires c.Shaped()
  {
    set p | 0 <= p < Phases(c) && c.phases[p].Enabled()
  }

  lemma RingSize(c: Config, r: nat)
    requires c.Shaped() && r < RING_COUNT_MAX && RingPlanOk(c, r)
    ensures |RingPhases(c, r)| == c.rings[r].phaseCount
  {
    DistinctSize(RingOrder(c, r));
    assert RingPhases(c, r) == Elements(RingOrder(c, r)) by {
      forall p ensures p in RingPhases(c, r) <==> p in Elements(RingOrder(c, r)) {
        assert p in RingOrder(c, r) <==> BelongsTo(c, p, r);
      }
    }
  }

  /** A slot in use of a ring in use. */
  ghost predicate Serves(c: Config, r: nat, s: nat, phase: int)
    requires c.Shaped()
  {
    r < Rings(c) && s < Slots(c, r) && Planned(c, r, s) == phase
  }

  /** The parts of well-formedness that speak of rings. */
  ghost predicate RingsOk(c: Config)
    requires c.Shaped()
  {
    CountsOk(c) && PhaseRingsExist(c) && RingPlansOk(c)
  }

  lemma WellFormedRings(c: Config)
    requires c.Shaped() && WellFormed(c)
    ensures RingsOk(c)
  {
    PhasesGiveRings(c);
  }

  lemma ServedPhase(c: Config, r: nat, s: nat, phase: int)
    requires c.Shaped() && RingsOk(c) && Serves(c, r, s, phase)
    ensures BelongsTo(c, phase, r) && RingOrder(c, r)[s] == phase
  {
    assert RingPlanOk(c, r) && RingOrder(c, r)[s] == phase;
    assert phase in RingOrder(c, r);
  }

  lemma SomeSlot(c: Config, phase: int)
    requires c.Shaped() && RingsOk(c) && phase in EnabledPhases(c)
    ensures exists r: nat, s: nat :: Serves(c, r, s, phase)
  {
    var r := c.phases[phase].ring;
    assert RingPlanOk(c, r) && BelongsTo(c, phase, r);
    var s: nat :| s < |RingOrder(c, r)| && RingOrder(c, r)[s] == phase;
    assert Serves(c, r, s, phase);
  }

  /** Over all rings, the slots in use serve every enabled phase exactly once, in its own ring,
      and no disabled phase. */
  lemma EnabledPhasesServedOnce(c: Config, phase: int)
    requires c.Shaped() && WellFormed(c)
    ensures phase in EnabledPhases(c) <==> exists r: nat, s: nat :: Serves(c, r, s, phase)
    ensures forall r: nat, s: nat :: Serves(c, r, s, phase) ==> BelongsTo(c, phase, r)
    ensures forall r: nat, s: nat, r': nat, s': nat ::
              Serves(c, r, s, phase) && Serves(c, r', s', phase) ==> r == r' && s == s'
  {
    WellFormedRings(c);
    ServedOnce(c, phase);
  }

  lemma ServedOnce(c: Config, phase: int)
    requires c.Shaped() && RingsOk(c)
    ensures phase in EnabledPhases(c) <==> exists r: nat, s: nat :: Serves(c, r, s, phase)
    ensures forall r: nat, s: nat :: Serves(c, r, s, phase) ==> BelongsTo(c, phase, r)
    ensures forall r: nat, s: nat, r': nat, s': nat ::
              Serves(c, r, s, phase) && Serves(c, r', s', phase) ==> r == r' && s == s'
  {
    forall r: nat, s: nat | Serves(c, r, s, phase) ensures BelongsTo(c, phase, r) && RingOrder(c, r)[s] == phase {
      ServedPhase(c, r, s, phase);
    }
    forall r: nat, s: nat, r': nat, s': nat | Serves(c, r, s, phase) && Serves(c, r', s', phase)
      ensures r == r' && s == s'
    {
      assert RingPlanOk(c, r);
    }
    if phase in EnabledPhases(c) {
      SomeSlot(c, phase);
    }
  }

  /** The slots in use are as many as the enabled phases. */
  lemma SlotsCountEnabledPhases(c: Config)
    requires c.Shaped() && WellFormed(c)
    ensures c.rings[0].phaseCount + (if c.ringCount == 2 then c.rings[1].phaseCount else 0) == |EnabledPhases(c)|
  {
    WellFormedRings(c);
    RingSize(c, 0);
    if c.ringCount == 2 {
      RingSize(c, 1);
    }
    SplitByRing(c);
  }

  lemma SplitByRing(c: Config)
    requires c.Shaped() && CountsOk(c) && PhaseRingsExist(c)
    ensures |EnabledPhases(c)| == |RingPhases(c, 0)| + if c.ringCount == 2 then |RingPhases(c, 1)| else 0
  {
    if c.ringCount == 2 {
      assert EnabledPhases(c) == RingPhases(c, 0) + RingPhases(c, 1);
      assert RingPhases(c, 0) !! RingPhases(c, 1);
    } else {
      assert EnabledPhases(c) == RingPhases(c, 0);
    }
  }

  ghost function OtherRing(c: Config, ring: nat): (phases: set<int>)
    requires c.Shaped()
  {
    EnabledPhases(c) - RingPhases(c, ring)
  }

  lemma OtherRingSize(c: Config, ring: nat)
    requires c.Shaped() && RingsOk(c) && ring < Rings(c)
    ensures |OtherRing(c, ring)| == if c.ringCount == 2 then c.rings[1 - ring].phaseCount else 0
    ensures |OtherRing(c, ring)| <= RING_PHASE_COUNT_MAX
  {
    if c.ringCount == 2 {
      RingSize(c, 1 - ring);
      assert OtherRing(c, ring) == RingPhases(c, 1 - ring);
    } else {
      assert OtherRing(c, ring) == {};
    }
  }

  /** An enabled phase's concurrency list names distinct enabled phases of the other ring. So it
      has no more entries than that ring has slots, at most four, and none if there is one ring. */
  lemma ConcurrencyBound(c: Config, i: nat)
    requires c.Shaped() && WellFormed(c) && i in EnabledPhases(c)
    ensures var list, ring := c.phases[i].concurrency, c.phases[i].ring;
      && ring < c.ringCount <= RING_COUNT_MAX && list.length <= |list.values|
      && Distinct(list.values[..list.length])
      && (forall k :: 0 <= k < list.length ==> list.values[k] as int - 1 in OtherRing(c, ring))
      && list.length <= (if c.ringCount == 2 then c.rings[1 - ring].phaseCount else 0) <= RING_PHASE_COUNT_MAX
  {
    var list, ring := c.phases[i].concurrency, c.phases[i].ring;
    WellFormedRings(c);
    assert PhaseOk(c, i);
    ConcurrencyRule(c, i);
    OtherRingSize(c, ring);
    NoMoreThan(list.values[..list.length], OtherRing(c, ring));
  }

  /** The concurrency rule of an enabled phase, in terms of sets. */
  lemma ConcurrencyRule(c: Config, i: nat)
    requires c.Shaped() && i < Phases(c) && ServesWithOthers(c, i)
    ensures var list := c.phases[i].concurrency;
      && list.length <= |list.values|
      && Distinct(list.values[..list.length])
      && (forall k :: 0 <= k < list.length ==> list.values[k] as int - 1 in OtherRing(c, c.phases[i].ring))
  {
    var list := c.phases[i].concurrency;
    forall k | 0 <= k < list.length ensures list.values[k] as int - 1 in OtherRing(c, c.phases[i].ring) {
      var other := list.values[k] as int - 1;
      assert 0 <= other < Phases(c);
    }
  }

  // ----- rebuilding the input mapping -----

  /** Two configurations that differ at most in the phase inputs. */
  ghost predicate SameApartFromInputs(c: Config, d: Config) {
    d == c.(inputMapping := c.inputMapping.(phaseDetectors := d.inputMapping.phaseDetectors,
                                            phasePedInputs := d.inputMapping.phasePedInputs))
  }

  /** Two configurations that differ at most in the input mapping and the channels. */
  ghost predicate SameApartFromWiring(c: Config, d: Config) {
    d == c.(inputMapping := d.inputMapping, channels := d.channels)
  }

  lemma SamePhases(c: Config, d: Config)
    requires c.Shaped() && d.Shaped() && SameApartFromWiring(c, d) && PhasesOk(c)
    ensures PhasesOk(d)
  {
    forall i | 0 <= i < Phases(d) ensures PhaseOk(d, i) {
      assert PhaseOk(c, i) && (ServesWithOthers(d, i) <==> ServesWithOthers(c, i));
    }
  }

  lemma SameRings(c: Config, d: Config)
    requires c.Shaped() && d.Shaped() && SameApartFromWiring(c, d) && RingPlansOk(c)
    ensures RingPlansOk(d)
  {
    forall r | 0 <= r < Rings(d) ensures RingPlanOk(d, r) {
      assert RingPlanOk(c, r);
      assert RingOrder(d, r) == RingOrder(c, r);
      assert forall p :: BelongsTo(d, p, r) <==> BelongsTo(c, p, r);
    }
  }

  lemma SameUnitAndCoordination(c: Config, d: Config)
    requires c.Shaped() && d.Shaped() && SameApartFromWiring(c, d)
    requires UnitOk(c) && CoordinationOk(c)
    ensures UnitOk(d) && CoordinationOk(d)
  {
    forall r | 0 <= r < SPLIT_COUNT_MAX ensures SplitRowOk(d, r) {
      assert SplitRowOk(c, r);
    }
  }

  lemma SameDetectorsAndChannels(c: Config, d: Config)
    requires c.Shaped() && d.Shaped() && SameApartFromInputs(c, d)
    requires DetectorsOk(c) && ChannelsOk(c)
    ensures DetectorsOk(d) && ChannelsOk(d)
  {
    forall i | 0 <= i < PREEMPT_COUNT_MAX ensures PreemptInputOk(d.inputMapping, i) {
      assert PreemptInputOk(c.inputMapping, i);
    }
  }

  lemma SamePreempts(c: Config, d: Config)
    requires c.Shaped() && d.Shaped() && SameApartFromWiring(c, d) && PreemptsOk(c)
    ensures PreemptsOk(d)
  {
    forall i | 0 <= i < PREEMPT_COUNT_MAX ensures PreemptOk(d, i) {
      assert PreemptOk(c, i);
    }
  }

  lemma RestUnaffected(c: Config, d: Config)
    requires c.Shaped() && d.Shaped() && SameApartFromInputs(c, d)
    requires WellFormedApartFromInputs(c)
    ensures WellFormedApartFromInputs(d)
  {
    SameUnitAndCoordination(c, d);
    SamePhases(c, d);
    SameRings(c, d);
    SameDetectorsAndChannels(c, d);
    SamePreempts(c, d);
  }

  /** After a rebuild the phase inputs can no longer be the reason for a rejection: the
      configuration is accepted exactly when everything else in it is in order. */
  lemma RebuiltAcceptedExactlyWhen(c: Config)
    requires c.Shaped()
    ensures WellFormed(Rebuilt(c)) <==> WellFormedApartFromInputs(c)
  {
    var d := Rebuilt(c);
    RebuildRepairsInputs(c);
    if WellFormedApartFromInputs(c) {
      RestUnaffected(c, d);
    }
    if WellFormed(d) {
      RestUnaffected(d, c);
    }
  }

  /** In particular an accepted configuration stays accepted. */
  lemma RebuildKeepsAcceptance(c: Config)
    requires c.Shaped() && Reports(RuleTable(c), Accepted)
    ensures Reports(RuleTable(Rebuilt(c)), Accepted)
  {
    AcceptedExactlyWhenWellFormed(c);
    RebuiltAcceptedExactlyWhen(c);
    AcceptedExactlyWhenWellFormed(Rebuilt(c));
  }

  // ----- channels -----

  /** What a channel of its own may look like, with phaseCount phases. */
  ghost predicate ChannelFits(h: Channel, phaseCount: uint8)
    requires h.Shaped()
  {
    && 1 <= h.controlType <= 6 && 1 <= h.greenType <= 5
    && (h.controlSource != 0 ==>
          || (h.controlType in {2, 3} && h.controlSource <= phaseCount)
          || (h.controlType in {4, 5, 6} && h.controlSource <= 32))
    && h.flashMask in {0, 2, 4, 6, 8, 10, 12, 14} && h.dimMask < 16
    && h.greenIncluded.length <= 32
    && (forall k :: 0 <= k < h.greenIncluded.length ==> 1 <= h.greenIncluded.values[k] <= 32)
    && Distinct(h.greenIncluded.values[..h.greenIncluded.length])
  }

  lemma FitsMeans(h: Channel, phaseCount: uint8)
    requires h.Shaped()
    ensures ChannelFits(h, phaseCount) <==> ChannelOk(h, phaseCount)
  {
    ListMeans(h.greenIncluded, 32);
  }

  /** In an accepted configuration a channel is driven by an existing phase if its type is 2 or 3, by an
      overlap if its type is 4, 5 or 6, and by nothing if its type is 1. */
  lemma ChannelSources(c: Config, i: nat)
    requires c.Shaped() && WellFormed(c) && i < 32
    ensures var h := c.channels[i];
      && (h.controlType == 1 ==> h.controlSource == 0)
      && (h.controlType in {2, 3} ==> h.controlSource <= c.phaseCount)
      && (h.controlType in {4, 5, 6} ==> h.controlSource <= 32)
      && ChannelFits(h, c.phaseCount)
  {
    assert ChannelOk(c.channels[i], c.phaseCount);
    FitsMeans(c.channels[i], c.phaseCount);
  }

  /** Exactly the channels that fit may stand in place of any channel of an accepted configuration. */
  lemma ChannelMayChangeExactlyWhen(c: Config, i: nat, h: Channel)
    requires c.Shaped() && WellFormed(c) && i < 32 && h.Shaped()
    ensures var d := c.(channels := c.channels[i := h]);
      d.Shaped() && (WellFormed(d) <==> ChannelFits(h, c.phaseCount))
  {
    var d := c.(channels := c.channels[i := h]);
    FitsMeans(h, c.phaseCount);
    SameUnitAndCoordination(c, d);
    SamePhases(c, d);
    SameRings(c, d);
    SamePreempts(c, d);
    OtherChannels(c, i, h);
  }

  lemma OtherChannels(c: Config, i: nat, h: Channel)
    requires c.Shaped() && WellFormed(c) && i < 32 && h.Shaped()
    ensures var d := c.(channels := c.channels[i := h]);
      d.Shaped() && DetectorsOk(d) && PhaseInputsOk(d) && (ChannelsOk(d) <==> ChannelOk(h, c.phaseCount))
  {
    var d := c.(channels := c.channels[i := h]);
    assert d.channels[i] == h && forall j :: 0 <= j < 32 && j != i ==> d.channels[j] == c.channels[j];
    assert forall j :: 0 <= j < 8 ==> (PreemptInputOk(d.inputMapping, j) <==> PreemptInputOk(c.inputMapping, j));
  }

  // ----- the defaults -----

  lemma EmptyListOk(capacity: nat, count: nat)
    ensures Names(EmptyList(capacity), count)
  {
  }

  lemma DefaultUnit()
    ensures UnitOk(BlankDefaults()) && DetectorsOk(BlankDefaults())
  {
  }

  lemma DefaultPhases()
    ensures PhasesOk(BlankDefaults())
  {
    var c := BlankDefaults();
    forall i | 0 <= i < PHASE_COUNT_MAX ensures PhaseOk(c, i) {
      assert c.phases[i] == DefaultPhase(i);
      EmptyListOk(PHASE_COUNT_MAX, PHASE_COUNT_MAX);
    }
  }

  lemma DefaultRings()
    ensures RingPlansOk(BlankDefaults())
  {
    var c := BlankDefaults();
    forall r | 0 <= r < RING_COUNT_MAX ensures RingPlanOk(c, r) {
      var order := RingOrder(c, r);
      forall s | 0 <= s < 4 ensures order[s] == 4 * r + s {
      }
      forall p ensures p in order <==> BelongsTo(c, p, r) {
        if BelongsTo(c, p, r) {
          assert order[p - 4 * r] == p;
        }
      }
    }
  }

  lemma DefaultCoordinationOk()
    ensures CoordinationOk(BlankDefaults())
  {
  }

  lemma DefaultPreempts()
    ensures PreemptsOk(BlankDefaults())
  {
    forall i | 0 <= i < PREEMPT_COUNT_MAX ensures PreemptOk(BlankDefaults(), i) {
      EmptyListOk(PHASE_COUNT_MAX, PHASE_COUNT_MAX);
      EmptyListOk(OVERLAP_COUNT_MAX, OVERLAP_COUNT_MAX);
    }
  }

  lemma DefaultChannels()
    ensures ChannelsOk(BlankDefaults())
  {
    EmptyListOk(PHASE_COUNT_MAX, PHASE_COUNT_MAX);
    EmptyListOk(CHANNEL_COUNT_MAX, CHANNEL_COUNT_MAX);
  }

  /** The factory defaults are accepted. */
  lemma DefaultsAccepted()
    ensures Reports(RuleTable(Rebuilt(BlankDefaults())), Accepted)
  {
    DefaultUnit();
    DefaultPhases();
    DefaultRings();
    DefaultCoordinationOk();
    DefaultPreempts();
    DefaultChannels();
    RebuiltAcceptedExactlyWhen(BlankDefaults());
    AcceptedExactlyWhenWellFormed(Rebuilt(BlankDefaults()));
  }

  // ----- when concurrency lists are symmetric -----

  /** Phase i lists phase j; both are counted from 0. */
  ghost predicate Lists(c: Config, i: nat, j: nat)
    requires c.Shaped() && i < PHASE_COUNT_MAX
  {
    var list := c.phases[i].concurrency;
    exists k :: 0 <= k < list.length && k < PHASE_COUNT_MAX && list.values[k] == j + 1
  }

  /** Of two enabled phases, each lists the other or neither does. */
  ghost predicate Symmetric(c: Config)
    requires c.Shaped()
  {
    forall i, j :: i in EnabledPhases(c) && j in EnabledPhases(c) ==> Mutual(c, i, j)
  }

  ghost predicate Mutual(c: Config, i: int, j: int)
    requires c.Shaped()
  {
    0 <= i < PHASE_COUNT_MAX && 0 <= j < PHASE_COUNT_MAX && (Lists(c, i, j) <==> Lists(c, j, i))
  }

  ghost predicate SameApartFromList(p: PhaseConfig, q: PhaseConfig) {
    q == p.(concurrency := q.concurrency)
  }

  ghost predicate SameApartFromConcurrency(c: Config, d: Config)
    requires c.Shaped() && d.Shaped()
  {
    d == c.(phases := d.phases) && forall i :: 0 <= i < PHASE_COUNT_MAX ==> SameApartFromList(c.phases[i], d.phases[i])
  }

  lemma RingsIgnoreLists(c: Config, d: Config)
    requires c.Shaped() && d.Shaped() && SameApartFromConcurrency(c, d) && RingPlansOk(c)
    ensures RingPlansOk(d)
  {
    forall r | 0 <= r < Rings(d) ensures RingPlanOk(d, r) {
      assert RingPlanOk(c, r) && RingOrder(d, r) == RingOrder(c, r);
      forall p ensures BelongsTo(d, p, r) <==> BelongsTo(c, p, r) {
        assert 0 <= p < PHASE_COUNT_MAX ==> SameApartFromList(c.phases[p], d.phases[p]);
      }
    }
  }

  lemma UnitIgnoresLists(c: Config, d: Config)
    requires c.Shaped() && d.Shaped() && SameApartFromConcurrency(c, d) && UnitOk(c) && CoordinationOk(c)
    ensures UnitOk(d) && CoordinationOk(d)
  {
    forall r | 0 <= r < SPLIT_COUNT_MAX ensures SplitRowOk(d, r) {
      assert SplitRowOk(c, r);
    }
  }

  lemma DevicesIgnoreLists(c: Config, d: Config)
    requires c.Shaped() && d.Shaped() && SameApartFromConcurrency(c, d)
    requires DetectorsOk(c) && ChannelsOk(c) && PreemptsOk(c) && PhaseInputsOk(c)
    ensures DetectorsOk(d) && ChannelsOk(d) && PreemptsOk(d) && PhaseInputsOk(d)
  {
    forall i | 0 <= i < PREEMPT_COUNT_MAX ensures PreemptOk(d, i) {
      assert PreemptOk(c, i);
    }
  }

  /** Any list that meets its own rule may stand in place of an enabled phase's list. */
  lemma ListsMayChange(c: Config, d: Config)
    requires c.Shaped() && d.Shaped() && SameApartFromConcurrency(c, d) && WellFormed(c)
    requires forall i :: i in EnabledPhases(d) ==> ServesWithOthers(d, i)
    ensures WellFormed(d)
  {
    UnitIgnoresLists(c, d);
    RingsIgnoreLists(c, d);
    DevicesIgnoreLists(c, d);
    forall i | 0 <= i < Phases(d) ensures PhaseOk(d, i) {
      assert PhaseOk(c, i) && SameApartFromList(c.phases[i], d.phases[i]);
      assert d.phases[i].Enabled() ==> i in EnabledPhases(d);
    }
  }

  /** The configuration with phase i listing phase j and no other lists. */
  ghost function OneSided(c: Config, i: nat, j: nat): (d: Config)
    requires c.Shaped() && i < PHASE_COUNT_MAX && j < PHASE_COUNT_MAX
    ensures d.Shaped() && SameApartFromConcurrency(c, d)
    ensures forall k :: 0 <= k < PHASE_COUNT_MAX ==>
              d.phases[k].concurrency == ReferenceList(if k == i then 1 else 0, Repeat(PHASE_COUNT_MAX, j + 1))
  {
    c.(phases := seq(PHASE_COUNT_MAX, k requires 0 <= k < PHASE_COUNT_MAX =>
         c.phases[k].(concurrency := ReferenceList(if k == i then 1 else 0, Repeat(PHASE_COUNT_MAX, j + 1)))))
  }

  lemma OneSidedWellFormed(c: Config, i: nat, j: nat)
    requires c.Shaped() && WellFormed(c) && BelongsTo(c, i, 0) && BelongsTo(c, j, 1)
    ensures WellFormed(OneSided(c, i, j)) && !Symmetric(OneSided(c, i, j))
  {
    var d := OneSided(c, i, j);
    assert SameApartFromList(c.phases[i], d.phases[i]) && SameApartFromList(c.phases[j], d.phases[j]);
    forall k | k in EnabledPhases(d) ensures ServesWithOthers(d, k) {
      assert SameApartFromList(c.phases[k], d.phases[k]);
    }
    ListsMayChange(c, d);
    assert d.phases[i].concurrency.values[0] == j + 1;
    assert Lists(d, i, j) && !Lists(d, j, i);
    assert i in EnabledPhases(d) && j in EnabledPhases(d) && !Mutual(d, i, j);
  }

  /** A ring in use serves some phase. */
  lemma SomePhase(c: Config, r: nat) returns (phase: nat)
    requires c.Shaped() && RingsOk(c) && r < Rings(c)
    ensures BelongsTo(c, phase, r)
  {
    assert RingPlanOk(c, r);
    phase := RingOrder(c, r)[0];
    assert phase in RingOrder(c, r);
  }

  lemma OneRingIsSymmetric(c: Config)
    requires c.Shaped() && WellFormed(c) && c.ringCount == 1
    ensures Symmetric(c)
  {
    forall i, j | i in EnabledPhases(c) && j in EnabledPhases(c) ensures Mutual(c, i, j) {
      ConcurrencyBound(c, i);
      ConcurrencyBound(c, j);
    }
  }

  /** Of an accepted configuration, every accepted variant with other concurrency lists is
      symmetric if and only if there is one ring; with two rings symmetry is never enforced. Lists
      of disabled phases are not checked and do not matter here. */
  lemma SymmetryGuaranteedExactlyWhen(c: Config)
    requires c.Shaped() && WellFormed(c)
    ensures (forall d: Config | d.Shaped() && SameApartFromConcurrency(c, d) && WellFormed(d) :: Symmetric(d)) <==>
            c.ringCount == 1
  {
    WellFormedRings(c);
    if c.ringCount == 1 {
      forall d: Config | d.Shaped() && SameApartFromConcurrency(c, d) && WellFormed(d) ensures Symmetric(d) {
        OneRingIsSymmetric(d);
      }
    } else {
      var i := SomePhase(c, 0);
      var j := SomePhase(c, 1);
      OneSidedWellFormed(c, i, j);
      assert !Symmetric(OneSided(c, i, j));
    }
  }
}
