/** The lamp-out monitor of SSM/App/Domain/SignalDiagnostics.c, characterised by the whole
    history of samples it has been given since Reset. */
module SignalDiagnostics {

  type uint8 = x: int | 0 <= x < 0x100
  type uint16 = x: int | 0 <= x < 0x1_0000

  const GROUPS := 4
  const COMBINATIONS := 8
  const CHANNELS := 12
  const LEARN_MIN_MA := 50
  const FAULT_PERCENT := 50

  /** One cycle's input: the twelve observed outputs and the four group currents. */
  datatype Sample = Sample(channels: seq<uint8>, currentsMa: seq<uint16>) {
    ghost predicate Valid() {
      |channels| == CHANNELS && |currentsMa| == GROUPS
    }

    /** The on/off combination of a group's red, yellow and green outputs. */
    ghost function Mask(group: nat): (mask: nat)
      requires Valid() && group < GROUPS
      ensures mask < COMBINATIONS
    {
      On(channels[3 * group], 1) + On(channels[3 * group + 1], 2) + On(channels[3 * group + 2], 4)
    }
  }

  function On(channel: uint8, bit: nat): nat {
    if channel != 0 then bit else 0
  }

  ghost predicate History(h: seq<Sample>) {
    forall i :: 0 <= i < |h| ==> h[i].Valid()
  }

  // ----- what the history says -----

  /** The sample shows the combination with a current high enough to be a baseline. */
  ghost predicate Teaches(s: Sample, group: nat, mask: nat)
    requires s.Valid() && group < GROUPS
  {
    mask != 0 && s.Mask(group) == mask && s.currentsMa[group] >= LEARN_MIN_MA
  }

  /** Index of the first sample that teaches the combination; the length of the history if none. */
  ghost function FirstLesson(h: seq<Sample>, group: nat, mask: nat): (i: nat)
    requires History(h) && group < GROUPS
    ensures i <= |h|
    ensures i < |h| ==> Teaches(h[i], group, mask)
    ensures forall j :: 0 <= j < i ==> !Teaches(h[j], group, mask)
  {
    if h == [] || Teaches(h[0], group, mask) then 0 else 1 + FirstLesson(h[1..], group, mask)
  }

  ghost function Baseline(h: seq<Sample>, group: nat, mask: nat): (ma: nat)
    requires History(h) && group < GROUPS
    ensures ma == 0 || ma >= LEARN_MIN_MA
  {
    var i := FirstLesson(h, group, mask);
    if i < |h| then h[i].currentsMa[group] else 0
  }

  /** Sample j is a lamp-out of the group: its combination was learned before, and it draws less
      than half, rounded down, of what was learned. */
  ghost predicate LampOutAt(h: seq<Sample>, group: nat, j: nat)
    requires History(h) && group < GROUPS && j < |h|
  {
    exists i :: 0 <= i < j && Lesson(h, group, i, j) && h[j].currentsMa[group] < h[i].currentsMa[group] / 2
  }

  /** Sample i is the first to teach the combination that sample j shows. */
  ghost predicate Lesson(h: seq<Sample>, group: nat, i: nat, j: nat)
    requires History(h) && group < GROUPS && i < j < |h|
  {
    && Teaches(h[i], group, h[j].Mask(group))
    && forall k :: 0 <= k < i ==> !Teaches(h[k], group, h[j].Mask(group))
  }

  ghost predicate LampOut(h: seq<Sample>, group: nat)
    requires History(h) && group < GROUPS
  {
    exists j :: 0 <= j < |h| && LampOutAt(h, group, j)
  }

  // ----- the history grows -----

  lemma FirstLessonUnique(h: seq<Sample>, group: nat, mask: nat, i: nat)
    requires History(h) && group < GROUPS && i < |h|
    requires Teaches(h[i], group, mask)
    requires forall k :: 0 <= k < i ==> !Teaches(h[k], group, mask)
    ensures FirstLesson(h, group, mask) == i
  {
  }

  /** A learned baseline never changes again. */
  lemma BaselineIsFixed(h: seq<Sample>, later: seq<Sample>, group: nat, mask: nat)
    requires History(h) && History(later) && group < GROUPS
    requires Baseline(h, group, mask) != 0
    ensures History(h + later) && Baseline(h + later, group, mask) == Baseline(h, group, mask)
  {
    var i := FirstLesson(h, group, mask);
    assert forall k :: 0 <= k <= i ==> (h + later)[k] == h[k];
    FirstLessonUnique(h + later, group, mask, i);
  }

  /** Until it is learned, the baseline waits for the next sample that teaches it. */
  lemma BaselineAfter(h: seq<Sample>, s: Sample, group: nat, mask: nat)
    requires History(h) && s.Valid() && group < GROUPS
    ensures History(h + [s])
    ensures Baseline(h + [s], group, mask) ==
            if Baseline(h, group, mask) != 0 then Baseline(h, group, mask)
            else if mask != 0 && s.Mask(group) == mask && s.currentsMa[group] >= 50 then s.currentsMa[group]
            else 0
  {
    var g := h + [s];
    assert forall k :: 0 <= k < |h| ==> g[k] == h[k];
    if Baseline(h, group, mask) != 0 {
      BaselineIsFixed(h, [s], group, mask);
    } else if Teaches(s, group, mask) {
      assert g[|h|] == s;
      FirstLessonUnique(g, group, mask, |h|);
    } else if FirstLesson(g, group, mask) < |h| {
      FirstLessonUnique(h, group, mask, FirstLesson(g, group, mask));
    }
  }

  /** So a combination that is not learned yet is learned at 50 mA and not at 49 mA. */
  lemma LearnsFrom50(h: seq<Sample>, s: Sample, group: nat)
    requires History(h) && s.Valid() && group < GROUPS && s.Mask(group) != 0 && Baseline(h, group, s.Mask(group)) == 0
    ensures History(h + [s])
    ensures s.currentsMa[group] == 50 ==> Baseline(h + [s], group, s.Mask(group)) == 50
    ensures s.currentsMa[group] == 49 ==> Baseline(h + [s], group, s.Mask(group)) == 0
  {
    BaselineAfter(h, s, group, s.Mask(group));
  }

  /** A lamp-out is judged against the past only, so a latched fault stays justified. */
  lemma LampOutAtExtends(h: seq<Sample>, later: seq<Sample>, group: nat, j: nat)
    requires History(h) && History(later) && group < GROUPS && j < |h|
    ensures History(h + later) && (LampOutAt(h + later, group, j) <==> LampOutAt(h, group, j))
  {
    var g := h + later;
    assert forall k :: 0 <= k <= j ==> g[k] == h[k];
    forall i | 0 <= i < j ensures Lesson(g, group, i, j) <==> Lesson(h, group, i, j) {
    }
  }

  /** The sample just appended is a lamp-out exactly when its combination has a baseline and the
      current is below the computed threshold. */
  lemma LampOutNow(h: seq<Sample>, s: Sample, group: nat)
    requires History(h) && s.Valid() && group < GROUPS
    ensures History(h + [s])
    ensures LampOutAt(h + [s], group, |h|) <==>
            (var b := Baseline(h, group, s.Mask(group));
             b != 0 && s.currentsMa[group] < b * 50 / 100)
  {
    var g := h + [s];
    var m := s.Mask(group);
    assert g[|h|] == s && forall k :: 0 <= k < |h| ==> g[k] == h[k];
    var i := FirstLesson(h, group, m);
    if i < |h| {
      assert Lesson(g, group, i, |h|);
      forall i' | 0 <= i' < |h| && Lesson(g, group, i', |h|) ensures i' == i {
        FirstLessonUnique(h, group, m, i');
      }
      assert h[i].currentsMa[group] * FAULT_PERCENT / 100 == h[i].currentsMa[group] / 2;
    }
  }

  lemma LampOutAfter(h: seq<Sample>, s: Sample, group: nat)
    requires History(h) && s.Valid() && group < GROUPS
    ensures History(h + [s])
    ensures LampOut(h + [s], group) <==> LampOut(h, group) || LampOutAt(h + [s], group, |h|)
  {
    forall j | 0 <= j < |h| ensures LampOutAt(h + [s], group, j) <==> LampOutAt(h, group, j) {
      LampOutAtExtends(h, [s], group, j);
    }
  }

  /** Equal masks mean equal outputs, so no two combinations of lamps share a baseline. */
  lemma MaskIdentifiesOutputs(s: Sample, t: Sample, group: nat)
    requires s.Valid() && t.Valid() && group < GROUPS
    ensures s.Mask(group) == t.Mask(group) <==>
            forall c :: 3 * group <= c < 3 * group + 3 ==> (s.channels[c] != 0 <==> t.channels[c] != 0)
  {
    var same := forall c :: 3 * group <= c < 3 * group + 3 ==> (s.channels[c] != 0 <==> t.channels[c] != 0);
    if same {
      assert s.channels[3 * group] != 0 <==> t.channels[3 * group] != 0;
      assert s.channels[3 * group + 1] != 0 <==> t.channels[3 * group + 1] != 0;
      assert s.channels[3 * group + 2] != 0 <==> t.channels[3 * group + 2] != 0;
    }
  }

  // ----- the monitor -----

  class Monitor {
    const baselineCurrentMa: array2<uint16>
    const lampOutFault: array<uint8>
    /** The samples since the last Reset. */
    ghost var history: seq<Sample>

    ghost predicate Shape()
      reads this
    {
      && baselineCurrentMa.Length0 == GROUPS && baselineCurrentMa.Length1 == COMBINATIONS
      && lampOutFault.Length == GROUPS
      && History(history)
    }

    /** The state of one group is what the history says. */
    ghost predicate Reflects(h: seq<Sample>, group: nat)
      requires Shape() && History(h) && group < GROUPS
      reads this, baselineCurrentMa, lampOutFault
    {
      && (forall mask :: 0 <= mask < COMBINATIONS ==> baselineCurrentMa[group, mask] == Baseline(h, group, mask))
      && lampOutFault[group] == if LampOut(h, group) then 1 else 0
    }

    ghost predicate Valid()
      reads this, baselineCurrentMa, lampOutFault
    {
      Shape() && forall group :: 0 <= group < GROUPS ==> Reflects(history, group)
    }

    constructor ()
      ensures Valid() && history == [] && fresh(baselineCurrentMa) && fresh(lampOutFault)
    {
      baselineCurrentMa := new uint16[GROUPS, COMBINATIONS]((_, _) => 0);
      lampOutFault := new uint8[GROUPS](_ => 0);
      history := [];
    }

    method Reset()
      requires Shape()
      modifies this, baselineCurrentMa, lampOutFault
      ensures Valid() && history == []
    {
      forall group, mask | 0 <= group < GROUPS && 0 <= mask < COMBINATIONS {
        baselineCurrentMa[group, mask] := 0;
      }
      forall group | 0 <= group < GROUPS {
        lampOutFault[group] := 0;
      }
      history := [];
    }

    method Step(observed: seq<uint8>, currentsMa: seq<uint16>) returns (newFault: uint8)
      requires Valid() && Sample(observed, currentsMa).Valid()
      modifies this, baselineCurrentMa, lampOutFault
      ensures Valid() && history == old(history) + [Sample(observed, currentsMa)]
      ensures newFault == if exists g :: 0 <= g < GROUPS && LampOut(history, g) && !LampOut(old(history), g)
                          then 1 else 0
    {
      ghost var before, s := history, Sample(observed, currentsMa);
      newFault := 0;
      for grpIdx := 0 to GROUPS
        invariant history == before && Shape() && History(before + [s])
        invariant forall g :: 0 <= g < grpIdx ==> Reflects(before + [s], g)
        invariant forall g :: grpIdx <= g < GROUPS ==> Reflects(before, g)
        invariant newFault == if exists g :: 0 <= g < grpIdx && LampOut(before + [s], g) && !LampOut(before, g)
                              then 1 else 0
      {
        label turn:
        var tripped := StepGroup(grpIdx, observed, currentsMa);
        forall h, g | History(h) && 0 <= g < GROUPS && g != grpIdx && old@turn(Reflects(h, g))
          ensures Reflects(h, g)
        {
        }
        if tripped {
          newFault := 1;
        }
      }
      label measured:
      history := before + [s];
      forall g | 0 <= g < GROUPS ensures Reflects(history, g) {
        assert old@measured(Reflects(before + [s], g));
      }
    }

    /** One turn of Step's loop. */
    method StepGroup(grpIdx: nat, observed: seq<uint8>, currentsMa: seq<uint16>) returns (tripped: bool)
      requires Shape() && grpIdx < GROUPS && Sample(observed, currentsMa).Valid()
      requires Reflects(history, grpIdx)
      modifies baselineCurrentMa, lampOutFault
      ensures History(history + [Sample(observed, currentsMa)])
      ensures Reflects(history + [Sample(observed, currentsMa)], grpIdx)
      ensures tripped <==> LampOut(history + [Sample(observed, currentsMa)], grpIdx) && !LampOut(history, grpIdx)
      ensures forall g, m :: 0 <= g < GROUPS && 0 <= m < COMBINATIONS && g != grpIdx ==>
                baselineCurrentMa[g, m] == old(baselineCurrentMa[g, m])
      ensures forall g :: 0 <= g < GROUPS && g != grpIdx ==> lampOutFault[g] == old(lampOutFault[g])
    {
      ghost var s := Sample(observed, currentsMa);
      forall m | 0 <= m < COMBINATIONS
        ensures Baseline(history + [s], grpIdx, m) ==
                if Baseline(history, grpIdx, m) != 0 then Baseline(history, grpIdx, m)
                else if Teaches(s, grpIdx, m) then s.currentsMa[grpIdx] else 0
      {
        BaselineAfter(history, s, grpIdx, m);
      }
      LampOutNow(history, s, grpIdx);
      LampOutAfter(history, s, grpIdx);
      tripped := false;
      var mask := GroupMask(observed, currentsMa, grpIdx);
      if mask == 0 {
        return;
      }
      var measuredMa := currentsMa[grpIdx];
      var baselineMa := baselineCurrentMa[grpIdx, mask];
      if baselineMa == 0 {
        if measuredMa >= LEARN_MIN_MA {
          baselineCurrentMa[grpIdx, mask] := measuredMa;
        }
      } else {
        var thresholdMa := baselineMa * FAULT_PERCENT / 100;
        if measuredMa < thresholdMa {
          if lampOutFault[grpIdx] == 0 {
            lampOutFault[grpIdx] := 1;
            tripped := true;
          }
        }
      }
    }
  }

  /** The mask loop: red, yellow and green are bits 0, 1 and 2. */
  method GroupMask(observed: seq<uint8>, ghost currentsMa: seq<uint16>, grpIdx: nat) returns (mask: nat)
    requires grpIdx < GROUPS && Sample(observed, currentsMa).Valid()
    ensures mask == Sample(observed, currentsMa).Mask(grpIdx)
  {
    mask := 0;
    var bit := 1;
    for i := 0 to 3
      invariant bit == [1, 2, 4, 8][i]
      invariant i == 0 ==> mask == 0
      invariant i == 1 ==> mask == On(observed[3 * grpIdx], 1)
      invariant i == 2 ==> mask == On(observed[3 * grpIdx], 1) + On(observed[3 * grpIdx + 1], 2)
      invariant i == 3 ==> mask == Sample(observed, currentsMa).Mask(grpIdx)
    {
      if observed[3 * grpIdx + i] != 0 {
        mask := mask + bit;
      }
      bit := 2 * bit;
    }
  }
}
