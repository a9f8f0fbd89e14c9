/** The output verification of SSM/App/Domain/OutputVerify.c, characterised by the whole history
    of commanded and observed images since Reset. */
module OutputVerify {

  type uint8 = x: int | 0 <= x < 0x100

  const CHANNELS := 12
  const FAULT_THRESHOLD := 5

  datatype Cycle = Cycle(commanded: seq<uint8>, observed: seq<uint8>) {
    ghost predicate Valid() {
      |commanded| == CHANNELS && |observed| == CHANNELS
    }

    /** Any non-zero byte is an energised channel. */
    ghost predicate Disagrees(channel: nat)
      requires Valid() && channel < CHANNELS
    {
      (commanded[channel] != 0) != (observed[channel] != 0)
    }
  }

  /** Of the four combinations of off and on, the two mixed ones disagree. */
  lemma DisagreesExactlyWhen(c: Cycle, channel: nat)
    requires c.Valid() && channel < CHANNELS
    ensures c.Disagrees(channel) <==>
            || (c.commanded[channel] == 0 && 1 <= c.observed[channel] <= 255)
            || (1 <= c.commanded[channel] <= 255 && c.observed[channel] == 0)
  {
  }

  ghost predicate History(h: seq<Cycle>) {
    forall i :: 0 <= i < |h| ==> h[i].Valid()
  }

  /** The last n cycles all disagree on the channel. */
  ghost predicate DisagreedFor(h: seq<Cycle>, channel: nat, n: nat)
    requires History(h) && channel < CHANNELS
  {
    n <= |h| && forall i :: |h| - n <= i < |h| ==> h[i].Disagrees(channel)
  }

  /** Length of the disagreement streak that ends the history: the greatest n with DisagreedFor. */
  ghost function Streak(h: seq<Cycle>, channel: nat): (n: nat)
    requires History(h) && channel < CHANNELS
    ensures forall k: nat :: DisagreedFor(h, channel, k) <==> k <= n
  {
    if h == [] || !h[|h| - 1].Disagrees(channel) then 0
    else
      var n := 1 + Streak(h[..|h| - 1], channel);
      assert forall k: nat :: k > 0 ==>
               (DisagreedFor(h, channel, k) <==> DisagreedFor(h[..|h| - 1], channel, k - 1)) by {
        forall k: nat | k > 0
          ensures DisagreedFor(h, channel, k) <==> DisagreedFor(h[..|h| - 1], channel, k - 1)
        {
          StreakStep(h, channel, k);
        }
      }
      n
  }

  lemma StreakStep(h: seq<Cycle>, channel: nat, k: nat)
    requires History(h) && channel < CHANNELS && h != [] && k > 0
    requires h[|h| - 1].Disagrees(channel)
    ensures DisagreedFor(h, channel, k) <==> DisagreedFor(h[..|h| - 1], channel, k - 1)
  {
    var g := h[..|h| - 1];
    assert forall i :: 0 <= i < |g| ==> g[i] == h[i];
    if DisagreedFor(g, channel, k - 1) {
      forall i | |h| - k <= i < |h| ensures h[i].Disagrees(channel) {
        if i < |g| {
          assert g[i].Disagrees(channel);
        }
      }
    }
  }

  /** Some channel disagreed on five consecutive cycles at some time. */
  ghost predicate Faulted(h: seq<Cycle>)
    requires History(h)
  {
    exists t :: 0 <= t <= |h| && FaultEndsAt(h, t)
  }

  ghost predicate FaultEndsAt(h: seq<Cycle>, t: nat)
    requires History(h) && t <= |h|
  {
    exists channel :: 0 <= channel < CHANNELS && DisagreedFor(h[..t], channel, FAULT_THRESHOLD)
  }

  lemma FaultedAfter(h: seq<Cycle>, c: Cycle)
    requires History(h) && c.Valid()
    ensures History(h + [c])
    ensures Faulted(h + [c]) <==>
            Faulted(h) || exists channel :: 0 <= channel < CHANNELS && Streak(h + [c], channel) >= FAULT_THRESHOLD
  {
    var g := h + [c];
    assert g[..|g|] == g;
    forall t | 0 <= t <= |h| ensures FaultEndsAt(g, t) <==> FaultEndsAt(h, t) {
      assert g[..t] == h[..t];
    }
    forall channel | 0 <= channel < CHANNELS
      ensures DisagreedFor(g[..|g|], channel, FAULT_THRESHOLD) <==> Streak(g, channel) >= FAULT_THRESHOLD
    {
      assert DisagreedFor(g, channel, FAULT_THRESHOLD) <==> FAULT_THRESHOLD <= Streak(g, channel);
    }
    assert FaultEndsAt(g, |g|) <==>
           exists channel :: 0 <= channel < CHANNELS && DisagreedFor(g[..|g|], channel, FAULT_THRESHOLD);
    if FaultEndsAt(g, |g|) {
      var channel :| 0 <= channel < CHANNELS && DisagreedFor(g[..|g|], channel, FAULT_THRESHOLD);
      assert Streak(g, channel) >= FAULT_THRESHOLD;
    }
    if Faulted(h) {
      var t :| 0 <= t <= |h| && FaultEndsAt(h, t);
      assert FaultEndsAt(g, t);
    }
  }

  lemma StreakAfter(h: seq<Cycle>, c: Cycle, channel: nat)
    requires History(h) && c.Valid() && channel < CHANNELS
    ensures History(h + [c])
    ensures Streak(h + [c], channel) == if c.Disagrees(channel) then Streak(h, channel) + 1 else 0
  {
    assert (h + [c])[..|h|] == h;
  }

  /** A fault is never forgotten, whatever the later cycles show. */
  lemma FaultIsSticky(h: seq<Cycle>, later: seq<Cycle>)
    requires History(h) && History(later) && Faulted(h)
    ensures History(h + later) && Faulted(h + later)
  {
    var t :| 0 <= t <= |h| && FaultEndsAt(h, t);
    assert (h + later)[..t] == h[..t];
    assert FaultEndsAt(h + later, t);
  }

  /** In one of the five cycles before t the channel is commanded and observed off, or on in both. */
  ghost predicate AgreesBefore(h: seq<Cycle>, t: nat, channel: nat)
    requires History(h) && 5 <= t <= |h| && channel < 12
  {
    exists i :: t - 5 <= i < t && (h[i].commanded[channel] == 0 <==> h[i].observed[channel] == 0)
  }

  /** The fault stays down exactly when every channel agrees at least once in any five
      consecutive cycles. */
  lemma ToleratedExactlyWhen(h: seq<Cycle>)
    requires History(h)
    ensures !Faulted(h) <==>
            forall t, channel :: 5 <= t <= |h| && 0 <= channel < 12 ==> AgreesBefore(h, t, channel)
  {
    forall t, channel | 5 <= t <= |h| && 0 <= channel < 12
      ensures DisagreedFor(h[..t], channel, 5) <==> !AgreesBefore(h, t, channel)
    {
      assert forall i :: 0 <= i < t ==> h[..t][i] == h[i];
      if DisagreedFor(h[..t], channel, 5) {
        forall i | t - 5 <= i < t ensures h[i].Disagrees(channel) {
          assert h[..t][i].Disagrees(channel);
        }
      }
    }
    if Faulted(h) {
      var t :| 0 <= t <= |h| && FaultEndsAt(h, t);
      var channel :| 0 <= channel < CHANNELS && DisagreedFor(h[..t], channel, FAULT_THRESHOLD);
      assert !AgreesBefore(h, t, channel);
    } else {
      forall t, channel | 5 <= t <= |h| && 0 <= channel < 12 ensures AgreesBefore(h, t, channel) {
        assert !FaultEndsAt(h, t);
      }
    }
  }

  function Saturated(n: nat): uint8 {
    if n < 0xFF then n else 0xFF
  }

  // ----- the verifier -----

  class Verifier {
    const mismatchCount: array<uint8>
    var faultActive: uint8
    /** The cycles since the last Reset. */
    ghost var history: seq<Cycle>

    ghost predicate Valid()
      reads this, mismatchCount
    {
      && History(history)
      && mismatchCount.Length == CHANNELS
      && (forall i :: 0 <= i < CHANNELS ==> mismatchCount[i] == Saturated(Streak(history, i)))
      && faultActive == if Faulted(history) then 1 else 0
    }

    constructor ()
      ensures Valid() && history == [] && fresh(mismatchCount)
    {
      mismatchCount := new uint8[CHANNELS](_ => 0);
      faultActive := 0;
      history := [];
    }

    method Reset()
      requires Valid()
      modifies this, mismatchCount
      ensures Valid() && history == []
    {
      forall i | 0 <= i < CHANNELS {
        mismatchCount[i] := 0;
      }
      faultActive := 0;
      history := [];
    }

    method Step(commanded: seq<uint8>, observed: seq<uint8>)
      requires Valid() && Cycle(commanded, observed).Valid()
      modifies this, mismatchCount
      ensures Valid() && history == old(history) + [Cycle(commanded, observed)]
      ensures forall i :: 0 <= i < 12 ==>
        mismatchCount[i] == if Streak(history, i) <= 255 then Streak(history, i) else 255
    {
      ghost var c := Cycle(commanded, observed);
      ghost var before := history;
      FaultedAfter(before, c);
      history := before + [c];
      for i := 0 to CHANNELS
        invariant history == before + [c] && History(history)
        invariant forall j :: 0 <= j < i ==> mismatchCount[j] == Saturated(Streak(before + [c], j))
        invariant forall j :: i <= j < CHANNELS ==> mismatchCount[j] == Saturated(Streak(before, j))
        invariant faultActive ==
                  if Faulted(before) || exists j :: 0 <= j < i && Streak(before + [c], j) >= FAULT_THRESHOLD
                  then 1 else 0
      {
        StreakAfter(before, c, i);
        var cmd := if commanded[i] != 0 then 1 else 0;
        var obs := if observed[i] != 0 then 1 else 0;
        if cmd == obs {
          mismatchCount[i] := 0;
        } else {
          if mismatchCount[i] < 0xFF {
            mismatchCount[i] := mismatchCount[i] + 1;
          }
          if mismatchCount[i] >= FAULT_THRESHOLD {
            faultActive := 1;
          }
        }
      }
    }
  }
}
