/** The grid-frequency monitor in its two forms: the parameterised state machine of
    PSM/App/Domain/FrequencyCaptureFSM.c and the interrupt code of SSM/Core/Src/tim.c. */
module GridFrequency {

  type uint8 = x: int | 0 <= x < 0x100
  type uint16 = x: int | 0 <= x < 0x1_0000
  type uint32 = x: int | 0 <= x < 0x1_0000_0000
  type uint64 = x: int | 0 <= x < 0x1_0000_0000_0000_0000

  /** Unsigned 32-bit subtraction. */
  function Minus32(a: uint32, b: uint32): uint32 {
    if a >= b then a - b else a - b + 0x1_0000_0000
  }

  /** Unsigned 16-bit increment. */
  function Increment(count: uint16): uint16 {
    if count == 0xFFFF then 0 else count + 1
  }

  // ----- the parameterised state machine -----

  datatype Config = Config(
    clockFreqHz: uint32, counterMax: uint32, captureTimeoutMs: uint32,
    targetFreqHz: uint8, freqToleranceHz: uint8, badReadingsBeforeSleep: uint16)

  datatype State = State(
    prevCaptureValue: uint32, lastCaptureTimeMs: uint32, badReadingsCount: uint16,
    measuredFreqHz: uint8, primed: bool)

  datatype Verdict = Ok | Bad | EnterFlash

  function InitialState(nowMs: uint32): State {
    State(0, nowMs, 0, 0, false)
  }

  /** The tick difference OnEdge computes, in unsigned 32-bit arithmetic. */
  function Difference(cfg: Config, capture: uint32, prev: uint32): uint32 {
    if capture > prev then capture - prev
    else if capture < prev then (Minus32(cfg.counterMax, prev) + capture + 1) % 0x1_0000_0000
    else 0
  }

  /** Whole hertz for a tick difference. */
  function Hertz(cfg: Config, diff: uint32): uint32
    requires diff != 0
  {
    QuotientFits(cfg.clockFreqHz, diff);
    cfg.clockFreqHz / diff
  }

  lemma QuotientFits(a: nat, b: nat)
    requires b > 0
    ensures 0 <= a / b <= a
  {
    var q := a / b;
    assert a == q * b + a % b;
    if q > 0 {
      MulAtLeast(b, q);
      assert b * q == q * b;
    }
  }

  /** The frequency is cut down to whole hertz: it is the largest h with h * diff <= the clock. */
  lemma HertzMeans(cfg: Config, diff: uint32)
    requires diff != 0
    ensures var h := Hertz(cfg, diff); h * diff <= cfg.clockFreqHz < (h + 1) * diff
  {
    var h := Hertz(cfg, diff);
    assert cfg.clockFreqHz == h * diff + cfg.clockFreqHz % diff;
    assert (h + 1) * diff == h * diff + diff;
  }

  lemma MulAtLeast(k: int, m: int)
    requires k >= 1 && m > 0
    ensures k * m >= m
  {
    assert k * m - m == (k - 1) * m;
  }

  /** The low byte, as an assignment to uint8_t keeps it. */
  function LowByte(x: nat): uint8 { x % 0x100 }

  function AfterEdge(s: State, cfg: Config, capture: uint32, nowMs: uint32): State {
    if !s.primed then s.(lastCaptureTimeMs := nowMs, prevCaptureValue := capture, primed := true)
    else
      var diff := Difference(cfg, capture, s.prevCaptureValue);
      State(capture, nowMs, s.badReadingsCount,
            if diff != 0 then LowByte(Hertz(cfg, diff)) else 0, capture != s.prevCaptureValue)
  }

  predicate TimedOut(s: State, cfg: Config, nowMs: uint32) {
    !s.primed || Minus32(nowMs, s.lastCaptureTimeMs) > cfg.captureTimeoutMs
  }

  /** The tolerance band clamped to the range of a byte. */
  predicate InBand(cfg: Config, freq: uint8) {
    var lo := cfg.targetFreqHz - cfg.freqToleranceHz;
    var hi := cfg.targetFreqHz + cfg.freqToleranceHz;
    (if lo < 0 then 0 else lo) <= freq <= (if hi > 0xFF then 0xFF else hi)
  }

  function AfterTick(s: State, cfg: Config, nowMs: uint32): (State, Verdict) {
    var s1 := if TimedOut(s, cfg, nowMs) then s.(measuredFreqHz := 0, primed := false) else s;
    if !TimedOut(s, cfg, nowMs) && InBand(cfg, s.measuredFreqHz) then (s1.(badReadingsCount := 0), Ok)
    else
      var count := Increment(s1.badReadingsCount);
      (s1.(badReadingsCount := count), if count >= cfg.badReadingsBeforeSleep then EnterFlash else Bad)
  }

  class FrequencyCaptureFSM {
    var prevCaptureValue: uint32
    var lastCaptureTimeMs: uint32
    var badReadingsCount: uint16
    var measuredFreqHz: uint8
    var primed: bool

    function Value(): State
      reads this
    {
      State(prevCaptureValue, lastCaptureTimeMs, badReadingsCount, measuredFreqHz, primed)
    }

    constructor Init(nowMs: uint32)
      ensures Value() == InitialState(nowMs)
    {
      prevCaptureValue, lastCaptureTimeMs := 0, nowMs;
      badReadingsCount, measuredFreqHz, primed := 0, 0, false;
    }

    method OnEdge(cfg: Config, captureValue: uint32, nowMs: uint32) returns (published: bool)
      modifies this
      ensures published == old(primed)
      ensures Value() == AfterEdge(old(Value()), cfg, captureValue, nowMs)
      ensures var diff := Difference(cfg, captureValue, old(prevCaptureValue));
        published ==> measuredFreqHz == if diff != 0 then cfg.clockFreqHz / diff % 256 else 0
    {
      lastCaptureTimeMs := nowMs;
      if !primed {
        prevCaptureValue := captureValue;
        primed := true;
        return false;
      }
      var diff: uint32 := 0;
      if captureValue > prevCaptureValue {
        diff := captureValue - prevCaptureValue;
      } else if captureValue < prevCaptureValue {
        diff := (Minus32(cfg.counterMax, prevCaptureValue) + captureValue + 1) % 0x1_0000_0000;
      } else {
        diff := 0;
        primed := false;
      }
      if diff != 0 {
        measuredFreqHz := LowByte(Hertz(cfg, diff));
      } else {
        measuredFreqHz := 0;
      }
      prevCaptureValue := captureValue;
      return true;
    }

    method Evaluate(cfg: Config, nowMs: uint32) returns (verdict: Verdict)
      modifies this
      ensures (Value(), verdict) == AfterTick(old(Value()), cfg, nowMs)
    {
      var timedOut := !primed || Minus32(nowMs, lastCaptureTimeMs) > cfg.captureTimeoutMs;
      if timedOut {
        measuredFreqHz := 0;
        primed := false;
      }
      var lo: int, hi: int := cfg.targetFreqHz - cfg.freqToleranceHz, cfg.targetFreqHz + cfg.freqToleranceHz;
      if lo < 0 {
        lo := 0;
      }
      if hi > 0xFF {
        hi := 0xFF;
      }
      if !timedOut && measuredFreqHz >= lo && measuredFreqHz <= hi {
        badReadingsCount := 0;
        return Ok;
      }
      badReadingsCount := Increment(badReadingsCount);
      if badReadingsCount >= cfg.badReadingsBeforeSleep {
        return EnterFlash;
      }
      return Bad;
    }
  }

  // ----- the interrupt code -----

  const TIM2_CLOCK_FREQ: uint32 := 100000
  const TIM2_MAX_COUNT: uint64 := 0xFFFFFFFF
  const TIM2_CH1_CAPTURE_TIMEOUT_MS: uint32 := 100
  const TARGET_FREQ_HZ: uint8 := 50
  const FREQ_TOLERANCE_HZ: uint8 := 5
  const BAD_READINGS_BEFORE_SLEEP: uint16 := 10

  /** The configuration that the interrupt code has built in. */
  const SSM_CONFIG := Config(100000, 0xFFFFFFFF, 100, 50, 5, 10)

  /** The file-scope variables of tim.c, all zero at boot. */
  class Tim2 {
    var icValue1: uint64
    var icValue2: uint64
    var icCaptureDiff: uint64
    var firstValueCaptured: bool
    var measuredFreqInHz: uint8
    var lastCaptureTime: uint32
    var badReadingsCntr: uint16

    /** The variables that carry the monitor's state, read as a state of the other program. */
    ghost function Image(): State
      requires icValue1 < 0x1_0000_0000
      reads this
    {
      State(icValue1, lastCaptureTime, badReadingsCntr, measuredFreqInHz, firstValueCaptured)
    }

    ghost predicate Valid()
      reads this
    {
      icValue1 < 0x1_0000_0000
    }

    constructor Boot()
      ensures Valid() && Image() == InitialState(0)
    {
      icValue1, icValue2, icCaptureDiff := 0, 0, 0;
      firstValueCaptured, measuredFreqInHz, lastCaptureTime, badReadingsCntr := false, 0, 0, 0;
    }

    method Tim2ICStartIT(tick: uint32)
      requires Valid()
      modifies this
      ensures Valid() && Image() == old(Image()).(primed := false, lastCaptureTimeMs := tick)
    {
      firstValueCaptured := false;
      lastCaptureTime := tick;
    }

    /** The TIM2 part of HAL_TIM_IC_CaptureCallback. */
    method CaptureCallback(captured: uint32, tick: uint32)
      requires Valid()
      modifies this
      ensures Valid() && Image() == AfterEdge(old(Image()), SSM_CONFIG, captured, tick)
      ensures old(firstValueCaptured) && captured != old(icValue1) ==>
        var diff := Difference(SSM_CONFIG, captured, old(icValue1));
        diff != 0 && measuredFreqInHz == 100000 / diff % 256
    {
      lastCaptureTime := tick;
      if !firstValueCaptured {
        icValue1 := captured;
        firstValueCaptured := true;
      } else {
        icValue2 := captured;
        if icValue2 > icValue1 {
          icCaptureDiff := icValue2 - icValue1;
        } else if icValue2 < icValue1 {
          icCaptureDiff := ((TIM2_MAX_COUNT - icValue1) + icValue2) + 1;
        } else {
          icCaptureDiff := 0;
          firstValueCaptured := false;
        }
        if icCaptureDiff != 0 {
          measuredFreqInHz := (TIM2_CLOCK_FREQ / icCaptureDiff) % 0x100;
        } else {
          measuredFreqInHz := 0;
        }
        icValue1 := icValue2;
      }
    }

    /** The TIM2 part of HAL_TIM_OC_DelayElapsedCallback; `standby` says that it stops both
        timers and enters standby. */
    method DelayElapsedCallback(curTime: uint32) returns (standby: bool)
      requires Valid()
      modifies this
      ensures Valid()
      ensures (Image(), standby) == (AfterTick(old(Image()), SSM_CONFIG, curTime).0,
                                     AfterTick(old(Image()), SSM_CONFIG, curTime).1 == EnterFlash)
    {
      var freq := measuredFreqInHz;
      var signalTimedout := false;
      if !firstValueCaptured || Minus32(curTime, lastCaptureTime) > TIM2_CH1_CAPTURE_TIMEOUT_MS {
        signalTimedout := true;
        if measuredFreqInHz != 0 || firstValueCaptured {
          measuredFreqInHz := 0;
          firstValueCaptured := false;
        }
        freq := 0;
      }
      if !signalTimedout && freq >= TARGET_FREQ_HZ - FREQ_TOLERANCE_HZ && freq <= TARGET_FREQ_HZ + FREQ_TOLERANCE_HZ {
        badReadingsCntr := 0;
      } else {
        badReadingsCntr := Increment(badReadingsCntr);
      }
      standby := badReadingsCntr >= BAD_READINGS_BEFORE_SLEEP;
    }
  }

  // ----- the two programs side by side -----

  datatype Event = Edge(capture: uint32, nowMs: uint32) | Tick(nowMs: uint32)

  /** Starts both programs at the same tick and feeds both the same edges and evaluation ticks.
      They end in the same state and trip at exactly the same events. */
  method Lockstep(startMs: uint32, events: seq<Event>)
    returns (fsm: FrequencyCaptureFSM, tim2: Tim2, fsmTrips: seq<nat>, tim2Trips: seq<nat>)
    ensures tim2.Valid() && fsm.Value() == tim2.Image() == Run(SSM_CONFIG, startMs, events)
    ensures fsmTrips == tim2Trips
    ensures forall k :: k in fsmTrips <==>
      0 <= k < |events| && VerdictAt(SSM_CONFIG, startMs, events[..k + 1]) == EnterFlash
  {
    fsm := new FrequencyCaptureFSM.Init(startMs);
    tim2 := new Tim2.Boot();
    tim2.Tim2ICStartIT(startMs);
    fsmTrips, tim2Trips := [], [];
    var i := 0;
    while i < |events|
      invariant 0 <= i <= |events|
      invariant tim2.Valid() && fsm.Value() == tim2.Image() == Run(SSM_CONFIG, startMs, events[..i])
      invariant fsmTrips == tim2Trips
      invariant forall k :: k in fsmTrips <==>
        0 <= k < i && VerdictAt(SSM_CONFIG, startMs, events[..k + 1]) == EnterFlash
      invariant fresh(fsm) && fresh(tim2)
    {
      assert events[..i + 1][..i] == events[..i];
      match events[i] {
        case Edge(capture, nowMs) =>
          var _ := fsm.OnEdge(SSM_CONFIG, capture, nowMs);
          tim2.CaptureCallback(capture, nowMs);
        case Tick(nowMs) =>
          var verdict := fsm.Evaluate(SSM_CONFIG, nowMs);
          var standby := tim2.DelayElapsedCallback(nowMs);
          fsmTrips := fsmTrips + if verdict == EnterFlash then [i] else [];
          tim2Trips := tim2Trips + if standby then [i] else [];
      }
      i := i + 1;
    }
    assert events[..|events|] == events;
  }

  // ----- whole runs of the state machine -----

  /** The state after initialisation at startMs and a list of events. */
  function Run(cfg: Config, startMs: uint32, events: seq<Event>): State
    decreases |events|
  {
    if events == [] then InitialState(startMs)
    else
      var s := Run(cfg, startMs, events[..|events| - 1]);
      match events[|events| - 1]
      case Edge(capture, nowMs) => AfterEdge(s, cfg, capture, nowMs)
      case Tick(nowMs) => AfterTick(s, cfg, nowMs).0
  }

  /** The verdict of the last event when that is an evaluation tick; Ok for an edge. */
  function VerdictAt(cfg: Config, startMs: uint32, events: seq<Event>): Verdict
    requires events != []
  {
    match events[|events| - 1]
    case Edge(_, _) => Ok
    case Tick(nowMs) => AfterTick(Run(cfg, startMs, events[..|events| - 1]), cfg, nowMs).1
  }

  /** Evaluations since the last Ok verdict. */
  function Streak(cfg: Config, startMs: uint32, events: seq<Event>): nat
    decreases |events|
  {
    if events == [] then 0
    else
      var before := Streak(cfg, startMs, events[..|events| - 1]);
      if events[|events| - 1].Edge? then before
      else if VerdictAt(cfg, startMs, events) == Ok then 0
      else before + 1
  }

  lemma TickStrikes(s: State, cfg: Config, nowMs: uint32)
    ensures var r := AfterTick(s, cfg, nowMs);
      && r.0.badReadingsCount == (if r.1 == Ok then 0 else Increment(s.badReadingsCount))
      && (r.1 == EnterFlash <==> r.1 != Ok && r.0.badReadingsCount >= cfg.badReadingsBeforeSleep)
  {
  }

  lemma EdgeKeepsStrikes(s: State, cfg: Config, capture: uint32, nowMs: uint32)
    ensures AfterEdge(s, cfg, capture, nowMs).badReadingsCount == s.badReadingsCount
  {
  }

  lemma IncrementWraps(n: nat)
    ensures Increment(n % 0x1_0000) == (n + 1) % 0x1_0000
  {
  }

  /** The strike counter is the length of the non-Ok streak modulo 2^16: it is not saturated. */
  lemma {:induction false} StrikesAreStreak(cfg: Config, startMs: uint32, events: seq<Event>)
    ensures Run(cfg, startMs, events).badReadingsCount == Streak(cfg, startMs, events) % 0x1_0000
    decreases |events|
  {
    if events != [] {
      var earlier := events[..|events| - 1];
      StrikesAreStreak(cfg, startMs, earlier);
      IncrementWraps(Streak(cfg, startMs, earlier));
      match events[|events| - 1]
      case Edge(capture, nowMs) => EdgeKeepsStrikes(Run(cfg, startMs, earlier), cfg, capture, nowMs);
      case Tick(nowMs) => TickStrikes(Run(cfg, startMs, earlier), cfg, nowMs);
    }
  }

  /** An evaluation trips exactly when it is not Ok and the streak it extends, taken modulo 2^16,
      has reached the threshold; below 65536 strikes that is when the streak itself has reached
      the larger of 1 and the threshold. */
  lemma TripsExactlyWhen(cfg: Config, startMs: uint32, events: seq<Event>)
    requires events != [] && events[|events| - 1].Tick?
    ensures var streak := Streak(cfg, startMs, events);
      var trips := VerdictAt(cfg, startMs, events) == EnterFlash;
      && (trips <==> streak > 0 && streak % 0x1_0000 >= cfg.badReadingsBeforeSleep)
      && (streak < 0x1_0000 ==>
            (trips <==> streak >= 1 && streak >= cfg.badReadingsBeforeSleep))
      && (streak == 0x1_0000 && cfg.badReadingsBeforeSleep > 0 ==> !trips)
  {
    StrikesAreStreak(cfg, startMs, events);
    TickStrikes(Run(cfg, startMs, events[..|events| - 1]), cfg, events[|events| - 1].nowMs);
  }

  /** The grid is lost before the first edge: n evaluations, no edges. */
  function DeadGrid(n: nat, nowMs: uint32): (events: seq<Event>)
    ensures |events| == n
  {
    seq(n, _ => Tick(nowMs))
  }

  lemma {:induction false} DeadGridStreak(cfg: Config, startMs: uint32, nowMs: uint32, n: nat)
    ensures Streak(cfg, startMs, DeadGrid(n, nowMs)) == n && !Run(cfg, startMs, DeadGrid(n, nowMs)).primed
    decreases n
  {
    if n > 0 {
      var events := DeadGrid(n, nowMs);
      assert events[..n - 1] == DeadGrid(n - 1, nowMs) && events[n - 1] == Tick(nowMs);
      DeadGridStreak(cfg, startMs, nowMs, n - 1);
    }
  }

  /** On a dead grid the n-th evaluation trips exactly when n modulo 2^16 has reached the threshold:
      first at the larger of 1 and the threshold, still at 65535 strikes, and at 65536 only if the
      threshold is 0, after which the count starts again. */
  lemma DeadGridTripsExactlyWhen(cfg: Config, startMs: uint32, nowMs: uint32, n: nat)
    requires n > 0
    ensures var trips := VerdictAt(cfg, startMs, DeadGrid(n, nowMs)) == EnterFlash;
      && (trips <==> n % 0x1_0000 >= cfg.badReadingsBeforeSleep)
      && (n < 0x1_0000 ==> (trips <==> n >= cfg.badReadingsBeforeSleep))
      && (n == 0xFFFF ==> trips)
      && (n == 0x1_0000 ==> (trips <==> cfg.badReadingsBeforeSleep == 0))
  {
    DeadGridStreak(cfg, startMs, nowMs, n);
    assert DeadGrid(n, nowMs)[n - 1] == Tick(nowMs);
    TripsExactlyWhen(cfg, startMs, DeadGrid(n, nowMs));
  }

  // ----- what a measured frequency means -----

  /** For captures within the counter's range the difference is taken modulo the counter's
      period, and the 32-bit arithmetic does not wrap. */
  lemma DifferenceIsModular(cfg: Config, capture: uint32, prev: uint32)
    requires capture <= cfg.counterMax && prev <= cfg.counterMax
    ensures Difference(cfg, capture, prev) == (capture - prev) % (cfg.counterMax + 1)
    ensures capture < prev ==> (cfg.counterMax - prev) + capture + 1 <= cfg.counterMax
  {
    var m := cfg.counterMax + 1;
    if capture >= prev {
      SmallMod(capture - prev, m);
    } else {
      SmallMod(capture - prev + m, m);
      AddModulus(capture - prev, m);
    }
  }

  lemma SmallMod(x: int, m: int)
    requires 0 <= x < m
    ensures x % m == x
  {
  }

  lemma UniqueMod(x: int, q: int, r: int, m: int)
    requires m > 0 && 0 <= r < m && x == q * m + r
    ensures x % m == r
  {
    var q', r' := x / m, x % m;
    assert x == q' * m + r' && 0 <= r' < m;
    assert (q' - q) * m == r - r' && (q - q') * m == r' - r;
    if q' > q {
      MulAtLeast(q' - q, m);
    } else if q' < q {
      MulAtLeast(q - q', m);
    }
  }

  lemma AddModulus(x: int, m: int)
    requires m > 0
    ensures (x + m) % m == x % m
  {
    var q := x / m;
    assert (q + 1) * m == q * m + m;
    UniqueMod(x + m, q + 1, x % m, m);
  }

  /** Two edges fewer counts apart than the counter's period give exactly their distance,
      wherever the counter wraps; a whole period apart they give 0 and force a new pair. */
  lemma TrueInterval(cfg: Config, first: nat, distance: nat)
    requires 0 < distance <= cfg.counterMax + 1
    ensures var m := cfg.counterMax + 1;
            Difference(cfg, (first + distance) % m, first % m) == if distance == m then 0 else distance
  {
    var m := cfg.counterMax + 1;
    var a := first % m;
    var q := first / m;
    assert first == q * m + a;
    if a + distance < m {
      UniqueMod(first + distance, q, a + distance, m);
    } else if distance < m {
      UniqueMod(first + distance, q + 1, a + distance - m, m);
      assert (q + 1) * m == q * m + m;
    } else {
      AddModulus(first, m);
    }
  }

  /** The edges among some events, in order. */
  function Edges(events: seq<Event>): seq<Event>
    decreases |events|
  {
    if events == [] then []
    else
      var last := events[|events| - 1];
      Edges(events[..|events| - 1]) + if last.Edge? then [last] else []
  }

  /** What the fields say about the edges seen so far: the stored capture and time are those of
      the last edge, and a nonzero frequency was computed from the last two. */
  ghost predicate Explained(s: State, cfg: Config, edges: seq<Event>) {
    var n := |edges|;
    && (forall e :: e in edges ==> e.Edge?)
    && (n == 0 ==> !s.primed)
    && (n > 0 ==> s.prevCaptureValue == edges[n - 1].capture && s.lastCaptureTimeMs == edges[n - 1].nowMs)
    && (!s.primed ==> s.measuredFreqHz == 0)
    && (s.measuredFreqHz != 0 ==>
          && n >= 2
          && var diff := Difference(cfg, edges[n - 1].capture, edges[n - 2].capture);
             diff != 0 && s.measuredFreqHz == LowByte(Hertz(cfg, diff)))
  }

  lemma {:induction false} RunIsExplained(cfg: Config, startMs: uint32, events: seq<Event>)
    ensures Explained(Run(cfg, startMs, events), cfg, Edges(events))
    decreases |events|
  {
    if events != [] {
      RunIsExplained(cfg, startMs, events[..|events| - 1]);
    }
  }

  /** The frequency that a tick difference stands for is in the tolerance band. */
  predicate TrulyInBand(cfg: Config, diff: uint32)
    requires diff != 0
  {
    cfg.targetFreqHz - cfg.freqToleranceHz <= Hertz(cfg, diff) <= cfg.targetFreqHz + cfg.freqToleranceHz
  }

  lemma BandOfSmall(cfg: Config, diff: uint32)
    requires diff != 0
    ensures InBand(cfg, LowByte(Hertz(cfg, diff))) && Hertz(cfg, diff) < 0x100 ==> TrulyInBand(cfg, diff)
  {
  }

  lemma OkTick(s: State, cfg: Config, nowMs: uint32)
    requires AfterTick(s, cfg, nowMs).1 == Ok
    ensures s.primed && Minus32(nowMs, s.lastCaptureTimeMs) <= cfg.captureTimeoutMs && InBand(cfg, s.measuredFreqHz)
    ensures s.measuredFreqHz == 0 ==> cfg.targetFreqHz <= cfg.freqToleranceHz
  {
  }

  /** The last two edges are a nonzero difference apart whose frequency, cut to eight bits, is in
      the band; below 256 Hz the frequency itself is. */
  ghost predicate LastPairInBand(cfg: Config, edges: seq<Event>) {
    var n := |edges|;
    && n >= 2 && edges[n - 1].Edge? && edges[n - 2].Edge?
    && var diff := Difference(cfg, edges[n - 1].capture, edges[n - 2].capture);
       && diff != 0
       && InBand(cfg, LowByte(Hertz(cfg, diff)))
       && (Hertz(cfg, diff) < 0x100 ==> TrulyInBand(cfg, diff))
  }

  /** Over every run, an Ok verdict means that the last edge lies within the timeout and that the
      last pair of edges is in the band, unless the band is so wide that it includes 0 Hz. */
  lemma OkMeans(cfg: Config, startMs: uint32, events: seq<Event>, nowMs: uint32)
    requires VerdictAt(cfg, startMs, events + [Tick(nowMs)]) == Ok
    ensures var edges := Edges(events);
      var n := |edges|;
      && n >= 1 && edges[n - 1].Edge? && Minus32(nowMs, edges[n - 1].nowMs) <= cfg.captureTimeoutMs
      && (cfg.targetFreqHz > cfg.freqToleranceHz ==> LastPairInBand(cfg, edges))
  {
    var s := Run(cfg, startMs, events);
    assert (events + [Tick(nowMs)])[..|events|] == events;
    OkTick(s, cfg, nowMs);
    RunIsExplained(cfg, startMs, events);
    var edges := Edges(events);
    if cfg.targetFreqHz > cfg.freqToleranceHz {
      var diff := Difference(cfg, edges[|edges| - 1].capture, edges[|edges| - 2].capture);
      assert s.measuredFreqHz == LowByte(Hertz(cfg, diff));
      BandOfSmall(cfg, diff);
    }
  }

  // ----- when an Ok verdict is given -----

  ghost predicate AllEdges(edges: seq<Event>) {
    forall e :: e in edges ==> e.Edge?
  }

  /** An evaluation at nowMs comes more than the timeout after the last of these edges. */
  predicate Stale(cfg: Config, edges: seq<Event>, nowMs: uint32)
    requires edges != [] && edges[|edges| - 1].Edge?
  {
    Minus32(nowMs, edges[|edges| - 1].nowMs) > cfg.captureTimeoutMs
  }

  /** The edges since the last evaluation that came too late for the edge before it. */
  function LiveEdges(cfg: Config, events: seq<Event>): (live: seq<Event>)
    ensures AllEdges(live)
    decreases |events|
  {
    if events == [] then []
    else
      var live := LiveEdges(cfg, events[..|events| - 1]);
      match events[|events| - 1]
      case Edge(_, _) => live + [events[|events| - 1]]
      case Tick(nowMs) => if live != [] && Stale(cfg, live, nowMs) then [] else live
  }

  /** The length of the block of equal captures at the end. */
  function TrailingEqual(edges: seq<Event>): (n: nat)
    requires AllEdges(edges)
    ensures n <= |edges| && (edges != [] ==> n > 0)
  {
    var n := |edges|;
    if n <= 1 then n
    else if edges[n - 1].capture == edges[n - 2].capture then TrailingEqual(edges[..n - 1]) + 1
    else 1
  }

  /** Equal captures pair up: the machine is primed when one is left over. */
  predicate Armed(edges: seq<Event>)
    requires AllEdges(edges)
  {
    TrailingEqual(edges) % 2 == 1
  }

  /** The frequency of the last two edges, if both left the machine primed; 0 otherwise. */
  function Measured(cfg: Config, edges: seq<Event>): uint8
    requires AllEdges(edges)
  {
    var n := |edges|;
    if n >= 2 && Armed(edges) && Armed(edges[..n - 1]) then
      var diff := Difference(cfg, edges[n - 1].capture, edges[n - 2].capture);
      if diff != 0 then LowByte(Hertz(cfg, diff)) else 0
    else 0
  }

  /** The state is what the live edges make of it. */
  ghost predicate ShowsLive(s: State, cfg: Config, live: seq<Event>)
    requires AllEdges(live)
  {
    && s.primed == Armed(live) && s.measuredFreqHz == Measured(cfg, live)
    && (live != [] ==>
          var e := live[|live| - 1]; s.prevCaptureValue == e.capture && s.lastCaptureTimeMs == e.nowMs)
  }

  lemma EdgeShowsLive(s: State, cfg: Config, live: seq<Event>, capture: uint32, nowMs: uint32)
    requires AllEdges(live) && ShowsLive(s, cfg, live)
    ensures ShowsLive(AfterEdge(s, cfg, capture, nowMs), cfg, live + [Edge(capture, nowMs)])
  {
    var after := live + [Edge(capture, nowMs)];
    assert after[..|live|] == live;
    if live != [] {
      assert after[|after| - 2] == live[|live| - 1];
    }
  }

  lemma TickShowsLive(s: State, cfg: Config, live: seq<Event>, nowMs: uint32)
    requires AllEdges(live) && ShowsLive(s, cfg, live)
    ensures ShowsLive(AfterTick(s, cfg, nowMs).0, cfg, if live != [] && Stale(cfg, live, nowMs) then [] else live)
    ensures AfterTick(s, cfg, nowMs).1 == Ok <==>
            live != [] && !Stale(cfg, live, nowMs) && Armed(live) && InBand(cfg, Measured(cfg, live))
  {
  }

  lemma {:induction false} RunShowsLive(cfg: Config, startMs: uint32, events: seq<Event>)
    ensures ShowsLive(Run(cfg, startMs, events), cfg, LiveEdges(cfg, events))
    decreases |events|
  {
    if events != [] {
      var earlier := events[..|events| - 1];
      var s, live := Run(cfg, startMs, earlier), LiveEdges(cfg, earlier);
      RunShowsLive(cfg, startMs, earlier);
      match events[|events| - 1]
      case Edge(capture, nowMs) => EdgeShowsLive(s, cfg, live, capture, nowMs);
      case Tick(nowMs) => TickShowsLive(s, cfg, live, nowMs);
    }
  }

  /** Over every run, an evaluation is Ok exactly when there is a live edge, the last one lies within
      the timeout, an odd number of equal captures ends the live edges, and the frequency they leave
      is in the band: that of the last pair if its first edge was left over too, and otherwise 0. */
  lemma OkExactlyWhen(cfg: Config, startMs: uint32, events: seq<Event>, nowMs: uint32)
    ensures var live := LiveEdges(cfg, events);
      VerdictAt(cfg, startMs, events + [Tick(nowMs)]) == Ok <==>
      live != [] && !Stale(cfg, live, nowMs) && Armed(live) && InBand(cfg, Measured(cfg, live))
  {
    assert (events + [Tick(nowMs)])[..|events|] == events;
    RunShowsLive(cfg, startMs, events);
    TickShowsLive(Run(cfg, startMs, events), cfg, LiveEdges(cfg, events), nowMs);
  }

  // ----- the interrupt code's verdicts in timer ticks -----

  lemma TicksInBand(d: nat)
    requires 391 <= d < 0x1_0000_0000
    ensures Hertz(SSM_CONFIG, d) < 256
    ensures 45 <= Hertz(SSM_CONFIG, d) <= 55 <==> 1786 <= d <= 2222
  {
    var h := Hertz(SSM_CONFIG, d);
    HertzMeans(SSM_CONFIG, d);
    if h >= 256 {
      Product(256, h, 391, d);
    }
    if h >= 45 && d >= 2223 {
      Product(45, h, 2223, d);
    }
    if h <= 44 && d <= 2222 {
      Product(h + 1, 45, d, 2222);
    }
    if h <= 55 && d <= 1785 {
      Product(h + 1, 56, d, 1785);
    }
    if h >= 56 && d >= 1786 {
      Product(56, h, 1786, d);
    }
  }

  lemma Product(a: nat, b: nat, c: nat, d: nat)
    requires a <= b && c <= d
    ensures a * c <= b * d
  {
    assert b * d - a * c == (b - a) * d + a * (d - c);
  }

  /** For the interrupt code: when the last two live edges both left the machine primed, d ticks apart
      across any counter wrap with d at least 391, the verdict is Ok exactly when the evaluation is
      within 100 ms of the last edge and d lies between 1786 and 2222. */
  lemma OkTicks(startMs: uint32, events: seq<Event>, nowMs: uint32, d: nat)
    requires var live := LiveEdges(SSM_CONFIG, events);
      var n := |live|;
      && n >= 2 && Armed(live) && Armed(live[..n - 1])
      && d == (live[n - 1].capture - live[n - 2].capture) % 0x1_0000_0000 && d >= 391
    ensures var live := LiveEdges(SSM_CONFIG, events);
      VerdictAt(SSM_CONFIG, startMs, events + [Tick(nowMs)]) == Ok <==>
      Minus32(nowMs, live[|live| - 1].nowMs) <= 100 && 1786 <= d <= 2222
  {
    OkExactlyWhen(SSM_CONFIG, startMs, events, nowMs);
    MeasuredTicks(LiveEdges(SSM_CONFIG, events), d);
  }

  lemma MeasuredTicks(live: seq<Event>, d: nat)
    requires AllEdges(live) && |live| >= 2 && Armed(live) && Armed(live[..|live| - 1])
    requires d == (live[|live| - 1].capture - live[|live| - 2].capture) % 0x1_0000_0000 && d >= 391
    ensures InBand(SSM_CONFIG, Measured(SSM_CONFIG, live)) <==> 1786 <= d <= 2222
  {
    DifferenceIsModular(SSM_CONFIG, live[|live| - 1].capture, live[|live| - 2].capture);
    TicksInBand(d);
  }

  /** And it calls for standby exactly when it is not Ok and the streak, modulo 2^16, has reached 10. */
  lemma StandbyExactlyWhen(startMs: uint32, events: seq<Event>, nowMs: uint32)
    ensures var run := events + [Tick(nowMs)];
      var streak := Streak(SSM_CONFIG, startMs, run);
      VerdictAt(SSM_CONFIG, startMs, run) == EnterFlash <==> streak % 0x1_0000 >= 10
  {
    TripsExactlyWhen(SSM_CONFIG, startMs, events + [Tick(nowMs)]);
  }

  /** The live edges are the last of all edges. */
  lemma {:induction false} LiveEdgesEndEdges(cfg: Config, events: seq<Event>)
    ensures var live, edges := LiveEdges(cfg, events), Edges(events);
      |live| <= |edges| && live == edges[|edges| - |live|..]
    decreases |events|
  {
    if events != [] {
      LiveEdgesEndEdges(cfg, events[..|events| - 1]);
    }
  }

  /** The byte comparison Evaluate makes, in terms of the whole frequency h: its low eight bits
      against the band, whose upper end is cut at 255. */
  predicate LowByteInBand(cfg: Config, h: nat) {
    cfg.targetFreqHz - cfg.freqToleranceHz <= h % 0x100 <= cfg.targetFreqHz + cfg.freqToleranceHz
  }

  /** The eight-bit test agrees with the true one exactly when the frequency h is below 256 Hz;
      or is at most the upper end of the band, which then lies above 255, and its low eight bits
      reach the lower end; or is above the band and its low eight bits miss it. */
  lemma BandTestExactWhen(cfg: Config, diff: uint32)
    requires diff != 0
    ensures var h, top := Hertz(cfg, diff), cfg.targetFreqHz + cfg.freqToleranceHz;
      (InBand(cfg, LowByte(h)) <==> TrulyInBand(cfg, diff)) <==>
      || h < 0x100
      || (h <= top && h % 0x100 >= cfg.targetFreqHz - cfg.freqToleranceHz)
      || (h > top && !LowByteInBand(cfg, h))
  {
    BandOfLowByte(cfg, Hertz(cfg, diff));
  }

  lemma BandOfLowByte(cfg: Config, h: nat)
    ensures InBand(cfg, LowByte(h)) <==> LowByteInBand(cfg, h)
  {
  }

  /** The test errs in both directions: with a band of 230 to 270 Hz a 260 Hz input is refused. */
  lemma Refused260Hz()
    ensures var cfg := SSM_CONFIG.(targetFreqHz := 250, freqToleranceHz := 20);
      && Hertz(cfg, 384) == 260 && TrulyInBand(cfg, 384)
      && VerdictAt(cfg, 0, [Edge(0, 0), Edge(384, 4), Tick(5)]) == Bad
  {
    var cfg := SSM_CONFIG.(targetFreqHz := 250, freqToleranceHz := 20);
    var events := [Edge(0, 0), Edge(384, 4), Tick(5)];
    assert events[..2] == [Edge(0, 0), Edge(384, 4)] && events[..2][..1] == [Edge(0, 0)];
    assert events[..2][..1][..0] == [];
    var s0 := InitialState(0);
    assert Run(cfg, 0, events[..2][..1]) == AfterEdge(s0, cfg, 0, 0) == State(0, 0, 0, 0, true);
    assert Run(cfg, 0, events[..2]) == State(384, 4, 0, 4, true);
  }

  /** A 306 Hz input is taken for 50 Hz. */
  lemma Alias306Hz()
    ensures VerdictAt(SSM_CONFIG, 0, [Edge(0, 0), Edge(326, 3), Tick(5)]) == Ok
    ensures !TrulyInBand(SSM_CONFIG, 326)
  {
    var events := [Edge(0, 0), Edge(326, 3), Tick(5)];
    assert events[..2] == [Edge(0, 0), Edge(326, 3)] && events[..2][..1] == [Edge(0, 0)];
    assert events[..2][..1][..0] == [];
    var s0 := InitialState(0);
    assert Run(SSM_CONFIG, 0, events[..2][..1]) == AfterEdge(s0, SSM_CONFIG, 0, 0) == State(0, 0, 0, 0, true);
    assert Run(SSM_CONFIG, 0, events[..2]) == State(326, 3, 0, 50, true);
  }
}
