/** The flash-sync generator of PSM/App/Domain/MeasurementService.c over a wrapping 32-bit
    millisecond tick. */
module FlashSync {

  const TICKS := 0x1_0000_0000

  type tick = x: int | 0 <= x < TICKS

  /** StartFrame carries flashSync = 0, MidFrame carries flashSync = 1. */
  datatype Frame = NoFrame | StartFrame | MidFrame

  datatype State = State(lastFlashTick: tick, midCycleSent: bool)

  /** Unsigned 32-bit subtraction. */
  function Elapsed(now: tick, last: tick): tick {
    if now >= last then now - last else now - last + TICKS
  }

  /** The low 32 bits of a real time. */
  function Tick(t: nat): tick { t % TICKS }

  /** One call of FlashSync: the new state and the frame it sends. */
  function Step(s: State, period: tick, now: tick): (State, Frame) {
    Respond(s, period, Elapsed(now, s.lastFlashTick), now)
  }

  function Respond(s: State, period: tick, elapsed: tick, now: tick): (State, Frame) {
    if elapsed >= period then (s.(lastFlashTick := now), StartFrame)
    else if elapsed == 0 then (s, StartFrame)
    else if elapsed >= period / 2 && !s.midCycleSent then (s.(midCycleSent := true), MidFrame)
    else if elapsed < period / 2 then (s.(midCycleSent := false), NoFrame)
    else (s, NoFrame)
  }

  /** The runtime fields of the measurement service that FlashSync uses. */
  class Generator {
    var flashPeriod: tick
    var lastFlashTick: tick
    var midCycleSent: bool

    function Value(): State
      reads this
    {
      State(lastFlashTick, midCycleSent)
    }

    method FlashSync(nowMs: tick) returns (frame: Frame)
      modifies `lastFlashTick, `midCycleSent
      ensures (Value(), frame) == Step(old(Value()), flashPeriod, nowMs)
    {
      var elapsed := Elapsed(nowMs, lastFlashTick);
      var periodMs := flashPeriod;
      if elapsed >= periodMs {
        lastFlashTick := nowMs;
        elapsed := 0;
      }
      if elapsed == 0 {
        frame := StartFrame;
      } else if elapsed >= periodMs / 2 && !midCycleSent {
        midCycleSent := true;
        frame := MidFrame;
      } else if elapsed < periodMs / 2 {
        midCycleSent := false;
        frame := NoFrame;
      } else {
        frame := NoFrame;
      }
    }
  }

  // ----- infinite runs -----

  /** An infinite run: from state s0, call number i happens at real time t(i), while the period
      in force is period(i). The firmware sees only the low 32 bits of the time. */
  datatype Run = Run(t: nat -> nat, period: nat -> tick, s0: State)
  {
    function StateAt(i: nat): State
      decreases i
    {
      if i == 0 then s0 else Step(StateAt(i - 1), period(i - 1), Tick(t(i - 1))).0
    }

    function FrameAt(i: nat): Frame {
      Step(StateAt(i), period(i), Tick(t(i))).1
    }

    /** Real time from call i to call j. */
    function Since(i: nat, j: nat): int {
      t(j) - t(i)
    }

    /** Call j comes in the second half of the cycle that call i started. */
    predicate Late(i: nat, j: nat) {
      Since(i, j) >= period(j) / 2
    }

    ghost predicate Inside(i: nat, j: nat) {
      0 < Since(i, j) < period(j)
    }

    /** Call i starts a cycle, and no later call before k ends it. Any gaps, any periods. */
    ghost predicate InCycle(i: nat, k: nat) {
      FrameAt(i) == StartFrame && i < k && forall j: nat :: i < j < k ==> Inside(i, j)
    }

    ghost predicate SendsMid(i: nat, k: nat) {
      exists j: nat :: i < j < k && FrameAt(j) == MidFrame
    }

    ghost predicate SomeLate(i: nat, k: nat) {
      exists j: nat :: i < j < k && Late(i, j)
    }

    ghost predicate SomeEarly(i: nat, k: nat) {
      exists j: nat :: i < j < k && !Late(i, j)
    }

    /** An early call after j and a late one after that, both before k. */
    ghost predicate LateAgain(i: nat, j: nat, k: nat) {
      exists m: nat, c: nat :: j < m < c < k && !Late(i, m) && Late(i, c)
    }

    /** A late call before k that the latch does not stop: it was clear at the start of the cycle,
        or an early call came before. */
    ghost predicate LateUnlatched(i: nat, k: nat) {
      (!StateAt(i + 1).midCycleSent && SomeLate(i, k)) || LateAgain(i, i, k)
    }

    ghost predicate LateAfter(i: nat, m: nat, k: nat) {
      exists j: nat :: m < j < k && Late(i, j)
    }

    ghost predicate NextSteady(j: nat, p: tick) {
      period(j) == p && t(j) <= t(j + 1)
    }

    /** The calls after i and before k come in order, under one period. */
    ghost predicate Steady(i: nat, k: nat, p: tick) {
      forall j: nat :: i < j < k ==> NextSteady(j, p)
    }

    ghost predicate Gap(i: nat, g: nat) {
      1 <= t(i + 1) - t(i) <= g
    }

    /** Gaps between calls are at least 1 and at most g. */
    ghost predicate Paced(g: nat) {
      forall i: nat :: Gap(i, g)
    }

    ghost predicate Holds(i: nat, p: tick) {
      period(i) == p
    }

    ghost predicate Fixed(p: tick) {
      forall i: nat :: Holds(i, p)
    }

    ghost predicate FixedAfter(i: nat, p: tick) {
      forall j: nat :: j > i ==> Holds(j, p)
    }

    /** No frame is sent by the calls strictly between i and j. */
    ghost predicate Quiet(i: nat, j: nat) {
      forall k: nat :: i < k < j ==> FrameAt(k) == NoFrame
    }
  }

  lemma ElapsedIsRealTime(t0: nat, t1: nat)
    requires 0 <= t1 - t0 < TICKS
    ensures Elapsed(Tick(t1), Tick(t0)) == t1 - t0
  {
  }

  lemma StartSetsTick(r: Run, i: nat)
    requires r.FrameAt(i) == StartFrame
    ensures r.StateAt(i + 1) == State(Tick(r.t(i)), r.StateAt(i).midCycleSent)
  {
  }

  /** While the last start tick is that of call i, a call responds to the real time since then. */
  lemma Responds(r: Run, i: nat, j: nat)
    requires r.StateAt(j).lastFlashTick == Tick(r.t(i)) && 0 <= r.Since(i, j) < TICKS
    ensures (r.StateAt(j + 1), r.FrameAt(j)) == Respond(r.StateAt(j), r.period(j), r.Since(i, j), Tick(r.t(j)))
  {
    ElapsedIsRealTime(r.t(i), r.t(j));
  }

  // ----- exactly when a call sends the mid frame, for any gaps and any periods -----

  /** The latch inside a cycle remembers whether the previous call was late. */
  lemma {:induction false} CycleState(r: Run, i: nat, k: nat)
    requires r.InCycle(i, k)
    ensures r.StateAt(k) ==
            State(Tick(r.t(i)), if k == i + 1 then r.StateAt(i + 1).midCycleSent else r.Late(i, k - 1))
    decreases k
  {
    StartSetsTick(r, i);
    if k > i + 1 {
      assert r.Inside(i, k - 1);
      CycleState(r, i, k - 1);
      Responds(r, i, k - 1);
    }
  }

  /** A call inside a cycle sends the mid frame exactly when it is late and the call before it in
      the cycle was not; for the first call, when the latch was clear at the start. */
  lemma MidFrameExactlyWhen(r: Run, i: nat, j: nat)
    requires i < j && r.InCycle(i, j + 1)
    ensures r.FrameAt(j) == MidFrame <==>
            r.Late(i, j) && !(if j == i + 1 then r.StateAt(i + 1).midCycleSent else r.Late(i, j - 1))
    ensures r.FrameAt(j) != StartFrame
  {
    assert r.Inside(i, j);
    CycleState(r, i, j);
    Responds(r, i, j);
  }

  /** The next start frame is sent by the first call at or after the period then in force. */
  lemma NextStartExactlyWhen(r: Run, i: nat, k: nat)
    requires r.InCycle(i, k) && 0 < r.Since(i, k) < TICKS
    ensures r.FrameAt(k) == StartFrame <==> r.Since(i, k) >= r.period(k)
  {
    CycleState(r, i, k);
    Responds(r, i, k);
  }

  // ----- exactly when a cycle sends its mid frame -----

  lemma FirstLateAfter(r: Run, i: nat, m: nat, c: nat) returns (d: nat)
    requires i < m < c && !r.Late(i, m) && r.Late(i, c)
    ensures m < d <= c && !r.Late(i, d - 1) && r.Late(i, d)
  {
    d := m + 1;
    while !r.Late(i, d)
      invariant m < d <= c && !r.Late(i, d - 1)
      decreases c - d
    {
      d := d + 1;
    }
  }

  /** A late call that follows an early one is reached by a call that sends the mid frame. */
  lemma MidAfterEarly(r: Run, i: nat, k: nat, m: nat, c: nat) returns (d: nat)
    requires r.InCycle(i, k) && i < m < c < k && !r.Late(i, m) && r.Late(i, c)
    ensures m < d <= c && r.FrameAt(d) == MidFrame
  {
    d := FirstLateAfter(r, i, m, c);
    assert r.InCycle(i, d + 1);
    MidFrameExactlyWhen(r, i, d);
  }

  lemma MidInFreshCycle(r: Run, i: nat, k: nat)
    requires r.InCycle(i, k) && !r.StateAt(i + 1).midCycleSent && r.SomeLate(i, k)
    ensures r.SendsMid(i, k)
  {
    var c: nat :| i < c < k && r.Late(i, c);
    var d := i + 1;
    if !r.Late(i, d) {
      d := MidAfterEarly(r, i, k, d, c);
    } else {
      assert r.InCycle(i, d + 1);
      MidFrameExactlyWhen(r, i, d);
    }
  }

  /** For any gaps and any periods a cycle sends a mid frame exactly when some call comes in the
      second half of the period it sees, and either the latch was clear at the start of the cycle
      or an earlier call of the cycle came in the first half of the period that one saw. */
  lemma CycleSendsMidExactlyWhen(r: Run, i: nat, k: nat)
    requires r.InCycle(i, k)
    ensures r.SendsMid(i, k) <==> r.LateUnlatched(i, k)
  {
    if r.SendsMid(i, k) {
      var j: nat :| i < j < k && r.FrameAt(j) == MidFrame;
      assert r.InCycle(i, j + 1);
      MidFrameExactlyWhen(r, i, j);
      assert j > i + 1 ==> i < j - 1 < j && !r.Late(i, j - 1);
    }
    if r.LateAgain(i, i, k) {
      var m: nat, c: nat :| i < m < c < k && !r.Late(i, m) && r.Late(i, c);
      var d := MidAfterEarly(r, i, k, m, c);
    } else if r.LateUnlatched(i, k) {
      MidInFreshCycle(r, i, k);
    }
  }

  /** For any gaps and any periods a cycle whose mid frame is out sends another exactly when a call
      after it is early for the period it sees and a later one is late for its own. */
  lemma SecondMidExactlyWhen(r: Run, i: nat, j: nat, k: nat)
    requires r.InCycle(i, k) && i < j < k && r.FrameAt(j) == MidFrame
    ensures r.SendsMid(j, k) <==> r.LateAgain(i, j, k)
  {
    assert r.InCycle(i, j + 1);
    MidFrameExactlyWhen(r, i, j);
    if r.SendsMid(j, k) {
      var c: nat :| j < c < k && r.FrameAt(c) == MidFrame;
      assert r.InCycle(i, c + 1);
      MidFrameExactlyWhen(r, i, c);
      assert j < c - 1 < c && !r.Late(i, c - 1);
    }
    if r.LateAgain(i, j, k) {
      var m: nat, c: nat :| j < m < c < k && !r.Late(i, m) && r.Late(i, c);
      var d := MidAfterEarly(r, i, k, m, c);
    }
  }

  // ----- cycles under one period -----

  lemma LateStays(r: Run, i: nat, k: nat, p: tick, j: nat)
    requires r.Steady(i, k, p) && i < j < k - 1 && r.Late(i, j)
    ensures r.Late(i, j + 1)
  {
    assert r.NextSteady(j, p) && r.NextSteady(j + 1, p);
  }

  lemma {:induction false} LateToTheEnd(r: Run, i: nat, k: nat, p: tick, j: nat)
    requires r.Steady(i, k, p) && i < j < k && r.Late(i, j)
    ensures r.Late(i, k - 1)
    decreases k - j
  {
    if j < k - 1 {
      LateStays(r, i, k, p, j);
      LateToTheEnd(r, i, k, p, j + 1);
    }
  }

  lemma LateBefore(r: Run, i: nat, k: nat, p: tick, j: nat, j': nat)
    requires r.Steady(i, k, p) && i < j <= j' < k && r.Late(i, j)
    ensures r.Late(i, j')
  {
    LateToTheEnd(r, i, j' + 1, p, j);
  }

  lemma NoSecondMid(r: Run, i: nat, k: nat, p: tick, j: nat)
    requires r.InCycle(i, k) && r.Steady(i, k, p) && i < j < k && r.FrameAt(j) == MidFrame
    ensures !r.SendsMid(j, k)
  {
    SecondMidExactlyWhen(r, i, j, k);
    assert r.InCycle(i, j + 1);
    MidFrameExactlyWhen(r, i, j);
    forall m: nat | j < m < k ensures r.Late(i, m) {
      LateBefore(r, i, k, p, j, m);
    }
  }

  lemma LatchAtEnd(r: Run, i: nat, k: nat, p: tick)
    requires r.InCycle(i, k) && r.Steady(i, k, p)
    ensures r.StateAt(k).midCycleSent == (r.SomeLate(i, k) || (r.StateAt(i + 1).midCycleSent && !r.SomeEarly(i, k)))
  {
    CycleState(r, i, k);
    if r.SomeLate(i, k) {
      var a: nat :| i < a < k && r.Late(i, a);
      LateToTheEnd(r, i, k, p, a);
    }
  }

  /** Under one period the condition is that some call comes in the second half of the cycle and
      the latch was clear at its start or some call comes in its first half. The cycle then never
      sends two. At its end the latch is set if there was a late call, clear if all were early. */
  lemma SteadyCycleSendsMidExactlyWhen(r: Run, i: nat, k: nat, p: tick)
    requires r.InCycle(i, k) && r.Steady(i, k, p)
    ensures r.SendsMid(i, k) <==>
            r.SomeLate(i, k) && (!r.StateAt(i + 1).midCycleSent || r.SomeEarly(i, k))
    ensures forall j: nat :: i < j < k && r.FrameAt(j) == MidFrame ==> !r.SendsMid(j, k)
    ensures r.StateAt(k).midCycleSent == (r.SomeLate(i, k) || (r.StateAt(i + 1).midCycleSent && !r.SomeEarly(i, k)))
  {
    CycleSendsMidExactlyWhen(r, i, k);
    EarlyBeforeLate(r, i, k, p);
    forall j: nat | i < j < k && r.FrameAt(j) == MidFrame ensures !r.SendsMid(j, k) {
      NoSecondMid(r, i, k, p, j);
    }
    LatchAtEnd(r, i, k, p);
  }

  lemma EarlyBeforeLate(r: Run, i: nat, k: nat, p: tick)
    requires r.Steady(i, k, p)
    ensures r.LateAgain(i, i, k) <==> r.SomeLate(i, k) && r.SomeEarly(i, k)
  {
    if r.SomeLate(i, k) && r.SomeEarly(i, k) {
      var c: nat :| i < c < k && r.Late(i, c);
      var m: nat :| i < m < k && !r.Late(i, m);
      if c < m {
        LateBefore(r, i, k, p, c, m);
      }
      assert m < c;
    }
  }

  // ----- paced runs with a fixed period -----

  lemma NextCall(r: Run, g: nat, j: nat)
    requires r.Paced(g)
    ensures 1 <= r.t(j + 1) - r.t(j) <= g
  {
    assert r.Gap(j, g);
  }

  /** From any call inside a cycle, the call that ends it: the first at or after the period then
      in force, whatever that is, as long as all periods stay at or below a bound. */
  lemma ToNextStart(r: Run, g: nat, bound: nat, i: nat, m: nat) returns (k: nat)
    requires r.Paced(g) && bound + g <= TICKS && forall j: nat :: j >= m ==> r.period(j) <= bound
    requires r.InCycle(i, m) && 0 < r.Since(i, m) < TICKS
    ensures m <= k && r.InCycle(i, k) && r.FrameAt(k) == StartFrame
    ensures r.Since(i, k) >= r.period(k) && (k == m || r.Since(i, k - 1) < r.period(k - 1))
    ensures k == m || r.Since(i, k) < bound + g
  {
    k := m;
    while r.Since(i, k) < r.period(k)
      invariant m <= k && r.InCycle(i, k) && 0 < r.Since(i, k) < TICKS
      invariant k == m || (r.Since(i, k - 1) < r.period(k - 1) && r.Since(i, k) < bound + g)
      decreases bound - r.Since(i, k)
    {
      assert r.period(k) <= bound;
      NextCall(r, g, k);
      k := k + 1;
    }
    NextStartExactlyWhen(r, i, k);
  }

  lemma AfterStart(r: Run, g: nat, i: nat)
    requires r.Paced(g) && r.FrameAt(i) == StartFrame
    ensures r.InCycle(i, i + 1) && 1 <= r.Since(i, i + 1) <= g
  {
    NextCall(r, g, i);
  }

  lemma SteadyWhenFixed(r: Run, g: nat, p: tick, i: nat, k: nat)
    requires r.Paced(g) && r.FixedAfter(i, p)
    ensures r.Steady(i, k, p)
  {
    forall j: nat | i < j < k ensures r.NextSteady(j, p) {
      assert r.Holds(j, p);
      NextCall(r, g, j);
    }
  }

  /** The first late call of a cycle, given that its last call is late and its first is not. */
  lemma FirstLate(r: Run, g: nat, p: tick, i: nat, k: nat) returns (m: nat)
    requires r.Paced(g) && r.FixedAfter(i, p) && i + 1 < k && !r.Late(i, i + 1) && r.Late(i, k - 1)
    ensures i + 1 < m < k && !r.Late(i, m - 1) && r.Late(i, m)
    ensures p / 2 <= r.Since(i, m) < p / 2 + g
  {
    m := i + 2;
    while !r.Late(i, m)
      invariant i + 1 < m < k && !r.Late(i, m - 1)
      decreases k - m
    {
      m := m + 1;
    }
    NextCall(r, g, m - 1);
    assert r.Holds(m - 1, p) && r.Holds(m, p);
  }

  /** With a period fixed after call i and gaps below half of it, the start frame of call i is
      followed by exactly one mid frame and then the next start frame, and nothing else, with these
      times; so the frames alternate strictly for ever, however often the tick wraps. */
  lemma Cycle(r: Run, g: nat, p: tick, i: nat) returns (m: nat, k: nat)
    requires r.Paced(g) && r.FixedAfter(i, p) && 1 <= g < p / 2 && p < TICKS / 2
    requires r.FrameAt(i) == StartFrame
    ensures i < m < k && r.FrameAt(m) == MidFrame && r.FrameAt(k) == StartFrame
    ensures r.Quiet(i, m) && r.Quiet(m, k)
    ensures p / 2 <= r.Since(i, m) < p / 2 + g
    ensures p <= r.Since(i, k) < p + g
  {
    forall j: nat | j > i ensures r.period(j) == p {
      assert r.Holds(j, p);
    }
    AfterStart(r, g, i);
    k := ToNextStart(r, g, p, i, i + 1);
    NextCall(r, g, k - 1);
    m := FirstLate(r, g, p, i, k);
    SteadyWhenFixed(r, g, p, i, k);
    MidFrameExactlyWhen(r, i, m);
    SteadyCycleSendsMidExactlyWhen(r, i, k, p);
    QuietApartFromMid(r, i, m, k);
  }

  lemma QuietApartFromMid(r: Run, i: nat, m: nat, k: nat)
    requires r.InCycle(i, k) && i < m < k && r.FrameAt(m) == MidFrame
    requires forall j: nat :: i < j < k && r.FrameAt(j) == MidFrame ==> !r.SendsMid(j, k)
    ensures r.Quiet(i, m) && r.Quiet(m, k)
  {
    forall j: nat | i < j < k && j != m ensures r.FrameAt(j) == NoFrame {
      assert r.InCycle(i, j + 1);
      MidFrameExactlyWhen(r, i, j);
      assert j < m ==> !(r.FrameAt(j) == MidFrame);
      assert m < j ==> !(r.FrameAt(j) == MidFrame);
    }
  }

  lemma ElapsedAfter(last: tick, t0: nat, t1: nat)
    requires t0 <= t1 && Elapsed(Tick(t0), last) + (t1 - t0) < TICKS
    ensures Elapsed(Tick(t1), last) == Elapsed(Tick(t0), last) + (t1 - t0)
  {
  }

  /** A first start frame comes soon after the first call, whatever the initial state. */
  lemma FirstStart(r: Run, g: nat, p: tick) returns (i: nat)
    requires r.Paced(g) && r.Fixed(p) && 1 <= g < p / 2 && p < TICKS / 2
    ensures r.FrameAt(i) == StartFrame && r.Since(0, i) < p + g
    ensures forall k: nat :: k < i ==> r.FrameAt(k) != StartFrame
  {
    i := 0;
    var e := Elapsed(Tick(r.t(0)), r.s0.lastFlashTick);
    while r.FrameAt(i) != StartFrame
      invariant r.StateAt(i).lastFlashTick == r.s0.lastFlashTick
      invariant 0 <= r.Since(0, i) < p + g
      invariant i == 0 || e + r.Since(0, i) < p + g
      invariant forall k: nat :: k < i ==> r.FrameAt(k) != StartFrame
      decreases p + g - r.Since(0, i)
    {
      assert r.Holds(i, p);
      if i > 0 {
        ElapsedAfter(r.s0.lastFlashTick, r.t(0), r.t(i));
      }
      NextCall(r, g, i);
      i := i + 1;
    }
  }

  // ----- a period changed in the middle of a cycle -----

  /** The cycle in progress takes the new period at once: it ends with the first call, from the
      change on, at or after the new period. */
  lemma ChangedPeriodEndsCycle(r: Run, g: nat, q: tick, i: nat, m: nat) returns (k: nat)
    requires r.Paced(g) && q + g < TICKS && forall j: nat :: j >= m ==> r.Holds(j, q)
    requires r.InCycle(i, m) && 0 < r.Since(i, m) < TICKS
    ensures m <= k && r.InCycle(i, k) && r.FrameAt(k) == StartFrame
    ensures r.Since(i, m) >= q ==> k == m
    ensures r.Since(i, m) < q ==> q <= r.Since(i, k) < q + g
  {
    forall j: nat | j >= m ensures r.period(j) == q {
      assert r.Holds(j, q);
    }
    k := ToNextStart(r, g, q, i, m);
    if k > m {
      assert r.Inside(i, m);
    }
  }

  /** With one change of period, seen first by call m, that is when m is early for the new period
      and a later call of the cycle is late for it. */
  lemma OneChangeSendsSecondMidExactlyWhen(r: Run, p: tick, q: tick, i: nat, j: nat, m: nat, k: nat)
    requires r.InCycle(i, k) && i < j < m < k && r.FrameAt(j) == MidFrame
    requires r.Steady(i, m, p) && r.Steady(m - 1, k, q)
    ensures r.SendsMid(j, k) <==> !r.Late(i, m) && r.LateAfter(i, m, k)
  {
    SecondMidExactlyWhen(r, i, j, k);
    assert r.InCycle(i, j + 1);
    MidFrameExactlyWhen(r, i, j);
    if r.LateAgain(i, j, k) {
      var e: nat, c: nat :| j < e < c < k && !r.Late(i, e) && r.Late(i, c);
      if e < m {
        LateBefore(r, i, m, p, j, e);
      }
      if r.Late(i, m) {
        LateBetween(r, i, m, k, q, e);
      }
    }
  }

  /** Reachable: from boot, a period of 1000 ms raised to 8000 ms after the mid frame. */
  function RaisedPeriod(): Run {
    Run((n: nat) => 1000 + 500 * n, (n: nat) => if n < 2 then 1000 else 8000, State(0, false))
  }

  lemma RaisedPeriodSendsTwoMids()
    ensures RaisedPeriod().InCycle(0, 9)
    ensures RaisedPeriod().FrameAt(1) == MidFrame && RaisedPeriod().SendsMid(1, 9)
  {
    var r := RaisedPeriod();
    assert r.StateAt(0) == State(0, false) && r.FrameAt(0) == StartFrame;
    StartSetsTick(r, 0);
    assert r.InCycle(0, 2);
    MidFrameExactlyWhen(r, 0, 1);
    assert !r.Late(0, 2) && r.Late(0, 8);
    SecondMidExactlyWhen(r, 0, 1, 9);
  }

  lemma {:induction false} LateBetween(r: Run, i: nat, m: nat, k: nat, q: tick, c: nat)
    requires 0 < m <= c < k && r.Steady(m - 1, k, q) && r.Late(i, m)
    ensures r.Late(i, c)
    decreases c
  {
    if c > m {
      LateBetween(r, i, m, k, q, c - 1);
      assert r.NextSteady(c - 1, q) && r.NextSteady(c, q);
    }
  }

  // ----- calls exactly half a period apart -----

  ghost predicate HalfPeriodCalls(r: Run, p: tick) {
    0 < p < TICKS / 2 && p % 2 == 0 && r.Fixed(p) && forall j: nat :: HalfGap(r, p, j)
  }

  ghost predicate HalfGap(r: Run, p: tick, j: nat) {
    r.t(j + 1) - r.t(j) == p / 2
  }

  /** A cycle of such a run has one call, in its second half: it sends the mid frame exactly when
      the latch was clear, and leaves it set for the next cycle. */
  lemma HalfPeriodCycle(r: Run, p: tick, j: nat)
    requires HalfPeriodCalls(r, p) && r.FrameAt(j) == StartFrame
    ensures r.FrameAt(j + 1) == if r.StateAt(j + 1).midCycleSent then NoFrame else MidFrame
    ensures r.FrameAt(j + 2) == StartFrame && r.StateAt(j + 3).midCycleSent
  {
    assert HalfGap(r, p, j) && HalfGap(r, p, j + 1);
    assert r.Holds(j, p) && r.Holds(j + 1, p) && r.Holds(j + 2, p);
    assert r.InCycle(j, j + 2) && r.Late(j, j + 1);
    MidFrameExactlyWhen(r, j, j + 1);
    SteadyCycleSendsMidExactlyWhen(r, j, j + 2, p);
    NextStartExactlyWhen(r, j, j + 2);
    StartSetsTick(r, j + 2);
  }

  /** From a start frame on, every second call starts a cycle, and only the first of these cycles
      can send its mid frame: afterwards the mid frame is lost for ever. */
  lemma {:induction false} HalfPeriodCallsLoseMidFrames(r: Run, p: tick, s: nat, n: nat, j: nat)
    requires HalfPeriodCalls(r, p) && r.FrameAt(s) == StartFrame && j == s + 2 * n
    ensures r.FrameAt(j) == StartFrame && (n > 0 ==> r.StateAt(j + 1).midCycleSent)
    ensures r.FrameAt(j + 1) == if n == 0 && !r.StateAt(s + 1).midCycleSent then MidFrame else NoFrame
    decreases n
  {
    if n > 0 {
      HalfPeriodCallsLoseMidFrames(r, p, s, n - 1, j - 2);
      HalfPeriodCycle(r, p, j - 2);
    }
    HalfPeriodCycle(r, p, j);
  }

  /** From boot, with a first call no sooner than one period: start, mid, start, silence, start,
      silence, and so on. */
  lemma HalfPeriodCallsFromBoot(r: Run, p: tick, n: nat)
    requires HalfPeriodCalls(r, p) && r.s0 == State(0, false) && p <= r.t(0) < TICKS
    ensures r.FrameAt(2 * n) == StartFrame
    ensures r.FrameAt(2 * n + 1) == if n == 0 then MidFrame else NoFrame
  {
    assert r.Holds(0, p);
    StartSetsTick(r, 0);
    HalfPeriodCallsLoseMidFrames(r, p, 0, n, 2 * n);
  }

  /** Whatever the initial state and the time of the first call, one of the first three calls
      starts a cycle, and if it is not the first of them the latch is already set by then. */
  lemma HalfPeriodFirstStart(r: Run, p: tick) returns (s: nat)
    requires HalfPeriodCalls(r, p)
    ensures s <= 2 && r.FrameAt(s) == StartFrame && (s > 0 ==> r.StateAt(s + 1).midCycleSent)
  {
    var last := r.s0.lastFlashTick;
    var e := Elapsed(Tick(r.t(0)), last);
    assert r.Holds(0, p) && r.Holds(1, p) && r.Holds(2, p) && HalfGap(r, p, 0) && HalfGap(r, p, 1);
    if e == 0 || e >= p {
      return 0;
    }
    ElapsedAfter(last, r.t(0), r.t(1));
    if e >= p / 2 {
      return 1;
    }
    ElapsedAfter(last, r.t(0), r.t(2));
    return 2;
  }

  /** So from any state, boot included, the run settles into start, silence, start, silence: only
      the first cycle can send its mid frame. */
  lemma HalfPeriodCallsStaySilent(r: Run, p: tick, n: nat) returns (s: nat)
    requires HalfPeriodCalls(r, p)
    ensures s <= 2 && r.FrameAt(s + 2 * n) == StartFrame
    ensures n > 0 ==> r.FrameAt(s + 2 * n + 1) == NoFrame
  {
    s := HalfPeriodFirstStart(r, p);
    HalfPeriodCallsLoseMidFrames(r, p, s, n, s + 2 * n);
  }
}
