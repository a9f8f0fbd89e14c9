/** The flash-sync generator driven by the persisted settings: FlashSync calls with PeriodSet and
    OffsetSet commands between them, both of PSM/App/Domain/MeasurementService.c. */
module FlashSchedule {
  import M = MeasurementService
  import opened FlashSync

  const SHORTEST := 1000
  const LONGEST := 8000

  /** An infinite run of the service after Init: commands(n) are executed just before FlashSync
      call number n, which happens at real time t(n). The live settings need not be those stored. */
  datatype ServiceRun = ServiceRun(w0: M.World, v0: M.View, commands: nat -> seq<M.Operation>, t: nat -> nat, s0: State)
  {
    ghost predicate Valid() {
      && w0.WellFormed() && M.Shows(w0, v0)
      && forall n: nat :: Setters(commands(n))
    }

    function WorldAt(n: nat): (w: M.World)
      requires w0.WellFormed()
      ensures w.WellFormed()
      decreases n
    {
      M.AfterAll(if n == 0 then w0 else WorldAt(n - 1), commands(n))
    }

    /** The settings stored and live at call n, as a caller sees them. */
    function ViewAt(n: nat): M.View
      decreases n
    {
      M.Acts(if n == 0 then v0 else ViewAt(n - 1), commands(n))
    }

    /** The period field that FlashSync call number n reads. */
    function PeriodAt(n: nat): tick
      requires w0.WellFormed()
    {
      WorldAt(n).flashPeriod
    }

    function Calls(): Run
      requires w0.WellFormed()
    {
      Run(t, (n: nat) => PeriodAt(n), s0)
    }
  }

  /** Commands that leave the run in place: Init would also clear the generator's state. */
  ghost predicate Setters(operations: seq<M.Operation>) {
    forall o :: o in operations ==> !o.Init?
  }

  /** At every call the period is 200 * p ms for the valid p that is live then, whatever commands
      and write failures came before. */
  lemma {:induction false} PeriodIsValid(r: ServiceRun, n: nat)
    requires r.Valid()
    ensures M.Shows(r.WorldAt(n), r.ViewAt(n))
    ensures r.PeriodAt(n) == 200 * r.ViewAt(n).live.period
    ensures SHORTEST <= r.PeriodAt(n) <= LONGEST && r.PeriodAt(n) % 2 == 0
    decreases n
  {
    if n == 0 {
      M.RunFromView(r.w0, r.v0, r.commands(0));
    } else {
      PeriodIsValid(r, n - 1);
      M.RunFromView(r.WorldAt(n - 1), r.ViewAt(n - 1), r.commands(n));
    }
  }

  lemma PeriodsBounded(r: ServiceRun)
    requires r.Valid()
    ensures forall n: nat :: SHORTEST <= r.Calls().period(n) <= LONGEST
  {
    forall n: nat ensures SHORTEST <= r.Calls().period(n) <= LONGEST {
      PeriodIsValid(r, n);
    }
  }

  /** Whatever is commanded, and whatever the gaps up to g, every start frame is followed by
      another: sent by the first call at or after the period then in force, at least one second
      and less than eight seconds + g later. */
  lemma AlwaysRestarts(r: ServiceRun, g: nat, i: nat) returns (k: nat)
    requires r.Valid() && r.Calls().Paced(g) && LONGEST + g <= TICKS && r.Calls().FrameAt(i) == StartFrame
    ensures i < k && r.Calls().InCycle(i, k) && r.Calls().FrameAt(k) == StartFrame
    ensures SHORTEST <= r.PeriodAt(k) <= r.Calls().Since(i, k) < LONGEST + g
  {
    var c := r.Calls();
    PeriodsBounded(r);
    PeriodIsValid(r, 0);
    AfterStart(c, g, i);
    k := ToNextStart(c, g, LONGEST, i, i + 1);
    assert c.period(k) == r.PeriodAt(k) && SHORTEST <= c.period(k);
  }

  /** While the period p is live from some call on and gaps are below its half, every cycle from
      there lasts from 200 p to less than 200 p + g ms and has its one mid frame in the middle. */
  lemma LivePeriodIsCycle(r: ServiceRun, g: nat, p: M.uint8, i: nat) returns (m: nat, k: nat)
    requires r.Valid() && forall n: nat :: n > i ==> r.ViewAt(n).live.period == p
    requires r.Calls().Paced(g) && 1 <= g < 100 * p && r.Calls().FrameAt(i) == StartFrame
    ensures var c := r.Calls();
      && i < m < k && c.FrameAt(m) == MidFrame && c.FrameAt(k) == StartFrame && c.Quiet(i, m) && c.Quiet(m, k)
      && 100 * p <= c.Since(i, m) < 100 * p + g && 200 * p <= c.Since(i, k) < 200 * p + g
  {
    var c := r.Calls();
    forall n: nat | n > i ensures c.Holds(n, 200 * p) {
      PeriodIsValid(r, n);
    }
    PeriodIsValid(r, i + 1);
    m, k := Cycle(c, g, 200 * p, i);
  }
}
