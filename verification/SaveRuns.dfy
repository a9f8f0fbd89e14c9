/** Any number of saves, each cut anywhere and with any slot reads: what the next Load returns, and
    the inputs on which the adapter loses a configuration. */
module SaveRuns {
  import opened Crc32
  import opened Flash
  import opened PersistenceJournal
  import opened ChannelBits
  import opened FlashPersistenceAdapter
  import opened SignalFlashConfig
  import opened CrashSafety

  // ----- one attempt -----

  /** One call of Save: the flags, the number of hardware operations that succeed before the power
      fails, and which slots it can read. */
  datatype Attempt = Attempt(flags: seq<bool>, operations: nat, readable: Readable)
  {
    predicate WellFormed() { |flags| == CHANNELS }

    predicate Completed() { operations >= 5 }

    predicate ReadsBoth() { readable == Readable(true, true) }

    /** Double-words programmed, once the page is erased. */
    function Words(): (words: nat)
      ensures words <= 4
    {
      if operations == 0 then 0 else Min(operations - 1, 4)
    }
  }

  function AfterAttempt(s: Slots, a: Attempt): (s': Slots)
    requires s.WellFormed() && a.WellFormed()
    ensures s'.WellFormed()
  {
    if a.operations == 0 then s
    else WrittenSeeing(s, Seen(s, a.readable), Encode(a.flags), 12, a.Words())
  }

  /** What an attempt does to the loaded configuration. */
  datatype Effect =
    | Keeps
    | Replaces
    /** The poisoned cut: nothing can be loaded. */
    | Loses
    /** The latest record is overwritten without a successor: Load falls back on the other slot. */
    | FallsBackTo(left: Option<Record>)
  {
    predicate WellFormed() { FallsBackTo? && left.Some? ==> left.value.WellFormed() }
  }

  /** The effect of an attempt that erased its slot: whether its record commits and is not shadowed,
      after how many double-words, whether it mistook the latest record, and what it left valid. */
  function EffectOfErase(commits: bool, words: nat, mistakes: bool, left: Option<Record>): (e: Effect)
    requires left.Some? ==> left.value.WellFormed()
    ensures e.WellFormed()
  {
    if commits then if words == 2 then Loses else Replaces
    else if mistakes then FallsBackTo(left)
    else Keeps
  }

  /** The record of the attempt commits, and readers will prefer it. */
  predicate TakesEffect(s: Slots, a: Attempt)
    requires s.WellFormed() && a.WellFormed()
  {
    Commits(NextSequence(Seen(s, a.readable)), a.flags, a.Words()) && !Shadowed(s, a.readable)
  }

  function EffectOf(s: Slots, a: Attempt): (e: Effect)
    requires s.WellFormed() && a.WellFormed()
    ensures e.WellFormed()
  {
    if a.operations == 0 then Keeps
    else EffectOfErase(TakesEffect(s, a), a.Words(), MistakesLatest(s, a.readable), Survivor(s, a.readable))
  }

  /** What Load returns after an attempt with this effect. */
  function Result(before: Option<seq<bool>>, a: Attempt, e: Effect): Option<seq<bool>>
    requires e.WellFormed()
  {
    match e
    case Keeps => before
    case Replaces => Some(a.flags)
    case Loses => None
    case FallsBackTo(left) => LoadedFrom(left)
  }

  lemma ResultOfErase(before: Option<seq<bool>>, a: Attempt, commits: bool, mistakes: bool, left: Option<Record>)
    requires left.Some? ==> left.value.WellFormed()
    requires !mistakes ==> LoadedFrom(left) == before
    ensures Result(before, a, EffectOfErase(commits, a.Words(), mistakes, left)) ==
            if commits then Committed(a.flags, a.Words()) else LoadedFrom(left)
  {
  }

  lemma LoadedAfterErase(s: Slots, a: Attempt)
    requires s.WellFormed() && a.WellFormed() && a.operations > 0
    ensures Loaded(AfterAttempt(s, a)) ==
            if TakesEffect(s, a) then Committed(a.flags, a.Words()) else LoadedFrom(Survivor(s, a.readable))
  {
    CutSaveSeeing(s, a.readable, a.flags, a.Words());
  }

  lemma ErasingAttempt(s: Slots, a: Attempt)
      returns (commits: bool, mistakes: bool, left: Option<Record>)
    requires s.WellFormed() && a.WellFormed() && a.operations > 0
    ensures left.Some? ==> left.value.WellFormed()
    ensures EffectOf(s, a) == EffectOfErase(commits, a.Words(), mistakes, left)
    ensures !mistakes ==> LoadedFrom(left) == Loaded(s)
    ensures Loaded(AfterAttempt(s, a)) == if commits then Committed(a.flags, a.Words()) else LoadedFrom(left)
  {
    commits, mistakes, left := TakesEffect(s, a), MistakesLatest(s, a.readable), Survivor(s, a.readable);
    LoadedAfterErase(s, a);
    if !mistakes {
      LeavesStored(s, a.readable);
    }
  }

  lemma OneAttempt(s: Slots, a: Attempt)
    requires s.WellFormed() && a.WellFormed()
    ensures Loaded(AfterAttempt(s, a)) == Result(Loaded(s), a, EffectOf(s, a))
  {
    if a.operations > 0 {
      var commits, mistakes, left := ErasingAttempt(s, a);
      ResultOfErase(Loaded(s), a, commits, mistakes, left);
      assert Loaded(AfterAttempt(s, a)) == Result(Loaded(s), a, EffectOf(s, a));
    } else {
      assert AfterAttempt(s, a) == s && EffectOf(s, a) == Keeps;
    }
  }

  /** With this effect Load returns the old configuration or the one that was to be saved. */
  predicate Atomic(before: Option<seq<bool>>, a: Attempt, e: Effect)
    requires e.WellFormed()
  {
    match e
    case Keeps => true
    case Replaces => true
    case Loses => before == None
    case FallsBackTo(left) => LoadedFrom(left) == before || LoadedFrom(left) == Some(a.flags)
  }

  lemma AtomicResult(before: Option<seq<bool>>, a: Attempt, e: Effect)
    requires e.WellFormed()
    ensures Result(before, a, e) == before || Result(before, a, e) == Some(a.flags) <==> Atomic(before, a, e)
  {
    match e {
      case Keeps =>
      case Replaces =>
      case Loses =>
      case FallsBackTo(left) => assert Result(before, a, e) == LoadedFrom(left);
    }
  }

  /** So an attempt leaves one of these two, except when it loses a configuration by the poisoned
      cut, or mistakes the latest record and falls back on a third configuration or on none. */
  lemma AtomicExactlyWhen(s: Slots, a: Attempt)
    requires s.WellFormed() && a.WellFormed()
    ensures var after := Loaded(AfterAttempt(s, a));
      after == Loaded(s) || after == Some(a.flags) <==> Atomic(Loaded(s), a, EffectOf(s, a))
  {
    OneAttempt(s, a);
    AtomicResult(Loaded(s), a, EffectOf(s, a));
  }

  // ----- runs -----

  function AfterAll(s: Slots, attempts: seq<Attempt>): (s': Slots)
    requires s.WellFormed() && forall a :: a in attempts ==> a.WellFormed()
    ensures s'.WellFormed()
    decreases |attempts|
  {
    if attempts == [] then s
    else AfterAttempt(AfterAll(s, attempts[..|attempts| - 1]), attempts[|attempts| - 1])
  }

  /** The slots just before attempt number i of a run. */
  function Before(s: Slots, attempts: seq<Attempt>, i: nat): (s': Slots)
    requires s.WellFormed() && (forall a :: a in attempts ==> a.WellFormed()) && i <= |attempts|
    ensures s'.WellFormed()
  {
    AfterAll(s, attempts[..i])
  }

  lemma StepOfRun(s: Slots, attempts: seq<Attempt>, i: nat)
    requires s.WellFormed() && (forall a :: a in attempts ==> a.WellFormed()) && i < |attempts|
    ensures Before(s, attempts, i + 1) == AfterAttempt(Before(s, attempts, i), attempts[i])
  {
    assert attempts[..i + 1][..i] == attempts[..i];
  }

  /** The effect of attempt number i of a run. */
  function EffectAt(s: Slots, attempts: seq<Attempt>, i: nat): (e: Effect)
    requires s.WellFormed() && (forall a :: a in attempts ==> a.WellFormed()) && i < |attempts|
    ensures e.WellFormed()
  {
    EffectOf(Before(s, attempts, i), attempts[i])
  }

  lemma LoadedStep(s: Slots, attempts: seq<Attempt>, i: nat)
    requires s.WellFormed() && (forall a :: a in attempts ==> a.WellFormed()) && i < |attempts|
    ensures Loaded(Before(s, attempts, i + 1)) ==
            Result(Loaded(Before(s, attempts, i)), attempts[i], EffectAt(s, attempts, i))
  {
    StepOfRun(s, attempts, i);
    OneAttempt(Before(s, attempts, i), attempts[i]);
  }

  /** The effects of the attempts of a run. */
  function Effects(s: Slots, attempts: seq<Attempt>): (effects: seq<Effect>)
    requires s.WellFormed() && forall a :: a in attempts ==> a.WellFormed()
    ensures |effects| == |attempts|
    ensures forall i :: 0 <= i < |attempts| ==> effects[i] == EffectAt(s, attempts, i)
  {
    seq(|attempts|, i requires 0 <= i < |attempts| => EffectAt(s, attempts, i))
  }

  /** The last of the first n effects that is not just to keep the configuration; -1 if all are. */
  function LastChange(effects: seq<Effect>, n: nat): (last: int)
    requires n <= |effects|
    ensures -1 <= last < n
    ensures last >= 0 ==> effects[last] != Keeps
    ensures forall i :: last < i < n ==> effects[i] == Keeps
  {
    if n == 0 then -1
    else if effects[n - 1] != Keeps then n - 1
    else LastChange(effects, n - 1)
  }

  /** The last attempt of a run that did not just keep the configuration; -1 if there is none. */
  function LastOf(s: Slots, attempts: seq<Attempt>): (last: int)
    requires s.WellFormed() && forall a :: a in attempts ==> a.WellFormed()
    ensures -1 <= last < |attempts|
  {
    LastChange(Effects(s, attempts), |attempts|)
  }

  /** What Load returns if attempt number i is the last that did not just keep the configuration. */
  ghost function SinceChange(s: Slots, attempts: seq<Attempt>, i: int): Option<seq<bool>>
    requires s.WellFormed() && (forall a :: a in attempts ==> a.WellFormed()) && i < |attempts|
  {
    if i < 0 then Loaded(s) else Result(None, attempts[i], EffectAt(s, attempts, i))
  }

  lemma ChangeForgets(before: Option<seq<bool>>, a: Attempt, e: Effect)
    requires e.WellFormed() && e != Keeps
    ensures Result(before, a, e) == Result(None, a, e)
  {
  }

  lemma {:induction false} LoadedBefore(s: Slots, attempts: seq<Attempt>, n: nat)
    requires s.WellFormed() && (forall a :: a in attempts ==> a.WellFormed()) && n <= |attempts|
    ensures Loaded(Before(s, attempts, n)) == SinceChange(s, attempts, LastChange(Effects(s, attempts), n))
    decreases n
  {
    if n == 0 {
      assert attempts[..0] == [];
    } else {
      var effects := Effects(s, attempts);
      var before, e := Loaded(Before(s, attempts, n - 1)), EffectAt(s, attempts, n - 1);
      LoadedBefore(s, attempts, n - 1);
      LoadedStep(s, attempts, n - 1);
      assert effects[n - 1] == e;
      if e == Keeps {
        assert LastChange(effects, n) == LastChange(effects, n - 1);
        assert Result(before, attempts[n - 1], e) == before;
      } else {
        assert LastChange(effects, n) == n - 1;
        ChangeForgets(before, attempts[n - 1], e);
      }
    }
  }

  /** After any run of saves, each cut anywhere and with any slot reads, Load returns what the last
      attempt that did not keep the configuration made of it: its flags, or nothing after a poisoned
      cut, or what the other slot held when the latest record was overwritten by mistake; and if
      there is no such attempt, what it returned at the start. */
  lemma LoadAfterAnyRun(s: Slots, attempts: seq<Attempt>)
    requires s.WellFormed() && forall a :: a in attempts ==> a.WellFormed()
    ensures Loaded(AfterAll(s, attempts)) == SinceChange(s, attempts, LastOf(s, attempts))
  {
    LoadedBefore(s, attempts, |attempts|);
    assert attempts[..|attempts|] == attempts;
  }

  // ----- runs in which both slots can be read -----

  ghost predicate AllReadable(attempts: seq<Attempt>) {
    forall a :: a in attempts ==> a.WellFormed() && a.ReadsBoth()
  }

  /** The effect of an attempt that reads both slots. */
  function ErasesAndCommits(a: Attempt, commits: bool): Effect {
    if a.operations == 0 || !commits then Keeps
    else if a.Words() == 2 then Loses
    else Replaces
  }

  lemma ReadableOutcome(a: Attempt, next: bv32)
    requires a.WellFormed()
    ensures var e := ErasesAndCommits(a, Commits(next, a.flags, a.Words()));
      && (e == Replaces <==> a.Completed() || (a.operations == 4 && EarlyComplete(next, a.flags)))
      && (e == Loses <==> a.operations == 3 && next == POISON)
  {
  }

  /** With both slots read, an attempt replaces the configuration exactly when it programs all four
      double-words, or three and the record is complete by then; it loses it only by the poisoned
      cut; and it keeps it otherwise. */
  lemma EffectWhenReadable(s: Slots, a: Attempt)
    requires s.WellFormed() && a.WellFormed() && a.ReadsBoth()
    ensures var e, next := EffectOf(s, a), NextSequence(s);
      && (e == Replaces <==> a.Completed() || (a.operations == 4 && EarlyComplete(next, a.flags)))
      && (e == Loses <==> a.operations == 3 && next == POISON)
      && (e == Replaces || e == Loses || e == Keeps)
  {
    BothReadable(s);
    var commits := Commits(NextSequence(s), a.flags, a.Words());
    assert a.operations > 0 ==> TakesEffect(s, a) == commits;
    assert EffectOf(s, a) == ErasesAndCommits(a, commits);
    ReadableOutcome(a, NextSequence(s));
  }

  lemma ReadableAt(s: Slots, attempts: seq<Attempt>, i: nat)
    requires s.WellFormed() && AllReadable(attempts) && i < |attempts|
    ensures var e := EffectAt(s, attempts, i);
      (e == Keeps ==> !attempts[i].Completed()) && (e == Replaces || e == Loses || e == Keeps)
  {
    EffectWhenReadable(Before(s, attempts, i), attempts[i]);
  }

  lemma SinceReadableChange(s: Slots, attempts: seq<Attempt>, i: nat)
    requires s.WellFormed() && AllReadable(attempts) && i < |attempts|
    requires var e := EffectAt(s, attempts, i); e == Replaces || e == Loses
    ensures SinceChange(s, attempts, i) ==
            if EffectAt(s, attempts, i) == Loses then None else Some(attempts[i].flags)
  {
    var e := EffectAt(s, attempts, i);
    if e == Loses {
      assert Result(None, attempts[i], e) == None;
    } else {
      assert Result(None, attempts[i], e) == Some(attempts[i].flags);
    }
  }

  /** So, over any such run: no attempt after the last change completed, none of them programmed a
      record that was complete early, and none was the poisoned cut; Load returns the flags of the
      last change, or nothing if that was the poisoned cut, or the initial configuration. */
  lemma LoadAfterReadableRun(s: Slots, attempts: seq<Attempt>)
    requires s.WellFormed() && AllReadable(attempts)
    ensures var last := LastOf(s, attempts);
      && (forall i :: last < i < |attempts| ==> !attempts[i].Completed())
      && Loaded(AfterAll(s, attempts)) ==
         if last < 0 then Loaded(s)
         else if EffectAt(s, attempts, last) == Loses then None
         else Some(attempts[last].flags)
  {
    var last, effects := LastOf(s, attempts), Effects(s, attempts);
    LoadAfterAnyRun(s, attempts);
    forall i | last < i < |attempts| ensures !attempts[i].Completed() {
      assert effects[i] == Keeps;
      ReadableAt(s, attempts, i);
    }
    if last >= 0 {
      assert effects[last] != Keeps;
      ReadableAt(s, attempts, last);
      SinceReadableChange(s, attempts, last);
    }
  }

  // ----- how soon a poisoned cut can come -----

  function Bit(x: bv32): nat { if Odd(x) then 1 else 0 }

  /** The number that the low bits of x stand for. */
  function Number(x: bv32, bits: nat): nat {
    if bits == 0 then 0 else 2 * Number(ShiftRight1(x), bits - 1) + Bit(x)
  }

  lemma SuccessorOfEven(x: bv32)
    requires !Odd(x)
    ensures Odd(Successor(x)) && ShiftRight1(Successor(x)) == ShiftRight1(x)
  {
  }

  lemma SuccessorOfOdd(x: bv32)
    requires Odd(x) && x != 0xFFFFFFFF
    ensures !Odd(Successor(x)) && ShiftRight1(Successor(x)) == Successor(ShiftRight1(x))
  {
  }

  lemma {:induction false} ZeroNumber(bits: nat)
    ensures Number(0, bits) == 0
  {
    if bits > 0 {
      ZeroNumber(bits - 1);
    }
  }

  lemma {:induction false} SuccessorCounts(x: bv32, bits: nat)
    ensures Number(Successor(x), bits) <= Number(x, bits) + 1
    decreases bits
  {
    if bits > 0 {
      if x == 0xFFFFFFFF {
        ZeroNumber(bits);
      } else if Odd(x) {
        SuccessorOfOdd(x);
        SuccessorCounts(ShiftRight1(x), bits - 1);
      } else {
        SuccessorOfEven(x);
      }
    }
  }

  /** One hexadecimal digit of a number. */
  lemma Digit(x: bv32, h1: bv32, h2: bv32, h3: bv32, rest: bv32, bits: nat)
    requires bits >= 4 && ShiftRight1(x) == h1 && ShiftRight1(h1) == h2
    requires ShiftRight1(h2) == h3 && ShiftRight1(h3) == rest
    ensures Number(x, bits) == 16 * Number(rest, bits - 4) + 8 * Bit(h3) + 4 * Bit(h2) + 2 * Bit(h1) + Bit(x)
  {
    assert Number(x, bits) == 2 * Number(h1, bits - 1) + Bit(x);
    assert Number(h1, bits - 1) == 2 * Number(h2, bits - 2) + Bit(h1);
    assert Number(h2, bits - 2) == 2 * Number(h3, bits - 3) + Bit(h2);
    assert Number(h3, bits - 3) == 2 * Number(rest, bits - 4) + Bit(h3);
  }

  lemma PoisonNumber()
    ensures Number(POISON, 32) == 620058299
  {
    Digit(0x2, 0x1, 0x0, 0x0, 0x0, 4);
    assert Number(0x2, 4) == 0x2;
    Digit(0x24, 0x12, 0x9, 0x4, 0x2, 8);
    assert Number(0x24, 8) == 0x24;
    Digit(0x24F, 0x127, 0x93, 0x49, 0x24, 12);
    assert Number(0x24F, 12) == 0x24F;
    Digit(0x24F5, 0x127A, 0x93D, 0x49E, 0x24F, 16);
    assert Number(0x24F5, 16) == 0x24F5;
    Digit(0x24F55, 0x127AA, 0x93D5, 0x49EA, 0x24F5, 20);
    assert Number(0x24F55, 20) == 0x24F55;
    Digit(0x24F556, 0x127AAB, 0x93D55, 0x49EAA, 0x24F55, 24);
    assert Number(0x24F556, 24) == 0x24F556;
    Digit(0x24F556B, 0x127AAB5, 0x93D55A, 0x49EAAD, 0x24F556, 28);
    assert Number(0x24F556B, 28) == 0x24F556B;
    Digit(0x24F556BB, 0x127AAB5D, 0x93D55AE, 0x49EAAD7, 0x24F556B, 32);
  }

  lemma OneNumber()
    ensures Number(1, 32) == 1
  {
    ZeroNumber(31);
    assert ShiftRight1(1) == 0;
  }

  /** The distance from the next sequence number to the poisoned one, counted upwards: nothing if it
      has passed it. */
  function BeforePoison(s: Slots): int
    requires s.WellFormed()
  {
    620058299 - Number(NextSequence(s), 32)
  }

  /** The next sequence number grows by one with a record that commits, and stays otherwise. */
  lemma NextSequenceStep(s: Slots, a: Attempt)
    requires s.WellFormed() && a.WellFormed() && a.ReadsBoth()
    ensures NextSequence(AfterAttempt(s, a)) == NextSequence(s)
            || NextSequence(AfterAttempt(s, a)) == Successor(NextSequence(s))
  {
    if a.operations > 0 {
      var after, image := AfterAttempt(s, a), Image(NextRecord(s, Encode(a.flags), 12));
      StoredAfterErase(s, a, image);
      if Complete(image, a.Words()) {
        assert NextSequence(after) == Successor(NextSequence(s));
      } else {
        assert Stored(after) == Stored(s);
      }
    }
  }

  lemma StoredAfterErase(s: Slots, a: Attempt, image: seq<bv8>)
    requires s.WellFormed() && a.WellFormed() && a.ReadsBoth() && a.operations > 0
    requires image == Image(NextRecord(s, Encode(a.flags), 12))
    ensures !Complete(image, a.Words()) ==> Stored(AfterAttempt(s, a)) == Stored(s)
    ensures Complete(image, a.Words()) ==>
      Stored(AfterAttempt(s, a)).Some? && Stored(AfterAttempt(s, a)).value.sequence == NextSequence(s)
  {
    BothReadable(s);
    CutWriteSeeing(s, a.readable, Encode(a.flags), 12, a.Words());
    NextRecordFacts(s, Encode(a.flags), 12);
    if Complete(image, a.Words()) {
      TornSequence(image, a.Words());
    }
  }

  lemma OneAttemptNearer(s: Slots, a: Attempt)
    requires s.WellFormed() && a.WellFormed() && a.ReadsBoth()
    ensures BeforePoison(AfterAttempt(s, a)) >= BeforePoison(s) - 1
  {
    NextSequenceStep(s, a);
    SuccessorCounts(NextSequence(s), 32);
  }

  lemma {:induction false} NextSequenceBound(s: Slots, attempts: seq<Attempt>, i: nat)
    requires s.WellFormed() && AllReadable(attempts) && i <= |attempts|
    ensures BeforePoison(Before(s, attempts, i)) >= BeforePoison(s) - i
    decreases i
  {
    if i == 0 {
      assert attempts[..0] == [];
    } else {
      NextSequenceBound(s, attempts, i - 1);
      StepOfRun(s, attempts, i - 1);
      OneAttemptNearer(Before(s, attempts, i - 1), attempts[i - 1]);
    }
  }

  /** A run that is not longer than the distance to the poisoned sequence number has no poisoned
      cut, so every save of it is atomic. */
  lemma NoPoisonYet(s: Slots, attempts: seq<Attempt>)
    requires s.WellFormed() && AllReadable(attempts) && |attempts| <= BeforePoison(s)
    ensures forall i :: 0 <= i < |attempts| ==> EffectAt(s, attempts, i) != Loses
    ensures var last := LastOf(s, attempts);
      Loaded(AfterAll(s, attempts)) == if last < 0 then Loaded(s) else Some(attempts[last].flags)
  {
    PoisonNumber();
    forall i | 0 <= i < |attempts| ensures EffectAt(s, attempts, i) != Loses {
      NextSequenceBound(s, attempts, i);
      EffectWhenReadable(Before(s, attempts, i), attempts[i]);
    }
    LoadAfterReadableRun(s, attempts);
  }

  // ----- inputs on which a configuration is lost -----

  /** Two erased pages. */
  function Erased(): (s: Slots)
    ensures s.WellFormed()
  {
    var page: seq<bv8> := seq(32, _ => 0xFF);
    Slots(page, page)
  }

  lemma ErasedIsEmpty()
    ensures Chosen(Erased()) == Neither && NextSequence(Erased()) == 1
  {
    assert Erased().a[10] == 0xFF;
  }

  /** From erased flash that is the first 620058298 attempts. */
  lemma FirstSavesAreAtomic(attempts: seq<Attempt>)
    requires AllReadable(attempts) && |attempts| <= 620058298
    ensures forall i :: 0 <= i < |attempts| ==> EffectAt(Erased(), attempts, i) != Loses
    ensures var last := LastOf(Erased(), attempts);
      Loaded(AfterAll(Erased(), attempts)) == if last < 0 then None else Some(attempts[last].flags)
  {
    ErasedIsEmpty();
    OneNumber();
    NoPoisonYet(Erased(), attempts);
  }

  function Saved(s: Slots, flags: seq<bool>): (s': Slots)
    requires s.WellFormed() && |flags| == CHANNELS
    ensures s'.WellFormed()
  {
    Written(s, Encode(flags), 12, 4)
  }

  /** A save goes to the other slot and leaves its record there, with the next sequence number. */
  lemma SavedRecord(s: Slots, flags: seq<bool>)
    requires s.WellFormed() && |flags| == CHANNELS
    ensures var t := Saved(s, flags);
      var record := Parse(if Chosen(s) == PickA then t.b else t.a);
      && (if Chosen(s) == PickA then t.a == s.a else t.b == s.b)
      && RecordValid(record, MAX_SIZE) && record.sequence == NextSequence(s)
  {
    var record := NextRecord(s, Encode(flags), 12);
    var image := Torn(Image(record), 4);
    NextRecordFacts(s, Encode(flags), 12);
    WholeImage(record);
    assert Saved(s, flags) == WithSlot(s, TargetSlot(s), image) && Parse(image) == record;
  }

  lemma SavedLoads(s: Slots, flags: seq<bool>)
    requires s.WellFormed() && |flags| == CHANNELS
    ensures Loaded(Saved(s, flags)) == Some(flags)
  {
    CutSave(s, flags, 4);
  }

  /** A save into erased flash leaves its record in slot 0, with sequence number 1. */
  lemma FirstSave(flags: seq<bool>)
    requires |flags| == CHANNELS
    ensures var s := Saved(Erased(), flags);
      && Chosen(s) == PickA && Parse(s.a).sequence == 1 && RecordValid(Parse(s.a), MAX_SIZE)
      && !RecordValid(Parse(s.b), MAX_SIZE)
  {
    ErasedIsEmpty();
    SavedRecord(Erased(), flags);
    assert Erased().b[10] == 0xFF;
  }

  /** A second one leaves its record in slot 1, with sequence number 2, beside the first. */
  lemma SecondSave(f1: seq<bool>, f2: seq<bool>)
    requires |f1| == |f2| == CHANNELS
    ensures var s1 := Saved(Erased(), f1);
      var s := Saved(s1, f2);
      && s.a == s1.a && RecordValid(Parse(s.a), MAX_SIZE) && RecordValid(Parse(s.b), MAX_SIZE)
      && Parse(s.b).sequence == 2 && Chosen(s) == PickB
  {
    var s1 := Saved(Erased(), f1);
    FirstSave(f1);
    SavedRecord(s1, f2);
    SuccessorSelected(Parse(s1.a), Parse(Saved(s1, f2).b));
  }

  /** Save f1, save f2, then save f3 while neither slot can be read: the third save reports success,
      and the next Load returns f2. */
  lemma SuccessfulSaveLost(f1: seq<bool>, f2: seq<bool>, f3: seq<bool>)
    requires |f1| == |f2| == |f3| == CHANNELS
    ensures var s, a := Saved(Saved(Erased(), f1), f2), Attempt(f3, 5, Readable(false, false));
      && a.Completed() && Shadowed(s, a.readable) && Loaded(s) == Some(f2)
      && Loaded(AfterAttempt(s, a)) == Some(f2)
  {
    var s, r := Saved(Saved(Erased(), f1), f2), Readable(false, false);
    SecondSave(f1, f2);
    SavedLoads(Saved(Erased(), f1), f2);
    ShadowedByB(s);
    CompletedSaveLoads(s, r, f3);
  }

  lemma ShadowedByB(s: Slots)
    requires s.WellFormed() && Chosen(s) == PickB && RecordValid(Parse(s.b), MAX_SIZE)
    requires Parse(s.b).sequence == 2
    ensures Shadowed(s, Readable(false, false)) && Stored(s) == Some(Parse(s.b))
  {
    ZerosAreInvalid();
  }

  /** Save f1, then save f2 while slot 0 cannot be read, and lose power after the erase: nothing is
      left to load. */
  lemma OnlyRecordOverwritten(f1: seq<bool>, f2: seq<bool>)
    requires |f1| == |f2| == CHANNELS
    ensures var s, a := Saved(Erased(), f1), Attempt(f2, 1, Readable(false, true));
      && MistakesLatest(s, a.readable) && Loaded(s) == Some(f1)
      && Loaded(AfterAttempt(s, a)) == None
  {
    var s, r := Saved(Erased(), f1), Readable(false, true);
    FirstSave(f1);
    SavedLoads(Erased(), f1);
    FallsBack(s, r);
    CutSaveSeeing(s, r, f2, 0);
  }

  /** Save f1, save f2, then save f3 while slot 1 cannot be read, and lose power after the erase:
      Load goes back to f1. */
  lemma LatestRecordOverwritten(f1: seq<bool>, f2: seq<bool>, f3: seq<bool>)
    requires |f1| == |f2| == |f3| == CHANNELS
    ensures var s, a := Saved(Saved(Erased(), f1), f2), Attempt(f3, 1, Readable(true, false));
      && MistakesLatest(s, a.readable) && Loaded(s) == Some(f2)
      && Loaded(AfterAttempt(s, a)) == Some(f1)
  {
    var s1 := Saved(Erased(), f1);
    var s, r := Saved(s1, f2), Readable(true, false);
    FirstSave(f1);
    SecondSave(f1, f2);
    SavedLoads(Erased(), f1);
    SavedLoads(s1, f2);
    FallsBack(s, r);
    CutSaveSeeing(s, r, f3, 0);
    assert Stored(s1) == Some(Parse(s.a));
  }
}
