/** Ordered rule tables and the meaning of "reports the first failing rule". A validator scans
    objects in order, and within an object rules in order, and stops at the first that fails. */
module ValidationRules {

  /** A condition, with the error and object index reported when it fails. */
  datatype Rule<E> = Rule(holds: bool, error: E, index: nat)

  datatype Outcome<E> = Accepted | Rejected(error: E, index: nat)

  /** The rules of one object, in scan order. */
  type Rules<E> = seq<Rule<E>>

  ghost predicate AllHold<E>(rules: Rules<E>) {
    forall k :: 0 <= k < |rules| ==> rules[k].holds
  }

  /** Rule k is the first of the object's rules that fails, and carries this error and index. */
  ghost predicate FailsFirst<E>(rules: Rules<E>, k: nat, error: E, index: nat) {
    && k < |rules|
    && !rules[k].holds && rules[k].error == error && rules[k].index == index
    && forall j :: 0 <= j < k ==> rules[j].holds
  }

  ghost predicate ReportsObject<E(!new)>(rules: Rules<E>, outcome: Outcome<E>) {
    match outcome
    case Accepted => AllHold(rules)
    case Rejected(error, index) => exists k :: FailsFirst(rules, k, error, index)
  }

  /** The outcome is what a scan of the objects in order reports. */
  ghost predicate Reports<E(!new)>(table: seq<Rules<E>>, outcome: Outcome<E>) {
    match outcome
    case Accepted => forall o :: 0 <= o < |table| ==> AllHold(table[o])
    case Rejected(_, _) =>
      exists o :: 0 <= o < |table| && ReportsObject(table[o], outcome) && forall p :: 0 <= p < o ==> AllHold(table[p])
  }

  /** The scan has exactly one outcome. */
  lemma OutcomeIsUnique<E(!new)>(table: seq<Rules<E>>, a: Outcome<E>, b: Outcome<E>)
    requires Reports(table, a) && Reports(table, b)
    ensures a == b
  {
  }

  /** The rules of an object, checked in two parts. */
  lemma ObjectConcat<E(!new)>(a: Rules<E>, b: Rules<E>, outcome: Outcome<E>)
    ensures ReportsObject(a, outcome) && outcome.Rejected? ==> ReportsObject(a + b, outcome)
    ensures AllHold(a) && ReportsObject(b, outcome) ==> ReportsObject(a + b, outcome)
  {
    if outcome.Rejected? {
      if ReportsObject(a, outcome) {
        var k :| FailsFirst(a, k, outcome.error, outcome.index);
        assert FailsFirst(a + b, k, outcome.error, outcome.index);
      }
      if AllHold(a) && ReportsObject(b, outcome) {
        var k :| FailsFirst(b, k, outcome.error, outcome.index);
        assert FailsFirst(a + b, |a| + k, outcome.error, outcome.index);
      }
    }
  }

  lemma AllHoldConcat<E>(a: Rules<E>, b: Rules<E>)
    ensures AllHold(a + b) <==> AllHold(a) && AllHold(b)
  {
    if AllHold(a + b) {
      forall k | 0 <= k < |a| ensures a[k].holds {
        assert (a + b)[k] == a[k];
      }
      forall k | 0 <= k < |b| ensures b[k].holds {
        assert (a + b)[|a| + k] == b[k];
      }
    }
  }

  lemma ReportsConcat<E(!new)>(a: seq<Rules<E>>, b: seq<Rules<E>>, outcome: Outcome<E>)
    requires Reports(a, Accepted) && Reports(b, outcome)
    ensures Reports(a + b, outcome)
  {
    if outcome.Rejected? {
      var o :| 0 <= o < |b| && ReportsObject(b[o], outcome) && forall p :: 0 <= p < o ==> AllHold(b[p]);
      assert (a + b)[|a| + o] == b[o];
    }
  }

  lemma RejectedByPrefix<E(!new)>(a: seq<Rules<E>>, whole: seq<Rules<E>>, outcome: Outcome<E>)
    requires a <= whole && outcome.Rejected? && Reports(a, outcome)
    ensures Reports(whole, outcome)
  {
    var o :| 0 <= o < |a| && ReportsObject(a[o], outcome) && forall p :: 0 <= p < o ==> AllHold(a[p]);
    assert whole[o] == a[o];
  }

  /** A scan that has passed a goes on through b: a rejection there is the verdict on the whole. */
  lemma ReportsOnward<E(!new)>(a: seq<Rules<E>>, b: seq<Rules<E>>, whole: seq<Rules<E>>, outcome: Outcome<E>)
    requires a + b <= whole && Reports(a, Accepted) && Reports(b, outcome)
    ensures Reports(if outcome.Accepted? then a + b else whole, outcome)
  {
    ReportsConcat(a, b, outcome);
    if outcome.Rejected? {
      RejectedByPrefix(a + b, whole, outcome);
    }
  }

  lemma AcceptedConcat<E(!new)>(a: seq<Rules<E>>, b: seq<Rules<E>>)
    ensures Reports(a + b, Accepted) <==> Reports(a, Accepted) && Reports(b, Accepted)
  {
    if Reports(a + b, Accepted) {
      forall o | 0 <= o < |a| ensures AllHold(a[o]) {
        assert (a + b)[o] == a[o];
      }
      forall o | 0 <= o < |b| ensures AllHold(b[o]) {
        assert (a + b)[|a| + o] == b[o];
      }
    }
  }

  lemma AcceptedAppend<E(!new)>(a: seq<Rules<E>>, rules: Rules<E>, b: seq<Rules<E>>)
    ensures Reports(a + [rules] + b, Accepted) <==> Reports(a, Accepted) && AllHold(rules) && Reports(b, Accepted)
  {
    AcceptedConcat(a + [rules], b);
    AcceptedConcat(a, [rules]);
    assert [rules][0] == rules;
    if AllHold(rules) {
      assert forall o :: 0 <= o < |[rules]| ==> AllHold([rules][o]);
    }
  }

  lemma AcceptedOne<E(!new)>(rules: Rules<E>)
    ensures Reports([rules], Accepted) <==> AllHold(rules)
  {
    AcceptedAppend([], rules, []);
    assert [] + [rules] + [] == [rules];
  }

  // ----- tables of sections -----

  /** The sections one after the other. */
  function Flatten<T>(sections: seq<seq<T>>): seq<T> {
    if sections == [] then []
    else Flatten(sections[..|sections| - 1]) + sections[|sections| - 1]
  }

  lemma {:induction false} FlattenAccepted<E(!new)>(sections: seq<seq<Rules<E>>>)
    ensures Reports(Flatten(sections), Accepted) <==>
            forall k :: 0 <= k < |sections| ==> Reports(sections[k], Accepted)
  {
    if sections != [] {
      var n := |sections| - 1;
      var before := sections[..n];
      FlattenAccepted(before);
      AcceptedConcat(Flatten(before), sections[n]);
      assert forall k :: 0 <= k < n ==> before[k] == sections[k];
      if Reports(Flatten(sections), Accepted) {
        forall k | 0 <= k <= n ensures Reports(sections[k], Accepted) {
          if k < n {
            assert Reports(before[k], Accepted);
          }
        }
      }
    }
  }

  lemma {:induction false} FlattenPrefix<T>(sections: seq<seq<T>>, k: nat)
    requires k <= |sections|
    ensures Flatten(sections[..k]) <= Flatten(sections)
    decreases |sections|
  {
    if k < |sections| {
      var before := sections[..|sections| - 1];
      FlattenPrefix(before, k);
      assert before[..k] == sections[..k];
    } else {
      assert sections[..k] == sections;
    }
  }

  lemma FlattenNext<T>(sections: seq<seq<T>>, k: nat)
    requires k < |sections|
    ensures Flatten(sections[..k + 1]) == Flatten(sections[..k]) + sections[k]
  {
    var next := sections[..k + 1];
    assert next[..|next| - 1] == sections[..k] && next[|next| - 1] == sections[k];
  }

  /** One more section of the scan: a rejection there is the verdict on the whole table. */
  lemma ScanOn<E(!new)>(sections: seq<seq<Rules<E>>>, k: nat, outcome: Outcome<E>)
    requires k < |sections|
    requires Reports(Flatten(sections[..k]), Accepted) && Reports(sections[k], outcome)
    ensures outcome.Accepted? ==> Reports(Flatten(sections[..k + 1]), outcome)
    ensures outcome.Rejected? ==> Reports(Flatten(sections), outcome)
  {
    FlattenPrefix(sections, k + 1);
    FlattenNext(sections, k);
    ReportsOnward(Flatten(sections[..k]), sections[k], Flatten(sections), outcome);
  }
}
