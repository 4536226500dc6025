/**
 * At-least-once deliveries: what a mark in processed_events proves, what an acknowledged
 * delivery guarantees, and how long a redelivery is suppressed. Every statement is over all runs
 * with aborted attempts, retries, crashes and concurrent replicas.
 */
module Delivery {
  import opened Domain
  import opened EntryTable
  import opened EventLedger
  import opened Granting
  import opened Protocol

  /** The delivery an operation carries. */
  function Carried(op: Op): Option<Delivery> {
    match op case Received(d) => Some(d) case Claimed(d) => Some(d) case _ => None
  }

  /** Step c commits a transaction that writes the mark `m`. */
  ghost predicate Writes(run: Run, c: nat, m: Mark)
    requires run.Valid() && c < |run.events|
  {
    && run.StepAt(c)
    && (run.events[c].CascadeCommits? || run.events[c].AckCommits?)
    && run.states[c].ops[run.events[c].op].d.MarkOf() == m
  }

  /** Step c commits the cascade of `d`, with its mark, in one transaction. */
  ghost predicate Commits(run: Run, c: nat, d: Delivery)
    requires run.Valid() && c < |run.events|
  {
    && run.StepAt(c)
    && run.events[c].CascadeCommits? && run.states[c].ops[run.events[c].op].d == d
  }

  /** The mark was inserted by step c and has been there since. */
  ghost predicate Since(run: Run, c: nat, i: nat, m: Mark)
    requires run.Valid() && i < |run.states|
  {
    && c < i && Writes(run, c, m) && m !in run.states[c].ledger
    && forall x :: c < x <= i ==> m in run.states[x].ledger && run.states[x].ledger[m] == run.states[c].now
  }

  /** One step and one mark: kept with its time, pruned when over age, or inserted now. */
  lemma MarkStep(s: State, e: Event, m: Mark)
    requires Enabled(s, e)
    ensures m in s.ledger ==>
      || (m in Apply(s, e).ledger && Apply(s, e).ledger[m] == s.ledger[m])
      || (e.Prune? && e.consumer == m.consumer && s.ledger[m] < s.now - RETENTION)
    ensures m !in s.ledger && m in Apply(s, e).ledger ==>
      (e.CascadeCommits? || e.AckCommits?) && s.ops[e.op].d.MarkOf() == m && Apply(s, e).ledger[m] == s.now
    ensures m in Apply(s, e).ledger && m in s.ledger ==> Apply(s, e).ledger[m] == s.ledger[m]
  {
  }

  /** Every mark in every state was written by a commit that is still the reason it is there. */
  lemma {:induction false} MarkHasCause(run: Run, i: nat, m: Mark) returns (c: nat)
    requires run.Valid() && i < |run.states| && m in run.states[i].ledger
    ensures Since(run, c, i, m)
    decreases i
  {
    assert run.StepAt(i - 1);
    MarkStep(run.states[i - 1], run.events[i - 1], m);
    if m in run.states[i - 1].ledger {
      c := MarkHasCause(run, i - 1, m);
    } else {
      c := i - 1;
    }
  }

  /** Every commit before step i that writes the mark of `d` carried `d`. */
  ghost predicate OnlyWriter(run: Run, i: nat, d: Delivery)
    requires run.Valid() && i <= |run.events|
  {
    forall x :: 0 <= x < i && Writes(run, x, d.MarkOf()) ==> run.states[x].ops[run.events[x].op].d == d
  }

  /** After its cascade commits nothing is left for the delivery to take. */
  lemma CascadeIsComplete(rows: Table, d: Delivery, now: Time)
    ensures CascadeIds(Cascade(rows, d, now), d) == {}
  {
  }

  /**
   * When Handle returns nil for a known-type delivery, its cascade has committed, in this step or
   * in an earlier one, together with its mark. If the probe decided, this rests on every earlier
   * writer of the mark having carried this delivery.
   */
  lemma AcknowledgedTookEffect(run: Run, i: nat, o: OpId) returns (c: nat)
    requires run.Valid() && i < |run.events| && run.StepAt(i)
    requires run.events[i] == ProbeHit(o) || (run.events[i].CascadeCommits? && run.events[i].op == o)
    requires run.events[i] == ProbeHit(o) ==> OnlyWriter(run, i, run.states[i].ops[o].d)
    ensures c <= i && Commits(run, c, run.states[i].ops[o].d)
    ensures run.states[c + 1].rows == Cascade(run.states[c].rows, run.states[i].ops[o].d, run.states[c].now)
    ensures run.states[i].ops[o].d.MarkOf() in run.states[c + 1].ledger
    ensures CascadeIds(run.states[c + 1].rows, run.states[i].ops[o].d) == {}
  {
    var d := run.states[i].ops[o].d;
    c := i;
    if run.events[i] == ProbeHit(o) {
      c := MarkHasCause(run, i, d.MarkOf());
      WriterCommits(run, c, d);
    }
    CommitEffect(run, c, d);
  }

  lemma WriterCommits(run: Run, c: nat, d: Delivery)
    requires run.Valid() && c < |run.events| && Writes(run, c, d.MarkOf()) && !d.Unknown?
    requires run.states[c].ops[run.events[c].op].d == d
    ensures Commits(run, c, d)
  {
  }

  lemma CommitEffect(run: Run, c: nat, d: Delivery)
    requires run.Valid() && c < |run.events| && Commits(run, c, d)
    ensures run.states[c + 1].rows == Cascade(run.states[c].rows, d, run.states[c].now)
    ensures d.MarkOf() in run.states[c + 1].ledger && CascadeIds(run.states[c + 1].rows, d) == {}
  {
    CascadeIsComplete(run.states[c].rows, d, run.states[c].now);
  }

  // ---- suppression -------------------------------------------------------------------------

  /** Step x prunes the mark. */
  ghost predicate PrunedAt(run: Run, x: nat, m: Mark)
    requires run.Valid() && x < |run.events|
  {
    run.StepAt(x) && run.events[x].Prune? && m in run.states[x].ledger && m !in run.states[x + 1].ledger
  }

  /** A prune takes only marks of its own consumer, and only past 8 days. */
  lemma PruneIsOld(run: Run, x: nat, m: Mark)
    requires run.Valid() && x < |run.events| && PrunedAt(run, x, m)
    ensures run.events[x].consumer == m.consumer
    ensures run.states[x].now - run.states[x].ledger[m] > 8 * 24 * 3600 * 1_000_000
  {
    MarkStep(run.states[x], run.events[x], m);
  }

  /** Once written a mark is there until a prune takes it. */
  lemma {:induction false} MarkStays(run: Run, c: nat, j: nat, m: Mark)
    requires run.Valid() && c < j < |run.states| && Writes(run, c, m)
    requires forall x :: c < x < j ==> !PrunedAt(run, x, m)
    ensures m in run.states[j].ledger
    decreases j
  {
    assert run.StepAt(j - 1);
    if j - 1 > c {
      MarkStays(run, c, j - 1, m);
      assert !PrunedAt(run, j - 1, m);
      MarkStep(run.states[j - 1], run.events[j - 1], m);
    }
  }

  /** No mark leaves the ledger while it is 8 days old or younger, and its time never changes. */
  lemma {:induction false} RetainedForWindow(run: Run, i: nat, j: nat, m: Mark)
    requires run.Valid() && i <= j < |run.states| && m in run.states[i].ledger
    requires run.states[j].now - run.states[i].ledger[m] <= 8 * 24 * 3600 * 1_000_000
    ensures m in run.states[j].ledger && run.states[j].ledger[m] == run.states[i].ledger[m]
    decreases j
  {
    if i < j {
      assert run.StepAt(j - 1);
      ClockMonotone(run, j - 1, j);
      RetainedForWindow(run, i, j - 1, m);
      MarkStep(run.states[j - 1], run.events[j - 1], m);
    }
  }

  /**
   * After any commit that wrote the mark, unless a prune took it, a redelivery is answered by the
   * probe and changes nothing.
   */
  lemma RedeliverySuppressed(run: Run, c: nat, j: nat, m: Mark)
    requires run.Valid() && c < j < |run.events| && run.StepAt(j) && Writes(run, c, m)
    requires forall x :: c < x < j ==> !PrunedAt(run, x, m)
    requires (run.events[j].ProbeHit? || run.events[j].ProbeMiss?) &&
      run.states[j].ops[run.events[j].op].d.MarkOf() == m
    ensures run.events[j].ProbeHit? && run.events[j].op !in run.states[j + 1].ops
    ensures run.states[j + 1].rows == run.states[j].rows && run.states[j + 1].ledger == run.states[j].ledger
  {
    MarkStays(run, c, j, m);
  }

  /** A claimed delivery was claimed by a probe that missed, and has been claimed since. */
  lemma {:induction false} ClaimedSince(run: Run, i: nat, o: OpId) returns (p: nat)
    requires run.Valid() && i < |run.states|
    requires o in run.states[i].ops && run.states[i].ops[o].Claimed?
    ensures p < i && run.events[p] == ProbeMiss(o) && run.StepAt(p)
    ensures forall x :: p < x <= i ==> o in run.states[x].ops && run.states[x].ops[o] == run.states[i].ops[o]
    ensures run.states[p].ops[o].d == run.states[i].ops[o].d
    decreases i
  {
    assert run.StepAt(i - 1);
    if o in run.states[i - 1].ops && run.states[i - 1].ops[o].Claimed? {
      p := ClaimedSince(run, i - 1, o);
    } else {
      p := i - 1;
    }
  }

  /**
   * The only two ways an event is cascaded again: the second handler had passed its probe, and was
   * in flight, when the first one committed, or a prune took the mark in between, past 8 days.
   */
  lemma SecondCascadeHasCause(run: Run, c: nat, c': nat, m: Mark)
    requires run.Valid() && c < c' < |run.events|
    requires Writes(run, c, m) && Writes(run, c', m) && run.events[c'].CascadeCommits?
    ensures
      || (var o := run.events[c'].op;
          o in run.states[c].ops && run.states[c].ops[o].Claimed? && run.states[c].ops[o].d.MarkOf() == m)
      || exists x :: c < x < c' && PrunedAt(run, x, m) && run.states[x].now - run.states[x].ledger[m] > RETENTION
  {
    var o := run.events[c'].op;
    var p := ClaimedSince(run, c', o);
    if p > c {
      if forall x :: c < x < p ==> !PrunedAt(run, x, m) {
        RedeliverySuppressed(run, c, p, m);
      } else {
        var x :| c < x < p && PrunedAt(run, x, m);
        PruneIsOld(run, x, m);
      }
    }
  }

  // ---- what the guarantees do not cover ---------------------------------------------------

  /** Every delivery received in the run is one of `es`. */
  ghost predicate ReceivesOnly(run: Run, es: iset<Delivery>) {
    forall i :: 0 <= i < |run.events| && run.events[i].Receive? ==> run.events[i].d in es
  }

  /** A run that handles `d` and comes to rest, with nothing else in it. */
  lemma HandledOnce(d: Delivery) returns (run: Run)
    ensures run.Valid() && run.states[|run.events|] == INIT.(ledger := map[d.MarkOf() := 0])
    ensures forall c, other :: 0 <= c < |run.events| && Commits(run, c, other) ==> other == d
    ensures ReceivesOnly(run, iset{d})
  {
    run := Extend(Run([INIT], []), Receive(0, d), INIT.(ops := map[0 := Received(d)]));
    if d.Unknown? {
      run := Extend(run, AckCommits(0), INIT.(ledger := map[d.MarkOf() := 0]));
    } else {
      run := Extend(run, ProbeMiss(0), INIT.(ops := map[0 := Claimed(d)]));
      CascadeOfNothing(d);
      run := Extend(run, CascadeCommits(0, 0), INIT.(ledger := map[d.MarkOf() := 0]));
    }
  }

  lemma CascadeOfNothing(d: Delivery)
    requires !d.Unknown?
    ensures var s := INIT.(ops := map[0 := Claimed(d)]);
            Enabled(s, CascadeCommits(0, 0)) && Apply(s, CascadeCommits(0, 0)) == INIT.(ledger := map[d.MarkOf() := 0])
  {
    assert CascadeIds(map[], d) == {} && Cascade(map[], d, 0) == map[];
  }

  /**
   * The condition on the writers cannot be dropped: for any two deliveries that share an event id
   * and consumer, known type or not, the second is acknowledged although its cascade never ran.
   */
  lemma SharedIdSkipsCascade(d: Delivery, other: Delivery) returns (run: Run, i: nat)
    requires !d.Unknown? && other != d && other.MarkOf() == d.MarkOf()
    ensures run.Valid() && |run.events| == i + 1 && run.events[i] == ProbeHit(1)
    ensures 1 in run.states[i].ops && run.states[i].ops[1] == Received(d)
    ensures forall c :: 0 <= c < |run.events| ==> !Commits(run, c, d)
    ensures ReceivesOnly(run, iset{d, other})
  {
    run := HandledOnce(other);
    var rest := run.states[|run.events|];
    ghost var first := run;
    run := Extend(run, Receive(1, d), rest.(ops := map[1 := Received(d)]));
    i := |run.events|;
    assert map[1 := Received(d)] - {1} == map[];
    run := Extend(run, ProbeHit(1), rest);
    forall c | 0 <= c < |run.events| ensures !Commits(run, c, d) {
      assert c < |first.events| ==> first.StepAt(c) && !Commits(first, c, d);
    }
  }

  lemma {:induction false} CarriedWasReceived(run: Run, es: iset<Delivery>, i: nat, o: OpId)
    requires run.Valid() && ReceivesOnly(run, es) && i < |run.states|
    requires o in run.states[i].ops && Carried(run.states[i].ops[o]).Some?
    ensures Carried(run.states[i].ops[o]).value in es
    decreases i
  {
    assert run.StepAt(i - 1);
    var s, e := run.states[i - 1], run.events[i - 1];
    if o in s.ops && Carried(s.ops[o]) == Carried(run.states[i].ops[o]) {
      CarriedWasReceived(run, es, i - 1, o);
    } else {
      CarriedIsNew(s, e, o);
    }
  }

  lemma CarriedIsNew(s: State, e: Event, o: OpId)
    requires Enabled(s, e) && o in Apply(s, e).ops && Carried(Apply(s, e).ops[o]).Some?
    requires !(o in s.ops && Carried(s.ops[o]) == Carried(Apply(s, e).ops[o]))
    ensures e.Receive? && Carried(Apply(s, e).ops[o]) == Some(e.d)
  {
  }

  /** Every delivery that a probe acknowledged had its cascade committed before. */
  ghost predicate AcksTookEffect(run: Run)
    requires run.Valid()
  {
    forall i :: 0 <= i < |run.events| && run.events[i].ProbeHit? ==> Effected(run, i)
  }

  ghost predicate Effected(run: Run, i: nat)
    requires run.Valid() && i < |run.events| && run.events[i].ProbeHit?
  {
    run.StepAt(i) && exists c :: 0 <= c < i && Commits(run, c, run.states[i].ops[run.events[i].op].d)
  }

  /** No known delivery shares its event id and consumer with another one. */
  ghost predicate Distinguishable(es: iset<Delivery>) {
    forall d, other :: d in es && other in es && !d.Unknown? && other.MarkOf() == d.MarkOf() ==> other == d
  }

  lemma DistinctMarksSuffice(run: Run, es: iset<Delivery>, i: nat)
    requires run.Valid() && ReceivesOnly(run, es) && Distinguishable(es) && i < |run.events| && run.events[i].ProbeHit?
    ensures Effected(run, i)
  {
    assert run.StepAt(i);
    var o := run.events[i].op;
    var d := run.states[i].ops[o].d;
    CarriedWasReceived(run, es, i, o);
    forall x | 0 <= x < i && Writes(run, x, d.MarkOf()) ensures run.states[x].ops[run.events[x].op].d == d {
      CarriedWasReceived(run, es, x, run.events[x].op);
    }
    var c := AcknowledgedTookEffect(run, i, o);
    assert c != i;
  }

  /**
   * What the publishers must keep to: acknowledgement by the probe means that the cascade ran, in
   * every run over these deliveries, if and only if no known one shares its mark with another.
   */
  lemma AckMeansEffectIff(es: iset<Delivery>)
    ensures (forall run: Run :: run.Valid() && ReceivesOnly(run, es) ==> AcksTookEffect(run)) <==> Distinguishable(es)
  {
    if Distinguishable(es) {
      forall run: Run | run.Valid() && ReceivesOnly(run, es) ensures AcksTookEffect(run) {
        forall i | 0 <= i < |run.events| && run.events[i].ProbeHit? ensures Effected(run, i) {
          DistinctMarksSuffice(run, es, i);
        }
      }
    } else {
      var d, other :| d in es && other in es && !d.Unknown? && other.MarkOf() == d.MarkOf() && other != d;
      var run, i := SharedIdSkipsCascade(d, other);
      assert ReceivesOnly(run, es) && !Effected(run, i);
    }
  }
}
