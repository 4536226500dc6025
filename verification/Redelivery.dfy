/**
 * Exactly when handling an event again is a no-op, and the two ways in which it is not: handlers
 * that overlap, and a redelivery after the mark was pruned.
 */
module Redelivery {
  import opened Domain
  import opened EntryTable
  import opened EventLedger
  import opened Granting
  import opened Protocol
  import opened Marking = Delivery

  // ---- what a second cascade takes ------------------------------------------------------------

  predicate InScope(d: Delivery, k: Triple) {
    match d
    case Purged(_, t) => k.tenant == t
    case Removed(_, t, u) => k.tenant == t && k.user == u
    case Unknown(_, _) => false
  }

  /** Step g commits a grant in the scope of `d`, of row `id`. */
  ghost predicate GrantsInScope(run: Run, g: nat, d: Delivery, id: Uuid)
    requires run.Valid() && g < |run.events|
  {
    run.StepAt(g) && Grants(run.states[g], run.events[g], d, id)
  }

  predicate Grants(s: State, e: Event, d: Delivery, id: Uuid)
    requires Enabled(s, e)
  {
    e.GrantCommits? && e.id == id && InScope(d, s.ops[e.op].entry.key)
  }

  /** The step takes row `id` out of what `d` selects: a purge always, a revoke or removal if `d` is a removal. */
  predicate Withdraws(s: State, e: Event, d: Delivery, id: Uuid)
    requires Enabled(s, e)
  {
    match e
    case RevokeCommits(o) => d.Removed? && id in RevokeIds(s, s.ops[o].key, s.ops[o].version)
    case CascadeCommits(o, _) => (d.Removed? || s.ops[o].d.Purged?) && id in CascadeIds(s.rows, s.ops[o].d)
    case _ => false
  }

  ghost predicate WithdrawnAt(run: Run, x: nat, d: Delivery, id: Uuid)
    requires run.Valid() && x < |run.events|
  {
    run.StepAt(x) && Withdraws(run.states[x], run.events[x], d, id)
  }

  /** A grant in the scope of `d` committed at g and its row has not been withdrawn before j. */
  ghost predicate Outstanding(run: Run, g: nat, j: nat, d: Delivery, id: Uuid)
    requires run.Valid() && g < j <= |run.events|
  {
    GrantsInScope(run, g, d, id) && forall x :: g < x < j ==> !WithdrawnAt(run, x, d, id)
  }

  /** One step and one row: what `d` selects afterwards. */
  ghost predicate SelectionFollows(s: State, e: Event, d: Delivery, id: Uuid)
    requires Enabled(s, e)
  {
    id in CascadeIds(Apply(s, e).rows, d) <==>
    (id in CascadeIds(s.rows, d) && !Withdraws(s, e, d, id)) || Grants(s, e, d, id)
  }

  lemma CascadeFollows(s: State, e: Event, d: Delivery, id: Uuid)
    requires Enabled(s, e) && e.CascadeCommits?
    ensures SelectionFollows(s, e, d, id)
  {
  }

  lemma WriteFollows(s: State, e: Event, d: Delivery, id: Uuid)
    requires Enabled(s, e) && (e.GrantCommits? || e.RevokeCommits?)
    ensures SelectionFollows(s, e, d, id)
  {
  }

  lemma StepFollows(s: State, e: Event, d: Delivery, id: Uuid)
    requires Enabled(s, e)
    ensures SelectionFollows(s, e, d, id)
  {
    if e.CascadeCommits? {
      CascadeFollows(s, e, d, id);
    } else if e.GrantCommits? || e.RevokeCommits? {
      WriteFollows(s, e, d, id);
    } else {
      QuietRows(s, e);
    }
  }

  /** Some grant since step c is outstanding before step j. */
  ghost predicate Remains(run: Run, c: nat, j: nat, d: Delivery, id: Uuid)
    requires run.Valid() && j <= |run.events|
  {
    exists g :: c < g < j && Outstanding(run, g, j, d, id)
  }

  lemma OutstandingLonger(run: Run, g: nat, j: nat, d: Delivery, id: Uuid)
    requires run.Valid() && g < j < |run.events|
    ensures Outstanding(run, g, j + 1, d, id) <==> Outstanding(run, g, j, d, id) && !WithdrawnAt(run, j, d, id)
  {
  }

  lemma RemainsStep(run: Run, c: nat, j: nat, d: Delivery, id: Uuid)
    requires run.Valid() && c < j < |run.events|
    ensures Remains(run, c, j + 1, d, id) <==>
            (Remains(run, c, j, d, id) && !WithdrawnAt(run, j, d, id)) || GrantsInScope(run, j, d, id)
  {
    if Remains(run, c, j + 1, d, id) {
      var g :| c < g < j + 1 && Outstanding(run, g, j + 1, d, id);
      if g < j { OutstandingLonger(run, g, j, d, id); }
    }
    if Remains(run, c, j, d, id) && !WithdrawnAt(run, j, d, id) {
      var g :| c < g < j && Outstanding(run, g, j, d, id);
      OutstandingLonger(run, g, j, d, id);
    }
    if GrantsInScope(run, j, d, id) { assert Outstanding(run, j, j + 1, d, id); }
  }

  lemma StepFollowsAt(run: Run, j: nat, d: Delivery, id: Uuid)
    requires run.Valid() && j < |run.events|
    ensures id in CascadeIds(run.states[j + 1].rows, d) <==>
            (id in CascadeIds(run.states[j].rows, d) && !WithdrawnAt(run, j, d, id)) || GrantsInScope(run, j, d, id)
  {
    assert run.StepAt(j);
    StepFollows(run.states[j], run.events[j], d, id);
  }

  /** After its cascade committed at c, `d` selects exactly the rows of outstanding grants. */
  lemma {:induction false} SelectsOutstanding(run: Run, c: nat, j: nat, d: Delivery, id: Uuid)
    requires run.Valid() && c < j <= |run.events| && Commits(run, c, d)
    ensures id in CascadeIds(run.states[j].rows, d) <==> Remains(run, c, j, d, id)
    decreases j
  {
    if j == c + 1 {
      CommitEffect(run, c, d);
    } else {
      SelectsOutstanding(run, c, j - 1, d, id);
      StepFollowsAt(run, j - 1, d, id);
      RemainsStep(run, c, j - 1, d, id);
    }
  }

  lemma CascadeChanges(rows: Table, d: Delivery, now: Time)
    ensures Cascade(rows, d, now) == rows <==> CascadeIds(rows, d) == {}
  {
    if id :| id in CascadeIds(rows, d) {
      assert id in rows;
      if d.Removed? { assert Cascade(rows, d, now)[id] != rows[id]; }
    }
  }

  /**
   * A repeated cascade, however it came about, changes no row if and only if every grant in its
   * scope that committed since the first one was withdrawn again before the second.
   */
  lemma RepeatIsNoOpIff(run: Run, c: nat, c': nat, d: Delivery)
    requires run.Valid() && c < c' < |run.events| && Commits(run, c, d) && Commits(run, c', d)
    ensures run.states[c' + 1].rows == run.states[c'].rows <==> forall id :: !Remains(run, c, c', d, id)
    ensures forall id :: id in CascadeIds(run.states[c'].rows, d) <==> Remains(run, c, c', d, id)
  {
    forall id: Uuid ensures id in CascadeIds(run.states[c'].rows, d) <==> Remains(run, c, c', d, id) {
      SelectsOutstanding(run, c, c', d, id);
    }
    CommitEffect(run, c', d);
    CascadeChanges(run.states[c'].rows, d, run.states[c'].now);
  }

  lemma CascadeOfOne(d: Delivery, id: Uuid, row: Row, now: Time)
    requires d.Removed? && InScope(d, row.entry.key) && row.Live()
    ensures CascadeIds(map[id := row], d) == {id} && Cascade(map[id := row], d, now) == map[id := SoftDelete(row, now)]
  {
  }

  // ---- overlap -----------------------------------------------------------------------------------

  /** Two replicas handle one removal event while the user is granted access again in between. */
  datatype Replay = Replay(event: Uuid, k: Triple, id: Uuid, m: Uuid) {
    const d: Delivery := Removed(event, k.tenant, k.user)
    const req: GrantRequest := GrantRequest(k, k.user, "view", "", None)
    const row: Row := Row(req.Entry(m), 1, 0, 0, None)

    ghost function EventAt(i: nat): Event {
      if i == 0 then Receive(0, d) else if i == 1 then Receive(1, d)
      else if i == 2 then ProbeMiss(0) else if i == 3 then ProbeMiss(1)
      else if i == 4 then CascadeCommits(0, 0)
      else if i == 5 then BeginGrant(2, req)
      else if i == 6 then MemberReply(2, Body(true, Some(m)))
      else if i == 7 then GrantCommits(2, id)
      else CascadeCommits(1, 1)
    }

    ghost function OpsAt(i: nat): map<OpId, Op> {
      if i == 0 then map[] else if i == 1 then map[0 := Received(d)]
      else if i == 2 then map[0 := Received(d), 1 := Received(d)]
      else if i == 3 then map[0 := Claimed(d), 1 := Received(d)]
      else if i == 4 then map[0 := Claimed(d), 1 := Claimed(d)]
      else if i == 5 then map[1 := Claimed(d)]
      else if i == 6 then map[1 := Claimed(d), 2 := GrantStart(req)]
      else if i == 7 then map[1 := Claimed(d), 2 := GrantVetted(row.entry)]
      else if i == 8 then map[1 := Claimed(d), 2 := Invalidate(k)]
      else map[2 := Invalidate(k)]
    }

    ghost function StateAt(i: nat): State {
      State(0,
            if i < 8 then map[] else if i == 8 then map[id := row] else map[id := SoftDelete(row, 0)],
            if i < 5 then map[] else map[d.MarkOf() := 0], map[], OpsAt(i))
    }

    lemma ProbeSteps(i: nat)
      requires i < 5
      ensures Enabled(StateAt(i), EventAt(i)) && Apply(StateAt(i), EventAt(i)) == StateAt(i + 1)
    {
      assert CascadeIds(StateAt(4).rows, d) == {};
    }

    lemma GrantSteps(i: nat)
      requires m != NIL_UUID && 5 <= i < 8
      ensures Enabled(StateAt(i), EventAt(i)) && Apply(StateAt(i), EventAt(i)) == StateAt(i + 1)
    {
      assert LiveRows(map[], k) == {};
    }

    lemma LastStep()
      ensures Enabled(StateAt(8), EventAt(8)) && Apply(StateAt(8), EventAt(8)) == StateAt(9)
    {
      CascadeOfOne(d, id, row, 0);
    }

    ghost function TheRun(): Run {
      Run(seq(10, i requires 0 <= i => StateAt(i)), seq(9, i requires 0 <= i => EventAt(i)))
    }

    lemma RunIsValid()
      requires m != NIL_UUID
      ensures TheRun().Valid()
    {
      forall i | 0 <= i < 9 ensures TheRun().StepAt(i) {
        if i < 5 { ProbeSteps(i); } else if i < 8 { GrantSteps(i); } else { LastStep(); }
      }
    }
  }

  /**
   * The documentation says a redelivered message does not re-run the cascade. Concurrent handlers
   * of one event can: the second commit here removes a grant made after the first one.
   */
  lemma ReplayTakesNewGrant(event: Uuid, k: Triple, id: Uuid, m: Uuid) returns (run: Run)
    requires m != NIL_UUID
    ensures run.Valid() && |run.events| == 9
    ensures run.states[4].ops ==
      map[0 := Claimed(Removed(event, k.tenant, k.user)), 1 := Claimed(Removed(event, k.tenant, k.user))]
    ensures run.events[4] == CascadeCommits(0, 0) && run.events[7] == GrantCommits(2, id) &&
      run.events[8] == CascadeCommits(1, 1)
    ensures id in run.states[8].rows && run.states[8].rows[id].Live() && run.states[8].rows[id].entry.key == k
    ensures id in run.states[9].rows && !run.states[9].rows[id].Live()
  {
    var sc := Replay(event, k, id, m);
    run := sc.TheRun();
    sc.RunIsValid();
  }

  // ---- a pruned mark -------------------------------------------------------------------------------

  /** A removal event handled, its mark pruned, the user granted access again, the event redelivered. */
  datatype LateReplay = LateReplay(event: Uuid, k: Triple, id: Uuid, m: Uuid) {
    const d: Delivery := Removed(event, k.tenant, k.user)
    const req: GrantRequest := GrantRequest(k, k.user, "view", "", None)
    const late: Time := RETENTION + 1
    const row: Row := Row(req.Entry(m), 1, late, late, None)

    ghost function EventAt(i: nat): Event {
      if i == 0 then Receive(0, d) else if i == 1 then ProbeMiss(0)
      else if i == 2 then CascadeCommits(0, 0)
      else if i == 3 then Tick(late)
      else if i == 4 then Prune(MemberRemoval, 1)
      else if i == 5 then BeginGrant(1, req)
      else if i == 6 then MemberReply(1, Body(true, Some(m)))
      else if i == 7 then GrantCommits(1, id)
      else if i == 8 then Invalidates(1, true)
      else if i == 9 then Receive(2, d) else if i == 10 then ProbeMiss(2)
      else CascadeCommits(2, 1)
    }

    ghost function OpsAt(i: nat): map<OpId, Op> {
      if i == 1 then map[0 := Received(d)] else if i == 2 then map[0 := Claimed(d)]
      else if i == 6 then map[1 := GrantStart(req)]
      else if i == 7 then map[1 := GrantVetted(row.entry)]
      else if i == 8 then map[1 := Invalidate(k)]
      else if i == 10 then map[2 := Received(d)] else if i == 11 then map[2 := Claimed(d)]
      else map[]
    }

    ghost function RowsAt(i: nat): Table {
      if i < 8 then map[] else if i < 12 then map[id := row] else map[id := SoftDelete(row, late)]
    }

    ghost function LedgerAt(i: nat): Ledger {
      if i < 3 then map[] else if i < 5 then map[d.MarkOf() := 0] else if i < 12 then map[] else map[d.MarkOf() := late]
    }

    ghost function StateAt(i: nat): State {
      State(if i < 4 then 0 else late, RowsAt(i), LedgerAt(i), map[], OpsAt(i))
    }

    lemma FirstSteps(i: nat)
      requires i < 4
      ensures Enabled(StateAt(i), EventAt(i)) && Apply(StateAt(i), EventAt(i)) == StateAt(i + 1)
    {
      assert CascadeIds(map[], d) == {};
    }

    lemma PruneStep()
      ensures Enabled(StateAt(4), EventAt(4)) && Apply(StateAt(4), EventAt(4)) == StateAt(5)
    {
      assert Expired(StateAt(4).ledger, MemberRemoval, late) == {d.MarkOf()};
    }

    lemma GrantSteps(i: nat)
      requires m != NIL_UUID && 5 <= i < 9
      ensures Enabled(StateAt(i), EventAt(i)) && Apply(StateAt(i), EventAt(i)) == StateAt(i + 1)
    {
      assert LiveRows(map[], k) == {};
    }

    lemma ProbeSteps(i: nat)
      requires 9 <= i < 11
      ensures Enabled(StateAt(i), EventAt(i)) && Apply(StateAt(i), EventAt(i)) == StateAt(i + 1)
    {
    }

    lemma LastStep()
      ensures Enabled(StateAt(11), EventAt(11)) && Apply(StateAt(11), EventAt(11)) == StateAt(12)
    {
      CascadeOfOne(d, id, row, late);
    }

    ghost function TheRun(): Run {
      Run(seq(13, i requires 0 <= i => StateAt(i)), seq(12, i requires 0 <= i => EventAt(i)))
    }

    lemma RunIsValid()
      requires m != NIL_UUID
      ensures TheRun().Valid()
    {
      forall i | 0 <= i < 12 ensures TheRun().StepAt(i) {
        if i < 4 { FirstSteps(i); } else if i == 4 { PruneStep(); } else if i < 9 { GrantSteps(i); }
        else if i < 11 { ProbeSteps(i); } else { LastStep(); }
      }
    }

    lemma CommitsTwice()
      requires TheRun().Valid()
      ensures Commits(TheRun(), 2, d) && Commits(TheRun(), 11, d)
    {
      assert TheRun().StepAt(2) && TheRun().StepAt(11);
      assert StateAt(2).ops[0] == Claimed(d) && StateAt(11).ops[2] == Claimed(d);
    }

    lemma Prunes()
      requires TheRun().Valid()
      ensures PrunedAt(TheRun(), 4, d.MarkOf())
    {
      assert TheRun().StepAt(4);
      assert d.MarkOf() in LedgerAt(4) && d.MarkOf() !in LedgerAt(5);
    }
  }

  /** No handlers overlap here, yet a redelivery just past 8 days removes a grant made after the first handling. */
  lemma LateReplayTakesNewGrant(event: Uuid, k: Triple, id: Uuid, m: Uuid) returns (run: Run)
    requires m != NIL_UUID
    ensures run.Valid() && |run.events| == 12 && run.states[3].ops == map[]
    ensures Commits(run, 2, Removed(event, k.tenant, k.user))
    ensures PrunedAt(run, 4, Mark(event, MemberRemoval)) && run.events[7] == GrantCommits(1, id)
    ensures Commits(run, 11, Removed(event, k.tenant, k.user))
    ensures id in run.states[11].rows && run.states[11].rows[id].Live() && run.states[11].rows[id].entry.key == k
    ensures id in run.states[12].rows && !run.states[12].rows[id].Live()
  {
    var sc := LateReplay(event, k, id, m);
    run := sc.TheRun();
    sc.RunIsValid();
    sc.CommitsTwice();
    sc.Prunes();
  }
}
