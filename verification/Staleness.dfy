/**
 * How old an answer of CheckAccess can be, over every interleaving of checks, grants, revokes,
 * cascades, cache faults, retried reads and crashes.
 */
module Staleness {
  import opened Domain
  import opened EntryTable
  import opened AccessCache
  import opened Granting
  import opened Protocol

  /** `v` is what a scan of the table with IsActive would answer in state `s`. */
  ghost predicate Truthful(s: State, k: Triple, v: CachedAccess) {
    match v
    case NoAccess => forall id :: id in s.rows && s.rows[id].entry.key == k ==> !s.rows[id].IsActive(s.now)
    case Access(_, _) =>
      exists id :: id in s.rows && s.rows[id].entry.key == k && s.rows[id].IsActive(s.now) && v == s.rows[id].AsAccess()
  }

  /** The answer the step hands to the caller of CheckAccess, if it is such a step. */
  function Answer(s: State, e: Event): Option<(Triple, CachedAccess)>
    requires Enabled(s, e)
  {
    match e
    case CacheHit(o) => Some((s.ops[o].key, s.cache[KeyText(s.ops[o].key)].value))
    case CheckReturns(o, _) => Some((s.ops[o].key, s.ops[o].answer))
    case _ => None
  }

  /** Operation `o`, in flight from j to i as a check of k, read the then true answer `v` at step j. */
  ghost predicate ReadBy(run: Run, j: nat, i: nat, o: OpId, k: Triple, v: CachedAccess)
    requires run.Valid()
  {
    && j < i < |run.states|
    && (run.events[j].FindAborts? || run.events[j].FindCommits?) && run.events[j].op == o
    && Truthful(run.states[j], k, v)
    && forall m :: j <= m <= i ==> InFlight(run, m, o, k)
  }

  ghost predicate InFlight(run: Run, m: nat, o: OpId, k: Triple)
    requires run.Valid() && m < |run.states|
  {
    o in run.states[m].ops && run.states[m].ops[o].ChecksKey(k)
  }

  /** The value an operation holds, if it has read one. */
  function Held(op: Op): Option<CachedAccess> {
    match op
    case CheckFind(_, _, carried) => carried
    case CheckDone(_, answer) => Some(answer)
    case _ => None
  }

  ghost predicate OpsJustified(run: Run, i: nat)
    requires run.Valid() && i < |run.states|
  {
    forall o :: o in run.states[i].ops && Held(run.states[i].ops[o]).Some? ==>
      HasRead(run, i, o, run.states[i].ops[o].key, Held(run.states[i].ops[o]).value)
  }

  ghost predicate HasRead(run: Run, i: nat, o: OpId, k: Triple, v: CachedAccess)
    requires run.Valid()
  {
    exists j: nat :: ReadBy(run, j, i, o, k, v)
  }

  /** The cell was stored at step `s` by an operation that read its value at step `j`. */
  ghost predicate StoredAt(run: Run, j: nat, s: nat, o: OpId, k: Triple, c: Cell)
    requires run.Valid()
  {
    && ReadBy(run, j, s, o, k, c.value)
    && s < |run.events| && run.events[s] == CheckReturns(o, true)
    && run.states[s].now == c.setAt
  }

  ghost predicate CellsJustified(run: Run, i: nat)
    requires run.Valid() && i < |run.states|
  {
    forall key :: key in run.states[i].cache ==> CellJustified(run, i, key)
  }

  ghost predicate CellJustified(run: Run, i: nat, key: string)
    requires run.Valid() && i < |run.states| && key in run.states[i].cache
  {
    exists k, j: nat, s: nat, o: nat :: key == KeyText(k) && s < i &&
      StoredAt(run, j, s, o, k, run.states[i].cache[key])
  }

  lemma ReadIsTruthful(s: State, k: Triple, seen: Option<Uuid>)
    requires MayFind(s, k, seen)
    ensures seen.None? ==> Truthful(s, k, NoAccess)
    ensures seen.Some? ==> Truthful(s, k, s.rows[seen.value].AsAccess())
  {
    if seen.None? {
      forall id | id in s.rows && s.rows[id].entry.key == k && s.rows[id].IsActive(s.now)
        ensures id in ActiveIds(s, k) {}
    }
  }

  lemma OpJustifiedStep(run: Run, i: nat, o: OpId)
    requires run.Valid() && i < |run.events| && OpsJustified(run, i)
    requires o in run.states[i + 1].ops && Held(run.states[i + 1].ops[o]).Some?
    ensures HasRead(run, i + 1, o, run.states[i + 1].ops[o].key, Held(run.states[i + 1].ops[o]).value)
  {
    assert run.StepAt(i);
    var s, s', e := run.states[i], run.states[i + 1], run.events[i];
    var k, v := s'.ops[o].key, Held(s'.ops[o]).value;
    assert InFlight(run, i + 1, o, k);
    assert o in s.ops && s.ops[o].ChecksKey(k);
    assert InFlight(run, i, o, k);
    if Held(s.ops[o]) == Some(v) {
      var j: nat :| ReadBy(run, j, i, o, k, v);
      assert ReadBy(run, j, i + 1, o, k, v);
    } else {
      assert (e.FindAborts? || e.FindCommits?) && e.op == o;
      ReadIsTruthful(s, k, e.seen);
      assert ReadBy(run, i, i + 1, o, k, v);
    }
  }

  /** Only the Set of a finished check puts a cell into the cache. */
  lemma CacheStep(s: State, e: Event, key: string)
    requires Enabled(s, e) && key in Apply(s, e).cache
    ensures
      || (key in s.cache && Apply(s, e).cache[key] == s.cache[key])
      || (e.CheckReturns? && e.stored && key == KeyText(s.ops[e.op].key) &&
          Apply(s, e).cache[key] == Cell(s.ops[e.op].answer, s.now))
  {
    match e
    case CheckReturns(_, _) =>
    case Invalidates(_, _) =>
    case Evict(_) =>
    case _ => assert Apply(s, e).cache == s.cache;
  }

  lemma CellJustifiedStep(run: Run, i: nat, key: string)
    requires run.Valid() && i < |run.events| && OpsJustified(run, i) && CellsJustified(run, i)
    requires key in run.states[i + 1].cache
    ensures CellJustified(run, i + 1, key)
  {
    assert run.StepAt(i);
    var s, e := run.states[i], run.events[i];
    var c := run.states[i + 1].cache[key];
    CacheStep(s, e, key);
    if key in s.cache && s.cache[key] == c {
      assert CellJustified(run, i, key);
      var k, j: nat, m: nat, o: nat :| key == KeyText(k) && m < i && StoredAt(run, j, m, o, k, c);
      assert m < i + 1 && StoredAt(run, j, m, o, k, c);
    } else {
      var op := s.ops[e.op];
      assert HasRead(run, i, e.op, op.key, Held(op).value);
      var j: nat :| ReadBy(run, j, i, e.op, op.key, op.answer);
      assert StoredAt(run, j, i, e.op, op.key, c);
    }
  }

  lemma {:induction false} Justified(run: Run, i: nat)
    requires run.Valid() && i < |run.states|
    ensures OpsJustified(run, i) && CellsJustified(run, i)
  {
    if i > 0 {
      Justified(run, i - 1);
      forall o | o in run.states[i].ops && Held(run.states[i].ops[o]).Some?
        ensures HasRead(run, i, o, run.states[i].ops[o].key, Held(run.states[i].ops[o]).value)
      {
        OpJustifiedStep(run, i - 1, o);
      }
      forall key | key in run.states[i].cache ensures CellJustified(run, i, key) {
        CellJustifiedStep(run, i - 1, key);
      }
    }
  }

  // ---- bounded staleness -----------------------------------------------------------------

  /**
   * Every answer was the true one at an earlier step j, read by an operation that was in flight
   * until it finished at step s; a cache hit comes less than 30 seconds after that finish.
   */
  lemma AnswerIsPastTruth(run: Run, i: nat, k: Triple, v: CachedAccess) returns (j: nat, s: nat, o: OpId)
    requires run.Valid() && i < |run.events|
    requires run.StepAt(i) && Answer(run.states[i], run.events[i]) == Some((k, v))
    ensures j < s <= i && ReadBy(run, j, s, o, k, v)
    ensures FinishesAt(run, s, o)
    ensures s < i ==> run.events[s].stored && run.states[i].now - run.states[s].now < TTL
  {
    Justified(run, i);
    var st, e := run.states[i], run.events[i];
    if e.CheckReturns? {
      assert HasRead(run, i, e.op, k, v);
      j :| ReadBy(run, j, i, e.op, k, v);
      s, o := i, e.op;
    } else {
      var key := KeyText(k);
      assert CellJustified(run, i, key);
      var k';
      k', j, s, o :| key == KeyText(k') && s < i && StoredAt(run, j, s, o, k', st.cache[key]);
      KeyInjective(k, k');
    }
  }

  /** The age of an answer is less than 30 seconds plus the gap between its read and its Set. */
  lemma AgeBound(run: Run, i: nat, k: Triple, v: CachedAccess, maxGap: nat) returns (j: nat)
    requires run.Valid() && i < |run.events|
    requires run.StepAt(i) && Answer(run.states[i], run.events[i]) == Some((k, v))
    requires forall j: nat, s: nat, o: nat ::
               (s < |run.events| && ReadBy(run, j, s, o, k, v) && FinishesAt(run, s, o)) ==>
                 run.states[s].now - run.states[j].now <= maxGap
    ensures j < i && Truthful(run.states[j], k, v) && run.states[i].now - run.states[j].now < TTL + maxGap
  {
    var s, o;
    j, s, o := AnswerIsPastTruth(run, i, k, v);
  }

  /** In this run no check takes longer than `gap` from a read to the Set or return that follows it. */
  ghost predicate GapsWithin(run: Run, gap: nat)
    requires run.Valid()
  {
    forall j: nat, s: nat, o: nat, k, v :: s < |run.events| && ReadBy(run, j, s, o, k, v) && FinishesAt(run, s, o) ==>
      run.states[s].now - run.states[j].now <= gap
  }

  ghost predicate FinishesAt(run: Run, s: nat, o: OpId)
    requires run.Valid() && s < |run.events|
  {
    run.events[s].CheckReturns? && run.events[s].op == o
  }

  // ---- convergence -----------------------------------------------------------------------

  function Later(a: nat, b: nat): nat { if a < b then b else a }

  /** The rows of one triple. */
  function RowsOf(t: Table, k: Triple): Table {
    map id | id in t && t[id].entry.key == k :: t[id]
  }

  lemma TruthDependsOnRowsOf(s: State, s': State, k: Triple, v: CachedAccess)
    requires RowsOf(s.rows, k) == RowsOf(s'.rows, k) && s.now == s'.now && Truthful(s, k, v)
    ensures Truthful(s', k, v)
  {
    assert forall id :: id in s'.rows && s'.rows[id].entry.key == k ==>
        id in RowsOf(s'.rows, k) && s'.rows[id] == RowsOf(s'.rows, k)[id];
    if v.Access? {
      var id :| id in s.rows && s.rows[id].entry.key == k && s.rows[id].IsActive(s.now) && v == s.rows[id].AsAccess();
      assert id in RowsOf(s.rows, k);
    }
  }

  /**
   * From step a on nothing writes the triple's rows; every check of it in flight at a has ended by
   * b. Then 30 seconds after b every answer is the true one, or an access whose own expiry passed
   * after a. Nothing is asked of the cache Deletes, nor of what made the last change.
   */
  lemma Convergence(run: Run, a: nat, b: nat, i: nat, k: Triple, v: CachedAccess)
    requires run.Valid() && a <= b <= i < |run.events|
    requires forall m :: a <= m <= i ==> RowsOf(run.states[m].rows, k) == RowsOf(run.states[a].rows, k)
    requires forall o :: InFlight(run, a, o, k) ==> exists m :: a < m <= b && !InFlight(run, m, o, k)
    requires run.states[i].now >= run.states[b].now + TTL
    requires run.StepAt(i) && Answer(run.states[i], run.events[i]) == Some((k, v))
    ensures Truthful(run.states[i], k, v) ||
            (v.Access? && v.expiresAt.Some? && run.states[a].now < v.expiresAt.value <= run.states[i].now)
  {
    var j, s, o := AnswerIsPastTruth(run, i, k, v);
    if s < b { ClockMonotone(run, s, b); }
    assert InFlight(run, Later(a, j), o, k);
    assert a <= j;
    ClockMonotone(run, a, j);
    ClockMonotone(run, j, i);
    TruthDependsOnRowsOf(run.states[j], run.states[i].(now := run.states[j].now), k, v);
  }

  // ---- the bound is tight ------------------------------------------------------------------

  /** A scenario: a grant, a check that reads it, a revoke that overtakes the check, the late Set, a hit. */
  datatype Scenario = Scenario(k: Triple, id: Uuid, m: Uuid, gap: nat, age: nat) {

    const row: Row := Row(NewEntry(k, m, "view", k.user, "", None), 1, 0, 0, None)
    const yes: CachedAccess := Access("view", None)

    ghost function EventAt(i: nat): Event {
      if i == 0 then BeginGrant(0, GrantRequest(k, k.user, "view", "", None))
      else if i == 1 then MemberReply(0, Body(true, Some(m)))
      else if i == 2 then GrantCommits(0, id)
      else if i == 3 then Invalidates(0, true)
      else if i == 4 then BeginCheck(1, k)
      else if i == 5 then CacheFallsThrough(1, false)
      else if i == 6 then FindCommits(1, Some(id))
      else if i == 7 then BeginRevoke(2, k, 1)
      else if i == 8 then RevokeCommits(2)
      else if i == 9 then Invalidates(2, true)
      else if i == 10 then Tick(gap)
      else if i == 11 then CheckReturns(1, true)
      else if i == 12 then Tick(age)
      else if i == 13 then BeginCheck(3, k)
      else CacheHit(3)
    }

    ghost function NowAt(i: nat): Time { if i <= 10 then 0 else if i <= 12 then gap else gap + age }

    ghost function RowsAt(i: nat): Table {
      if i <= 2 then map[] else if i <= 8 then map[id := row] else map[id := SoftDelete(row, 0)]
    }

    ghost function CacheAt(i: nat): Store {
      if i <= 11 then map[] else map[KeyText(k) := Cell(yes, gap)]
    }

    ghost function OpsAt(i: nat): map<OpId, Op> {
      if i == 1 then map[0 := GrantStart(GrantRequest(k, k.user, "view", "", None))]
      else if i == 2 then map[0 := GrantVetted(row.entry)]
      else if i == 3 then map[0 := Invalidate(k)]
      else if i == 5 then map[1 := CheckStart(k)]
      else if i == 6 then map[1 := CheckFind(k, 0, None)]
      else if i == 8 then map[1 := CheckDone(k, yes), 2 := RevokeStart(k, 1)]
      else if i == 9 then map[1 := CheckDone(k, yes), 2 := Invalidate(k)]
      else if i == 7 || i == 10 || i == 11 then map[1 := CheckDone(k, yes)]
      else if i == 14 then map[3 := CheckStart(k)]
      else map[]
    }

    ghost function StateAt(i: nat): State { State(NowAt(i), RowsAt(i), map[], CacheAt(i), OpsAt(i)) }

    lemma GrantSteps(i: nat)
      requires m != NIL_UUID && i < 4
      ensures Enabled(StateAt(i), EventAt(i)) && Apply(StateAt(i), EventAt(i)) == StateAt(i + 1)
    {
      assert LiveRows(map[], k) == {};
    }

    lemma ReadSteps(i: nat)
      requires 4 <= i < 8
      ensures Enabled(StateAt(i), EventAt(i)) && Apply(StateAt(i), EventAt(i)) == StateAt(i + 1)
    {
      if i == 6 { assert id in ActiveIds(StateAt(6), k); }
    }

    lemma RevokeSteps(i: nat)
      requires 8 <= i < 11
      ensures Enabled(StateAt(i), EventAt(i)) && Apply(StateAt(i), EventAt(i)) == StateAt(i + 1)
    {
      if i == 8 { assert RevokeIds(StateAt(8), k, 1) == {id}; }
    }

    lemma HitSteps(i: nat)
      requires age < TTL && 11 <= i < 15
      ensures Enabled(StateAt(i), EventAt(i)) && Apply(StateAt(i), EventAt(i)) == StateAt(i + 1)
    {
    }

    ghost function TheRun(): Run {
      Run(seq(16, i requires 0 <= i => StateAt(i)), seq(15, i requires 0 <= i => EventAt(i)))
    }

    lemma RunIsValid()
      requires m != NIL_UUID && age < TTL
      ensures TheRun().Valid()
    {
      forall i | 0 <= i < 15 ensures TheRun().StepAt(i) {
        if i < 4 { GrantSteps(i); } else if i < 8 { ReadSteps(i); } else if i < 11 { RevokeSteps(i); }
            else { HitSteps(i); }
      }
    }

    lemma NoLongerTrue(x: nat)
      requires 8 < x <= 14
      ensures !Truthful(StateAt(x), k, yes)
    {
      assert StateAt(x).rows == map[id := SoftDelete(row, 0)];
    }

    /** The only check that stores is the late one, `gap` after its read. */
    lemma OnlyGap()
      requires TheRun().Valid()
      ensures GapsWithin(TheRun(), gap)
    {
      var run := TheRun();
      forall j: nat, s: nat, o: nat, key, v | s < |run.events| && ReadBy(run, j, s, o, key, v) && FinishesAt(run, s, o)
        ensures run.states[s].now - run.states[j].now <= gap
      {
        assert run.events[s] == EventAt(s) && run.states[s] == StateAt(s);
        LateSet(s);
      }
    }

    lemma LateSet(s: nat)
      requires EventAt(s).CheckReturns?
      ensures StateAt(s).now <= gap
    {
    }
  }

  /**
   * The documentation's claim that staleness never exceeds the 30 s TTL is false: for every gap
   * and every age below the TTL some run revokes a grant with a working cache Delete and still
   * serves it gap + age later, no state since the revoke having agreed with the answer.
   */
  lemma BoundIsTight(k: Triple, id: Uuid, m: Uuid, gap: nat, age: nat) returns (run: Run)
    requires m != NIL_UUID && age < TTL
    ensures run.Valid() && |run.events| == 15 && run.StepAt(14)
    ensures run.events[8] == RevokeCommits(2) && 2 in run.states[8].ops && run.states[8].ops[2] == RevokeStart(k, 1)
    ensures run.events[9] == Invalidates(2, true)
    ensures Answer(run.states[14], run.events[14]) == Some((k, Access("view", None)))
    ensures forall x :: 8 < x <= 14 ==> !Truthful(run.states[x], k, Access("view", None))
    ensures forall x :: 0 <= x <= 8 ==> run.states[x].now == 0
    ensures run.states[14].now == gap + age && GapsWithin(run, gap)
  {
    var sc := Scenario(k, id, m, gap, age);
    run := sc.TheRun();
    sc.RunIsValid();
    sc.OnlyGap();
    forall x | 8 < x <= 14 ensures !Truthful(run.states[x], k, Access("view", None)) {
      sc.NoLongerTrue(x);
    }
  }

  // ---- exactly which bounds hold ---------------------------------------------------------------

  /** Every answer given in the run was true less than `b` before. */
  ghost predicate TrueWithin(run: Run, b: nat)
    requires run.Valid()
  {
    forall i, k, v :: 0 <= i < |run.events| && Answers(run, i, k, v) ==> WasTrue(run, i, k, v, b)
  }

  ghost predicate Answers(run: Run, i: nat, k: Triple, v: CachedAccess)
    requires run.Valid() && i < |run.events|
  {
    run.StepAt(i) && Answer(run.states[i], run.events[i]) == Some((k, v))
  }

  ghost predicate WasTrue(run: Run, i: nat, k: Triple, v: CachedAccess, b: nat)
    requires run.Valid() && i < |run.events|
  {
    exists j :: 0 <= j <= i && Truthful(run.states[j], k, v) && run.states[i].now - run.states[j].now < b
  }

  /** `b` bounds the staleness of every run whose checks take at most `gap` from read to Set. */
  ghost predicate Bounds(gap: nat, b: nat) {
    forall run: Run :: run.Valid() && GapsWithin(run, gap) ==> TrueWithin(run, b)
  }

  /**
   * The exact staleness budget: with a read-to-Set gap of at most `gap`, the bounds that hold in
   * every run are those from 30 s + gap up. So 30 s is a bound exactly when the gap is 0.
   */
  lemma BoundIff(gap: nat, b: nat)
    ensures Bounds(gap, b) <==> 30_000_000 + gap <= b
  {
    if TTL + gap <= b {
      forall run: Run | run.Valid() && GapsWithin(run, gap) ensures TrueWithin(run, b) {
        forall i, k, v | 0 <= i < |run.events| && Answers(run, i, k, v) ensures WasTrue(run, i, k, v, b) {
          var j := AgeBound(run, i, k, v, gap);
        }
      }
    } else {
      SmallerIsNoBound(gap, b);
    }
  }

  lemma SmallerIsNoBound(gap: nat, b: nat)
    requires b < TTL + gap
    ensures !Bounds(gap, b)
  {
    var k, v := Triple(0, 0, 0), Access("view", None);
    var run := BoundIsTight(k, 0, 1, gap, TTL - 1);
    assert Answers(run, 14, k, v);
    assert !WasTrue(run, 14, k, v, b);
  }
}
