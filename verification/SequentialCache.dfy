/**
 * When calls run one after another, invalidations work and no cascade runs, the cache refines the
 * table: a cached "no" is the truth, a cached "yes" is the fresh answer up to its own expiry.
 */
module SequentialCache {
  import opened Domain
  import opened EntryTable
  import opened AccessCache
  import opened Protocol
  import opened Staleness

  /**
   * What the cache may hold when calls run one after another and invalidations work: a live "no"
   * is the truth, a live "yes" is an undeleted row of the triple.
   */
  ghost predicate Agrees(rows: Table, cells: Store, now: Time) {
    forall k :: Hits(cells, k, now) ==> Backed(rows, k, cells[KeyText(k)].value, now)
  }

  ghost predicate Backed(rows: Table, k: Triple, v: CachedAccess, now: Time) {
    match v
    case NoAccess => forall id :: id in rows && rows[id].entry.key == k ==> !rows[id].IsActive(now)
    case Access(_, _) =>
      exists id :: id in rows && rows[id].entry.key == k && rows[id].Live() && rows[id].AsAccess() == v
  }

  /** The fresh answer, up to the value's own expiry. */
  ghost predicate Fresh(rows: Table, k: Triple, v: CachedAccess, now: Time) {
    || Truthful(State(now, rows, map[], map[], map[]), k, v)
    || (v.Access? && v.expiresAt.Some? && v.expiresAt.value <= now)
  }

  lemma BackedIsFresh(rows: Table, k: Triple, v: CachedAccess, now: Time)
    requires Backed(rows, k, v, now)
    ensures Fresh(rows, k, v, now)
  {
    if v.Access? && !(v.expiresAt.Some? && v.expiresAt.value <= now) {
      var id :| id in rows && rows[id].entry.key == k && rows[id].Live() && rows[id].AsAccess() == v;
      assert rows[id].IsActive(now);
    }
  }

  lemma BackedStaysFresh(rows: Table, k: Triple, v: CachedAccess, now: Time, later: Time)
    requires Backed(rows, k, v, now) && now <= later
    ensures Fresh(rows, k, v, later)
  {
    assert Backed(rows, k, v, later);
    BackedIsFresh(rows, k, v, later);
  }

  /** Time passing keeps the agreement: rows only expire, cells only die. */
  lemma AgreementSurvivesTime(rows: Table, cells: Store, now: Time, later: Time)
    requires Agrees(rows, cells, now) && now <= later
    ensures Agrees(rows, cells, later)
  {
    forall k | Hits(cells, k, later) ensures Backed(rows, k, cells[KeyText(k)].value, later) {
      assert Hits(cells, k, now);
    }
  }

  /** A write to one triple's rows, followed by the Delete of its key, keeps the agreement. */
  lemma AgreementSurvivesWrite(rows: Table, rows': Table, cells: Store, now: Time, k: Triple)
    requires Agrees(rows, cells, now)
    requires forall x :: x != k ==> RowsOf(rows, x) == RowsOf(rows', x)
    ensures Agrees(rows', cells - {KeyText(k)}, now)
  {
    var cells' := cells - {KeyText(k)};
    forall x | Hits(cells', x, now) ensures Backed(rows', x, cells'[KeyText(x)].value, now) {
      assert x != k && Hits(cells, x, now);
      BackedDependsOnRowsOf(rows, rows', x, cells[KeyText(x)].value, now);
    }
  }

  lemma BackedDependsOnRowsOf(rows: Table, rows': Table, k: Triple, v: CachedAccess, now: Time)
    requires RowsOf(rows, k) == RowsOf(rows', k) && Backed(rows, k, v, now)
    ensures Backed(rows', k, v, now)
  {
    assert forall id :: id in rows' && rows'[id].entry.key == k ==>
        id in RowsOf(rows', k) && rows'[id] == RowsOf(rows', k)[id];
    if v.Access? {
      var id :| id in rows && rows[id].entry.key == k && rows[id].Live() && rows[id].AsAccess() == v;
      assert id in RowsOf(rows, k);
    }
  }

  /** Storing a backed answer keeps the agreement; this needs keys of distinct triples to differ. */
  lemma AgreementSurvivesSet(rows: Table, cells: Store, now: Time, k: Triple, v: CachedAccess)
    requires Agrees(rows, cells, now) && Backed(rows, k, v, now)
    ensures Agrees(rows, cells[KeyText(k) := Cell(v, now)], now)
  {
    var cells' := cells[KeyText(k) := Cell(v, now)];
    forall x | Hits(cells', x, now) ensures Backed(rows, x, cells'[KeyText(x)].value, now) {
      if KeyText(x) == KeyText(k) { KeyInjective(x, k); } else { assert Hits(cells, x, now); }
    }
  }

  lemma InsertTouchesOneTriple(t: Table, e: NewEntry, id: Uuid, now: Time, x: Triple)
    requires Insert(t, Some(e.key.tenant), e, id, now).Inserted? && x != e.key
    ensures RowsOf(t, x) == RowsOf(Insert(t, Some(e.key.tenant), e, id, now).table, x)
  {
  }

  lemma RevokeTouchesOneTriple(t: Table, k: Triple, version: int, now: Time, x: Triple)
    requires x != k
    ensures RowsOf(t, x) == RowsOf(SoftDeleteAll(t, Targets(t, Some(k.tenant), LiveVersion(k, version)), now), x)
  {
  }

  // ---- over every sequential run ---------------------------------------------------------------

  /** A step of a sequential run: one operation at a time, invalidations applied, no cascade. */
  ghost predicate Sequential(s: State, e: Event) {
    && (forall o, o' :: o in s.ops && o' in s.ops ==> o == o')
    && !e.CascadeCommits?
    && (e.Invalidates? ==> e.applied)
    && (e.Vanish? && e.op in s.ops ==> !s.ops[e.op].Invalidate?)
  }

  ghost predicate Pending(s: State, k: Triple) {
    exists o :: o in s.ops && s.ops[o] == Invalidate(k)
  }

  /** Cells are backed unless their invalidation is pending, and so are the values operations hold. */
  ghost predicate CellsBacked(s: State) {
    forall k :: Hits(s.cache, k, s.now) && !Pending(s, k) ==> Backed(s.rows, k, s.cache[KeyText(k)].value, s.now)
  }

  ghost predicate HeldBacked(s: State) {
    forall o :: o in s.ops && Held(s.ops[o]).Some? ==> Backed(s.rows, s.ops[o].key, Held(s.ops[o]).value, s.now)
  }

  lemma BackedLater(rows: Table, k: Triple, v: CachedAccess, now: Time, later: Time)
    requires Backed(rows, k, v, now) && now <= later
    ensures Backed(rows, k, v, later)
  {
  }

  lemma ReadIsBacked(s: State, k: Triple, seen: Option<Uuid>)
    requires MayFind(s, k, seen)
    ensures Backed(s.rows, k, if seen.None? then NoAccess else s.rows[seen.value].AsAccess(), s.now)
  {
    ReadIsTruthful(s, k, seen);
    if seen.Some? { assert s.rows[seen.value].Live(); }
  }

  lemma HeldStep(s: State, e: Event, o: OpId)
    requires Enabled(s, e) && Sequential(s, e) && HeldBacked(s)
    requires o in Apply(s, e).ops && Held(Apply(s, e).ops[o]).Some?
    ensures Backed(Apply(s, e).rows, Apply(s, e).ops[o].key, Held(Apply(s, e).ops[o]).value, Apply(s, e).now)
  {
    var s' := Apply(s, e);
    assert s'.rows == s.rows;
    if o in s.ops && Held(s.ops[o]) == Held(s'.ops[o]) {
      BackedLater(s.rows, s.ops[o].key, Held(s.ops[o]).value, s.now, s'.now);
    } else {
      ReadIsBacked(s, s.ops[o].key, e.seen);
    }
  }

  /** A step that is no commit leaves the rows and what is pending, or applies the invalidation. */
  lemma CellStep(s: State, e: Event, k: Triple)
    requires Enabled(s, e) && Sequential(s, e) && CellsBacked(s) && HeldBacked(s)
    requires !e.GrantCommits? && !e.RevokeCommits?
    requires Hits(Apply(s, e).cache, k, Apply(s, e).now) && !Pending(Apply(s, e), k)
    ensures Backed(Apply(s, e).rows, k, Apply(s, e).cache[KeyText(k)].value, Apply(s, e).now)
  {
    var s' := Apply(s, e);
    assert s'.rows == s.rows;
    CacheStep(s, e, KeyText(k));
    if KeyText(k) in s.cache && s'.cache[KeyText(k)] == s.cache[KeyText(k)] {
      if Pending(s, k) { PendingStays(s, e, k); }
      BackedLater(s.rows, k, s.cache[KeyText(k)].value, s.now, s'.now);
    } else {
      KeyInjective(k, s.ops[e.op].key);
    }
  }

  /** A pending invalidation stays pending until the cell is gone. */
  lemma PendingStays(s: State, e: Event, k: Triple)
    requires Enabled(s, e) && Sequential(s, e) && Pending(s, k)
    ensures Pending(Apply(s, e), k) || KeyText(k) !in Apply(s, e).cache
  {
    var o :| o in s.ops && s.ops[o] == Invalidate(k);
    assert o in Apply(s, e).ops ==> Apply(s, e).ops[o] == s.ops[o];
  }

  /** A commit changes one triple's rows, whose invalidation is then pending. */
  lemma CommitStep(s: State, e: Event, k: Triple)
    requires Enabled(s, e) && Sequential(s, e) && CellsBacked(s) && (e.GrantCommits? || e.RevokeCommits?)
    requires Hits(s.cache, k, s.now) && !Pending(Apply(s, e), k)
    ensures Backed(Apply(s, e).rows, k, s.cache[KeyText(k)].value, s.now)
  {
    var op := s.ops[e.op];
    var key := if e.GrantCommits? then op.entry.key else op.key;
    assert Apply(s, e).ops[e.op] == Invalidate(key);
    assert !Pending(s, k);
    if e.GrantCommits? {
      InsertTouchesOneTriple(s.rows, op.entry, e.id, s.now, k);
    } else {
      RevokeTouchesOneTriple(s.rows, op.key, op.version, s.now, k);
    }
    BackedDependsOnRowsOf(s.rows, Apply(s, e).rows, k, s.cache[KeyText(k)].value, s.now);
  }

  lemma {:induction false} SequentialRunBacked(run: Run, i: nat)
    requires run.Valid() && i < |run.states|
    requires forall x :: 0 <= x < i ==> Sequential(run.states[x], run.events[x])
    ensures CellsBacked(run.states[i]) && HeldBacked(run.states[i])
  {
    if i > 0 {
      SequentialRunBacked(run, i - 1);
      assert run.StepAt(i - 1);
      var s, e, s' := run.states[i - 1], run.events[i - 1], run.states[i];
      forall k | Hits(s'.cache, k, s'.now) && !Pending(s', k)
        ensures Backed(s'.rows, k, s'.cache[KeyText(k)].value, s'.now) {
        if e.GrantCommits? || e.RevokeCommits? { CommitStep(s, e, k); } else { CellStep(s, e, k); }
      }
      forall o | o in s'.ops && Held(s'.ops[o]).Some?
        ensures Backed(s'.rows, s'.ops[o].key, Held(s'.ops[o]).value, s'.now) {
        HeldStep(s, e, o);
      }
    }
  }

  /** In every sequential run each answer of CheckAccess is the fresh one, up to its own expiry. */
  lemma CacheRefinesTable(run: Run, i: nat, k: Triple, v: CachedAccess)
    requires run.Valid() && i < |run.events|
    requires forall x :: 0 <= x <= i ==> Sequential(run.states[x], run.events[x])
    requires run.StepAt(i) && Answer(run.states[i], run.events[i]) == Some((k, v))
    ensures Fresh(run.states[i].rows, k, v, run.states[i].now)
    ensures v.NoAccess? ==> Truthful(run.states[i], k, v)
  {
    SequentialRunBacked(run, i);
    var s := run.states[i];
    assert Sequential(s, run.events[i]);
    assert run.events[i].CacheHit? ==> !Pending(s, k);
    BackedIsFresh(s.rows, k, v, s.now);
  }
}
