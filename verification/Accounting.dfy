/**
 * Bookkeeping over whole runs: where every live row came from and went, how a single row may
 * change, and what vouches for each inserted row.
 */
module Accounting {
  import opened Domain
  import opened EntryTable
  import opened Granting
  import opened Protocol

  // ---- conservation ----------------------------------------------------------------------

  /** The rows an account is kept for. */
  datatype Region = OfTriple(k: Triple) | OfTenant(t: Uuid) {
    predicate Has(key: Triple) {
      match this case OfTriple(k) => key == k case OfTenant(t) => key.tenant == t
    }
  }

  function LiveIn(rows: Table, r: Region): set<Uuid> {
    set id | id in rows && r.Has(rows[id].entry.key) && rows[id].Live()
  }

  function AllIn(rows: Table, r: Region): set<Uuid> {
    set id | id in rows && r.Has(rows[id].entry.key)
  }

  /** Successful grants and revokes, rows soft-deleted by cascades, live rows and all rows purged. */
  datatype Account = Account(granted: nat, revoked: nat, softDeleted: nat, purgedLive: nat, purged: nat) {
    function Plus(a: Account): Account {
      Account(granted + a.granted, revoked + a.revoked, softDeleted + a.softDeleted,
              purgedLive + a.purgedLive, purged + a.purged)
    }
  }

  const ZERO: Account := Account(0, 0, 0, 0, 0)

  function Entry(s: State, e: Event, r: Region): Account
    requires Enabled(s, e)
  {
    match e
    case GrantCommits(o, _) => if r.Has(s.ops[o].entry.key) then ZERO.(granted := 1) else ZERO
    case RevokeCommits(o) => if r.Has(s.ops[o].key) then ZERO.(revoked := 1) else ZERO
    case CascadeCommits(o, _) =>
      var hit := CascadeIds(s.rows, s.ops[o].d);
      if s.ops[o].d.Purged? then ZERO.(purgedLive := |hit * LiveIn(s.rows, r)|, purged := |hit * AllIn(s.rows, r)|)
      else ZERO.(softDeleted := |hit * LiveIn(s.rows, r)|)
    case _ => ZERO
  }

  ghost function Total(run: Run, r: Region, n: nat): Account
    requires run.Valid() && n <= |run.events|
  {
    if n == 0 then ZERO else
      assert run.StepAt(n - 1);
      Total(run, r, n - 1).Plus(Entry(run.states[n - 1], run.events[n - 1], r))
  }

  lemma Removal(all: set<Uuid>, gone: set<Uuid>)
    ensures |all - gone| == |all| - |gone * all|
  {
    assert all == (all - gone) + gone * all;
  }

  lemma InsertCounts(t: Table, id: Uuid, row: Row, r: Region)
    requires id !in t && row.Live()
    ensures |LiveIn(t[id := row], r)| == |LiveIn(t, r)| + (if r.Has(row.entry.key) then 1 else 0)
    ensures |AllIn(t[id := row], r)| == |AllIn(t, r)| + (if r.Has(row.entry.key) then 1 else 0)
  {
    InsertLive(t, id, row, r);
    InsertAll(t, id, row, r);
  }

  lemma InsertLive(t: Table, id: Uuid, row: Row, r: Region)
    requires id !in t && row.Live()
    ensures LiveIn(t[id := row], r) == if r.Has(row.entry.key) then LiveIn(t, r) + {id} else LiveIn(t, r)
  {
  }

  lemma InsertAll(t: Table, id: Uuid, row: Row, r: Region)
    requires id !in t
    ensures AllIn(t[id := row], r) == if r.Has(row.entry.key) then AllIn(t, r) + {id} else AllIn(t, r)
  {
  }

  lemma SoftDeleteCounts(t: Table, ids: set<Uuid>, now: Time, r: Region)
    requires forall id :: id in ids ==> id in t && t[id].Live()
    ensures |LiveIn(SoftDeleteAll(t, ids, now), r)| == |LiveIn(t, r)| - |ids * LiveIn(t, r)|
    ensures |AllIn(SoftDeleteAll(t, ids, now), r)| == |AllIn(t, r)|
  {
    var t' := SoftDeleteAll(t, ids, now);
    forall id | id in t ensures t'[id].entry == t[id].entry && (t'[id].Live() <==> t[id].Live() && id !in ids) {}
    assert AllIn(t', r) == AllIn(t, r);
    assert LiveIn(t', r) == LiveIn(t, r) - ids;
    Removal(LiveIn(t, r), ids);
  }

  lemma HardDeleteCounts(t: Table, ids: set<Uuid>, r: Region)
    ensures |LiveIn(t - ids, r)| == |LiveIn(t, r)| - |ids * LiveIn(t, r)|
    ensures |AllIn(t - ids, r)| == |AllIn(t, r)| - |ids * AllIn(t, r)|
  {
    assert LiveIn(t - ids, r) == LiveIn(t, r) - ids && AllIn(t - ids, r) == AllIn(t, r) - ids;
    Removal(LiveIn(t, r), ids);
    Removal(AllIn(t, r), ids);
  }

  /** A successful revoke takes exactly one live row. */
  lemma RevokeCounts(s: State, k: Triple, version: int, r: Region)
    requires Inv(s) && RevokeIds(s, k, version) != {}
    ensures |RevokeIds(s, k, version) * LiveIn(s.rows, r)| == if r.Has(k) then 1 else 0
  {
    var ids := RevokeIds(s, k, version);
    RevokeIff(s.rows, k, version);
    var id :| id in ids;
    assert ids == {id} by { assert |ids - {id}| == 0; }
    assert ids * LiveIn(s.rows, r) == if r.Has(k) then {id} else {};
  }

  /** The step changes the numbers of live and of all rows by what it is accounted for. */
  ghost predicate Balances(s: State, e: Event, r: Region)
    requires Enabled(s, e)
  {
    var x := Entry(s, e, r);
    && |LiveIn(Apply(s, e).rows, r)| == |LiveIn(s.rows, r)| + x.granted - x.revoked - x.softDeleted - x.purgedLive
    && |AllIn(Apply(s, e).rows, r)| == |AllIn(s.rows, r)| + x.granted - x.purged
  }

  lemma GrantBalances(s: State, e: Event, r: Region)
    requires Enabled(s, e) && e.GrantCommits?
    ensures Balances(s, e, r)
  {
    InsertCounts(s.rows, e.id, Apply(s, e).rows[e.id], r);
  }

  lemma RevokeBalances(s: State, e: Event, r: Region)
    requires Inv(s) && Enabled(s, e) && e.RevokeCommits?
    ensures Balances(s, e, r)
  {
    var op := s.ops[e.op];
    RevokeCounts(s, op.key, op.version, r);
    SoftDeleteCounts(s.rows, RevokeIds(s, op.key, op.version), s.now, r);
  }

  lemma CascadeBalances(s: State, e: Event, r: Region)
    requires Enabled(s, e) && e.CascadeCommits?
    ensures Balances(s, e, r)
  {
    var d := s.ops[e.op].d;
    var ids := CascadeIds(s.rows, d);
    if d.Purged? { HardDeleteCounts(s.rows, ids, r); } else { SoftDeleteCounts(s.rows, ids, s.now, r); }
  }

  lemma CountStep(s: State, e: Event, r: Region)
    requires Inv(s) && Enabled(s, e)
    ensures Balances(s, e, r)
  {
    if e.GrantCommits? {
      GrantBalances(s, e, r);
    } else if e.RevokeCommits? {
      RevokeBalances(s, e, r);
    } else if e.CascadeCommits? {
      CascadeBalances(s, e, r);
    } else {
      QuietRows(s, e);
    }
  }

  /**
   * In every run and for every triple or tenant: grants less revokes, cascaded and purged live
   * rows are the live rows, grants less purged rows are all the rows.
   */
  lemma {:induction false} Conservation(run: Run, r: Region, n: nat)
    requires run.Valid() && n <= |run.events|
    ensures var a := Total(run, r, n);
            && |LiveIn(run.states[n].rows, r)| == a.granted - a.revoked - a.softDeleted - a.purgedLive
            && |AllIn(run.states[n].rows, r)| == a.granted - a.purged
  {
    if n > 0 {
      Conservation(run, r, n - 1);
      RunInv(run, n - 1);
      assert run.StepAt(n - 1);
      CountStep(run.states[n - 1], run.events[n - 1], r);
    } else {
      assert LiveIn(map[], r) == {} && AllIn(map[], r) == {};
    }
  }

  /** Of one triple at most one row is live, so the account of a triple is always 0 or 1. */
  lemma TripleBalance(run: Run, k: Triple, n: nat)
    requires run.Valid() && n <= |run.events|
    ensures var a := Total(run, OfTriple(k), n); 0 <= a.granted - a.revoked - a.softDeleted - a.purgedLive <= 1
  {
    Conservation(run, OfTriple(k), n);
    RunInv(run, n);
    RevokeIff(run.states[n].rows, k, 1);
    assert LiveIn(run.states[n].rows, OfTriple(k)) == LiveRows(run.states[n].rows, k);
  }

  /** The row count the step reports, if it is a cascade of the tenant, of the given kind. */
  function Report(s: State, e: Event, t: Uuid, purges: bool): nat
    requires Enabled(s, e)
  {
    if e.CascadeCommits? && s.ops[e.op].d.Purged? == purges && s.ops[e.op].d.tenant == t then e.affected else 0
  }

  ghost function Reported(run: Run, t: Uuid, purges: bool, n: nat): nat
    requires run.Valid() && n <= |run.events|
  {
    if n == 0 then 0 else
      assert run.StepAt(n - 1);
      Reported(run, t, purges, n - 1) + Report(run.states[n - 1], run.events[n - 1], t, purges)
  }

  lemma ReportStep(s: State, e: Event, t: Uuid)
    requires Enabled(s, e)
    ensures Entry(s, e, OfTenant(t)).softDeleted == Report(s, e, t, false)
    ensures Entry(s, e, OfTenant(t)).purged == Report(s, e, t, true)
  {
    if e.CascadeCommits? {
      var d := s.ops[e.op].d;
      var hit := CascadeIds(s.rows, d);
      if d.Purged? {
        assert hit * AllIn(s.rows, OfTenant(t)) == if d.tenant == t then hit else {};
      } else {
        assert hit * LiveIn(s.rows, OfTenant(t)) == if d.tenant == t then hit else {};
      }
    }
  }

  /** The counts the cascades return are exactly the rows they took from the tenant. */
  lemma {:induction false} ReportsAccountForRows(run: Run, t: Uuid, n: nat)
    requires run.Valid() && n <= |run.events|
    ensures Total(run, OfTenant(t), n).softDeleted == Reported(run, t, false, n)
    ensures Total(run, OfTenant(t), n).purged == Reported(run, t, true, n)
  {
    if n > 0 {
      assert run.StepAt(n - 1);
      ReportStep(run.states[n - 1], run.events[n - 1], t);
      ReportsAccountForRows(run, t, n - 1);
    }
  }

  // ---- the life of one row ------------------------------------------------------------------

  lemma RowStep(s: State, e: Event, id: Uuid)
    requires Enabled(s, e) && id in s.rows && id in Apply(s, e).rows
    ensures Succeeds(s.rows[id], Apply(s, e).rows[id])
  {
    if !e.GrantCommits? && !e.RevokeCommits? && !e.CascadeCommits? { QuietRows(s, e); }
  }

  /** From insert to hard delete a row changes at most once, and only by being soft-deleted. */
  lemma {:induction false} RowLife(run: Run, i: nat, j: nat, id: Uuid)
    requires run.Valid() && i <= j < |run.states|
    requires forall x :: i <= x <= j ==> id in run.states[x].rows
    ensures Succeeds(run.states[i].rows[id], run.states[j].rows[id])
    ensures !run.states[i].rows[id].IsActive(run.states[i].now) ==> !run.states[j].rows[id].IsActive(run.states[j].now)
  {
    ClockMonotone(run, i, j);
    if i < j {
      RowLife(run, i, j - 1, id);
      assert run.StepAt(j - 1);
      RowStep(run.states[j - 1], run.events[j - 1], id);
    }
  }

  // ---- what the version token decides over a run ---------------------------------------------

  /** Step x commits a grant of the triple. */
  ghost predicate GrantsAt(run: Run, x: nat, k: Triple)
    requires run.Valid() && x < |run.events|
  {
    && run.StepAt(x)
    && run.events[x].GrantCommits? && run.states[x].ops[run.events[x].op].entry.key == k
  }

  /** A step that is no grant of the triple makes none of its rows live. */
  lemma LiveShrinks(s: State, e: Event, k: Triple)
    requires Enabled(s, e) && !(e.GrantCommits? && s.ops[e.op].entry.key == k)
    ensures LiveRows(Apply(s, e).rows, k) <= LiveRows(s.rows, k)
  {
    forall id | id in LiveRows(Apply(s, e).rows, k) ensures id in LiveRows(s.rows, k) {
      OldUnlessGranted(s, e, id);
      RowStep(s, e, id);
    }
  }

  lemma OldUnlessGranted(s: State, e: Event, id: Uuid)
    requires Enabled(s, e) && id in Apply(s, e).rows
    ensures id in s.rows || (e.GrantCommits? && e.id == id && Apply(s, e).rows[id].entry == s.ops[e.op].entry &&
                             Apply(s, e).rows[id].createdAt == s.now)
  {
    if !e.GrantCommits? && !e.RevokeCommits? && !e.CascadeCommits? { QuietRows(s, e); }
  }

  /** Between a state without a live row of the triple and a later one with one, a grant committed. */
  lemma {:induction false} GrantBetween(run: Run, i: nat, j: nat, k: Triple) returns (x: nat)
    requires run.Valid() && i <= j < |run.states|
    requires LiveRows(run.states[i].rows, k) == {} && LiveRows(run.states[j].rows, k) != {}
    ensures i <= x < j && GrantsAt(run, x, k)
    decreases j
  {
    assert run.StepAt(j - 1);
    if LiveRows(run.states[j - 1].rows, k) == {} {
      x := j - 1;
      if !GrantsAt(run, x, k) { LiveShrinks(run.states[x], run.events[x], k); }
    } else {
      x := GrantBetween(run, i, j - 1, k);
    }
  }

  /** A revoke that succeeds presented token 1, found a live row and leaves none. */
  lemma RevokeTakesLive(s: State, o: OpId)
    requires Inv(s) && Enabled(s, RevokeCommits(o))
    ensures s.ops[o].version == 1 && LiveRows(s.rows, s.ops[o].key) != {}
    ensures LiveRows(Apply(s, RevokeCommits(o)).rows, s.ops[o].key) == {}
  {
    RevokeIff(s.rows, s.ops[o].key, s.ops[o].version);
    assert forall id :: id in s.rows && s.rows[id].Live() && s.rows[id].entry.key == s.ops[o].key ==>
        id in LiveRows(s.rows, s.ops[o].key);
  }

  /** In every run, of two revokes of a triple that succeed a grant of it lies between, whatever their tokens. */
  lemma NoSecondRevoke(run: Run, i: nat, o: OpId, j: nat, o': OpId) returns (x: nat)
    requires run.Valid() && i < j < |run.events| && run.StepAt(i) && run.StepAt(j)
    requires run.events[i] == RevokeCommits(o) && run.events[j] == RevokeCommits(o')
    requires run.states[i].ops[o].key == run.states[j].ops[o'].key
    ensures i < x < j && GrantsAt(run, x, run.states[i].ops[o].key)
  {
    RunInv(run, i);
    RunInv(run, j);
    RevokeTakesLive(run.states[i], o);
    RevokeTakesLive(run.states[j], o');
    x := GrantBetween(run, i + 1, j, run.states[i].ops[o].key);
  }

  lemma {:induction false} LiveShrinksOver(run: Run, i: nat, j: nat, k: Triple)
    requires run.Valid() && i <= j < |run.states| && forall x :: i <= x < j ==> !GrantsAt(run, x, k)
    ensures LiveRows(run.states[j].rows, k) <= LiveRows(run.states[i].rows, k)
  {
    if i < j {
      LiveShrinksOver(run, i, j - 1, k);
      assert run.StepAt(j - 1) && !GrantsAt(run, j - 1, k);
      LiveShrinks(run.states[j - 1], run.events[j - 1], k);
    }
  }

  lemma GrantNeedsNone(run: Run, x: nat, k: Triple)
    requires run.Valid() && x < |run.events| && GrantsAt(run, x, k)
    ensures LiveRows(run.states[x].rows, k) == {}
  {
  }

  /** The row was live in every state from i to j. */
  ghost predicate LiveThroughout(run: Run, i: nat, j: nat, k: Triple, id: Uuid)
    requires run.Valid() && j < |run.states|
  {
    forall x :: i <= x <= j ==> id in LiveRows(run.states[x].rows, k)
  }

  /**
   * What the version token protects over a run: a caller read row `id` at i, and a revoke of the
   * triple commits at j, whatever version it names. The row read was live all along, and is the
   * one taken, if and only if no grant of the triple committed in between.
   */
  lemma TokenProtectsIff(run: Run, i: nat, j: nat, o: OpId, id: Uuid)
    requires run.Valid() && i <= j < |run.events| && run.StepAt(j) && run.events[j] == RevokeCommits(o)
    requires id in LiveRows(run.states[i].rows, run.states[j].ops[o].key)
    ensures var k, version := run.states[j].ops[o].key, run.states[j].ops[o].version;
            && (LiveThroughout(run, i, j, k, id) <==> forall x :: i <= x < j ==> !GrantsAt(run, x, k))
            && (LiveThroughout(run, i, j, k, id) ==> RevokeIds(run.states[j], k, version) == {id})
  {
    var k, version := run.states[j].ops[o].key, run.states[j].ops[o].version;
    RunInv(run, i);
    RunInv(run, j);
    RevokeTakesLive(run.states[j], o);
    RevokeIff(run.states[j].rows, k, version);
    if forall x :: i <= x < j ==> !GrantsAt(run, x, k) {
      OnlyLive(run.states[i].rows, k, id);
      forall x | i <= x <= j ensures id in LiveRows(run.states[x].rows, k) {
        LiveShrinksOver(run, i, x, k);
        LiveShrinksOver(run, x, j, k);
      }
    } else {
      var x :| i <= x < j && GrantsAt(run, x, k);
      GrantNeedsNone(run, x, k);
    }
    if LiveThroughout(run, i, j, k, id) { OnlyLive(run.states[j].rows, k, id); }
  }

  lemma OnlyLive(t: Table, k: Triple, id: Uuid)
    requires TableInv(t) && id in LiveRows(t, k)
    ensures LiveRows(t, k) == {id}
  {
  }

  // ---- provenance ---------------------------------------------------------------------------

  /** Step b is the request for the entry: its columns, accepted when it came in. */
  ghost predicate Requested(run: Run, b: nat, o: OpId, e: NewEntry)
    requires run.Valid() && b < |run.events|
  {
    && run.StepAt(b)
    && run.events[b].BeginGrant? && run.events[b].op == o
    && Carries(e, run.events[b].req) && Acceptable(run.events[b].req, run.states[b].now)
  }

  /** Step g is the reply that vouched for the entry: an explicit yes with the stored, non-nil membership id. */
  ghost predicate Vouched(run: Run, g: nat, o: OpId, e: NewEntry)
    requires run.Valid() && g < |run.events|
  {
    && run.StepAt(g)
    && run.events[g].MemberReply? && run.events[g].op == o
    && run.events[g].reply == Body(true, Some(e.membership)) && e.membership != 0
  }

  lemma {:induction false} StartedWasRequested(run: Run, i: nat, o: OpId, m: Uuid) returns (b: nat)
    requires run.Valid() && i < |run.states|
    requires o in run.states[i].ops && run.states[i].ops[o].GrantStart?
    ensures b < i && Requested(run, b, o, run.states[i].ops[o].req.Entry(m))
    decreases i
  {
    assert run.StepAt(i - 1);
    var s := run.states[i - 1];
    if o in s.ops && s.ops[o].GrantStart? {
      b := StartedWasRequested(run, i - 1, o, m);
    } else {
      b := i - 1;
      RejectionIff(run.events[b].req, s.now);
      EntryCarries(run.events[b].req, m);
    }
  }

  lemma {:induction false} VettedWasVouched(run: Run, i: nat, o: OpId) returns (b: nat, g: nat)
    requires run.Valid() && i < |run.states|
    requires o in run.states[i].ops && run.states[i].ops[o].GrantVetted?
    ensures b < g < i && Requested(run, b, o, run.states[i].ops[o].entry) &&
      Vouched(run, g, o, run.states[i].ops[o].entry)
    decreases i
  {
    assert run.StepAt(i - 1);
    var s := run.states[i - 1];
    if o in s.ops && s.ops[o].GrantVetted? {
      b, g := VettedWasVouched(run, i - 1, o);
    } else {
      g := i - 1;
      var m := run.states[i].ops[o].entry.membership;
      VettedByReply(s, run.events[g], o);
      b := StartedWasRequested(run, g, o, m);
    }
  }

  lemma VettedByReply(s: State, e: Event, o: OpId)
    requires Enabled(s, e) && o in Apply(s, e).ops && Apply(s, e).ops[o].GrantVetted?
    requires !(o in s.ops && s.ops[o].GrantVetted?)
    ensures e.MemberReply? && e.op == o && o in s.ops && s.ops[o].GrantStart?
    ensures var m := Apply(s, e).ops[o].entry.membership;
            Apply(s, e).ops[o].entry == s.ops[o].req.Entry(m) && e.reply == Body(true, Some(m)) && m != 0
  {
    if e.MemberReply? { ExistsIff(e.reply); }
  }

  /**
   * Every row of every state carries the columns of a request that was acceptable when it came in,
   * was vouched for by an explicit yes with exactly the stored membership id, and was inserted, at
   * its created_at, by the commit of that same grant; its reason satisfies both limits.
   */
  lemma {:induction false} Provenance(run: Run, i: nat, id: Uuid) returns (b: nat, g: nat, c: nat)
    requires run.Valid() && i < |run.states| && id in run.states[i].rows
    ensures b < g < c < i && run.events[c].GrantCommits? && run.events[c].id == id
    ensures Requested(run, b, run.events[c].op, run.states[i].rows[id].entry)
    ensures Vouched(run, g, run.events[c].op, run.states[i].rows[id].entry)
    ensures run.states[i].rows[id].createdAt == run.states[c].now
    ensures |run.states[i].rows[id].entry.reason| <= |Utf8(run.states[i].rows[id].entry.reason)| <= 500
    decreases i
  {
    assert run.StepAt(i - 1);
    var s, e := run.states[i - 1], run.events[i - 1];
    if id in s.rows {
      RowStep(s, e, id);
      b, g, c := Provenance(run, i - 1, id);
    } else {
      c := i - 1;
      OldUnlessGranted(s, e, id);
      b, g := VettedWasVouched(run, c, e.op);
      var reason := s.ops[e.op].entry.reason;
      CharsWithinBytes(reason);
      ByteLengthIsUtf8(reason);
    }
  }
}
