/**
 * The service calls as paths of the state machine: when no other operation is in flight, what a
 * call leaves behind is a state the machine reaches by steps of that one operation.
 */
module Refinement {
  import opened Domain
  import opened EntryTable
  import opened AccessCache
  import opened EventLedger
  import opened Granting
  import opened Protocol
  import opened Staleness
  import Repository

  ghost predicate Leads(s: State, es: seq<Event>, s': State)
    decreases |es|
  {
    if es == [] then s == s' else Enabled(s, es[0]) && Leads(Apply(s, es[0]), es[1..], s')
  }

  ghost predicate Reaches(s: State, s': State) {
    exists es :: Leads(s, es, s')
  }

  /** Nothing in flight. */
  function Idle(now: Time, rows: Table, ledger: Ledger, cache: Store): State {
    State(now, rows, ledger, cache, map[])
  }

  /** One operation in flight, under id 0. */
  function Busy(now: Time, rows: Table, ledger: Ledger, cache: Store, op: Op): State {
    State(now, rows, ledger, cache, map[0 := op])
  }

  lemma Step(s: State, e: Event, s': State)
    requires Enabled(s, e) && Apply(s, e) == s'
    ensures Reaches(s, s')
  {
    assert [e][1..] == [];
    assert Leads(s, [e], s');
  }

  lemma {:induction false} LeadsOn(s: State, es: seq<Event>, m: State, fs: seq<Event>, t: State)
    requires Leads(s, es, m) && Leads(m, fs, t)
    ensures Leads(s, es + fs, t)
    decreases |es|
  {
    if es == [] {
      assert es + fs == fs;
    } else {
      LeadsOn(Apply(s, es[0]), es[1..], m, fs, t);
      assert (es + fs)[1..] == es[1..] + fs;
    }
  }

  lemma Then(s: State, m: State, t: State)
    requires Reaches(s, m) && Reaches(m, t)
    ensures Reaches(s, t)
  {
    var es :| Leads(s, es, m);
    var fs :| Leads(m, fs, t);
    LeadsOn(s, es, m, fs, t);
  }

  lemma Wait(s: State, later: Time)
    requires s.now <= later
    ensures Reaches(s, s.(now := later))
  {
    Step(s, Tick(later - s.now), s.(now := later));
  }

  lemma WaitThen(s: State, e: Event, at: Time, s': State)
    requires s.now <= at && Enabled(s.(now := at), e) && Apply(s.(now := at), e) == s'
    ensures Reaches(s, s')
  {
    Wait(s, at);
    Step(s.(now := at), e, s');
    Then(s, s.(now := at), s');
  }

  /** Any path continues a run: what is reached from the empty system is the last state of some run. */
  lemma {:induction false} PathContinuesRun(run: Run, es: seq<Event>, s': State) returns (longer: Run)
    requires run.Valid() && Leads(run.states[|run.events|], es, s')
    ensures longer.Valid() && longer.states[|longer.events|] == s'
    decreases |es|
  {
    if es == [] { return run; }
    var s := run.states[|run.events|];
    var next := Run(run.states + [Apply(s, es[0])], run.events + [es[0]]);
    forall i | 0 <= i < |next.events| ensures next.StepAt(i) {
      assert i < |run.events| ==> run.StepAt(i);
    }
    longer := PathContinuesRun(next, es[1..], s');
  }

  /** Everything proved of all runs holds of what service calls reach. */
  lemma ReachedByRun(s: State) returns (run: Run)
    requires Reaches(INIT, s)
    ensures run.Valid() && run.states[|run.events|] == s && Inv(s)
  {
    var es :| Leads(INIT, es, s);
    run := PathContinuesRun(Run([INIT], []), es, s);
    RunInv(run, |run.events|);
  }

  // ---- grant and revoke ------------------------------------------------------------------

  lemma InvalidatePath(now: Time, rows: Table, ledger: Ledger, cache: Store, k: Triple, applied: bool, to: Time)
    requires now <= to
    ensures Reaches(Busy(now, rows, ledger, cache, Invalidate(k)),
                    Idle(to, rows, ledger, if applied then cache - {KeyText(k)} else cache))
  {
    var s, s' := Busy(now, rows, ledger, cache, Invalidate(k)),
        Idle(to, rows, ledger, if applied then cache - {KeyText(k)} else cache);
    assert map[0 := Invalidate(k)] - {0} == map[];
    WaitThen(s, Invalidates(0, applied), to, s');
  }

  lemma VettedPath(from: Time, rows: Table, ledger: Ledger, cache: Store, req: GrantRequest, reply: Reply)
    requires req.Rejection(from).None? && Exists(reply).Active?
    ensures Reaches(Idle(from, rows, ledger, cache),
                    Busy(from, rows, ledger, cache, GrantVetted(req.Entry(Exists(reply).membership))))
  {
    var s0 := Idle(from, rows, ledger, cache);
    var s1 := Busy(from, rows, ledger, cache, GrantStart(req));
    var s2 := Busy(from, rows, ledger, cache, GrantVetted(req.Entry(Exists(reply).membership)));
    Step(s0, BeginGrant(0, req), s1);
    Step(s1, MemberReply(0, reply), s2);
    Then(s0, s1, s2);
  }

  lemma InsertPath(now: Time, rows: Table, ledger: Ledger, cache: Store, e: NewEntry, id: Uuid, at: Time)
    requires now <= at && Insert(rows, Some(e.key.tenant), e, id, at).Inserted?
    ensures Reaches(Busy(now, rows, ledger, cache, GrantVetted(e)),
                    Busy(at, Insert(rows, Some(e.key.tenant), e, id, at).table, ledger, cache, Invalidate(e.key)))
  {
    var s, s' := Busy(now, rows, ledger, cache, GrantVetted(e)),
                 Busy(at, Insert(rows, Some(e.key.tenant), e, id, at).table, ledger, cache, Invalidate(e.key));
    WaitThen(s, GrantCommits(0, id), at, s');
  }

  /** A grant whose insert committed at `at`, its Delete applied or not. */
  lemma GrantPath(from: Time, rows: Table, ledger: Ledger, cache: Store, req: GrantRequest, reply: Reply, id: Uuid,
                  at: Time, applied: bool, to: Time)
    requires req.Rejection(from).None? && Exists(reply).Active? && from <= at <= to
    requires Insert(rows, Some(req.key.tenant), req.Entry(Exists(reply).membership), id, at).Inserted?
    ensures Reaches(Idle(from, rows, ledger, cache),
                    Idle(to, Insert(rows, Some(req.key.tenant), req.Entry(Exists(reply).membership), id, at).table,
                         ledger,
                         if applied then cache - {KeyText(req.key)} else cache))
  {
    var e := req.Entry(Exists(reply).membership);
    var t := Insert(rows, Some(e.key.tenant), e, id, at).table;
    var s0, s1 := Idle(from, rows, ledger, cache), Busy(from, rows, ledger, cache, GrantVetted(e));
    var s2 := Busy(at, t, ledger, cache, Invalidate(e.key));
    var s3 := Idle(to, t, ledger, if applied then cache - {KeyText(req.key)} else cache);
    VettedPath(from, rows, ledger, cache, req, reply);
    InsertPath(from, rows, ledger, cache, e, id, at);
    InvalidatePath(at, t, ledger, cache, e.key, applied, to);
    Then(s0, s1, s2);
    Then(s0, s2, s3);
  }

  /** A revoke whose update committed at `at` on a non-empty set. */
  lemma RevokePath(from: Time, rows: Table, ledger: Ledger, cache: Store, k: Triple, version: int, at: Time,
                   applied: bool, to: Time)
    requires from <= at <= to && Targets(rows, Some(k.tenant), LiveVersion(k, version)) != {}
    ensures Reaches(Idle(from, rows, ledger, cache),
                    Idle(to, SoftDeleteAll(rows, Targets(rows, Some(k.tenant), LiveVersion(k, version)), at), ledger,
                         if applied then cache - {KeyText(k)} else cache))
  {
    var t := SoftDeleteAll(rows, Targets(rows, Some(k.tenant), LiveVersion(k, version)), at);
    var s0, s1 := Idle(from, rows, ledger, cache), Busy(from, rows, ledger, cache, RevokeStart(k, version));
    var s2 := Busy(at, t, ledger, cache, Invalidate(k));
    var s3 := Idle(to, t, ledger, if applied then cache - {KeyText(k)} else cache);
    Step(s0, BeginRevoke(0, k, version), s1);
    WaitThen(s1, RevokeCommits(0), at, s2);
    InvalidatePath(at, t, ledger, cache, k, applied, to);
    Then(s0, s1, s2);
    Then(s0, s2, s3);
  }

  // ---- check -----------------------------------------------------------------------------

  /** The machine goes from s to s' and on the way hands the caller of a check of k the answer v. */
  ghost predicate Replies(s: State, k: Triple, v: CachedAccess, s': State) {
    exists m, e :: Reaches(s, m) && RepliesAt(m, e, k, v) && Reaches(Apply(m, e), s')
  }

  ghost predicate RepliesAt(m: State, e: Event, k: Triple, v: CachedAccess) {
    Enabled(m, e) && Answer(m, e) == Some((k, v))
  }

  lemma RepliesReaches(s: State, k: Triple, v: CachedAccess, s': State)
    requires Replies(s, k, v, s')
    ensures Reaches(s, s')
  {
    var m, e :| Reaches(s, m) && RepliesAt(m, e, k, v) && Reaches(Apply(m, e), s');
    Step(m, e, Apply(m, e));
    Then(s, m, Apply(m, e));
    Then(s, Apply(m, e), s');
  }

  lemma HitPath(from: Time, rows: Table, ledger: Ledger, cache: Store, k: Triple, to: Time)
    requires from <= to && Hits(cache, k, from)
    ensures Replies(Idle(from, rows, ledger, cache), k, cache[KeyText(k)].value, Idle(to, rows, ledger, cache))
  {
    var s, m := Idle(from, rows, ledger, cache), Busy(from, rows, ledger, cache, CheckStart(k));
    Step(s, BeginCheck(0, k), m);
    assert map[0 := CheckStart(k)] - {0} == map[];
    assert RepliesAt(m, CacheHit(0), k, cache[KeyText(k)].value);
    Wait(s, to);
  }

  function AccessOf(r: Option<Row>): Option<CachedAccess> {
    match r case None => None case Some(row) => Some(row.AsAccess())
  }

  /** The id under which a scan of one attempt found its row. */
  lemma SeenId(a: Repository.Attempt, k: Triple, found: Option<Row>) returns (seen: Option<Uuid>)
    requires Repository.FindsOne(a.rows, Some(k.tenant), ActiveAt(k, a.now), found)
    ensures seen.Some? <==> found.Some?
    ensures seen.Some? ==> seen.value in a.rows && a.rows[seen.value] == found.value
    ensures match seen case None => Targets(a.rows, Some(k.tenant), ActiveAt(k, a.now)) == {}
                       case Some(id) => id in Targets(a.rows, Some(k.tenant), ActiveAt(k, a.now))
  {
    if found.None? { return None; }
    var id :| id in Targets(a.rows, Some(k.tenant), ActiveAt(k, a.now)) && a.rows[id] == found.value;
    return Some(id);
  }

  /** An attempt that aborted leaves in the outer variable what it scanned, if anything. */
  lemma AbortedPath(now: Time, ledger: Ledger, cache: Store, k: Triple, n: nat, carried: Option<Row>,
                    a: Repository.Attempt, found: Option<Row>)
    requires n + 1 < MAX_ATTEMPTS && now <= a.now && Repository.ScanOf(a, k, found)
    ensures var next := if found.Some? then found else carried;
            Reaches(Busy(now, a.rows, ledger, cache, CheckFind(k, n, AccessOf(carried))),
                    Busy(a.now, a.rows, ledger, cache, CheckFind(k, n + 1, AccessOf(next))))
  {
    var seen: Option<Uuid> := None;
    if !a.end.AbortsEarly? { seen := SeenId(a, k, found); }
    var s := Busy(now, a.rows, ledger, cache, CheckFind(k, n, AccessOf(carried)));
    var next := if found.Some? then found else carried;
    WaitThen(s, FindAborts(0, seen), a.now, Busy(a.now, a.rows, ledger, cache, CheckFind(k, n + 1, AccessOf(next))));
  }

  /** The attempts of one call on one table, in the order of their clocks. */
  ghost predicate Alone(script: seq<Repository.Attempt>, rows: Table, ledger: Ledger, from: Time, to: Time) {
    && (forall i :: 0 <= i < |script| ==>
        script[i].rows == rows && script[i].ledger == ledger && from <= script[i].now <= to)
    && (forall i, j :: 0 <= i < j < |script| ==> script[i].now <= script[j].now)
  }

  function Clock(script: seq<Repository.Attempt>, from: Time, n: nat): Time
    requires n <= |script|
  {
    if n == 0 then from else script[n - 1].now
  }

  lemma {:induction false} AbortsPath(script: seq<Repository.Attempt>, k: Triple, scans: seq<Option<Row>>, n: nat,
                                      from: Time, rows: Table, ledger: Ledger, cache: Store, to: Time)
    requires Repository.Scans(script, k, scans) && Alone(script, rows, ledger, from, to) && n <= |scans| &&
      n < MAX_ATTEMPTS
    ensures Reaches(Busy(from, rows, ledger, cache, CheckFind(k, 0, None)),
                    Busy(Clock(script, from, n), rows, ledger, cache,
                         CheckFind(k, n, AccessOf(Repository.Latest(scans[..n])))))
  {
    var s := Busy(from, rows, ledger, cache, CheckFind(k, 0, None));
    if n == 0 {
      Wait(s, from);
    } else {
      var before := Repository.Latest(scans[..n - 1]);
      AbortsPath(script, k, scans, n - 1, from, rows, ledger, cache, to);
      AbortedPath(Clock(script, from, n - 1), ledger, cache, k, n - 1, before, script[n - 1], scans[n - 1]);
      Repository.LatestExtend(scans[..n - 1], scans[n - 1]);
      assert scans[..n] == scans[..n - 1] + [scans[n - 1]];
      Then(s, Busy(Clock(script, from, n - 1), rows, ledger, cache, CheckFind(k, n - 1, AccessOf(before))),
           Busy(Clock(script, from, n), rows, ledger, cache, CheckFind(k, n, AccessOf(Repository.Latest(scans[..n])))));
    }
  }

  /** The committed attempt. */
  lemma FoundPath(now: Time, ledger: Ledger, cache: Store, k: Triple, n: nat, carried: Option<Row>,
                  a: Repository.Attempt, found: Option<Row>, to: Time)
    requires now <= a.now <= to && Repository.FindsOne(a.rows, Some(k.tenant), ActiveAt(k, a.now), found)
    ensures var answer := AccessOf(if found.Some? then found else carried).GetOr(NoAccess);
            Reaches(Busy(now, a.rows, ledger, cache, CheckFind(k, n, AccessOf(carried))),
                    Busy(to, a.rows, ledger, cache, CheckDone(k, answer)))
  {
    var seen := SeenId(a, k, found);
    var answer := AccessOf(if found.Some? then found else carried).GetOr(NoAccess);
    var s0 := Busy(now, a.rows, ledger, cache, CheckFind(k, n, AccessOf(carried)));
    var s1 := Busy(a.now, a.rows, ledger, cache, CheckDone(k, answer));
    WaitThen(s0, FindCommits(0, seen), a.now, s1);
    Wait(s1, to);
    Then(s0, s1, s1.(now := to));
  }

  lemma BeginPath(from: Time, rows: Table, ledger: Ledger, cache: Store, k: Triple, getFails: bool)
    requires getFails || !Hits(cache, k, from)
    ensures Reaches(Idle(from, rows, ledger, cache), Busy(from, rows, ledger, cache, CheckFind(k, 0, None)))
  {
    var s0, s1 := Idle(from, rows, ledger, cache), Busy(from, rows, ledger, cache, CheckStart(k));
    var s2 := Busy(from, rows, ledger, cache, CheckFind(k, 0, None));
    Step(s0, BeginCheck(0, k), s1);
    Step(s1, CacheFallsThrough(0, getFails), s2);
    Then(s0, s1, s2);
  }

  /** All the attempts FindActive made, the last of which committed. */
  lemma FindPath(script: seq<Repository.Attempt>, k: Triple, scans: seq<Option<Row>>, from: Time, rows: Table,
                 ledger: Ledger, cache: Store, to: Time)
    requires Repository.Scans(script, k, scans) && Alone(script, rows, ledger, from, to)
    requires 0 < |scans| <= MAX_ATTEMPTS && script[|scans| - 1].end.Commits?
    ensures Reaches(Busy(from, rows, ledger, cache, CheckFind(k, 0, None)),
                    Busy(to, rows, ledger, cache, CheckDone(k, AccessOf(Repository.Latest(scans)).GetOr(NoAccess))))
  {
    var n := |scans| - 1;
    var before, now := Repository.Latest(scans[..n]), Clock(script, from, n);
    AbortsPath(script, k, scans, n, from, rows, ledger, cache, to);
    assert Repository.ScanOf(script[n], k, scans[n]);
    FoundPath(now, ledger, cache, k, n, before, script[n], scans[n], to);
    LatestOf(scans);
    Then(Busy(from, rows, ledger, cache, CheckFind(k, 0, None)),
         Busy(now, rows, ledger, cache, CheckFind(k, n, AccessOf(before))),
         Busy(to, rows, ledger, cache, CheckDone(k, AccessOf(Repository.Latest(scans)).GetOr(NoAccess))));
  }

  lemma LatestOf(scans: seq<Option<Row>>)
    requires scans != []
    ensures var n := |scans| - 1;
      Repository.Latest(scans) == if scans[n].Some? then scans[n] else Repository.Latest(scans[..n])
  {
  }

  /** A check that missed, or whose Get failed. */
  lemma MissPath(script: seq<Repository.Attempt>, k: Triple, scans: seq<Option<Row>>, getFails: bool, stored: bool,
                 from: Time, rows: Table, ledger: Ledger, cache: Store, to: Time)
    requires getFails || !Hits(cache, k, from)
    requires Repository.Scans(script, k, scans) && Alone(script, rows, ledger, from, to)
    requires 0 < |scans| <= MAX_ATTEMPTS && script[|scans| - 1].end.Commits?
    ensures var answer := AccessOf(Repository.Latest(scans)).GetOr(NoAccess);
            Replies(Idle(from, rows, ledger, cache), k, answer,
                    Idle(to, rows, ledger, if stored then cache[KeyText(k) := Cell(answer, to)] else cache))
  {
    var answer := AccessOf(Repository.Latest(scans)).GetOr(NoAccess);
    BeginPath(from, rows, ledger, cache, k, getFails);
    FindPath(script, k, scans, from, rows, ledger, cache, to);
    Then(Idle(from, rows, ledger, cache), Busy(from, rows, ledger, cache, CheckFind(k, 0, None)),
         Busy(to, rows, ledger, cache, CheckDone(k, answer)));
    ReturnPath(Idle(from, rows, ledger, cache), to, rows, ledger, cache, k, answer, stored);
  }

  lemma ReturnPath(s: State, now: Time, rows: Table, ledger: Ledger, cache: Store, k: Triple, answer: CachedAccess,
                   stored: bool)
    requires Reaches(s, Busy(now, rows, ledger, cache, CheckDone(k, answer)))
    ensures Replies(s, k, answer,
                    Idle(now, rows, ledger, if stored then cache[KeyText(k) := Cell(answer, now)] else cache))
  {
    var m, s' := Busy(now, rows, ledger, cache, CheckDone(k, answer)),
                 Idle(now, rows, ledger, if stored then cache[KeyText(k) := Cell(answer, now)] else cache);
    assert map[0 := CheckDone(k, answer)] - {0} == map[];
    assert RepliesAt(m, CheckReturns(0, stored), k, answer);
    assert Apply(m, CheckReturns(0, stored)) == s';
    Wait(s', now);
  }
}
