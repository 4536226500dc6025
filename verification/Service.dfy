/**
 * ACLService as it is written: one call at a time over the repository and the cache, with the
 * faults of each call as parameters.
 */
module Service {
  import opened Domain
  import opened EntryTable
  import opened AccessCache
  import opened EventLedger
  import opened Granting
  import opened Protocol
  import Repository
  import opened Staleness
  import opened SequentialCache
  import opened Refinement

  datatype Outcome<T> = Ok(value: T) | Failed(code: Code)

  ghost predicate NoneUnseen(script: seq<Repository.Attempt>) {
    forall i :: 0 <= i < |script| ==> !script[i].end.CommitsUnseen?
  }

  /** What FindActive returned over attempts on one unchanging table is backed by that table. */
  lemma {:induction false} ScansAreBacked(script: seq<Repository.Attempt>, k: Triple, scans: seq<Option<Row>>,
                                          rows: Table, ledger: Ledger, from: Time, to: Time)
    requires Repository.Scans(script, k, scans) && Alone(script, rows, ledger, from, to) && scans != []
    requires Repository.Latest(scans).None? ==> !script[|scans| - 1].end.AbortsEarly?
    ensures var r := Repository.Latest(scans);
            Backed(rows, k, if r.Some? then r.value.AsAccess() else NoAccess, to)
  {
    var n := |scans| - 1;
    if scans[n].Some? {
    } else if Repository.Latest(scans).Some? {
      assert Repository.Latest(scans[..n]).Some? && scans[..n] != [];
      assert forall i :: 0 <= i < n ==> scans[..n][i] == scans[i];
      ScansAreBacked(script, k, scans[..n], rows, ledger, from, to);
    } else {
      forall id | id in rows && rows[id].entry.key == k ensures !rows[id].IsActive(to) {
        assert id !in Targets(script[n].rows, Some(k.tenant), ActiveAt(k, script[n].now));
      }
    }
  }

  /**
   * What a grant decides before the database is asked, from the fields of the request and the reply
   * alone: which error, or that the insert is tried (`used > 0`).
   */
  ghost predicate Gated(req: GrantRequest, reply: Reply, from: Time, used: nat, r: Outcome<Row>) {
    && (used > 0 <==> Acceptable(req, from) && reply.Body? && reply.active &&
                      reply.membership.Some? && reply.membership.value != 0)
    && (r == Failed(InvalidAccessLevel) <==> req.level !in {"view", "edit", "approve"})
    && (r == Failed(InvalidReason) <==> req.level in {"view", "edit", "approve"} && |Utf8(req.reason)| > 500)
    && (r == Failed(InvalidExpiry) <==>
        req.level in {"view", "edit", "approve"} && |Utf8(req.reason)| <= 500 &&
        req.expiresAt.Some? && req.expiresAt.value <= from)
    && (r == Failed(GranteeNotActiveMember) <==> Acceptable(req, from) && reply.Body? && !reply.active)
    && (r == Failed(CoreUnavailable) <==>
        Acceptable(req, from) && !(reply.Body? && !reply.active) &&
        !(reply.Body? && reply.membership.Some? && reply.membership.value != 0))
  }

  lemma GateClosed(req: GrantRequest, reply: Reply, from: Time)
    ensures req.Rejection(from).Some? ==> Gated(req, reply, from, 0, Failed(req.Rejection(from).value))
    ensures req.Rejection(from).None? && Exists(reply).Inactive? ==>
            Gated(req, reply, from, 0, Failed(GranteeNotActiveMember))
    ensures req.Rejection(from).None? && Exists(reply).Unavailable? ==>
            Gated(req, reply, from, 0, Failed(CoreUnavailable))
  {
    RejectionIff(req, from);
    ExistsIff(reply);
  }

  lemma GateOpen(req: GrantRequest, reply: Reply, from: Time, used: nat, r: Outcome<Row>)
    requires req.Rejection(from).None? && Exists(reply).Active? && used > 0 && (r.Failed? ==> r.code.FromTable())
    ensures Gated(req, reply, from, used, r) && Entered(req.Entry(Exists(reply).membership), req, reply)
  {
    RejectionIff(req, from);
    ExistsIff(reply);
    EntryCarries(req, Exists(reply).membership);
  }

  /** What the last attempt of a grant decides: the outcome, the tables, and the machine's step. */
  ghost predicate GrantedBy(a: Repository.Attempt, id: Uuid, e: NewEntry, r: Outcome<Row>, rows: Table,
                            ledger: Ledger) {
    var i := Insert(a.rows, Some(e.key.tenant), e, id, a.now);
    && ledger == a.ledger
    && (r.Ok? ==> i == Inserted(rows, r.value))
    && (!r.Ok? ==> rows == a.rows || (a.end.CommitsUnseen? && i.Inserted? && rows == i.table))
    && (a.end.Commits? ==>
          (r.Ok? <==> i.Inserted?) && (r == Failed(DuplicateGrant) <==> i.Duplicate?) && (!r.Ok? ==> rows == a.rows))
    && (r.Ok? || rows != a.rows ==> Repository.GrantStep(a, e, id, rows, ledger))
  }

  /** The entry a grant tries to insert: the request's columns and the membership id of the reply. */
  ghost predicate Entered(e: NewEntry, req: GrantRequest, reply: Reply) {
    Carries(e, req) && reply == Body(true, Some(e.membership))
  }

  /**
   * A check that missed: an answer exactly if FindActive's last attempt committed, and then the level
   * and expiry columns of the last row any attempt scanned.
   */
  ghost predicate LookedUp(script: seq<Repository.Attempt>, k: Triple, used: nat, scans: seq<Option<Row>>,
                           r: Outcome<CachedAccess>, rows: Table, ledger: Ledger)
  {
    && Repository.Read(script, k, used, scans)
    && rows == script[used - 1].rows && ledger == script[used - 1].ledger
    && (r.Ok? <==> script[used - 1].end.Commits?)
    && (r.Ok? ==> r.value == match Repository.Latest(scans)
                             case None => NoAccess
                             case Some(row) => Access(row.entry.level, row.entry.expiresAt))
  }

  // ---- a call with nobody else running --------------------------------------------------------

  /** The machine goes from s to s', and a cache that agreed with the table still does if `clean`. */
  ghost predicate WroteAlone(s: State, s': State, clean: bool) {
    Reaches(s, s') && (clean && Agrees(s.rows, s.cache, s.now) ==> Agrees(s'.rows, s'.cache, s'.now))
  }

  lemma NothingAlone(s: State, to: Time, clean: bool)
    requires s.now <= to
    ensures WroteAlone(s, s.(now := to), clean)
  {
    Wait(s, to);
    if Agrees(s.rows, s.cache, s.now) { AgreementSurvivesTime(s.rows, s.cache, s.now, to); }
  }

  /** A write to one triple's rows that the machine reaches, with the Delete of its key if `clean`. */
  lemma WriteAlone(s: State, s': State, k: Triple, clean: bool)
    requires Reaches(s, s') && s.now <= s'.now && forall x :: x != k ==> RowsOf(s.rows, x) == RowsOf(s'.rows, x)
    requires clean ==> s'.cache == s.cache - {KeyText(k)}
    ensures WroteAlone(s, s', clean)
  {
    if clean && Agrees(s.rows, s.cache, s.now) {
      AgreementSurvivesTime(s.rows, s.cache, s.now, s'.now);
      AgreementSurvivesWrite(s.rows, s'.rows, s.cache, s'.now, k);
    }
  }

  lemma GrantAlone(from: Time, rows: Table, ledger: Ledger, cells: Store, req: GrantRequest, reply: Reply, id: Uuid,
                   at: Time, applied: bool, to: Time)
    requires req.Rejection(from).None? && Exists(reply).Active? && from <= at <= to
    requires Insert(rows, Some(req.key.tenant), req.Entry(Exists(reply).membership), id, at).Inserted?
    ensures WroteAlone(Idle(from, rows, ledger, cells),
                       Idle(to, Insert(rows, Some(req.key.tenant), req.Entry(Exists(reply).membership), id, at).table,
                            ledger,
                            if applied then cells - {KeyText(req.key)} else cells), applied)
  {
    var e := req.Entry(Exists(reply).membership);
    var t := Insert(rows, Some(req.key.tenant), e, id, at).table;
    GrantPath(from, rows, ledger, cells, req, reply, id, at, applied, to);
    forall x | x != req.key ensures RowsOf(rows, x) == RowsOf(t, x) { InsertTouchesOneTriple(rows, e, id, at, x); }
    WriteAlone(Idle(from, rows, ledger, cells),
               Idle(to, t, ledger, if applied then cells - {KeyText(req.key)} else cells), req.key, applied);
  }

  lemma RevokeAlone(from: Time, rows: Table, ledger: Ledger, cells: Store, k: Triple, version: int, at: Time,
                    applied: bool, to: Time)
    requires from <= at <= to && Targets(rows, Some(k.tenant), LiveVersion(k, version)) != {}
    ensures WroteAlone(Idle(from, rows, ledger, cells),
                       Idle(to, SoftDeleteAll(rows, Targets(rows, Some(k.tenant), LiveVersion(k, version)), at), ledger,
                            if applied then cells - {KeyText(k)} else cells), applied)
  {
    var t := SoftDeleteAll(rows, Targets(rows, Some(k.tenant), LiveVersion(k, version)), at);
    RevokePath(from, rows, ledger, cells, k, version, at, applied, to);
    forall x | x != k ensures RowsOf(rows, x) == RowsOf(t, x) { RevokeTouchesOneTriple(rows, k, version, at, x); }
    WriteAlone(Idle(from, rows, ledger, cells), Idle(to, t, ledger, if applied then cells - {KeyText(k)} else cells), k,
               applied);
  }

  /**
   * The machine goes from s to s' on the same table, giving the answer if there is one; if cache
   * and table agreed they still do, and the answer is fresh up to its own expiry.
   */
  ghost predicate CheckedAlone(k: Triple, r: Outcome<CachedAccess>, s: State, s': State) {
    && s'.rows == s.rows && s'.ledger == s.ledger && Reaches(s, s')
    && (r.Ok? ==> Replies(s, k, r.value, s'))
    && (Agrees(s.rows, s.cache, s.now) ==>
        Agrees(s'.rows, s'.cache, s'.now) && (r.Ok? ==> Fresh(s'.rows, k, r.value, s'.now)))
  }

  lemma FailedAlone(from: Time, rows: Table, ledger: Ledger, cells: Store, k: Triple, code: Code, to: Time)
    requires from <= to
    ensures CheckedAlone(k, Failed(code), Idle(from, rows, ledger, cells), Idle(to, rows, ledger, cells))
  {
    NothingAlone(Idle(from, rows, ledger, cells), to, true);
  }

  lemma HitAlone(from: Time, rows: Table, ledger: Ledger, cells: Store, k: Triple, to: Time)
    requires from <= to && Hits(cells, k, from)
    ensures CheckedAlone(k, Ok(cells[KeyText(k)].value), Idle(from, rows, ledger, cells), Idle(to, rows, ledger, cells))
  {
    HitPath(from, rows, ledger, cells, k, to);
    NothingAlone(Idle(from, rows, ledger, cells), to, true);
    if Agrees(rows, cells, from) { BackedStaysFresh(rows, k, cells[KeyText(k)].value, from, to); }
  }

  lemma MissAlone(script: seq<Repository.Attempt>, k: Triple, scans: seq<Option<Row>>, getFails: bool, stored: bool,
                  from: Time, rows: Table, ledger: Ledger, cells: Store, to: Time)
    requires (getFails || !Hits(cells, k, from)) && from <= to
    requires Repository.Read(script, k, |scans|, scans) && Alone(script, rows, ledger, from, to)
    requires script[|scans| - 1].end.Commits?
    ensures var v := AccessOf(Repository.Latest(scans)).GetOr(NoAccess);
            CheckedAlone(k, Ok(v), Idle(from, rows, ledger, cells),
                         Idle(to, rows, ledger, if stored then cells[KeyText(k) := Cell(v, to)] else cells))
  {
    var v := AccessOf(Repository.Latest(scans)).GetOr(NoAccess);
    MissPath(script, k, scans, getFails, stored, from, rows, ledger, cells, to);
    RepliesReaches(Idle(from, rows, ledger, cells), k, v,
                   Idle(to, rows, ledger, if stored then cells[KeyText(k) := Cell(v, to)] else cells));
    ScansAreBacked(script, k, scans, rows, ledger, from, to);
    BackedIsFresh(rows, k, v, to);
    if Agrees(rows, cells, from) {
      AgreementSurvivesTime(rows, cells, from, to);
      AgreementSurvivesSet(rows, cells, to, k, v);
    }
  }

  class ACLService {
    const db: Repository.Postgres
    var cells: Store

    constructor (db: Repository.Postgres)
      ensures this.db == db && cells == map[]
    {
      this.db, cells := db, map[];
    }

    /**
     * TAC-2, running from `from` to `to`: validation, the membership check, the insert, the cache
     * Delete. An error before the insert leaves table, ledger and cache as they were.
     */
    method Grant(req: GrantRequest, from: Time, to: Time, reply: Reply, script: seq<Repository.Attempt>, ids: seq<Uuid>,
                 deleteApplies: bool)
      returns (r: Outcome<Row>, used: nat, ghost e: NewEntry)
      requires |script| == |ids| == MAX_ATTEMPTS && from <= to
      modifies this`cells, db
      ensures Gated(req, reply, from, used, r)
      ensures used == 0 ==> db.rows == old(db.rows) && db.ledger == old(db.ledger) && cells == old(cells)
      ensures used > 0 ==>
        && Repository.Decided(script, used) && Entered(e, req, reply)
        && GrantedBy(script[used - 1], ids[used - 1], e, r, db.rows, db.ledger)
      ensures cells == if r.Ok? && deleteApplies then old(cells) - {KeyText(req.key)} else old(cells)
      ensures Alone(script, old(db.rows), old(db.ledger), from, to) ==>
        WroteAlone(Idle(from, old(db.rows), old(db.ledger), old(cells)), Idle(to, db.rows, db.ledger, cells),
                   deleteApplies && NoneUnseen(script))
    {
      used := 0;
      NothingAlone(Idle(from, db.rows, db.ledger, cells), to, deleteApplies && NoneUnseen(script));
      var bad := req.Rejection(from);
      GateClosed(req, reply, from);
      e := req.Entry(0);
      if bad.Some? { r := Failed(bad.value); return; }
      match Exists(reply) {
        case Unavailable => r := Failed(CoreUnavailable); return;
        case Inactive => r := Failed(GranteeNotActiveMember); return;
        case Active(m) =>
          var entry := req.Entry(m);
          e := entry;
          var created, err;
          created, err, used := Repository.Grant(db, script, entry, ids);
          ghost var a := script[used - 1];
          if Alone(script, old(db.rows), old(db.ledger), from, to) &&
              Insert(a.rows, Some(e.key.tenant), e, ids[used - 1], a.now).Inserted? {
            GrantAlone(from, a.rows, a.ledger, cells, req, reply, ids[used - 1], a.now, err.None? && deleteApplies, to);
          }
          r := if err.Some? then Failed(err.value) else Ok(created.value);
          GateOpen(req, reply, from, used, r);
          if err.None? && deleteApplies { cells := cells - {KeyText(req.key)}; }
      }
    }

    /** TAC-3: the version-gated soft delete, then the cache Delete. */
    method Revoke(k: Triple, version: int, from: Time, to: Time, script: seq<Repository.Attempt>, deleteApplies: bool)
      returns (r: Outcome<()>, used: nat)
      requires |script| == MAX_ATTEMPTS && from <= to
      modifies this`cells, db
      ensures Repository.Decided(script, used)
      ensures var a := script[used - 1];
              var hit := Targets(a.rows, Some(k.tenant), LiveVersion(k, version));
              && db.ledger == a.ledger
              && (r.Ok? || db.rows != a.rows ==> Repository.RevokeStep(a, k, version, db.rows, db.ledger))
              && (r.Ok? ==> hit != {} && db.rows == SoftDeleteAll(a.rows, hit, a.now))
              && (!r.Ok? ==>
                  db.rows == a.rows ||
                      (a.end.CommitsUnseen? && hit != {} && db.rows == SoftDeleteAll(a.rows, hit, a.now)))
              && (a.end.Commits? ==>
                  (r.Ok? <==> hit != {}) && (hit == {} ==> r == Failed(OptimisticLockConflict) && db.rows == a.rows))
      ensures cells == if r.Ok? && deleteApplies then old(cells) - {KeyText(k)} else old(cells)
      ensures Alone(script, old(db.rows), old(db.ledger), from, to) ==>
        WroteAlone(Idle(from, old(db.rows), old(db.ledger), old(cells)), Idle(to, db.rows, db.ledger, cells),
                   deleteApplies && NoneUnseen(script))
    {
      NothingAlone(Idle(from, db.rows, db.ledger, cells), to, deleteApplies && NoneUnseen(script));
      var err;
      err, used := Repository.Revoke(db, script, k, version);
      ghost var a := script[used - 1];
      if Alone(script, old(db.rows), old(db.ledger), from, to) &&
          Targets(a.rows, Some(k.tenant), LiveVersion(k, version)) != {} {
        RevokeAlone(from, a.rows, a.ledger, cells, k, version, a.now, err.None? && deleteApplies, to);
      }
      if err.Some? { r := Failed(err.value); return; }
      if deleteApplies { cells := cells - {KeyText(k)}; }
      r := Ok(());
    }

    /**
     * TAC-4: the cached answer if there is one, else FindActive and a Set. With nobody else
     * running, the answer is the fresh one up to its own expiry and the agreement is kept.
     */
    method CheckAccess(k: Triple, from: Time, to: Time, getFails: bool, script: seq<Repository.Attempt>,
                       setApplies: bool)
      returns (r: Outcome<CachedAccess>, used: nat, ghost scans: seq<Option<Row>>)
      requires |script| == MAX_ATTEMPTS && from <= to
      modifies this`cells, db
      ensures used == 0 <==> !getFails && Hits(old(cells), k, from)
      ensures used == 0 ==>
        r == Ok(old(cells)[KeyText(k)].value) && cells == old(cells) && db.rows == old(db.rows) &&
            db.ledger == old(db.ledger)
      ensures used > 0 ==> LookedUp(script, k, used, scans, r, db.rows, db.ledger)
      ensures cells == if r.Ok? && setApplies && (getFails || !Hits(old(cells), k, from))
                       then old(cells)[KeyText(k) := Cell(r.value, to)] else old(cells)
      ensures Alone(script, old(db.rows), old(db.ledger), from, to) ==>
        CheckedAlone(k, r, Idle(from, old(db.rows), old(db.ledger), old(cells)), Idle(to, db.rows, db.ledger, cells))
    {
      used, scans := 0, [];
      if !getFails && Hits(cells, k, from) {
        r := Ok(cells[KeyText(k)].value);
        HitAlone(from, db.rows, db.ledger, cells, k, to);
        return;
      }
      var entry, err;
      entry, err, used, scans := Repository.FindActive(db, script, k);
      if err.Some? {
        r := Failed(err.value);
        FailedAlone(from, db.rows, db.ledger, cells, k, err.value, to);
        return;
      }
      r := Ok(if entry.Some? then Access(entry.value.entry.level, entry.value.entry.expiresAt) else NoAccess);
      if Alone(script, old(db.rows), old(db.ledger), from, to) {
        MissAlone(script, k, scans, getFails, setApplies, from, db.rows, db.ledger, cells, to);
      }
      if setApplies { cells := cells[KeyText(k) := Cell(r.value, to)]; }
    }
  }
}
