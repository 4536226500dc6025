/**
 * The Postgres adapter: transactions with bounded retry, and the repository methods
 * whose closures assign to variables outside the transaction.
 */
module Repository {
  import opened Domain
  import opened EntryTable
  import opened EventLedger
  import opened Granting
  import opened Protocol
  import Pagination

  /** How one transaction attempt ends. */
  datatype End =
    | Commits
    | CommitsUnseen    // applied, but the acknowledgement was lost: the caller sees an error
    | AbortsEarly      // deadlock or serialization failure before the statement returned
    | AbortsLate       // the same after the closure had run
    | Breaks           // any failure that is not retried
  {
    predicate Retried() { AbortsEarly? || AbortsLate? }

    /** What the caller sees of a closure that itself succeeded. */
    function Error(): Option<Code> {
      if Commits? then None else if Retried() then Some(Internal) else Some(DependencyUnavailable)
    }
  }

  /** What an attempt meets: the committed state at its start, its now(), and its fate. */
  datatype Attempt = Attempt(rows: Table, ledger: Ledger, now: Time, end: End)

  /** Every attempt before the last was rolled back for a retried reason. */
  ghost predicate Decided(script: seq<Attempt>, used: nat) {
    1 <= used <= |script| == 3 && Retrying(script, used - 1)
  }

  ghost predicate Retrying(script: seq<Attempt>, n: nat)
    requires n <= |script|
  {
    forall i :: 0 <= i < n ==> script[i].end.Retried()
  }

  /** The committed state of the database. */
  class Postgres {
    var rows: Table
    var ledger: Ledger

    constructor ()
      ensures rows == map[] && ledger == map[]
    {
      rows, ledger := map[], map[];
    }

    /** Other transactions may have committed since this one was last looked at. */
    method Observe(a: Attempt)
      modifies this
      ensures rows == a.rows && ledger == a.ledger
    {
      rows, ledger := a.rows, a.ledger;
    }
  }

  /** A transaction in progress, on its own copy of the tables. */
  class Transaction {
    const binding: Binding
    const now: Time
    var rows: Table
    var ledger: Ledger

    constructor (b: Binding, a: Attempt)
      ensures binding == b && now == a.now && rows == a.rows && ledger == a.ledger
    {
      binding, now, rows, ledger := b, a.now, a.rows, a.ledger;
    }

    method InsertEntry(e: NewEntry, id: Uuid) returns (r: InsertResult)
      modifies this
      ensures r == Insert(old(rows), binding, e, id, now)
      ensures rows == (if r.Inserted? then r.table else old(rows)) && ledger == old(ledger)
    {
      r := Insert(rows, binding, e, id, now);
      if r.Inserted? { rows := r.table; }
    }

    method SoftDeleteWhere(q: Query) returns (affected: nat)
      modifies this
      ensures affected == |Targets(old(rows), binding, q)|
      ensures rows == SoftDeleteAll(old(rows), Targets(old(rows), binding, q), now) && ledger == old(ledger)
    {
      var ids := Targets(rows, binding, q);
      rows := SoftDeleteAll(rows, ids, now);
      affected := |ids|;
    }

    method DeleteWhere(q: Query) returns (affected: nat)
      modifies this
      ensures affected == |Targets(old(rows), binding, q)|
      ensures rows == old(rows) - Targets(old(rows), binding, q) && ledger == old(ledger)
    {
      var ids := Targets(rows, binding, q);
      rows := rows - ids;
      affected := |ids|;
    }

    /** QueryRow: no row, or one of the matching rows. */
    method FindOne(q: Query) returns (found: Option<Row>)
      ensures FindsOne(rows, binding, q, found)
    {
      var ids := Targets(rows, binding, q);
      if ids == {} { return None; }
      var id :| id in ids;
      return Some(rows[id]);
    }

    method Mark(m: Mark)
      modifies this
      ensures rows == old(rows) && ledger == MarkProcessed(old(ledger), m, now)
    {
      if m !in ledger { ledger := ledger[m := now]; }
    }
  }

  ghost predicate FindsOne(t: Table, b: Binding, q: Query, found: Option<Row>) {
    match found
    case None => Targets(t, b, q) == {}
    case Some(r) => exists id :: id in Targets(t, b, q) && t[id] == r
  }

  // ---- attempts as steps of the machine --------------------------------------------------------

  /** A state the attempt may have met, with any other operations in flight. */
  ghost predicate Meets(s: State, a: Attempt) {
    s.rows == a.rows && s.ledger == a.ledger && s.now == a.now
  }

  /** In every such state the machine's grant step is possible and leaves these tables. */
  ghost predicate GrantStep(a: Attempt, e: NewEntry, id: Uuid, rows: Table, ledger: Ledger) {
    forall s: State, o :: Meets(s, a) && o in s.ops && s.ops[o] == GrantVetted(e) ==>
      && Enabled(s, GrantCommits(o, id))
      && Apply(s, GrantCommits(o, id)) == s.(rows := rows, ledger := ledger, ops := s.ops[o := Invalidate(e.key)])
  }

  ghost predicate GrantConflictStep(a: Attempt, e: NewEntry, id: Uuid) {
    forall s: State, o :: Meets(s, a) && o in s.ops && s.ops[o] == GrantVetted(e) ==> Enabled(s, GrantConflicts(o, id))
  }

  ghost predicate RevokeStep(a: Attempt, k: Triple, version: int, rows: Table, ledger: Ledger) {
    forall s: State, o :: Meets(s, a) && o in s.ops && s.ops[o] == RevokeStart(k, version) ==>
      && Enabled(s, RevokeCommits(o))
      && Apply(s, RevokeCommits(o)) == s.(rows := rows, ledger := ledger, ops := s.ops[o := Invalidate(k)])
  }

  ghost predicate RevokeConflictStep(a: Attempt, k: Triple, version: int) {
    forall s: State, o :: Meets(s, a) && o in s.ops && s.ops[o] == RevokeStart(k, version) ==>
      Enabled(s, RevokeConflicts(o))
  }

  lemma InsertIsStep(a: Attempt, e: NewEntry, id: Uuid)
    ensures var r := Insert(a.rows, Some(e.key.tenant), e, id, a.now);
            && (r.Inserted? ==> GrantStep(a, e, id, r.table, a.ledger))
            && (r.Duplicate? ==> GrantConflictStep(a, e, id))
  {
  }

  lemma SoftDeleteIsStep(a: Attempt, k: Triple, version: int)
    ensures var ids := Targets(a.rows, Some(k.tenant), LiveVersion(k, version));
            if ids != {} then RevokeStep(a, k, version, SoftDeleteAll(a.rows, ids, a.now), a.ledger)
            else RevokeConflictStep(a, k, version)
  {
  }

  /** TenderACLRepository.Grant; `ids` are the values gen_random_uuid() draws, one an attempt. */
  method Grant(db: Postgres, script: seq<Attempt>, e: NewEntry, ids: seq<Uuid>)
    returns (created: Option<Row>, err: Option<Code>, used: nat)
    requires |script| == |ids| == MAX_ATTEMPTS
    modifies db
    ensures Decided(script, used)
    ensures var a := script[used - 1];
            var r := Insert(a.rows, Some(e.key.tenant), e, ids[used - 1], a.now);
            && db.ledger == a.ledger
            && (err.None? ==> a.end.Commits? && r.Inserted? && db.rows == r.table && created == Some(r.row))
            && (err.Some? ==> db.rows == a.rows || (a.end.CommitsUnseen? && r.Inserted? && db.rows == r.table))
            && (a.end.Commits? ==> (err.None? <==> r.Inserted?) && (err == Some(DuplicateGrant) <==> r.Duplicate?))
            && (err.None? || db.rows != a.rows ==> GrantStep(a, e, ids[used - 1], db.rows, db.ledger))
            && (err == Some(DuplicateGrant) ==> GrantConflictStep(a, e, ids[used - 1]))
            && (err.Some? ==> err.value.FromTable())
  {
    created, err, used := None, None, 0;
    while used < MAX_ATTEMPTS
      invariant used <= MAX_ATTEMPTS
      invariant Retrying(script, used)
      invariant used > 0 ==>
        err == Some(Internal) && db.rows == script[used - 1].rows && db.ledger == script[used - 1].ledger
    {
      var a := script[used];
      used := used + 1;
      db.Observe(a);
      var tx := new Transaction(Some(e.key.tenant), a);
      if a.end.AbortsEarly? { err := Some(Internal); continue; }
      var r := tx.InsertEntry(e, ids[used - 1]);
      InsertIsStep(a, e, ids[used - 1]);
      match r {
        case Inserted(_, row) => created := Some(row);
        case Duplicate => err := Some(DuplicateGrant); return;
        case _ => err := Some(Internal); return;
      }
      err := a.end.Error();
      if a.end.Commits? || a.end.CommitsUnseen? { db.rows := tx.rows; }
      if !a.end.Retried() { return; }
    }
  }

  /** TenderACLRepository.Revoke. */
  method Revoke(db: Postgres, script: seq<Attempt>, k: Triple, version: int)
    returns (err: Option<Code>, used: nat)
    requires |script| == MAX_ATTEMPTS
    modifies db
    ensures Decided(script, used)
    ensures var a := script[used - 1];
            var ids := Targets(a.rows, Some(k.tenant), LiveVersion(k, version));
            && db.ledger == a.ledger
            && (err.None? ==> a.end.Commits? && ids != {} && db.rows == SoftDeleteAll(a.rows, ids, a.now))
            && (err.Some? ==>
                db.rows == a.rows ||
                    (a.end.CommitsUnseen? && ids != {} && db.rows == SoftDeleteAll(a.rows, ids, a.now)))
            && (a.end.Commits? ==> (err == Some(OptimisticLockConflict) <==> ids == {}) && (err.None? <==> ids != {}))
            && (err.None? || db.rows != a.rows ==> RevokeStep(a, k, version, db.rows, db.ledger))
            && (err == Some(OptimisticLockConflict) ==> RevokeConflictStep(a, k, version))
  {
    err, used := None, 0;
    while used < MAX_ATTEMPTS
      invariant used <= MAX_ATTEMPTS
      invariant Retrying(script, used)
      invariant used > 0 ==>
        err == Some(Internal) && db.rows == script[used - 1].rows && db.ledger == script[used - 1].ledger
    {
      var a := script[used];
      used := used + 1;
      db.Observe(a);
      var tx := new Transaction(Some(k.tenant), a);
      if a.end.AbortsEarly? { err := Some(Internal); continue; }
      var affected := tx.SoftDeleteWhere(LiveVersion(k, version));
      SoftDeleteIsStep(a, k, version);
      if affected == 0 { err := Some(OptimisticLockConflict); return; }
      err := a.end.Error();
      if a.end.Commits? || a.end.CommitsUnseen? { db.rows := tx.rows; }
      if !a.end.Retried() { return; }
    }
  }

  /** What an attempt scanned; one that aborted early scanned nothing. */
  ghost predicate ScanOf(a: Attempt, k: Triple, found: Option<Row>) {
    if a.end.AbortsEarly? then found == None else FindsOne(a.rows, Some(k.tenant), ActiveAt(k, a.now), found)
  }

  ghost predicate Scans(script: seq<Attempt>, k: Triple, scans: seq<Option<Row>>) {
    |scans| <= |script| && forall i :: 0 <= i < |scans| ==> ScanOf(script[i], k, scans[i])
  }

  /** FindActive used that many attempts, and these are their scans. */
  ghost predicate Read(script: seq<Attempt>, k: Triple, used: nat, scans: seq<Option<Row>>) {
    Decided(script, used) && |scans| == used && Scans(script, k, scans)
  }

  /** The last row any attempt scanned. */
  function Latest(scans: seq<Option<Row>>): Option<Row> {
    if scans == [] then None
    else if scans[|scans| - 1].Some? then scans[|scans| - 1]
    else Latest(scans[..|scans| - 1])
  }

  lemma ScansExtend(script: seq<Attempt>, k: Triple, scans: seq<Option<Row>>, next: Option<Row>)
    requires Scans(script, k, scans) && |scans| < |script| && ScanOf(script[|scans|], k, next)
    ensures Scans(script, k, scans + [next])
  {
    forall i | 0 <= i < |scans| + 1 ensures ScanOf(script[i], k, (scans + [next])[i]) {
      if i < |scans| { assert (scans + [next])[i] == scans[i]; }
    }
  }

  lemma LatestExtend(scans: seq<Option<Row>>, next: Option<Row>)
    ensures Latest(scans + [next]) == if next.Some? then next else Latest(scans)
  {
    assert (scans + [next])[..|scans|] == scans;
  }

  /** The first `used` attempts were all rolled back and retried, with these scans. */
  ghost predicate Tried(script: seq<Attempt>, k: Triple, used: nat, scans: seq<Option<Row>>) {
    used <= |script| && Retrying(script, used) && |scans| == used && Scans(script, k, scans)
  }

  lemma TriedStep(script: seq<Attempt>, k: Triple, used: nat, scans: seq<Option<Row>>, found: Option<Row>)
    requires |script| == MAX_ATTEMPTS && used < |script|
    requires Tried(script, k, used, scans) && ScanOf(script[used], k, found)
    ensures Read(script, k, used + 1, scans + [found])
    ensures script[used].end.Retried() ==> Tried(script, k, used + 1, scans + [found])
    ensures Latest(scans + [found]) == if found.Some? then found else Latest(scans)
  {
    ScansExtend(script, k, scans, found);
    LatestExtend(scans, found);
  }

  /** The closure's query in one attempt. */
  method ScanOnce(a: Attempt, k: Triple) returns (found: Option<Row>)
    ensures ScanOf(a, k, found)
  {
    if a.end.AbortsEarly? { return None; }
    var tx := new Transaction(Some(k.tenant), a);
    found := tx.FindOne(ActiveAt(k, a.now));
  }

  /** TenderACLRepository.FindActive: the closure leaves `result` alone when it finds no row. */
  method FindActive(db: Postgres, script: seq<Attempt>, k: Triple)
    returns (result: Option<Row>, err: Option<Code>, used: nat, ghost scans: seq<Option<Row>>)
    requires |script| == MAX_ATTEMPTS
    modifies db
    ensures Read(script, k, used, scans)
    ensures db.rows == script[used - 1].rows && db.ledger == script[used - 1].ledger
    ensures err.None? <==> script[used - 1].end.Commits?
    ensures result == Latest(scans)
  {
    result, err, used, scans := None, None, 0, [];
    while used < MAX_ATTEMPTS
      invariant Tried(script, k, used, scans) && result == Latest(scans)
      invariant used > 0 ==> Read(script, k, used, scans) && err.Some? && script[used - 1].end.Retried()
      invariant used > 0 ==> db.rows == script[used - 1].rows && db.ledger == script[used - 1].ledger
    {
      var a := script[used];
      var found := ScanOnce(a, k);
      TriedStep(script, k, used, scans, found);
      used, scans := used + 1, scans + [found];
      db.Observe(a);
      if found.Some? { result := found; }
      err := a.end.Error();
      if !a.end.Retried() { return; }
    }
  }

  lemma {:induction false} LatestIsSome(scans: seq<Option<Row>>)
    ensures Latest(scans).None? <==> forall i :: 0 <= i < |scans| ==> scans[i].None?
  {
    if scans != [] && scans[|scans| - 1].None? {
      LatestIsSome(scans[..|scans| - 1]);
    }
  }

  /**
   * FindActive is not retry-transparent: what it returns is the committed attempt's own answer
   * exactly when that attempt found a row or no earlier attempt had scanned one.
   */
  lemma FindActiveTransparentIff(scans: seq<Option<Row>>)
    requires scans != []
    ensures Latest(scans) == scans[|scans| - 1] <==>
            scans[|scans| - 1].Some? || forall i :: 0 <= i < |scans| - 1 ==> scans[i].None?
  {
    LatestIsSome(scans[..|scans| - 1]);
    assert forall i :: 0 <= i < |scans| - 1 ==> scans[i] == scans[..|scans| - 1][i];
  }

  /** A script on which it is not: the first attempt scans the row, the second commits after a revoke. */
  lemma FindActiveCanAnswerStale(row: Row, id: Uuid, now: Time, last: Attempt)
    requires row.IsActive(now)
    ensures
      var k := row.entry.key;
      var script := [Attempt(map[id := row], map[], now, AbortsLate),
                     Attempt(map[id := SoftDelete(row, now)], map[], now, Commits), last];
      var scans := [Some(row), None];
      Decided(script, 2) && Scans(script, k, scans) && Latest(scans) == Some(row) && scans[1] == None
  {
    assert id in Targets(map[id := row], Some(row.entry.key.tenant), ActiveAt(row.entry.key, now));
  }

  // ---- the list ----------------------------------------------------------------------------

  /** collectEntries: the rows of the result set, in its order. */
  method CollectEntries(t: Table, page: seq<Uuid>) returns (result: seq<Row>)
    requires forall id :: id in page ==> id in t
    ensures RowsAt(t, page, result)
  {
    result := [];
    for i := 0 to |page|
      invariant RowsAt(t, page[..i], result)
    {
      assert page[i] in page;
      result := result + [t[page[i]]];
    }
    assert page[..|page|] == page;
  }

  ghost predicate RowsAt(t: Table, ids: seq<Uuid>, rows: seq<Row>) {
    |rows| == |ids| && forall i :: 0 <= i < |ids| ==> ids[i] in t && rows[i] == t[ids[i]]
  }

  /** The rows a list pages through, by their columns: expired ones too, deleted ones not. */
  function Listed(t: Table, tenant: Uuid, tender: Uuid): set<Uuid> {
    set id | id in t && t[id].entry.key.tenant == tenant && t[id].entry.key.tender == tender && t[id].deletedAt.None?
  }

  /** One page of those rows, by created_at; each row shown has the asked tenant and tender and is undeleted. */
  ghost predicate Shows(t: Table, tenant: Uuid, tender: Uuid, limit: nat, offset: nat, page: seq<Uuid>,
                        result: seq<Row>) {
    && Pagination.LegalPage(t, Listed(t, tenant, tender), limit, offset, page) && RowsAt(t, page, result)
    && forall i :: 0 <= i < |result| ==>
         var r := result[i];
         r.entry.key.tenant == tenant && r.entry.key.tender == tender && r.deletedAt.None?
  }

  lemma PageIsShown(t: Table, tenant: Uuid, tender: Uuid, limit: nat, offset: nat, page: seq<Uuid>, result: seq<Row>)
    requires Pagination.LegalPage(t, Listed(t, tenant, tender), limit, offset, page) && RowsAt(t, page, result)
    requires forall id :: id in page ==> id in Listed(t, tenant, tender)
    ensures Shows(t, tenant, tender, limit, offset, page, result)
  {
    forall i | 0 <= i < |result|
      ensures var r := result[i];
              r.entry.key.tenant == tenant && r.entry.key.tender == tender && r.deletedAt.None?
    {
      assert page[i] in page;
    }
  }

  lemma ListSelects(t: Table, tenant: Uuid, tender: Uuid)
    ensures Targets(t, Some(tenant), LiveOfTender(tenant, tender)) == Listed(t, tenant, tender)
  {
  }

  /**
   * TenderACLRepository.List; `orders` are the orders in which the attempts would deliver the
   * matching rows. On success the result is one page of the tender's live rows, by created_at,
   * as the committed attempt saw them; nothing of an aborted attempt is left in it.
   */
  method List(db: Postgres, script: seq<Attempt>, orders: seq<seq<Uuid>>, tenant: Uuid, tender: Uuid, limit: nat,
              offset: nat)
    returns (result: seq<Row>, err: Option<Code>, used: nat, ghost page: seq<Uuid>)
    requires |script| == |orders| == MAX_ATTEMPTS
    requires forall i :: 0 <= i < MAX_ATTEMPTS ==>
      Pagination.Ordering(script[i].rows, Targets(script[i].rows, Some(tenant), LiveOfTender(tenant, tender)),
                          orders[i])
    modifies db
    ensures Decided(script, used)
    ensures db.rows == script[used - 1].rows && db.ledger == script[used - 1].ledger
    ensures err.None? <==> script[used - 1].end.Commits?
    ensures err.None? ==> Shows(script[used - 1].rows, tenant, tender, limit, offset, page, result)
  {
    result, err, used, page := [], None, 0, [];
    while used < MAX_ATTEMPTS
      invariant used <= MAX_ATTEMPTS
      invariant Retrying(script, used)
      invariant used > 0 ==> err.Some? && db.rows == script[used - 1].rows && db.ledger == script[used - 1].ledger
    {
      var a, order := script[used], orders[used];
      used := used + 1;
      db.Observe(a);
      if a.end.AbortsEarly? { err := Some(Internal); continue; }
      ListSelects(a.rows, tenant, tender);
      page := Pagination.Page(order, limit, offset);
      PageIsKnown(a.rows, Listed(a.rows, tenant, tender), order, limit, offset);
      result := CollectEntries(a.rows, Pagination.Page(order, limit, offset));
      PageIsShown(a.rows, tenant, tender, limit, offset, page, result);
      err := a.end.Error();
      if !a.end.Retried() { return; }
    }
  }

  lemma PageIsKnown(t: Table, rows: set<Uuid>, order: seq<Uuid>, limit: nat, offset: nat)
    requires Pagination.Ordering(t, rows, order)
    ensures Pagination.LegalPage(t, rows, limit, offset, Pagination.Page(order, limit, offset))
    ensures forall id :: id in Pagination.Page(order, limit, offset) ==> id in t && id in rows
  {
    assert forall id :: id in Pagination.Page(order, limit, offset) ==> id in Pagination.Elems(order);
  }
}
