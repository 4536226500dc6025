/**
 * The table tender_acl_entries: its row policy, trigger, constraints and the
 * statements the repository runs on it.
 */
module EntryTable {
  import opened Domain

  type Table = map<Uuid, Row>

  /** The transaction's app.tenant_id setting; None stands for unset or empty. */
  type Binding = Option<Uuid>

  /** The tenant_isolation policy, for reading as for writing. */
  predicate Visible(b: Binding, e: NewEntry) {
    b == Some(e.key.tenant)
  }

  /** withTenant: a statement joins the ambient transaction, whose binding stays, or opens its own. */
  function BindingFor(tenant: Uuid, ambient: Option<Binding>): Binding {
    match ambient case Some(b) => b case None => Some(tenant)
  }

  /** The WHERE clauses of the repository's statements. */
  datatype Query =
    | LiveVersion(key: Triple, version: int)      // Revoke
    | ActiveAt(key: Triple, now: Time)            // FindActive
    | LiveOfUser(tenant: Uuid, user: Uuid)        // SoftDeleteForUser
    | AllOfTenant(tenant: Uuid)                   // CascadeDeleteForTenant
    | LiveOfTender(tenant: Uuid, tender: Uuid)    // List
  {
    /** The tenant the statement is scoped to. */
    function Owner(): Uuid {
      match this
      case LiveVersion(k, _) => k.tenant
      case ActiveAt(k, _) => k.tenant
      case LiveOfUser(t, _) => t
      case AllOfTenant(t) => t
      case LiveOfTender(t, _) => t
    }

    predicate Matches(r: Row) {
      match this
      case LiveVersion(k, v) => r.entry.key == k && r.deletedAt.None? && r.version == v
      case ActiveAt(k, now) =>
        r.entry.key == k && r.deletedAt.None? && (r.entry.expiresAt.None? || r.entry.expiresAt.value > now)
      case LiveOfUser(t, u) => r.entry.key.tenant == t && r.entry.key.user == u && r.deletedAt.None?
      case AllOfTenant(t) => r.entry.key.tenant == t
      case LiveOfTender(t, d) => r.entry.key.tenant == t && r.entry.key.tender == d && r.deletedAt.None?
    }
  }

  /** The rows a statement reaches in a transaction bound to `b`. */
  function Targets(t: Table, b: Binding, q: Query): set<Uuid> {
    set id | id in t && Visible(b, t[id].entry) && q.Matches(t[id])
  }

  /** The rows the WHERE clause alone selects, with no policy in force. */
  function Selected(t: Table, q: Query): set<Uuid> {
    set id | id in t && q.Matches(t[id])
  }

  /** The undeleted rows of a triple, whether or not they have expired. */
  function LiveRows(t: Table, k: Triple): set<Uuid> {
    set id | id in t && t[id].entry.key == k && t[id].Live()
  }

  /** BEFORE UPDATE trigger touch_row, with its WHEN guard. */
  function Touch(was: Row, becomes: Row, now: Time): Row {
    if was == becomes then becomes else becomes.(updatedAt := now, version := was.version + 1)
  }

  /** UPDATE ... SET deleted_at = now() on one row. */
  function SoftDelete(r: Row, now: Time): Row {
    Touch(r, r.(deletedAt := Some(now)), now)
  }

  function SoftDeleteAll(t: Table, ids: set<Uuid>, now: Time): Table {
    map id | id in t :: if id in ids then SoftDelete(t[id], now) else t[id]
  }

  datatype InsertResult =
    | Inserted(table: Table, row: Row)
    | BadLevel          // the cast to the enum fails
    | PolicyRejected    // WITH CHECK fails
    | CheckFailed       // reason longer than 500 characters
    | Duplicate         // any unique violation: the partial index, or the primary key

  /** INSERT ... RETURNING; `id` is the value gen_random_uuid() draws. */
  function Insert(t: Table, b: Binding, e: NewEntry, id: Uuid, now: Time): InsertResult {
    var row := Row(e, 1, now, now, None);
    if !ValidLevel(e.level) then BadLevel
    else if !Visible(b, e) then PolicyRejected
    else if |e.reason| > MAX_REASON then CheckFailed
    else if id in t || LiveRows(t, e.key) != {} then Duplicate
    else Inserted(t[id := row], row)
  }

  /** What holds of the table in every state reached from the empty one. */
  ghost predicate TableInv(t: Table) {
    && (forall i, j :: i in t && j in t && t[i].Live() && t[j].Live() && t[i].entry.key == t[j].entry.key ==> i == j)
    && (forall i :: i in t ==> RowInv(t[i]))
  }

  ghost predicate RowInv(r: Row) {
    && r.version == (if r.Live() then 1 else 2)
    && r.updatedAt == (if r.Live() then r.createdAt else r.deletedAt.value)
    && ValidLevel(r.entry.level)
    && |r.entry.reason| <= MAX_REASON
  }

  /** A later form of the same row: only deleted_at, updated_at and record_version may differ. */
  ghost predicate Succeeds(r: Row, later: Row) {
    || later == r
    || (r.Live() && later == r.(deletedAt := later.deletedAt, updatedAt := later.updatedAt, version := r.version + 1)
        && later.deletedAt.Some? && later.updatedAt == later.deletedAt.value)
  }

  // ---- the invariant is kept by every statement ------------------------------------------

  lemma InsertKeepsInv(t: Table, b: Binding, e: NewEntry, id: Uuid, now: Time)
    requires TableInv(t)
    ensures var r := Insert(t, b, e, id, now); r.Inserted? ==> TableInv(r.table)
  {
    var r := Insert(t, b, e, id, now);
    if r.Inserted? {
      assert forall i :: i in t && t[i].Live() && t[i].entry.key == e.key ==> i in LiveRows(t, e.key);
    }
  }

  lemma SoftDeleteKeepsInv(t: Table, ids: set<Uuid>, now: Time)
    requires TableInv(t)
    requires forall id :: id in ids ==> id in t && t[id].Live()
    ensures TableInv(SoftDeleteAll(t, ids, now))
  {
  }

  lemma HardDeleteKeepsInv(t: Table, ids: set<Uuid>)
    requires TableInv(t)
    ensures TableInv(t - ids)
  {
  }

  // ---- tenant frame ----------------------------------------------------------------------

  /**
   * Under the policy a statement reaches exactly the rows its WHERE clause selects when the
   * transaction is bound to the statement's own tenant, and nothing under any other binding.
   */
  lemma PolicyFrame(t: Table, b: Binding, q: Query)
    ensures Targets(t, b, q) == if b == Some(q.Owner()) then Selected(t, q) else {}
  {
    forall id | id in t && q.Matches(t[id]) ensures t[id].entry.key.tenant == q.Owner() {}
  }

  /** The same for a statement that joins a transaction: it works there only if that is bound to its tenant. */
  lemma JoinedFrame(t: Table, q: Query, ambient: Option<Binding>)
    ensures Targets(t, BindingFor(q.Owner(), ambient), q) ==
            if ambient == None || ambient == Some(Some(q.Owner())) then Selected(t, q) else {}
  {
    PolicyFrame(t, BindingFor(q.Owner(), ambient), q);
  }

  /** No statement, under any binding, changes a row of another tenant. */
  lemma OtherTenantsUntouched(t: Table, b: Binding, q: Query, now: Time, id: Uuid)
    requires id in t && t[id].entry.key.tenant != q.Owner()
    ensures id in SoftDeleteAll(t, Targets(t, b, q), now) && SoftDeleteAll(t, Targets(t, b, q), now)[id] == t[id]
    ensures id in t - Targets(t, b, q)
  {
    PolicyFrame(t, b, q);
  }

  /** A write bound to a different tenant, or to none, is refused whatever it carries. */
  lemma UnboundInsertRefused(t: Table, b: Binding, e: NewEntry, id: Uuid, now: Time)
    requires b != Some(e.key.tenant)
    ensures !Insert(t, b, e, id, now).Inserted?
  {
  }

  // ---- what each statement decides -------------------------------------------------------

  /**
   * FindActive against a plain scan: the query selects exactly the rows of the triple that
   * IsActive accepts, and there is at most one, so the single-row read is deterministic.
   */
  lemma FindActiveIsScan(t: Table, k: Triple, now: Time)
    requires TableInv(t)
    ensures Targets(t, Some(k.tenant), ActiveAt(k, now)) == set id | id in t && t[id].entry.key == k &&
      t[id].IsActive(now)
    ensures var found := Targets(t, Some(k.tenant), ActiveAt(k, now));
            forall i, j :: i in found && j in found ==> i == j
  {
  }

  /** For an entry the service may send, the insert fails exactly when an undeleted row exists. */
  lemma GrantConflictIff(t: Table, e: NewEntry, id: Uuid, now: Time)
    requires ValidLevel(e.level) && |e.reason| <= MAX_REASON && id !in t
    ensures Insert(t, Some(e.key.tenant), e, id, now).Duplicate? <==> LiveRows(t, e.key) != {}
    ensures Insert(t, Some(e.key.tenant), e, id, now).Inserted? <==> LiveRows(t, e.key) == {}
    ensures Targets(t, Some(e.key.tenant), ActiveAt(e.key, now)) != {} ==>
      Insert(t, Some(e.key.tenant), e, id, now).Duplicate?
  {
    if id' :| id' in Targets(t, Some(e.key.tenant), ActiveAt(e.key, now)) {
      assert id' in LiveRows(t, e.key);
    }
  }

  /** A row that has expired but was never revoked: FindActive finds nothing, yet Grant conflicts. */
  lemma ExpiredRowStillBlocks(e: NewEntry, id: Uuid, id': Uuid, made: Time, now: Time)
    requires ValidLevel(e.level) && |e.reason| <= MAX_REASON && id != id'
    requires e.expiresAt.Some? && made < e.expiresAt.value <= now
    ensures
      var t := Insert(map[], Some(e.key.tenant), e, id, made).table;
      && Targets(t, Some(e.key.tenant), ActiveAt(e.key, now)) == {}
      && Insert(t, Some(e.key.tenant), e, id', now).Duplicate?
  {
    assert LiveRows(map[], e.key) == {};
    var t := Insert(map[], Some(e.key.tenant), e, id, made).table;
    assert id in LiveRows(t, e.key);
  }

  /** What List shows: a row that has expired is listed, and once revoked no longer. */
  lemma ListHidesRevoked(e: NewEntry, id: Uuid, made: Time, at: Time)
    requires ValidLevel(e.level) && |e.reason| <= MAX_REASON
    ensures
      var q, t := LiveOfTender(e.key.tenant, e.key.tender), Insert(map[], Some(e.key.tenant), e, id, made).table;
      && Selected(t, q) == {id}
      && id in SoftDeleteAll(t, {id}, at) && Selected(SoftDeleteAll(t, {id}, at), q) == {}
  {
    assert LiveRows(map[], e.key) == {};
  }

  /**
   * What the version token protects: in every reachable table the only value that can succeed
   * is 1, it succeeds exactly when an undeleted row exists, and it then takes that one row.
   */
  lemma RevokeIff(t: Table, k: Triple, version: int)
    requires TableInv(t)
    ensures Targets(t, Some(k.tenant), LiveVersion(k, version)) == if version == 1 then LiveRows(t, k) else {}
    ensures |LiveRows(t, k)| <= 1
  {
    var live := LiveRows(t, k);
    if live != {} {
      var id :| id in live;
      assert live == {id};
    }
  }

  /**
   * Between a successful revoke and the next grant of the triple every revoke conflicts; after
   * that grant the token read from the revoked row succeeds again, on the new row.
   */
  lemma TokenSurvivesRegrant(t: Table, e: NewEntry, id: Uuid, now: Time, version: int)
    requires TableInv(t) && LiveRows(t, e.key) != {} && id !in t
    requires ValidLevel(e.level) && |e.reason| <= MAX_REASON
    ensures
      var b := Some(e.key.tenant);
      var revoked := SoftDeleteAll(t, Targets(t, b, LiveVersion(e.key, 1)), now);
      && Targets(revoked, b, LiveVersion(e.key, version)) == {}
      && Insert(revoked, b, e, id, now).Inserted?
      && Targets(Insert(revoked, b, e, id, now).table, b, LiveVersion(e.key, 1)) == {id}
  {
    var b := Some(e.key.tenant);
    RevokeIff(t, e.key, 1);
    var revoked := SoftDeleteAll(t, Targets(t, b, LiveVersion(e.key, 1)), now);
    assert forall i :: i in t && t[i].Live() && t[i].entry.key == e.key ==> i in LiveRows(t, e.key);
    assert LiveRows(revoked, e.key) == {};
  }
}
