/**
 * The two event consumers: parsing the envelope, the probe, and one retried transaction that holds
 * the cascade and the mark; and the pruning of old marks.
 */
module Consumers {
  import opened Domain
  import opened EntryTable
  import opened AccessCache
  import opened EventLedger
  import opened Protocol
  import opened Cascades
  import opened Refinement
  import opened Repository

  /** The envelope fields the handlers use; an id that does not parse is None. */
  datatype Envelope = Envelope(kind: string, id: Option<Uuid>, tenant: Option<Uuid>, subject: Option<Uuid>)

  datatype Parsed = Malformed | AckOnly | Deliver(d: Delivery)

  function KnownType(c: Consumer): string {
    match c case TenantLifecycle => "TenantMembershipsPurged" case MemberRemoval => "MembershipRevoked"
  }

  function Parse(c: Consumer, env: Envelope): Parsed {
    if env.kind != "" && env.kind != KnownType(c) then
      if env.id.None? then AckOnly else Deliver(Unknown(env.id.value, c))
    else if env.id.None? || env.tenant.None? then Parsed.Malformed
    else match c
      case TenantLifecycle => Deliver(Purged(env.id.value, env.tenant.value))
      case MemberRemoval =>
        if env.subject.None? then Parsed.Malformed
        else Deliver(Removed(env.id.value, env.tenant.value, env.subject.value))
  }

  // ---- what an envelope asks for, from its own fields --------------------------------------------

  /** The type is the consumer's own, or missing. */
  predicate OwnType(c: Consumer, env: Envelope) {
    env.kind == "" || env.kind == (if c == TenantLifecycle then "TenantMembershipsPurged" else "MembershipRevoked")
  }

  /** An own-type envelope whose ids do not all parse; only a removal needs the subject. */
  predicate Unreadable(c: Consumer, env: Envelope) {
    OwnType(c, env) && (env.id.None? || env.tenant.None? || (c == MemberRemoval && env.subject.None?))
  }

  /** The rows the envelope is about: all of the tenant, or the undeleted ones of the tenant's user. */
  predicate Concerns(c: Consumer, env: Envelope, r: Row) {
    && OwnType(c, env) && env.tenant == Some(r.entry.key.tenant)
    && (c == MemberRemoval ==> env.subject == Some(r.entry.key.user) && r.deletedAt.None?)
  }

  /** A row that is still there afterwards. */
  function Left(c: Consumer, env: Envelope, r: Row, now: Time): Row {
    if Concerns(c, env, r) then r.(deletedAt := Some(now), updatedAt := now, version := r.version + 1) else r
  }

  /**
   * What a committed transaction for the envelope leaves: a purge removes exactly the rows concerned,
   * a removal marks exactly those deleted, any other type touches none, and the event is marked
   * under this consumer, keeping an older mark's time.
   */
  ghost predicate Carried(c: Consumer, env: Envelope, a: Attempt, rows: Table, ledger: Ledger) {
    && env.id.Some? && !Unreadable(c, env)
    && (forall id :: id in rows <==> id in a.rows && !(c == TenantLifecycle && Concerns(c, env, a.rows[id])))
    && (forall id :: id in rows ==> rows[id] == Left(c, env, a.rows[id], a.now))
    && var m := Mark(env.id.value, c);
       ledger == if m in a.ledger then a.ledger else a.ledger[m := a.now]
  }

  /** The parsed form against the fields. */
  lemma ParseIff(c: Consumer, env: Envelope)
    ensures Parse(c, env).Malformed? <==> Unreadable(c, env)
    ensures Parse(c, env).AckOnly? <==> !OwnType(c, env) && env.id.None?
    ensures Parse(c, env).Deliver? ==> env.id.Some? && Parse(c, env).d.MarkOf() == Mark(env.id.value, c)
    ensures Parse(c, env).Deliver? ==> (Parse(c, env).d.Unknown? <==> !OwnType(c, env))
  {
  }

  lemma DeliveryCarries(c: Consumer, env: Envelope, a: Attempt)
    requires Parse(c, env).Deliver?
    ensures var d := Parse(c, env).d;
            Carried(c, env, a, Cascade(a.rows, d, a.now), MarkProcessed(a.ledger, d.MarkOf(), a.now))
  {
    var d := Parse(c, env).d;
    var rows := Cascade(a.rows, d, a.now);
    ParseIff(c, env);
    forall id | id in a.rows
      ensures id in rows <==> !(c == TenantLifecycle && Concerns(c, env, a.rows[id]))
      ensures id in rows ==> rows[id] == Left(c, env, a.rows[id], a.now)
    {
      CascadeAt(a.rows, d, a.now, id);
    }
    assert forall id :: id in rows ==> id in a.rows;
  }

  /** The statement of the cascade, joining the handler's transaction. */
  method CascadeIn(tx: Transaction, d: Delivery) returns (affected: nat)
    requires !d.Unknown? ==> tx.binding == Some(d.tenant)
    modifies tx
    ensures tx.rows == Cascade(old(tx.rows), d, tx.now) && tx.ledger == old(tx.ledger)
    ensures affected == |CascadeIds(old(tx.rows), d)|
  {
    match d {
      case Purged(_, t) => affected := tx.DeleteWhere(AllOfTenant(t));
      case Removed(_, t, u) => affected := tx.SoftDeleteWhere(LiveOfUser(t, u));
      case Unknown(_, _) => affected := 0;
    }
  }

  /** Both writes of a delivery, or neither. */
  ghost predicate Together(rows: Table, ledger: Ledger, a: Attempt, d: Delivery) {
    || (rows == a.rows && ledger == a.ledger)
    || (rows == Cascade(a.rows, d, a.now) && ledger == MarkProcessed(a.ledger, d.MarkOf(), a.now))
  }

  /** In every state the attempt may have met the machine's step for `d` is possible and leaves these tables. */
  ghost predicate DeliveryStep(a: Attempt, d: Delivery, rows: Table, ledger: Ledger) {
    forall s: State, o :: Meets(s, a) && o in s.ops && s.ops[o] == (if d.Unknown? then Received(d) else Claimed(d)) ==>
      var e := if d.Unknown? then AckCommits(o) else CascadeCommits(o, |CascadeIds(a.rows, d)|);
      Enabled(s, e) && Apply(s, e) == s.(rows := rows, ledger := ledger, ops := s.ops - {o})
  }

  lemma CascadeIsStep(a: Attempt, d: Delivery)
    ensures DeliveryStep(a, d, Cascade(a.rows, d, a.now), MarkProcessed(a.ledger, d.MarkOf(), a.now))
  {
  }

  /** TxRunner.RunInTx around the cascade and the mark, with its retries; the count is the cascade's. */
  method RunCascade(db: Postgres, script: seq<Attempt>, d: Delivery) returns (ok: bool, affected: nat, used: nat)
    requires |script| == MAX_ATTEMPTS
    modifies db
    ensures Decided(script, used)
    ensures Together(db.rows, db.ledger, script[used - 1], d)
    ensures ok <==> script[used - 1].end.Commits?
    ensures ok ==> var a := script[used - 1];
                   && db.rows == Cascade(a.rows, d, a.now) && db.ledger == MarkProcessed(a.ledger, d.MarkOf(), a.now)
                   && affected == |CascadeIds(a.rows, d)|
    ensures var a := script[used - 1];
            ok || db.rows != a.rows || db.ledger != a.ledger ==> DeliveryStep(a, d, db.rows, db.ledger)
  {
    ok, affected, used := false, 0, 0;
    while used < MAX_ATTEMPTS
      invariant used <= MAX_ATTEMPTS && !ok
      invariant Retrying(script, used)
      invariant used > 0 ==> db.rows == script[used - 1].rows && db.ledger == script[used - 1].ledger
    {
      var a := script[used];
      used := used + 1;
      db.Observe(a);
      var tx := new Transaction(if d.Unknown? then None else Some(d.tenant), a);
      if a.end.AbortsEarly? { continue; }
      affected := CascadeIn(tx, d);
      CascadeIsStep(a, d);
      tx.Mark(d.MarkOf());
      if a.end.Commits? || a.end.CommitsUnseen? {
        db.rows, db.ledger := tx.rows, tx.ledger;
        ok := a.end.Commits?;
        return;
      }
      if a.end.Breaks? { return; }
    }
  }

  // ---- a handled delivery is a path of the machine ----------------------------------------------

  /** The step acknowledges an operation that carries `d`. */
  ghost predicate AcksAt(m: State, e: Event, d: Delivery) {
    Enabled(m, e) && (e.ProbeHit? || e.CascadeCommits? || e.AckCommits?) && m.ops[e.op].d == d
  }

  /** The machine goes from s to s' and on the way acknowledges `d`. */
  ghost predicate Acknowledges(s: State, d: Delivery, s': State) {
    exists m, e :: Reaches(s, m) && AcksAt(m, e, d) && Reaches(Apply(m, e), s')
  }

  lemma AckedThenWait(s: State, m: State, e: Event, d: Delivery, to: Time)
    requires Reaches(s, m) && AcksAt(m, e, d) && Apply(m, e).now <= to
    ensures Acknowledges(s, d, Apply(m, e).(now := to)) && Reaches(s, Apply(m, e).(now := to))
  {
    Wait(Apply(m, e), to);
    Step(m, e, Apply(m, e));
    Then(s, m, Apply(m, e));
    Then(s, Apply(m, e), Apply(m, e).(now := to));
  }

  lemma ReceivedPath(from: Time, rows: Table, ledger: Ledger, cache: Store, d: Delivery)
    ensures Reaches(Idle(from, rows, ledger, cache), Busy(from, rows, ledger, cache, Received(d)))
  {
    Step(Idle(from, rows, ledger, cache), Receive(0, d), Busy(from, rows, ledger, cache, Received(d)));
  }

  /** The probe found the mark. */
  lemma ProbeHitPath(from: Time, rows: Table, ledger: Ledger, cache: Store, d: Delivery, to: Time)
    requires from <= to && !d.Unknown? && d.MarkOf() in ledger
    ensures Acknowledges(Idle(from, rows, ledger, cache), d, Idle(to, rows, ledger, cache))
  {
    var m := Busy(from, rows, ledger, cache, Received(d));
    ReceivedPath(from, rows, ledger, cache, d);
    assert map[0 := Received(d)] - {0} == map[];
    AckedThenWait(Idle(from, rows, ledger, cache), m, ProbeHit(0), d, to);
  }

  /** The probe missed and a transaction of the cascade and the mark committed at `at`. */
  lemma CascadePath(from: Time, rows: Table, ledger: Ledger, cache: Store, d: Delivery, at: Time, to: Time)
    requires from <= at <= to && !d.Unknown? && d.MarkOf() !in ledger
    ensures var s, s' := Idle(from, rows, ledger, cache),
      Idle(to, Cascade(rows, d, at), MarkProcessed(ledger, d.MarkOf(), at), cache);
            Acknowledges(s, d, s') && Reaches(s, s')
  {
    ClaimedPath(from, rows, ledger, cache, d, at);
    var m, e := Busy(at, rows, ledger, cache, Claimed(d)), CascadeCommits(0, |CascadeIds(rows, d)|);
    assert map[0 := Claimed(d)] - {0} == map[];
    AckedThenWait(Idle(from, rows, ledger, cache), m, e, d, to);
  }

  lemma ClaimedPath(from: Time, rows: Table, ledger: Ledger, cache: Store, d: Delivery, at: Time)
    requires from <= at && !d.Unknown? && d.MarkOf() !in ledger
    ensures Reaches(Idle(from, rows, ledger, cache), Busy(at, rows, ledger, cache, Claimed(d)))
  {
    var s0, s1 := Idle(from, rows, ledger, cache), Busy(from, rows, ledger, cache, Received(d));
    var s2 := Busy(from, rows, ledger, cache, Claimed(d));
    ReceivedPath(from, rows, ledger, cache, d);
    Step(s1, ProbeMiss(0), s2);
    Wait(s2, at);
    Then(s0, s1, s2);
    Then(s0, s2, s2.(now := at));
  }

  /** An unknown type: the mark alone. */
  lemma AckPath(from: Time, rows: Table, ledger: Ledger, cache: Store, d: Delivery, at: Time, to: Time)
    requires from <= at <= to && d.Unknown?
    ensures var s, s' := Idle(from, rows, ledger, cache), Idle(to, rows, MarkProcessed(ledger, d.MarkOf(), at), cache);
            Acknowledges(s, d, s') && Reaches(s, s')
  {
    var s, s1, m := Idle(from, rows, ledger, cache), Busy(from, rows, ledger, cache, Received(d)),
        Busy(at, rows, ledger, cache, Received(d));
    ReceivedPath(from, rows, ledger, cache, d);
    Wait(s1, at);
    Then(s, s1, m);
    assert map[0 := Received(d)] - {0} == map[];
    AckedThenWait(s, m, AckCommits(0), d, to);
  }

  /** What RunCascade leaves, both writes or neither, after a probe that missed or for an unknown type. */
  lemma TransactionPath(from: Time, cache: Store, d: Delivery, a: Attempt, rows: Table, ledger: Ledger, to: Time)
    requires from <= a.now <= to && (d.Unknown? || d.MarkOf() !in a.ledger) && Together(rows, ledger, a, d)
    ensures Reaches(Idle(from, a.rows, a.ledger, cache), Idle(to, rows, ledger, cache))
    ensures rows == Cascade(a.rows, d, a.now) && ledger == MarkProcessed(a.ledger, d.MarkOf(), a.now) ==>
            Acknowledges(Idle(from, a.rows, a.ledger, cache), d, Idle(to, rows, ledger, cache))
  {
    Wait(Idle(from, a.rows, a.ledger, cache), to);
    if d.Unknown? {
      AckPath(from, a.rows, a.ledger, cache, d, a.now, to);
    } else {
      CascadePath(from, a.rows, a.ledger, cache, d, a.now, to);
    }
  }

  /**
   * Handle of either consumer: ok is a nil return. The probe runs in a transaction of its own,
   * opened when it is reached; unknown types go straight to the mark. With nobody else writing
   * between `from` and `to`, whatever it returns it is a path of the machine, and one that
   * acknowledges the delivery if it returned nil.
   */
  method Handle(db: Postgres, c: Consumer, env: Envelope, probe: Attempt, script: seq<Attempt>, ghost cache: Store,
                ghost from: Time, ghost to: Time)
    returns (ok: bool, used: nat)
    requires |script| == MAX_ATTEMPTS && from <= to
    modifies db
    ensures Unreadable(c, env) ==> !ok && used == 0 && db.rows == old(db.rows) && db.ledger == old(db.ledger)
    ensures !OwnType(c, env) && env.id.None? ==>
      ok && used == 0 && db.rows == old(db.rows) && db.ledger == old(db.ledger)
    ensures used == 0 && !Unreadable(c, env) && env.id.Some? ==>
      OwnType(c, env) && db.rows == probe.rows && db.ledger == probe.ledger &&
      (ok <==> probe.end.Commits? && Mark(env.id.value, c) in probe.ledger)
    ensures used > 0 ==> env.id.Some? && !Unreadable(c, env) && Decided(script, used)
    ensures used > 0 && OwnType(c, env) ==> probe.end.Commits? && Mark(env.id.value, c) !in probe.ledger
    ensures used > 0 ==> var a := script[used - 1];
            || (!ok && db.rows == a.rows && db.ledger == a.ledger)
            || Carried(c, env, a, db.rows, db.ledger)
    ensures Alone([probe] + script, old(db.rows), old(db.ledger), from, to) ==>
      var s, s' := Idle(from, old(db.rows), old(db.ledger), cache), Idle(to, db.rows, db.ledger, cache);
      Reaches(s, s') && (ok && Parse(c, env).Deliver? ==> Acknowledges(s, Parse(c, env).d, s'))
  {
    used := 0;
    ParseIff(c, env);
    Wait(Idle(from, db.rows, db.ledger, cache), to);
    assert ([probe] + script)[0] == probe && forall i :: 0 <= i < |script| ==> ([probe] + script)[i + 1] == script[i];
    match Parse(c, env) {
      case Malformed => ok := false;
      case AckOnly => ok := true;
      case Deliver(d) =>
        if !d.Unknown? {
          db.Observe(probe);
          if !probe.end.Commits? { return false, 0; }
          if d.MarkOf() in db.ledger {
            ProbeHitPath(from, db.rows, db.ledger, cache, d, to);
            return true, 0;
          }
        }
        var affected;
        ok, affected, used := RunCascade(db, script, d);
        DeliveryCarries(c, env, script[used - 1]);
        if Alone([probe] + script, old(db.rows), old(db.ledger), from, to) {
          TransactionPath(from, cache, d, script[used - 1], db.rows, db.ledger, to);
        }
    }
  }

  /** In every state with this ledger, whatever is in flight, the machine's prune leaves that one. */
  ghost predicate PruneStep(c: Consumer, now: Time, ledger: Ledger, deleted: nat, left: Ledger) {
    forall s: State :: s.ledger == ledger && s.now == now ==>
      Enabled(s, Prune(c, deleted)) && Apply(s, Prune(c, deleted)) == s.(ledger := left)
  }

  lemma PruneIsStep(c: Consumer, now: Time, ledger: Ledger)
    ensures PruneStep(c, now, ledger, |Expired(ledger, c, now)|, ledger - Expired(ledger, c, now))
  {
  }

  /** CleanupExpired: only this consumer's marks older than 8 days go. */
  method CleanupExpired(db: Postgres, c: Consumer, now: Time) returns (deleted: nat)
    modifies db
    ensures db.rows == old(db.rows)
    ensures deleted == |old(db.ledger)| - |db.ledger|
    ensures forall m :: m in db.ledger <==>
      m in old(db.ledger) && !(m.consumer == c && now - old(db.ledger)[m] > 8 * 24 * 3600 * 1_000_000)
    ensures forall m :: m in db.ledger ==> db.ledger[m] == old(db.ledger)[m]
    ensures PruneStep(c, now, old(db.ledger), deleted, db.ledger)
  {
    var gone := Expired(db.ledger, c, now);
    ghost var was := db.ledger;
    db.ledger := db.ledger - gone;
    deleted := |gone|;
    assert was.Keys == db.ledger.Keys + gone;
    PruneIsStep(c, now, was);
  }
}
