/**
 * The running service as interleaved atomic steps. Every call into Postgres, Valkey or the
 * membership service is one step of an operation in flight; between two steps of one operation
 * any step of any other may happen, the clock may advance, and the operation itself may vanish.
 */
module Protocol {
  import opened Domain
  import opened EntryTable
  import opened AccessCache
  import opened EventLedger
  import opened Granting

  /** A message on one of the two queues, after its ids have been parsed. */
  datatype Delivery =
    | Purged(event: Uuid, tenant: Uuid)                    // TenantMembershipsPurged
    | Removed(event: Uuid, tenant: Uuid, user: Uuid)       // MembershipRevoked
    | Unknown(event: Uuid, queue: Consumer)                // any other type, acknowledged and marked
  {
    function MarkOf(): Mark {
      match this
      case Purged(e, _) => Mark(e, TenantLifecycle)
      case Removed(e, _, _) => Mark(e, MemberRemoval)
      case Unknown(e, c) => Mark(e, c)
    }
  }

  const MAX_ATTEMPTS: nat := 3

  /** An operation in flight; the constructor is its program counter. */
  datatype Op =
    | CheckStart(key: Triple)
    | CheckFind(key: Triple, tries: nat, carried: Option<CachedAccess>)
    | CheckDone(key: Triple, answer: CachedAccess)
    | GrantStart(req: GrantRequest)
    | GrantVetted(entry: NewEntry)
    | RevokeStart(key: Triple, version: int)
    | Invalidate(key: Triple)
    | Received(d: Delivery)
    | Claimed(d: Delivery)
  {
    predicate ChecksKey(k: Triple) {
      (CheckStart? || CheckFind? || CheckDone?) && key == k
    }
  }

  type OpId = nat

  datatype State = State(now: Time, rows: Table, ledger: Ledger, cache: Store, ops: map<OpId, Op>)

  const INIT: State := State(0, map[], map[], map[], map[])

  datatype Event =
    | Tick(elapsed: nat)
    // CheckAccess
    | BeginCheck(op: OpId, k: Triple)
    | CacheHit(op: OpId)                                   // returns the cached answer
    | CacheFallsThrough(op: OpId, failed: bool)            // miss, or Get failed
    | FindAborts(op: OpId, seen: Option<Uuid>)             // attempt rolled back, maybe after its scan, and retried
    | FindCommits(op: OpId, seen: Option<Uuid>)
    | CheckReturns(op: OpId, stored: bool)                 // Set applied or not, then returns
    // Grant
    | BeginGrant(op: OpId, req: GrantRequest)
    | MemberReply(op: OpId, reply: Reply)
    | GrantCommits(op: OpId, id: Uuid)
    | GrantConflicts(op: OpId, id: Uuid)
    // Revoke
    | BeginRevoke(op: OpId, k: Triple, version: int)
    | RevokeCommits(op: OpId)
    | RevokeConflicts(op: OpId)
    // after a committed grant or revoke
    | Invalidates(op: OpId, applied: bool)
    // consumers
    | Receive(op: OpId, d: Delivery)
    | ProbeHit(op: OpId)                                   // returns nil, nothing done
    | ProbeMiss(op: OpId)
    | CascadeCommits(op: OpId, affected: nat)              // cascade and mark, then returns nil
    | AckCommits(op: OpId)                                 // unknown type: mark only, then returns nil
    | Prune(consumer: Consumer, removed: nat)
    // faults
    | TxAborts(op: OpId)                                   // a write attempt rolled back, to be retried
    | Vanish(op: OpId)                                     // crash, or an error returned to the caller
    | Evict(key: string)

  // ---- the statements of each operation ---------------------------------------------------

  function ActiveIds(s: State, k: Triple): set<Uuid> {
    Targets(s.rows, Some(k.tenant), ActiveAt(k, s.now))
  }

  /** The row a single-row read may return. */
  predicate MayFind(s: State, k: Triple, seen: Option<Uuid>) {
    match seen
    case None => ActiveIds(s, k) == {}
    case Some(id) => id in ActiveIds(s, k)
  }

  function RevokeIds(s: State, k: Triple, version: int): set<Uuid> {
    Targets(s.rows, Some(k.tenant), LiveVersion(k, version))
  }

  function CascadeIds(rows: Table, d: Delivery): set<Uuid> {
    match d
    case Purged(_, t) => Targets(rows, Some(t), AllOfTenant(t))
    case Removed(_, t, u) => Targets(rows, Some(t), LiveOfUser(t, u))
    case Unknown(_, _) => {}
  }

  function Cascade(rows: Table, d: Delivery, now: Time): Table {
    match d
    case Purged(_, _) => rows - CascadeIds(rows, d)
    case Removed(_, _, _) => SoftDeleteAll(rows, CascadeIds(rows, d), now)
    case Unknown(_, _) => rows
  }

  // ---- steps ---------------------------------------------------------------------------

  /** When the labelled step can happen. */
  predicate Enabled(s: State, e: Event) {
    match e
    case Tick(_) => true
    case BeginCheck(o, _) => o !in s.ops
    case CacheHit(o) => o in s.ops && s.ops[o].CheckStart? && Hits(s.cache, s.ops[o].key, s.now)
    case CacheFallsThrough(o, failed) =>
      o in s.ops && s.ops[o].CheckStart? && (failed || !Hits(s.cache, s.ops[o].key, s.now))
    case FindAborts(o, seen) =>
      o in s.ops && s.ops[o].CheckFind? && s.ops[o].tries + 1 < MAX_ATTEMPTS &&
      (seen.Some? ==> MayFind(s, s.ops[o].key, seen))
    case FindCommits(o, seen) => o in s.ops && s.ops[o].CheckFind? && MayFind(s, s.ops[o].key, seen)
    case CheckReturns(o, _) => o in s.ops && s.ops[o].CheckDone?
    case BeginGrant(o, req) => o !in s.ops && req.Rejection(s.now).None?
    case MemberReply(o, _) => o in s.ops && s.ops[o].GrantStart?
    case GrantCommits(o, id) =>
      o in s.ops && s.ops[o].GrantVetted? &&
      var n := s.ops[o].entry; Insert(s.rows, Some(n.key.tenant), n, id, s.now).Inserted?
    case GrantConflicts(o, id) =>
      o in s.ops && s.ops[o].GrantVetted? &&
      var n := s.ops[o].entry; Insert(s.rows, Some(n.key.tenant), n, id, s.now).Duplicate?
    case BeginRevoke(o, _, _) => o !in s.ops
    case RevokeCommits(o) => o in s.ops && s.ops[o].RevokeStart? && RevokeIds(s, s.ops[o].key, s.ops[o].version) != {}
    case RevokeConflicts(o) => o in s.ops && s.ops[o].RevokeStart? && RevokeIds(s, s.ops[o].key, s.ops[o].version) == {}
    case Invalidates(o, _) => o in s.ops && s.ops[o].Invalidate?
    case Receive(o, _) => o !in s.ops
    case ProbeHit(o) => o in s.ops && s.ops[o].Received? && !s.ops[o].d.Unknown? && s.ops[o].d.MarkOf() in s.ledger
    case ProbeMiss(o) => o in s.ops && s.ops[o].Received? && !s.ops[o].d.Unknown? && s.ops[o].d.MarkOf() !in s.ledger
    case CascadeCommits(o, n) =>
      o in s.ops && s.ops[o].Claimed? && !s.ops[o].d.Unknown? && n == |CascadeIds(s.rows, s.ops[o].d)|
    case AckCommits(o) => o in s.ops && s.ops[o].Received? && s.ops[o].d.Unknown?
    case Prune(c, n) => n == |Expired(s.ledger, c, s.now)|
    case TxAborts(o) => o in s.ops &&
      (s.ops[o].GrantVetted? || s.ops[o].RevokeStart? || s.ops[o].Claimed? || s.ops[o].Received?)
    case Vanish(o) => o in s.ops
    case Evict(_) => true
  }

  /** The state after the step. */
  function Apply(s: State, e: Event): State
    requires Enabled(s, e)
  {
    match e
    case Tick(d) => s.(now := s.now + d)
    case BeginCheck(o, k) => s.(ops := s.ops[o := CheckStart(k)])
    case CacheHit(o) => s.(ops := s.ops - {o})
    case CacheFallsThrough(o, _) => s.(ops := s.ops[o := CheckFind(s.ops[o].key, 0, None)])
    case FindAborts(o, seen) =>
      var op := s.ops[o];
      s.(ops := s.ops[o := CheckFind(op.key, op.tries + 1, Scanned(s.rows, seen, op.carried))])
    case FindCommits(o, seen) =>
      var op := s.ops[o];
      s.(ops := s.ops[o := CheckDone(op.key, Scanned(s.rows, seen, op.carried).GetOr(NoAccess))])
    case CheckReturns(o, stored) =>
      var op := s.ops[o];
      s.(ops := s.ops - {o},
         cache := if stored then s.cache[KeyText(op.key) := Cell(op.answer, s.now)] else s.cache)
    case BeginGrant(o, req) => s.(ops := s.ops[o := GrantStart(req)])
    case MemberReply(o, reply) =>
      (match Exists(reply)
       case Active(m) => s.(ops := s.ops[o := GrantVetted(s.ops[o].req.Entry(m))])
       case _ => s.(ops := s.ops - {o}))
    case GrantCommits(o, id) =>
      var n := s.ops[o].entry;
      s.(rows := Insert(s.rows, Some(n.key.tenant), n, id, s.now).table, ops := s.ops[o := Invalidate(n.key)])
    case GrantConflicts(o, _) => s.(ops := s.ops - {o})
    case BeginRevoke(o, k, v) => s.(ops := s.ops[o := RevokeStart(k, v)])
    case RevokeCommits(o) =>
      var op := s.ops[o];
      s.(rows := SoftDeleteAll(s.rows, RevokeIds(s, op.key, op.version), s.now), ops := s.ops[o := Invalidate(op.key)])
    case RevokeConflicts(o) => s.(ops := s.ops - {o})
    case Invalidates(o, applied) =>
      s.(ops := s.ops - {o}, cache := if applied then s.cache - {KeyText(s.ops[o].key)} else s.cache)
    case Receive(o, d) => s.(ops := s.ops[o := Received(d)])
    case ProbeHit(o) => s.(ops := s.ops - {o})
    case ProbeMiss(o) => s.(ops := s.ops[o := Claimed(s.ops[o].d)])
    case CascadeCommits(o, _) =>
      var d := s.ops[o].d;
      s.(rows := Cascade(s.rows, d, s.now), ledger := MarkProcessed(s.ledger, d.MarkOf(), s.now), ops := s.ops - {o})
    case AckCommits(o) =>
      s.(ledger := MarkProcessed(s.ledger, s.ops[o].d.MarkOf(), s.now), ops := s.ops - {o})
    case Prune(c, _) => s.(ledger := s.ledger - Expired(s.ledger, c, s.now))
    case TxAborts(_) => s
    case Vanish(o) => s.(ops := s.ops - {o})
    case Evict(key) => s.(cache := s.cache - {key})
  }

  /**
   * FindActive's outer variable after one attempt: the scanned row, or, when the attempt found no
   * row, whatever an earlier aborted attempt had left there.
   */
  function Scanned(rows: Table, seen: Option<Uuid>, carried: Option<CachedAccess>): Option<CachedAccess>
    requires seen.Some? ==> seen.value in rows
  {
    match seen case None => carried case Some(id) => Some(rows[id].AsAccess())
  }

  // ---- runs ----------------------------------------------------------------------------

  /** A run from the empty system: states[i] --events[i]--> states[i + 1]. */
  datatype Run = Run(states: seq<State>, events: seq<Event>) {
    ghost predicate Valid() {
      && |states| == |events| + 1
      && states[0] == INIT
      && forall i :: 0 <= i < |events| ==> StepAt(i)
    }

    ghost predicate StepAt(i: nat)
      requires |states| == |events| + 1 && i < |events|
    {
      Enabled(states[i], events[i]) && states[i + 1] == Apply(states[i], events[i])
    }
  }

  /** A run continued by one step. */
  lemma Extend(run: Run, e: Event, s': State) returns (longer: Run)
    requires run.Valid() && Enabled(run.states[|run.events|], e) && Apply(run.states[|run.events|], e) == s'
    ensures longer == Run(run.states + [s'], run.events + [e]) && longer.Valid()
  {
    longer := Run(run.states + [s'], run.events + [e]);
    forall i | 0 <= i < |longer.events| ensures longer.StepAt(i) {
      assert i < |run.events| ==> run.StepAt(i);
    }
  }

  /**
   * The faults the machine allows in every state: any operation in flight may vanish, leaving the
   * tables and the cache; any cached entry may be evicted; a cache read, write or Delete may fail.
   */
  lemma FaultsArePossible(s: State, o: OpId, key: string, elapsed: nat)
    ensures Enabled(s, Tick(elapsed)) && Apply(s, Tick(elapsed)) == s.(now := s.now + elapsed)
    ensures Enabled(s, Evict(key)) && Apply(s, Evict(key)) == s.(cache := s.cache - {key})
    ensures o in s.ops ==> Enabled(s, Vanish(o)) && Apply(s, Vanish(o)) == s.(ops := s.ops - {o})
    ensures o in s.ops && s.ops[o].CheckStart? ==>
      Enabled(s, CacheFallsThrough(o, true)) && Apply(s, CacheFallsThrough(o, true)).cache == s.cache
    ensures o in s.ops && s.ops[o].CheckDone? ==>
      Enabled(s, CheckReturns(o, false)) && Apply(s, CheckReturns(o, false)) == s.(ops := s.ops - {o})
    ensures o in s.ops && s.ops[o].Invalidate? ==>
      Enabled(s, Invalidates(o, false)) && Apply(s, Invalidates(o, false)) == s.(ops := s.ops - {o})
  {
  }

  // ---- what every state of every run satisfies -------------------------------------------

  ghost predicate OpInv(op: Op) {
    match op
    case GrantStart(req) => ValidLevel(req.level) && ByteLength(req.reason) <= MAX_REASON
    case GrantVetted(e) => ValidLevel(e.level) && ByteLength(e.reason) <= MAX_REASON && e.membership != NIL_UUID
    case Claimed(d) => !d.Unknown?
    case CheckFind(_, tries, _) => tries < MAX_ATTEMPTS
    case _ => true
  }

  ghost predicate Inv(s: State) {
    && TableInv(s.rows)
    && (forall o :: o in s.ops ==> OpInv(s.ops[o]))
    && (forall m :: m in s.ledger ==> s.ledger[m] <= s.now)
    && (forall c :: c in s.cache ==> s.cache[c].setAt <= s.now)
  }

  lemma RowsKeepInv(s: State, e: Event)
    requires Inv(s) && Enabled(s, e)
    ensures TableInv(Apply(s, e).rows)
  {
    match e
    case GrantCommits(o, id) => InsertKeepsInv(s.rows, Some(s.ops[o].entry.key.tenant), s.ops[o].entry, id, s.now);
    case RevokeCommits(o) => SoftDeleteKeepsInv(s.rows, RevokeIds(s, s.ops[o].key, s.ops[o].version), s.now);
    case CascadeCommits(o, _) =>
      match s.ops[o].d {
        case Purged(_, _) => HardDeleteKeepsInv(s.rows, CascadeIds(s.rows, s.ops[o].d));
        case Removed(_, _, _) => SoftDeleteKeepsInv(s.rows, CascadeIds(s.rows, s.ops[o].d), s.now);
        case Unknown(_, _) =>
      }
    case _ =>
  }

  /** Only three kinds of step write the table. */
  lemma QuietRows(s: State, e: Event)
    requires Enabled(s, e) && !e.GrantCommits? && !e.RevokeCommits? && !e.CascadeCommits?
    ensures Apply(s, e).rows == s.rows
  {
  }

  lemma ReplyKeepsInv(s: State, e: Event)
    requires Enabled(s, e) && e.MemberReply? && OpInv(s.ops[e.op])
    ensures e.op in Apply(s, e).ops ==> OpInv(Apply(s, e).ops[e.op])
  {
  }

  lemma AttemptKeepsInv(s: State, e: Event)
    requires Enabled(s, e) && e.FindAborts?
    ensures e.op in Apply(s, e).ops && OpInv(Apply(s, e).ops[e.op])
  {
  }

  /** A step leaves every operation but its own alone. */
  lemma OtherOpKept(s: State, e: Event, o: OpId)
    requires Enabled(s, e) && o in Apply(s, e).ops && (e.Tick? || e.Prune? || e.Evict? || e.op != o)
    ensures o in s.ops && Apply(s, e).ops[o] == s.ops[o]
  {
  }

  lemma OwnOpKeepsInv(s: State, e: Event)
    requires Enabled(s, e) && !e.Tick? && !e.Prune? && !e.Evict? && !e.MemberReply? && !e.FindAborts?
    requires e.op in s.ops ==> OpInv(s.ops[e.op])
    ensures e.op in Apply(s, e).ops ==> OpInv(Apply(s, e).ops[e.op])
  {
  }

  lemma OpKeepsInv(s: State, e: Event, o: OpId)
    requires o in s.ops ==> OpInv(s.ops[o])
    requires Enabled(s, e) && o in Apply(s, e).ops
    ensures OpInv(Apply(s, e).ops[o])
  {
    if e.Tick? || e.Prune? || e.Evict? || e.op != o {
      OtherOpKept(s, e, o);
    } else if e.MemberReply? {
      ReplyKeepsInv(s, e);
    } else if e.FindAborts? {
      AttemptKeepsInv(s, e);
    } else {
      OwnOpKeepsInv(s, e);
    }
  }

  lemma MarkTimeKept(s: State, e: Event, m: Mark)
    requires m in s.ledger ==> s.ledger[m] <= s.now
    requires Enabled(s, e) && m in Apply(s, e).ledger
    ensures Apply(s, e).ledger[m] <= Apply(s, e).now
  {
    match e
    case CascadeCommits(_, _) =>
    case AckCommits(_) =>
    case Prune(_, _) =>
    case _ => assert Apply(s, e).ledger == s.ledger;
  }

  lemma CellTimeKept(s: State, e: Event, c: string)
    requires c in s.cache ==> s.cache[c].setAt <= s.now
    requires Enabled(s, e) && c in Apply(s, e).cache
    ensures Apply(s, e).cache[c].setAt <= Apply(s, e).now
  {
    match e
    case CheckReturns(_, _) =>
    case Invalidates(_, _) =>
    case Evict(_) =>
    case _ => assert Apply(s, e).cache == s.cache;
  }

  lemma StepKeepsInv(s: State, e: Event)
    requires Inv(s) && Enabled(s, e)
    ensures Inv(Apply(s, e))
  {
    var s' := Apply(s, e);
    RowsKeepInv(s, e);
    forall o | o in s'.ops ensures OpInv(s'.ops[o]) { OpKeepsInv(s, e, o); }
    forall m | m in s'.ledger ensures s'.ledger[m] <= s'.now { MarkTimeKept(s, e, m); }
    forall c | c in s'.cache ensures s'.cache[c].setAt <= s'.now { CellTimeKept(s, e, c); }
  }

  lemma {:induction false} RunInv(run: Run, i: nat)
    requires run.Valid() && i < |run.states|
    ensures Inv(run.states[i])
  {
    if i > 0 {
      RunInv(run, i - 1);
      assert run.StepAt(i - 1);
      StepKeepsInv(run.states[i - 1], run.events[i - 1]);
    }
  }

  lemma {:induction false} ClockMonotone(run: Run, i: nat, j: nat)
    requires run.Valid() && i <= j < |run.states|
    ensures run.states[i].now <= run.states[j].now
  {
    if i < j {
      ClockMonotone(run, i, j - 1);
      assert run.StepAt(j - 1);
    }
  }
}
