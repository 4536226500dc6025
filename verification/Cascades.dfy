/** The two cascades commute and absorb repetition: only the set of committed events matters. */
module Cascades {
  import opened Domain
  import opened EntryTable
  import opened Protocol

  /** The row without the instants of its last change. */
  function Forget(r: Row): Row {
    r.(updatedAt := 0, deletedAt := if r.Live() then None else Some(0))
  }

  function ForgetTimes(t: Table): Table {
    map id | id in t :: Forget(t[id])
  }

  predicate Purges(ds: set<Delivery>, k: Triple) {
    exists d :: d in ds && d.Purged? && d.tenant == k.tenant
  }

  predicate Removes(ds: set<Delivery>, k: Triple) {
    exists d :: d in ds && d.Removed? && d.tenant == k.tenant && d.user == k.user
  }

  /**
   * The table a set of cascades leaves: rows of purged tenants are gone, live rows of removed
   * users are deleted with their version one higher, all else is as it was.
   */
  function Final(t: Table, ds: set<Delivery>): Table {
    map id | id in t && !Purges(ds, t[id].entry.key) ::
      Forget(if t[id].Live() && Removes(ds, t[id].entry.key) then SoftDelete(t[id], 0) else t[id])
  }

  lemma ForgetfulCascade(t: Table, d: Delivery, now: Time)
    ensures ForgetTimes(Cascade(t, d, now)) == ForgetTimes(Cascade(ForgetTimes(t), d, 0))
  {
    var l, r := ForgetTimes(Cascade(t, d, now)), ForgetTimes(Cascade(ForgetTimes(t), d, 0));
    forall id | id in t
      ensures id in l <==> id in r
      ensures id in l ==> l[id] == r[id]
    {
      ForgetfulAt(t, d, now, id);
    }
    assert forall id :: id in l || id in r ==> id in t;
  }

  lemma ForgetfulAt(t: Table, d: Delivery, now: Time, id: Uuid)
    requires id in t
    ensures id in ForgetTimes(Cascade(t, d, now)) <==> id in ForgetTimes(Cascade(ForgetTimes(t), d, 0))
    ensures id in ForgetTimes(Cascade(t, d, now)) ==>
            ForgetTimes(Cascade(t, d, now))[id] == ForgetTimes(Cascade(ForgetTimes(t), d, 0))[id]
  {
    CascadeAt(t, d, now, id);
    CascadeAt(ForgetTimes(t), d, 0, id);
  }

  lemma OneMorePurge(ds: set<Delivery>, d: Delivery, k: Triple)
    ensures Purges(ds + {d}, k) <==> Purges(ds, k) || (d.Purged? && d.tenant == k.tenant)
    ensures Removes(ds + {d}, k) <==> Removes(ds, k) || (d.Removed? && d.tenant == k.tenant && d.user == k.user)
  {
    assert d in ds + {d} && forall p :: p in ds ==> p in ds + {d};
  }

  predicate Takes(d: Delivery, r: Row) {
    d.Removed? && d.tenant == r.entry.key.tenant && d.user == r.entry.key.user && r.Live()
  }

  /** What one cascade does to one row. */
  lemma CascadeAt(t: Table, d: Delivery, now: Time, id: Uuid)
    requires id in t
    ensures id in Cascade(t, d, now) <==> !(d.Purged? && d.tenant == t[id].entry.key.tenant)
    ensures id in Cascade(t, d, now) ==>
      Cascade(t, d, now)[id] == if Takes(d, t[id]) then SoftDelete(t[id], now) else t[id]
  {
  }

  lemma OneMoreAt(t: Table, ds: set<Delivery>, d: Delivery, id: Uuid)
    requires id in t
    ensures id in Final(t, ds + {d}) <==> id in ForgetTimes(Cascade(Final(t, ds), d, 0))
    ensures id in Final(t, ds + {d}) ==> Final(t, ds + {d})[id] == ForgetTimes(Cascade(Final(t, ds), d, 0))[id]
  {
    OneMorePurge(ds, d, t[id].entry.key);
    if id in Final(t, ds) { CascadeAt(Final(t, ds), d, 0, id); }
  }

  lemma OneMore(t: Table, ds: set<Delivery>, d: Delivery)
    ensures Final(t, ds + {d}) == ForgetTimes(Cascade(Final(t, ds), d, 0))
  {
    var l, r := Final(t, ds + {d}), ForgetTimes(Cascade(Final(t, ds), d, 0));
    forall id | id in t
      ensures id in l <==> id in r
      ensures id in l ==> l[id] == r[id]
    {
      OneMoreAt(t, ds, d, id);
    }
    assert forall id :: id in l || id in r ==> id in t;
  }

  /** One more cascade over a table that is, up to times, what `ds` leaves. */
  lemma CascadeExtends(t: Table, ds: set<Delivery>, rows: Table, d: Delivery, now: Time)
    requires ForgetTimes(rows) == Final(t, ds)
    ensures ForgetTimes(Cascade(rows, d, now)) == Final(t, ds + {d})
  {
    ForgetfulCascade(rows, d, now);
    OneMore(t, ds, d);
  }

  /** The delivery whose cascade commits in step x, if any. */
  ghost function CommittedAt(run: Run, x: nat): set<Delivery>
    requires run.Valid() && x < |run.events|
  {
    assert run.StepAt(x);
    if run.events[x].CascadeCommits? then {run.states[x].ops[run.events[x].op].d} else {}
  }

  lemma QuietStep(run: Run, x: nat)
    requires run.Valid() && x < |run.events| && !run.events[x].GrantCommits? && !run.events[x].RevokeCommits?
    ensures
      || (CommittedAt(run, x) == {} && run.states[x + 1].rows == run.states[x].rows)
      || (exists d ::
            CommittedAt(run, x) == {d} &&
            run.states[x + 1].rows == Cascade(run.states[x].rows, d, run.states[x].now))
  {
    assert run.StepAt(x);
  }

  /** The deliveries whose cascades commit in steps i up to j. */
  ghost function CommittedIn(run: Run, i: nat, j: nat): set<Delivery>
    requires run.Valid() && i <= j <= |run.events|
  {
    if i == j then {} else CommittedIn(run, i, j - 1) + CommittedAt(run, j - 1)
  }

  lemma FinalOfNone(t: Table)
    ensures ForgetTimes(t) == Final(t, {})
  {
  }

  /**
   * Over any stretch of a run with no grant or revoke committing, whatever the order, repetition
   * and concurrency of the deliveries, the table is fixed by the set of events that committed.
   */
  lemma {:induction false} OnlyTheSetMatters(run: Run, i: nat, j: nat)
    requires run.Valid() && i <= j <= |run.events|
    requires forall x :: i <= x < j ==> !run.events[x].GrantCommits? && !run.events[x].RevokeCommits?
    ensures ForgetTimes(run.states[j].rows) == Final(run.states[i].rows, CommittedIn(run, i, j))
  {
    var t := run.states[i].rows;
    if i == j {
      FinalOfNone(t);
    } else {
      OnlyTheSetMatters(run, i, j - 1);
      QuietStep(run, j - 1);
      var s, ds := run.states[j - 1], CommittedIn(run, i, j - 1);
      if CommittedAt(run, j - 1) == {} {
        assert ds + {} == ds;
      } else {
        var d :| CommittedAt(run, j - 1) == {d} && run.states[j].rows == Cascade(s.rows, d, s.now);
        CascadeExtends(t, ds, s.rows, d, s.now);
      }
    }
  }

  /**
   * The same column by column: over such a stretch a row is gone exactly if its tenant was purged;
   * one that stays keeps all its columns, except that an undeleted row of a removed user is deleted
   * and its version is one higher; and no row is new.
   */
  lemma EventsDecideRows(run: Run, i: nat, j: nat, id: Uuid)
    requires run.Valid() && i <= j <= |run.events|
    requires forall x :: i <= x < j ==> !run.events[x].GrantCommits? && !run.events[x].RevokeCommits?
    ensures id in run.states[j].rows ==> id in run.states[i].rows
    ensures id in run.states[i].rows ==>
      var r, ds := run.states[i].rows[id], CommittedIn(run, i, j);
      var purged := exists d :: d in ds && d.Purged? && d.tenant == r.entry.key.tenant;
      var removed := exists d :: d in ds && d.Removed? && d.tenant == r.entry.key.tenant && d.user == r.entry.key.user;
      && (id in run.states[j].rows <==> !purged)
      && (!purged ==> var r' := run.states[j].rows[id];
            && r'.entry == r.entry && r'.createdAt == r.createdAt
            && (r'.deletedAt.None? <==> r.deletedAt.None? && !removed)
            && r'.version == r.version + if r.deletedAt.None? && removed then 1 else 0)
  {
    OnlyTheSetMatters(run, i, j);
    var t', f := run.states[j].rows, Final(run.states[i].rows, CommittedIn(run, i, j));
    assert (id in t' <==> id in ForgetTimes(t')) && (id in t' <==> id in f);
    if id in t' { assert ForgetTimes(t')[id] == Forget(t'[id]) == f[id]; }
  }
}
