/** Where an answer of CheckAccess comes from: the request whose columns it carries. */
module AnswerOrigin {
  import opened Domain
  import opened EntryTable
  import opened Granting
  import opened Protocol
  import opened Staleness
  import opened Accounting

  /**
   * In every run, an answer that grants access was asked for: an earlier request, made for that very
   * tenant, tender and user, names exactly the level and the expiry of the answer, the expiry lying
   * after that request; the membership service vouched for the user, and the row committed and was
   * active when a check read it, all before the answer.
   */
  lemma AccessWasGranted(run: Run, i: nat, k: Triple, level: string, expiresAt: Option<Time>)
    returns (b: nat, g: nat, c: nat, j: nat)
    requires run.Valid() && i < |run.events| && Answers(run, i, k, Access(level, expiresAt))
    ensures b < g < c < j < i && run.StepAt(b) && run.events[b].BeginGrant?
    ensures var req := run.events[b].req;
            && req.key == k && req.level == level && req.expiresAt == expiresAt
            && level in {"view", "edit", "approve"}
            && (expiresAt.Some? ==> run.states[b].now < expiresAt.value)
    ensures run.events[g].MemberReply? && run.events[g].reply.Body? && run.events[g].reply.active
    ensures run.events[c].GrantCommits? && run.events[b].op == run.events[g].op == run.events[c].op
    ensures expiresAt.Some? ==> run.states[j].now < expiresAt.value
  {
    var v := Access(level, expiresAt);
    var s, o;
    j, s, o := AnswerIsPastTruth(run, i, k, v);
    var id :| id in run.states[j].rows && run.states[j].rows[id].entry.key == k &&
              run.states[j].rows[id].IsActive(run.states[j].now) && v == run.states[j].rows[id].AsAccess();
    b, g, c := Provenance(run, j, id);
  }

  /** An answer of no access: when a check read the table, no row of the triple was undeleted and unexpired. */
  lemma NoAccessWasTrue(run: Run, i: nat, k: Triple) returns (j: nat)
    requires run.Valid() && i < |run.events| && Answers(run, i, k, NoAccess)
    ensures j < i && forall id :: id in run.states[j].rows && run.states[j].rows[id].entry.key == k ==>
      var row := run.states[j].rows[id];
      row.deletedAt.Some? || (row.entry.expiresAt.Some? && row.entry.expiresAt.value <= run.states[j].now)
  {
    var s, o;
    j, s, o := AnswerIsPastTruth(run, i, k, NoAccess);
  }
}
