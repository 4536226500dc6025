/**
 * The checks in front of a grant: request validation in ACLService.Grant and the decision of
 * HTTPChecker.Exists over what came back from the membership service.
 */
module Granting {
  import opened Domain

  datatype Code =
    | InvalidAccessLevel | InvalidReason | InvalidExpiry
    | GranteeNotActiveMember | CoreUnavailable
    | DuplicateGrant | OptimisticLockConflict | DependencyUnavailable | Internal
  {
    /** A code that only the database's part of an operation gives. */
    predicate FromTable() {
      DuplicateGrant? || OptimisticLockConflict? || DependencyUnavailable? || Internal?
    }
  }

  datatype GrantRequest = GrantRequest(
    key: Triple, grantedBy: Uuid, level: string, reason: string, expiresAt: Option<Time>)
  {
    /** The first failing check, in the order the service makes them. */
    function Rejection(now: Time): Option<Code> {
      if !ValidLevel(level) then Some(InvalidAccessLevel)
      else if ByteLength(reason) > MAX_REASON then Some(InvalidReason)
      else if expiresAt.Some? && !(expiresAt.value > now) then Some(InvalidExpiry)
      else None
    }

    function Entry(membership: Uuid): NewEntry {
      NewEntry(key, membership, level, grantedBy, reason, expiresAt)
    }
  }

  datatype Reply =
    | NoReply                                              // request not built, network error, timeout
    | Status(code: int)                                    // any status other than 200
    | Malformed                                            // status 200, body does not decode
    | Body(active: bool, membership: Option<Uuid>)         // status 200

  datatype Verdict = Active(membership: Uuid) | Inactive | Unavailable

  function Exists(r: Reply): Verdict {
    match r
    case NoReply => Unavailable
    case Status(_) => Unavailable
    case Malformed => Unavailable
    case Body(active, membership) =>
      if !active then Inactive
      else if membership.None? || membership.value == NIL_UUID then Unavailable
      else Active(membership.value)
  }

  // ---- what the checks amount to, from the request's and the reply's own fields ---------------

  predicate KnownLevel(level: string) {
    level in {"view", "edit", "approve"}
  }

  /** A request that passes: a known level, at most 500 bytes of reason, an expiry in the future if any. */
  predicate Acceptable(req: GrantRequest, now: Time) {
    KnownLevel(req.level) && |Utf8(req.reason)| <= 500 && (req.expiresAt.Some? ==> now < req.expiresAt.value)
  }

  /** Each error code has its own condition, and the first failing one decides. */
  lemma RejectionIff(req: GrantRequest, now: Time)
    ensures var code := req.Rejection(now);
            && (code == None <==> Acceptable(req, now))
            && (code == Some(InvalidAccessLevel) <==> !KnownLevel(req.level))
            && (code == Some(InvalidReason) <==> KnownLevel(req.level) && |Utf8(req.reason)| > 500)
            && (code == Some(InvalidExpiry) <==> KnownLevel(req.level) && |Utf8(req.reason)| <= 500 &&
                                                 req.expiresAt.Some? && req.expiresAt.value <= now)
  {
    ByteLengthIsUtf8(req.reason);
  }

  /** Only an explicit yes with a membership id that is not nil vouches for a grantee. */
  lemma ExistsIff(reply: Reply)
    ensures forall m :: Exists(reply) == Active(m) <==> reply == Body(true, Some(m)) && m != 0
    ensures Exists(reply) == Inactive <==> reply.Body? && !reply.active
  {
  }

  /** The inserted columns are the request's own, and the membership id that vouched. */
  predicate Carries(e: NewEntry, req: GrantRequest) {
    && e.key.tenant == req.key.tenant && e.key.tender == req.key.tender && e.key.user == req.key.user
    && e.level == req.level && e.grantedBy == req.grantedBy && e.reason == req.reason && e.expiresAt == req.expiresAt
  }

  lemma EntryCarries(req: GrantRequest, m: Uuid)
    ensures Carries(req.Entry(m), req) && req.Entry(m).membership == m
  {
  }
}
