/** The table processed_events: which consumer has handled which event, and when. */
module EventLedger {
  import opened Domain

  datatype Consumer = TenantLifecycle | MemberRemoval

  datatype Mark = Mark(event: Uuid, consumer: Consumer)
  type Ledger = map<Mark, Time>

  /** 8 days. */
  const RETENTION: nat := 691_200_000_000

  /** INSERT ... ON CONFLICT DO NOTHING: an existing mark keeps its time. */
  function MarkProcessed(l: Ledger, m: Mark, now: Time): Ledger {
    if m in l then l else l[m := now]
  }

  /** The rows CleanupExpired deletes for one consumer. */
  function Expired(l: Ledger, c: Consumer, now: Time): set<Mark> {
    set m | m in l && m.consumer == c && l[m] < now - RETENTION
  }
}
