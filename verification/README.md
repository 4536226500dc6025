# Tender-ACL service: a Dafny model

The tender-ACL service answers one question, "may this user see this tender, and at what level",
from a Postgres table with soft deletes, behind a Valkey cache whose entries live 30 seconds.
Tenant administrators grant (TAC-2), revoke (TAC-3) and list (TAC-1); other services check
(TAC-4); two queues deliver tenant purges and member removals at least once.

The project models this as one state machine (`Protocol`): a clock, the table, the event ledger,
the cache and the operations in flight. Every call into Postgres, Valkey or the membership service
is one step; any two operations interleave, any cache call may fail, any transaction attempt may
abort and be retried, and any operation may vanish. The main theorems are about all runs of that
machine from the empty system. Beside it the service, the repository and the consumers are written
as they are in the source, as classes and methods with their retry loops and outer variables, and
proved against the same table, ledger and cascade functions that the machine's steps apply. Under
any interference the attempt of a write that takes effect is one step of the machine; a whole
service call or handled delivery that nothing overlaps is a path of it.

| module | what it holds |
|---|---|
| `Domain`, `EntryTable`, `AccessCache`, `EventLedger`, `Granting` | rows, policy, trigger, constraints and statements; cache keys and TTL; processed_events; the checks before a grant |
| `Protocol` | the steps, runs, and the invariant of every reachable state |
| `Staleness` | how old an answer can be, convergence, and a run that shows the bound is tight |
| `SequentialCache` | the cache refines the table when operations do not overlap |
| `Delivery`, `Redelivery`, `Cascades` | marks, atomicity and suppression; when a repeated cascade is a no-op; order and duplicate independence |
| `Accounting`, `AnswerOrigin` | conservation of rows, the life of a row, the version token; the request behind each row and each answer |
| `Repository`, `Service`, `Consumers` | the Go methods, imperatively |
| `Refinement` | paths of the machine, and the service calls as such paths |
| `Pagination` | walking the list page by page |
| `AsyncApi`, `SharedOrder`, `Rendering` | schema flattening and render order; order arrays shared between schemas and sorted in place |
| `TextLines`, `Patcher`, `DocsPatcher` | the swagger patch script |

## Where the code and its documentation disagree

The model follows the code.

- Staleness. docs/lld/iam-lld-tender-acl-service.md:634 and :650 and ARCHITECTURE.md:408 call the
  30 s TTL the whole staleness budget. A check that read before a revoke may Set after that
  revoke's Delete. The bounds that hold are exactly those from 30 s plus the gap between a read and
  its Set up (`Staleness.BoundIff`), so 30 s is one only if that gap is 0.
- Redelivery. README.md:245 says a repeated cascade is a no-op. An event is cascaded again when its
  handlers overlap, or when its mark was pruned past 8 days, and in no other way
  (`Delivery.SecondCascadeHasCause`); the repetition changes no row exactly when no grant made in
  between is still there for it to take (`Redelivery.RepeatIsNoOpIff`). Both ways occur
  (`Redelivery.ReplayTakesNewGrant`, `Redelivery.LateReplayTakesNewGrant`).
- Event ids. internal/adapter/inbound/consumer/dedup.go:20-26 takes the event id for the event. That
  an acknowledged delivery had its cascade holds in all runs exactly when no two deliveries to one
  consumer share an id (`Delivery.AckMeansEffectIff`); unknown types count, as they are marked too.
- Retried reads. FindActive keeps a row scanned by an aborted attempt when the committed one finds
  none; `Repository.FindActiveTransparentIff` says exactly when this shows.
- The version token. internal/core/service/acl_service.go:131-135 speaks of the caller's last-read
  version; every undeleted row has version 1, so the token never tells two grants of one triple
  apart (`EntryTable.TokenSurvivesRegrant`). It protects the row that was read exactly when no
  grant of the triple committed in between (`Accounting.TokenProtectsIff`).
- The list. internal/adapter/inbound/http/handler.go:180 promises active-or-not entries; the query
  returns undeleted rows only, expired ones included (`EntryTable.ListHidesRevoked`).
- The patch script. scripts/patch-swagger-extensions.py:18 claims idempotence; for docs.go it holds
  under the exact condition of `DocsPatcher.PatchDocsIdempotentIff`.

## Model

| member | source | states |
|---|---|---|
| `Staleness.AnswerIsPastTruth` | internal/core/service/acl_service.go:156-190 | Over every interleaving with cache faults, retried reads, cascades and crashes, each CheckAccess answer was what a scan with IsActive would have said at an earlier step, read by a check that stayed in flight until it stored or returned it; a cache hit comes less than 30 s after that Set. |
| `Staleness.AgeBound` | internal/adapter/outbound/valkey/cache.go:22-81 | The age of any answer is below 30 s plus the largest gap between a read and the Set of the same check. |
| `Staleness.BoundIff` | docs/lld/iam-lld-tender-acl-service.md:634 | The exact budget: over all runs whose checks take at most a given gap from read to Set, b bounds the staleness of every answer if and only if b is at least 30 s plus the gap; 30 s is a bound exactly when the gap is 0. |
| `Staleness.BoundIsTight` | internal/core/service/acl_service.go:156-190 | For every gap and every age below 30 s there is a run with no larger read-to-Set gap in which a revoke commits, its cache Delete succeeds, and a check still answers with the revoked grant gap + age after that answer was last true. |
| `Staleness.Convergence` | internal/core/service/acl_service.go:124-190 | If from step a on nothing writes a triple's rows and the checks in flight at a have ended by b, then from 30 s after b every answer is true, or an access whose own expiry passed after a; no cache Delete need have worked. |
| `Staleness.CacheStep` | internal/adapter/outbound/valkey/cache.go:72-89 | Whatever step is taken, a cell of the cache is either as it was or was just stored by a finishing check. |
| `Staleness.ReadIsTruthful` | internal/adapter/outbound/postgres/repository.go:183-202 | What FindActive's query returns is what IsActive says about the triple's rows, in both directions. |
| `Staleness.TruthDependsOnRowsOf` | internal/core/domain/acl.go:66-74 | The true answer for a triple depends on that triple's rows and the time only. |
| `AnswerOrigin.AccessWasGranted` | internal/core/service/acl_service.go:176-184 | In every run an answer of access was asked for: an earlier request for that very tenant, tender and user names exactly the answer's level and expiry, the expiry lying after that request; the membership service said yes, the grant committed, and a check read the row while it was unexpired, in that order and before the answer. |
| `AnswerOrigin.NoAccessWasTrue` | internal/core/service/acl_service.go:182-184 | An answer of no access: when a check read the table every row of the triple was deleted or expired. |
| `SequentialCache.CacheRefinesTable` | internal/core/service/acl_service.go:117-190 | In every run of one operation at a time with working Deletes and no cascade, each answer is the fresh one unless its own expiry has passed, and a "no access" is the truth. |
| `SequentialCache.SequentialRunBacked` | internal/core/service/acl_service.go:117-190 | The invariant behind it: every live cell whose invalidation is not pending, and every value a check holds, is backed by the table now. |
| `SequentialCache.CommitStep` | internal/core/service/acl_service.go:117-152 | A committing grant or revoke leaves every cell backed except that of its own triple, whose invalidation is then pending. |
| `SequentialCache.AgreementSurvivesWrite` | internal/core/service/acl_service.go:124-126 | A write to one triple's rows followed by the Delete of its key keeps cache and table in agreement. |
| `SequentialCache.AgreementSurvivesSet` | internal/adapter/outbound/valkey/cache.go:72-81 | Storing a backed answer keeps the agreement for all triples, because keys do not collide. |
| `AccessCache.KeyInjective` | internal/adapter/outbound/valkey/cache.go:46-48 | Two triples with the same cache key are the same triple. |
| `AccessCache.UuidTextInjective` | internal/adapter/outbound/valkey/cache.go:46-48 | The canonical 36-character UUID text (section 4 of RFC 9562) determines the 128-bit value. |
| `AccessCache.KeyDenotes` | internal/adapter/outbound/valkey/cache.go:46-48 | The key is the region prefix and, between colons, texts whose hex digits denote the tenant, the tender and the user, in this order. |
| `Service.ACLService.Grant` | internal/core/service/acl_service.go:72-129 | From the fields of request and reply: each error code exactly under its own condition, and the insert is tried exactly if the request is acceptable and the reply an explicit yes with a non-nil membership id; what is tried carries the request's own columns and that id. An error before the insert touches nothing; success is exactly the committed attempt's insert followed by the key's Delete; an error after it leaves what the last attempt found, unless its commit went unseen; run alone it is a path of the state machine and keeps cache and table in agreement. |
| `Granting.RejectionIff` | internal/core/service/acl_service.go:82-90 | invalid_access_level, invalid_reason, invalid_expiry and acceptance, each exactly under its condition on the level, the UTF-8 length of the reason and the expiry. |
| `Granting.ExistsIff` | internal/adapter/outbound/membershipcheck/http_client.go:69-106 | A grantee is vouched for exactly by status 200, active true and a membership id that is not nil, and inactive exactly by status 200 and active false; everything else fails closed. |
| `Service.ACLService.Revoke` | internal/core/service/acl_service.go:136-152 | Success is exactly the committed attempt's version-gated soft delete of a non-empty set followed by the key's Delete; a committed attempt that hits nothing is optimistic_lock_conflict; any error leaves what the last attempt found, unless its commit went unseen; run alone it is a path of the state machine and keeps the agreement. |
| `Service.ACLService.CheckAccess` | internal/core/service/acl_service.go:156-190 | A hit returns the cell and changes nothing, without rechecking expiry; a miss or a failed Get answers, whatever else runs, with the level and expiry columns of the last row any attempt of FindActive scanned, or no access, and stores the answer; run alone it is a path of the state machine that gives that answer, the answer is fresh up to its own expiry and the agreement is kept. |
| `Service.ScansAreBacked` | internal/adapter/outbound/postgres/repository.go:183-202 | What FindActive returns over several attempts on one unchanging table is backed by that table. |
| `Refinement.GrantPath` | internal/core/service/acl_service.go:117-129 | With nothing else in flight, a grant whose insert committed, its Delete applied or not, leaves what the machine reaches by steps of that grant. |
| `Refinement.RevokePath` | internal/core/service/acl_service.go:136-152 | The same for a revoke whose update committed. |
| `Refinement.HitPath` | internal/core/service/acl_service.go:160-168 | A cache hit is a path on which the machine answers with the cell and ends in the same table, ledger and cache. |
| `Refinement.MissPath` | internal/core/service/acl_service.go:170-190 | A miss, through every aborted attempt of FindActive with the row it may leave behind, is a path on which the machine gives the same answer and stores it. |
| `Refinement.ReachedByRun` | internal/core/service/acl_service.go:72-190 | What such calls reach from the empty system is the last state of a run, so all that is proved of runs holds of it. |
| `Repository.InsertIsStep` | internal/adapter/outbound/postgres/repository.go:126-155 | In every state an attempt may have met, with any other operations in flight, its insert is the machine's grant step and its duplicate the machine's conflict. |
| `Repository.SoftDeleteIsStep` | internal/adapter/outbound/postgres/repository.go:164-180 | The same for the update of a revoke. |
| `Consumers.CascadeIsStep` | internal/adapter/inbound/consumer/offboarding_consumer.go:138-155 | The same for the transaction of a delivery, known type or not. |
| `Protocol.RunInv` | internal/adapter/outbound/postgres/migrations/0001_tender_acl_schema.up.sql:54-71 | In every state of every run a triple has at most one undeleted row, a row has version 1 exactly when undeleted and 2 when deleted, updated_at is created_at or deleted_at accordingly, levels and reasons are within limits, and marks and cells are not from the future. |
| `Protocol.FaultsArePossible` | internal/core/service/acl_service.go:124-190 | In every state any operation may vanish, any entry may be evicted, and any cache call may fail, leaving the tables as they are. |
| `Protocol.StepKeepsInv` | internal/adapter/outbound/postgres/repository.go:126-236 | Each of the 24 kinds of step keeps that invariant. |
| `Protocol.ClockMonotone` | internal/adapter/outbound/valkey/cache.go:22-81 | Time never goes back along a run. |
| `EntryTable.InsertKeepsInv` | internal/adapter/outbound/postgres/migrations/0001_tender_acl_schema.up.sql:54-71 | An accepted insert keeps the table invariant. |
| `EntryTable.SoftDeleteKeepsInv` | internal/adapter/outbound/postgres/migrations/0001_tender_acl_schema.up.sql:22-31 | Soft-deleting undeleted rows through the trigger keeps it. |
| `EntryTable.RevokeIff` | internal/adapter/outbound/postgres/repository.go:164-180 | In every reachable table Revoke reaches a row exactly when its version is 1 and an undeleted row of the triple exists, and then that single row. |
| `EntryTable.TokenSurvivesRegrant` | internal/adapter/outbound/postgres/repository.go:166-171 | After a revoke every version conflicts until the next grant, and then the token of the revoked row succeeds again, on the new row. |
| `EntryTable.FindActiveIsScan` | internal/adapter/outbound/postgres/repository.go:183-202 | FindActive selects exactly the triple's rows that IsActive accepts, and there is at most one. |
| `EntryTable.GrantConflictIff` | internal/adapter/outbound/postgres/repository.go:126-155 | An entry the service may send is a duplicate exactly when an undeleted row of the triple exists; an active row therefore always conflicts. |
| `EntryTable.ExpiredRowStillBlocks` | internal/adapter/outbound/postgres/migrations/0001_tender_acl_schema.up.sql:71 | The converse fails: an expired, unrevoked row is not found by FindActive and still makes Grant a duplicate. |
| `EntryTable.ListHidesRevoked` | internal/adapter/outbound/postgres/repository.go:110-115 | List shows a row while it is undeleted, expired or not, and no longer once it is revoked. |
| `EntryTable.PolicyFrame` | internal/adapter/outbound/postgres/migrations/0001_tender_acl_schema.up.sql:108-111 | Under the row policy a statement reaches what its WHERE clause selects when bound to its own tenant, and nothing under any other or no binding. |
| `EntryTable.JoinedFrame` | internal/adapter/outbound/postgres/repository.go:44-53 | The same for a statement that may join an ambient transaction. |
| `EntryTable.OtherTenantsUntouched` | internal/adapter/outbound/postgres/migrations/0001_tender_acl_schema.up.sql:108-111 | No statement under any binding changes another tenant's row. |
| `EntryTable.UnboundInsertRefused` | internal/adapter/outbound/postgres/migrations/0001_tender_acl_schema.up.sql:108-111 | An insert bound to another tenant or to none is refused whatever it carries. |
| `Domain.CharsWithinBytes` | internal/core/service/acl_service.go:85-87 | Code points never exceed UTF-8 bytes (section 3 of RFC 3629), so the service's byte limit implies the table's character limit. |
| `Domain.ByteLengthIsUtf8` | internal/core/service/acl_service.go:85-87 | The length the service measures is that of the UTF-8 encoding. |
| `Domain.Utf8RoundTrip` | internal/core/service/acl_service.go:85-87 | That encoding is UTF-8: decoding by lead byte gives every code point back, whatever follows. |
| `Delivery.MarkHasCause` | internal/adapter/outbound/postgres/processed_events.go:58-72 | Every mark in every state was inserted by a commit of a delivery with that event id and consumer, at its recorded time, and has been there since. |
| `Delivery.AcknowledgedTookEffect` | internal/adapter/inbound/consumer/offboarding_consumer.go:104-155 | When Handle returns nil on a known type, that delivery's cascade committed, in this step or before, in one step with the mark, leaving nothing for it to take; where the probe decided, provided every earlier commit that wrote the mark carried this delivery. |
| `Delivery.AckMeansEffectIff` | internal/adapter/inbound/consumer/dedup.go:27-69 | For any set of deliveries: in every run over them each delivery the probe acknowledged had its cascade committed, if and only if no known-type one shares its event id and consumer with another. |
| `Delivery.SharedIdSkipsCascade` | internal/adapter/inbound/consumer/dedup.go:57-69 | That proviso cannot be dropped: for any two different deliveries with one event id and consumer, of known type or not, a run in which the second is acknowledged and its cascade never commits. |
| `Delivery.MarkStep` | internal/adapter/outbound/postgres/processed_events.go:58-95 | One step keeps a mark with its time, prunes it only when over 8 days old and only for its own consumer, or inserts it now. |
| `Delivery.RetainedForWindow` | internal/adapter/outbound/postgres/processed_events.go:78-95 | From any state on, no mark leaves the ledger while it is 8 days old or younger, and its time does not change. |
| `Delivery.PruneIsOld` | internal/adapter/outbound/postgres/processed_events.go:78-95 | A prune takes a mark only of its own consumer and only past 8 days. |
| `Delivery.MarkStays` | internal/adapter/outbound/postgres/processed_events.go:58-95 | After any commit that wrote it, first or not, a mark is there until a prune takes it. |
| `Delivery.RedeliverySuppressed` | internal/adapter/inbound/consumer/dedup.go:27-37 | After any commit that wrote the mark, however long ago, with no prune of it in between, the probe of a redelivery hits and changes neither table nor ledger. |
| `Delivery.SecondCascadeHasCause` | internal/adapter/inbound/consumer/member_removal_consumer.go:77-136 | An event is cascaded again only if the second handler had passed its probe when the first one committed, or a prune took the mark in between, past 8 days. |
| `Redelivery.RepeatIsNoOpIff` | internal/adapter/outbound/postgres/repository.go:205-236 | For any two commits of one delivery in any run, the second changes no row if and only if every grant in its scope that committed in between was withdrawn again before it; the rows it takes are exactly those of the outstanding grants. |
| `Redelivery.SelectsOutstanding` | internal/adapter/outbound/postgres/repository.go:205-236 | After its first commit, a delivery's statement selects exactly the rows of grants in its scope committed since and not withdrawn by a revoke or another cascade. |
| `Redelivery.ReplayTakesNewGrant` | README.md:245 | Overlap: a run in which two handlers of one removal event both pass the probe and the second commit deletes a grant made after the first. |
| `Redelivery.LateReplayTakesNewGrant` | README.md:245 | No overlap: a run in which the mark is pruned just past 8 days and a redelivery deletes a grant made after the first handling. |
| `Delivery.CascadeIsComplete` | internal/adapter/outbound/postgres/repository.go:205-236 | After a cascade its own statement selects nothing. |
| `Cascades.OnlyTheSetMatters` | internal/adapter/outbound/postgres/repository.go:205-236 | Over any stretch of a run with no grant or revoke committing, the table without its change times is fixed by the set of committed events: purged tenants' rows gone, removed users' undeleted rows deleted with version one higher, all else as before. |
| `Cascades.EventsDecideRows` | internal/adapter/outbound/postgres/repository.go:205-236 | The same column by column: a row is gone exactly if its tenant was purged, deleted with version one higher exactly if it was undeleted and its user removed, and else all its columns stay; no row is new. |
| `Cascades.CascadeExtends` | internal/adapter/outbound/postgres/repository.go:205-236 | Running one more cascade is adding its event to the set, in any order and however often. |
| `Cascades.CascadeAt` | internal/adapter/outbound/postgres/repository.go:205-236 | What one cascade does to one row. |
| `Accounting.Conservation` | internal/adapter/outbound/postgres/repository.go:126-236 | For each triple and each tenant, in every run: grants minus revokes, cascaded and purged live rows is the number of undeleted rows, and grants minus purged rows is the number of rows. |
| `Accounting.TripleBalance` | internal/adapter/outbound/postgres/migrations/0001_tender_acl_schema.up.sql:71 | For one triple that balance is always 0 or 1. |
| `Accounting.ReportsAccountForRows` | internal/adapter/outbound/postgres/repository.go:205-236 | The counts the cascades return sum to exactly the rows they soft-deleted and hard-deleted in the tenant. |
| `Accounting.RevokeCounts` | internal/adapter/outbound/postgres/repository.go:164-180 | A successful revoke takes exactly one undeleted row, of its own triple. |
| `Accounting.TokenProtectsIff` | internal/adapter/outbound/postgres/repository.go:164-180 | What the version token protects: of a row live when it was read and a later revoke of its triple that commits, whatever version it names, the row was live all along if and only if no grant of the triple committed in between, and then the revoke takes exactly that row. |
| `Accounting.NoSecondRevoke` | internal/adapter/outbound/postgres/repository.go:164-180 | In every run, between two successful revokes of a triple a grant of it committed, whatever their tokens. |
| `Accounting.GrantBetween` | internal/adapter/outbound/postgres/repository.go:126-155 | A triple goes from no undeleted row to one only through a committed grant. |
| `Accounting.RowLife` | internal/core/domain/acl.go:66-74 | From insert to hard delete only deleted_at, updated_at and record_version change, once at most, and a row that is not active never becomes active. |
| `Accounting.Provenance` | internal/core/service/acl_service.go:82-120 | Every row of every state carries all the columns of an earlier acceptable request, was vouched for by a reply of active true with exactly the stored non-nil membership id, and was inserted at its created_at by the commit of that same grant; its reason is within both limits. |
| `Repository.Grant` | internal/adapter/outbound/postgres/repository.go:126-155 | Nil error: the table is the committed attempt's insert and the entry returned is that insert's row; an error leaves the table as found, unless the commit's acknowledgement was lost; duplicates are exactly duplicate_grant. Under any interference the attempt that took effect or met a duplicate is the machine's step in every state it may have met. |
| `Repository.Revoke` | internal/adapter/outbound/postgres/repository.go:164-180 | Nil error: the committed attempt soft-deleted a non-empty set; no rows is optimistic_lock_conflict with nothing changed. Under any interference the attempt that took effect or met nothing is the machine's step in every state it may have met. |
| `Repository.FindActive` | internal/adapter/outbound/postgres/repository.go:183-202 | The result is the last row any attempt scanned, because a no-rows attempt leaves the outer variable alone. |
| `Repository.FindActiveTransparentIff` | internal/adapter/outbound/postgres/repository.go:190-199 | So it is the committed attempt's own answer if and only if that attempt found a row or no earlier one had scanned one. |
| `Repository.FindActiveCanAnswerStale` | internal/adapter/outbound/postgres/repository.go:192-194 | A script of two attempts on which it is not: a row scanned before an abort is returned after its revoke. |
| `Repository.List` | internal/adapter/outbound/postgres/repository.go:107-122 | Nil error: the result is one page, by created_at, of exactly the rows with the asked tenant and tender that are undeleted, as the committed attempt saw them, and every row returned is such a row; nothing of an aborted attempt remains. |
| `Repository.ListSelects` | internal/adapter/outbound/postgres/repository.go:110-113 | The statement under the row policy selects exactly those rows. |
| `Repository.CollectEntries` | internal/adapter/outbound/postgres/repository.go:92-102 | The rows of the result set, each once, in its order. |
| `Consumers.RunCascade` | internal/adapter/outbound/postgres/db.go:146-163 | After any pattern of aborted attempts cascade and mark are both there or both not; on a nil return both are there and the count is that of the committed attempt. Under any interference the attempt that took effect is the machine's step in every state it may have met. |
| `Consumers.CascadeIn` | internal/adapter/outbound/postgres/repository.go:205-236 | The statement joined to the handler's transaction is the cascade of the delivery and returns its row count. |
| `Consumers.Handle` | internal/adapter/inbound/consumer/member_removal_consumer.go:77-136 | From the envelope's own fields: own-type envelopes whose ids do not parse fail and other types without an id are acknowledged, both changing nothing; a failed probe changes nothing and goes no further; a marked event returns nil with nothing done; otherwise, also on an error return, either nothing happened or all of it: a purge removed exactly the tenant's rows, a removal deleted exactly the tenant's user's undeleted rows, another type touched none, and the event is marked under this consumer. Run alone, every outcome is a path of the state machine, one that acknowledges the delivery on a nil return. |
| `Consumers.ParseIff` | internal/adapter/inbound/consumer/offboarding_consumer.go:108-127 | What an envelope parses to, by its type, id, tenant and subject. |
| `Consumers.DeliveryCarries` | internal/adapter/inbound/consumer/member_removal_consumer.go:92-136 | The cascade and mark of the parsed delivery are what the envelope's fields ask for, row by row. |
| `Consumers.TransactionPath` | internal/adapter/inbound/consumer/offboarding_consumer.go:138-155 | What a handler's transaction leaves, both writes or neither, the machine reaches by receiving and handling that delivery. |
| `Consumers.ProbeHitPath` | internal/adapter/inbound/consumer/dedup.go:27-37 | A probe that hits is a path that acknowledges the delivery and ends in the same table and ledger. |
| `Consumers.CleanupExpired` | internal/adapter/outbound/postgres/processed_events.go:78-95 | Exactly this consumer's marks older than 8 days go, the count returned is how many, and all others keep their times. |
| `Pagination.ParsePage` | internal/adapter/inbound/http/handler.go:151-175 | A page is accepted exactly when limit is absent or at least 1 and offset absent or at least 0; limit defaults to 100 and is clamped to 500. |
| `Pagination.WalkComplete` | internal/adapter/outbound/postgres/repository.go:107-122 | Walking pages to the first short one returns every row exactly once, in order, in n / limit + 1 pages, when no tie lies across a page boundary. |
| `Pagination.PageCount` | internal/adapter/outbound/postgres/repository.go:107-122 | The walk has n / limit + 1 pages however ties fall. |
| `Pagination.WalkCompleteIff` | internal/adapter/outbound/postgres/repository.go:107-122 | However ties fall from page to page, all walks are complete if and only if no two rows with one created_at lie on either side of a page boundary. |
| `Pagination.DistinctTimesSuffice` | internal/adapter/outbound/postgres/repository.go:112-115 | Distinct created_at values meet that condition for every limit. |
| `Pagination.TieBreaksWalk` | internal/adapter/outbound/postgres/repository.go:112-115 | From any tie across a boundary, a walk that returns a row twice. |
| `Pagination.PrefixFixed` | internal/adapter/outbound/postgres/repository.go:112-115 | Up to a boundary without a tie all orderings hold the same rows. |
| `AsyncApi.ResolveSchema` | internal/adapter/inbound/http/asyncapi.go:763-789 | On an acyclic reference graph the recursion ends and the loop with its seen set computes the recursive merge; a reference "#/components/schemas/n" gives what component n gives, one that names no component gives the schema itself. |
| `AsyncApi.ReferenceResolves` | internal/adapter/inbound/http/asyncapi.go:765-770 | A reference reaches the component it names, written with the prefix or bare. |
| `AsyncApi.DanglingStays` | internal/adapter/inbound/http/asyncapi.go:765-771 | A schema without allOf that names no component stays what it is. |
| `AsyncApi.RequiredUnion` | internal/adapter/inbound/http/asyncapi.go:777 | A merge requires exactly what some leaf requires. |
| `AsyncApi.ShowsAll` | internal/adapter/inbound/http/asyncapi.go:658-674 | Every property and every declared key is shown, required ones first. |
| `AsyncApi.ResolveIsFlat` | internal/adapter/inbound/http/asyncapi.go:763-789 | However allOf and references nest, the result is the flat merge of the resolved leaves in document order. |
| `AsyncApi.LastDefinitionWins` | internal/adapter/inbound/http/asyncapi.go:784-786 | A merged property has its last leaf's definition. |
| `AsyncApi.NoOtherProperties` | internal/adapter/inbound/http/asyncapi.go:784-786 | Every merged property comes from some leaf. |
| `AsyncApi.MergedOrder` | internal/adapter/inbound/http/asyncapi.go:778-783 | The merged order is the concatenated leaf orders with repetitions dropped. |
| `AsyncApi.FirstOccurrenceOrder` | internal/adapter/inbound/http/asyncapi.go:778-783 | Dropping repetitions keeps exactly the keys, each once, by first occurrence. |
| `AsyncApi.RequiredFirstIsStable` | internal/adapter/inbound/http/asyncapi.go:672-674 | Required-first is a permutation, required keys before the others, order within each group kept, and idempotent. |
| `AsyncApi.RenderKeys` | internal/adapter/inbound/http/asyncapi.go:658-674 | The keys rendered, and what the in-place sort leaves in the schema's own order array. |
| `AsyncApi.RerenderSame` | internal/adapter/inbound/http/asyncapi.go:658-674 | Rendering a parsed schema again shows the same order, whatever the first rendering left in its order array. |
| `Rendering.RenderedStableIff` | internal/adapter/inbound/http/asyncapi.go:636-674 | An allOf schema resolved before and after any of the components were rendered, in whatever order and however often, has the same properties and required keys and shows them in the same order if and only if in what each leaf sorted by that adds no key that only another leaf requires stands before one of its own required keys. |
| `Rendering.RenderingCanReorder` | internal/adapter/inbound/http/asyncapi.go:636-674 | Schemas on which it does not: a component listing p before q and requiring q, and an allOf that merges it with a part requiring p; rendering the component changes what the allOf shows. |
| `Rendering.RenderedLeafIsLeft` | internal/adapter/inbound/http/asyncapi.go:644-674 | What is taken as a rendered component is what the in-place sort leaves: sorted if the declared order lists every property, untouched otherwise. |
| `Rendering.TargetIsResolved` | internal/adapter/inbound/http/asyncapi.go:763-771 | Rendering a component that is a reference shows, and so sorts, the component its references lead to. |
| `Rendering.RenderedAgain` | internal/adapter/inbound/http/asyncapi.go:644-674 | Rendering components again, or more of them, adds up to rendering their union once. |
| `Rendering.LeavesRendered` | internal/adapter/inbound/http/asyncapi.go:763-789 | The leaves of a schema over the rendered components are its leaves, those that are rendered components as rendered. |
| `SharedOrder.AllOfStableIff` | internal/adapter/inbound/http/asyncapi.go:772-789 | The same for the flat merge: with any subset of the leaves sorted by their own required keys, the merge shows the same order if and only if every sorted share is steady. |
| `SharedOrder.FreshOfSorted` | internal/adapter/inbound/http/asyncapi.go:778-783 | Sorting a leaf's order sorts exactly what that leaf adds to the merged order. |
| `Patcher.StripLoop` | scripts/patch-swagger-extensions.py:67-79 | The line loop with its flag keeps exactly the lines the line-by-line definition keeps. |
| `Patcher.RewriteYaml` | scripts/patch-swagger-extensions.py:62-93 | The strip, the block assembled entry by entry and the search for its place write the text of the line-by-line definition. |
| `Patcher.PatchYamlIdempotent` | scripts/patch-swagger-extensions.py:62-93 | For every text and every list of one-line tags, patching twice is patching once. |
| `Patcher.OutsideLinesSurvive` | scripts/patch-swagger-extensions.py:67-79 | Exactly the lines outside top-level tags blocks survive the strip, in order. |
| `Patcher.PatchedYamlIs` | scripts/patch-swagger-extensions.py:81-92 | The lines of the output: the surviving lines and, before the first securityDefinitions line or else at the end, "tags:" and for each tag its description line and its name line. |
| `TextLines.SplitTerminated` | scripts/patch-swagger-extensions.py:63-92 | Writing lines with newlines and splitting them again gives the lines back. |
| `TextLines.SplitTakesApart` | scripts/patch-swagger-extensions.py:63 | Splitting takes every text apart at exactly its line breaks. |
| `TextLines.BlankCodes` | scripts/patch-swagger-extensions.py:63-130 | The code points that end a line and that stripping removes. |
| `TextLines.WrittenIs` | scripts/patch-swagger-extensions.py:136-153 | Joining and conditionally ending with a newline swallows exactly one blank line at the end. |
| `TextLines.FindBesideBreak` | scripts/patch-swagger-extensions.py:108-113 | Searching a text for a pattern without a line break is searching before any break and then after it. |
| `DocsPatcher.AnchorInLines` | scripts/patch-swagger-extensions.py:110-113 | A text contains the anchor if and only if one of its lines does. |
| `DocsPatcher.InsertIsReplace` | scripts/patch-swagger-extensions.py:146-150 | Putting the fragment's lines after the first line part that ends in the pattern is replacing the first pattern in the joined text. |
| `DocsPatcher.RewriteDocs` | scripts/patch-swagger-extensions.py:108-157 | The script's search and replacement in the text have the effect of the line-by-line definition. |
| `DocsPatcher.OutsideDocsSurvive` | scripts/patch-swagger-extensions.py:115-139 | Exactly the lines outside tags blocks of docs.go survive the strip, in order: a block runs from its opening line through blank, bracket or deeper lines, and ends with its closing bracket or before the next line that is none of these. |
| `DocsPatcher.PatchedDocsIs` | scripts/patch-swagger-extensions.py:140-153 | The lines of the output, by the script's literal anchor: the surviving lines, the first that holds the pattern cut after it and followed by the block with the rest of the line behind its closing. |
| `DocsPatcher.BodyAt` | scripts/patch-swagger-extensions.py:141-144 | The block holds for each tag a brace, its name, its description and a closing brace, with commas between. |
| `DocsPatcher.TrimIs` | scripts/patch-swagger-extensions.py:125-132 | Stripping takes away exactly the blanks at both ends. |
| `DocsPatcher.PatchDocsIdempotentIff` | scripts/patch-swagger-extensions.py:108-157 | Of the script's own operations on docs.go: twice is once if and only if the anchor is absent, or nothing follows the first pattern on its line and the stripped text does not end in two blank lines while it holds the anchor. |
| `DocsPatcher.DocsCanDrift` | scripts/patch-swagger-extensions.py:146-153 | Texts of either failing kind, for every continuation of the line and every number of blank lines from two up. |

## Left out

- HTTP routing, middleware, role and tenant header checks, DTO copying, health checks and the HTML output: one-branch checks or user interface.
- Metrics, logging and tracing: they hold no state the properties speak of.
- Error classification (wrapConnErr, respondACLError, CodeOf): case tables; the model keeps the error codes the operations themselves decide.
- JSON and YAML codecs and UUID parsing: values are taken after parsing, an id that does not parse is absent.
- Configuration, the migration runner, deployment files and the data migration script; rows it would bulk-load may carry other versions, so the invariant is about runs from the empty table.
- The duration of a transaction: each attempt reads, writes and takes now() at one instant, on one monotone clock shared by Postgres, Valkey and the service.
- Valkey at the exact end of the TTL: an entry is taken to be gone 30 s after its Set, not a moment later.
- Insert failures other than level, policy, reason length and uniqueness appear only as an attempt that breaks.
- The JSON half of the patch script (patch_json), which has no line loop.
- DocsPatcher.PatchDocsIdempotentIff: for a non-empty list of one-line tags, as in the script; an empty list would render its block on one line, which is not modelled.
- Patcher.PatchYamlIdempotent: for tags whose rendered name and description hold no line break, as in the script.
- AsyncApi.ResolveSchema: for acyclic references only, since the source does not end on a cycle; sorting by Go's sort.Strings and sort.SliceStable is taken as given, the sorted keys being a parameter.
- Repository.List: the order in which Postgres delivers rows of equal created_at is a parameter, any legal order for each attempt.
- Consumers.Handle: the probe's own retries are one attempt that commits or fails.
- Paths of whole calls (`Refinement`, `Consumers`) are stated for calls that do not overlap; of overlapping calls each write attempt is related to its step, and their interleavings are the machine's.
