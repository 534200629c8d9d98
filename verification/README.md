# SAE Books: verified models of the core protocols and tables

These modules model the parts of the bookkeeping server that carry real algorithms and prove what
those parts are for. The code that works by changing state is modelled as classes and loops, each
proved to compute a specification function; the lemmas then say what that function guarantees for
every input, every transaction or every run.

| files | what they model |
|---|---|
| `Presence`, `PresenceSafety`, `PresenceConvergence`, `PresenceHub` | collaborative presence: a transition system over five atomic stream steps, shared by the gRPC and the Connect transport |
| `Locks` | lease locks with lazy expiry, compared with an eager reference store |
| `ChangeFeed` | the cursor-driven change stream, compared with the log itself |
| `AllocationCap`, `AllocationEffects`, `AllocationSession` | payment allocations under a deferred per-row cap trigger |
| `JournalBalance`, `JournalEffects`, `JournalSession` | POSTED journal entries under a deferred balance trigger |
| `AccountCodes`, `AccountMigration`, `AccountChart`, `AccountOrders` | the account-code hyphenation migration and its downgrade |
| `AccountTree` | the parent links derived by zeroing digits from the right |
| `Withholding`, `WithholdingScales` | PAYG and study-loan bands over unbounded earnings |
| `Money` | half-up rounding, storage at scale 4 and the trim on read |
| `Memberships` | the migration from roles to tenant memberships |
| `EmailLog` | the tamper-evident e-mail log |

`dafny verify dfyconfig.toml` checks the project.

## What turned out to have a condition

Some promises hold only under a condition. Each is proved as an if-and-only-if, or with a concrete
counterexample beside the exact condition.

- **Presence.** The store is keyed by user, not by stream. When one of two streams of a user in a
  scope ends, the user disappears from the store although the other stream is still live; the views
  go wrong exactly when that other stream is still joining (`LeaveKeepsViewsExactly`, `TwinsDiverge`,
  `TwinsReachable`). The scope key joins type and id with a colon, so it tells entities apart exactly
  when no type extends another at a colon (`ScopeKeysExact`); a start under another entity's key makes
  a view wrong exactly when the user is not stored under it yet (`StartKeepsViewsExactly`,
  `ClashDiverges`, `ClashReachable`).
- **Locks.** `ReleaseLock` does not look at the expiry: giving back one's own expired lease is
  reported as released. That is the only answer that differs from an eager store
  (`AnswersLikeEagerStore`, `StaleReleaseShows`).
- **Change stream.** The stream equals the log exactly when no row becomes visible behind the cursor
  (`StreamIsLog`, `LowerRowCommittedLater`).
- **Allocations.** Nothing re-checks the cap when a document's total is written; a commit keeps the
  caps exactly when the totals it wrote for documents that it did not allocate to cover what they had
  (`CommitKeepsCaps`, `RepricingIsUnchecked`, `RepricedBelowAllocations`).
- **Journal.** The line trigger checks only the entry the line now belongs to, so moving a line can
  unbalance the entry it left; a commit keeps the ledger sound exactly when those entries can spare
  what was taken (`CommitKeepsBalance`, `RepointingIsHalfChecked`, `LineMovedToDraft`). The allocation
  trigger does re-check the old document.
- **Account codes.** The downgrade deletes a header account of the original chart that the upgrade
  turned into `prefix-0000`, `$` in the lettered-code pattern lets a final line break be dropped, and
  a code that becomes another account's code stops the renaming (`MigrationRoundTrip`,
  `RoundTripInEveryOrder`, `HeaderAccountLost`, `LineBreakLost`, `CrossedChartLost`).
- **Withholding.** The withholding and the study-loan amount are rounded separately, so rounded
  take-home pay can fall by a dollar when earnings rise by one: exactly when that dollar carries both
  unrounded amounts past a half dollar (`TakeHomeFallsExactly`, `TakeHomeFallsInBands`,
  `TakeHomeCanFall`); before rounding it never does.

## Where the code and its documentation disagree

- `alembic/versions/0113_payg_tables.py:13` writes `floor(weekly_earnings + 0.99)`; the code
  (`saebooks/jurisdictions/au/payg.py:224-234`) computes `floor(weekly_earnings) + 0.99`, and takes a
  negative amount as zero before rounding (`:386-391`). The model follows the code. The worked
  example at `alembic/versions/0120_payg_tax_scales_fy25_26.py:302-303` agrees with it:
  $2,608.36 gives x = 2608.99 and 0.17 x - 241.3462 = 202.1821.
- The header of `saebooks/connect_app.py:34-38` says that streaming and locks are not implemented
  there; they are (`:831-1031`). The model covers both transports.
- Migration `0058` announces three post-conditions (`:165-168`) and checks four (`:172-239`). The
  model has all four.

## Model

| member | source | states |
|---|---|---|
| PresenceHub.Hub.constructor | saebooks/grpc_server.py:199-208 | an empty server satisfies the whole invariant |
| PresenceHub.Hub.FanOut | saebooks/grpc_server.py:758-762 | the loop over the tenant's queues delivers one copy of the event per listed queue |
| PresenceHub.Hub.Register | saebooks/grpc_server.py:751-752 | the nested setdefault calls add the viewer once and leave every other scope alone |
| PresenceHub.Hub.Start | saebooks/grpc_server.py:744-768 | registering and taking the snapshot list is the atomic start step, and keeps the bookkeeping |
| PresenceHub.Hub.Emit | saebooks/grpc_server.py:765-776 | one snapshot row is yielded, in the order of the snapshot list |
| PresenceHub.Hub.Announce | saebooks/grpc_server.py:778-788 | the join event reaches every queue of the tenant, its own included |
| PresenceHub.Hub.Receive | saebooks/grpc_server.py:790-796 | one event leaves the queue and is yielded exactly when it is about this stream's entity |
| PresenceHub.Hub.Leave | saebooks/grpc_server.py:805-822 | the clean-up, from any point of the stream, removes viewer and queue and tells the others |
| Presence.FanOutTenant | saebooks/connect_app.py:915-918 | fanning out to an exact queue list reaches each live stream of the tenant once and no other stream |
| Presence.StoryKept | saebooks/grpc_server.py:765-796 | yielding a row or taking an event never changes what the client ends up with |
| Presence.StoryExtends | saebooks/grpc_server.py:793-796 | an event put on a queue is applied to the client's final view when its entity matches, and is ignored otherwise |
| PresenceSafety.StepStreams | saebooks/grpc_server.py:744-822 | what one step does to every stream: frame for the streams it does not touch, one event for the tenant's others |
| PresenceSafety.BookkeepingKept | saebooks/grpc_server.py:751-822 | any step, at whatever point a stream is cancelled, keeps each queue list exact and every viewer backed by a live stream |
| PresenceSafety.BookkeepingAlways | saebooks/connect_app.py:908-975 | the same over every interleaving of any length |
| PresenceSafety.StoryAfter | saebooks/grpc_server.py:758-822 | how any step changes the view that a live stream leads to |
| PresenceSafety.ViewersAfter | saebooks/grpc_server.py:751-808 | how any step changes the stored viewers of any scope |
| PresenceSafety.JoiningAfter | saebooks/grpc_server.py:751-788 | a start adds its request to those joining; after an announcement or a leave exactly those are left who join through another stream; the other steps change nothing |
| PresenceSafety.SnapshotAgrees | saebooks/grpc_server.py:751-776 | a new stream's snapshot, with those still joining, is the store |
| PresenceSafety.AgreementKept | saebooks/grpc_server.py:758-822 | any careful step of any stream keeps the agreement of each other stream with the store |
| PresenceSafety.StartKeepsViewsExactly | saebooks/grpc_server.py:751-776 | a start always keeps the store complete, and keeps every live stream's view in agreement with the store if and only if no stream of another entity has the scope key or the user is stored under it already |
| PresenceSafety.LeaveKeepsViewsExactly | saebooks/grpc_server.py:805-822 | a leave keeps the store complete if and only if the user has no other stream in the scope, and keeps every view in agreement if and only if no such stream is still joining |
| PresenceSafety.OtherStepsKeepViews | saebooks/grpc_server.py:765-796 | yielding, announcing and receiving always keep both |
| PresenceSafety.ClashDiverges | saebooks/grpc_server.py:751-752 | a user not yet stored who starts under another entity's scope key makes that entity's view wrong |
| PresenceSafety.ClashReachable | saebooks/grpc_server.py:744-776 | two users opening two entities with one scope key bring an empty server there |
| PresenceSafety.ColonClash | saebooks/grpc_server.py:215-216 | entity b:c of type a and entity c of type a:b have one scope key |
| PresenceSafety.InvKeptExactly | saebooks/grpc_server.py:751-822 | the induction step: the whole invariant, one entity per scope key included, is kept exactly by the steps that neither end one of two streams of a user in a scope nor start under another entity's scope key |
| PresenceSafety.InvAlways | saebooks/connect_app.py:901-975 | the invariant holds after every careful interleaving |
| PresenceSafety.ViewsConverge | saebooks/grpc_server.py:737-743 | after any careful interleaving from an empty server, a client with a drained queue sees exactly the store's viewers once nobody is mid-join |
| PresenceConvergence.WorkFalls | saebooks/grpc_server.py:765-796 | every yield, announcement and delivery uses up work, although an announcement puts an event on every queue of the tenant |
| PresenceConvergence.OwnRunsAreBounded | saebooks/connect_app.py:920-955 | while nobody starts or leaves, a run is no longer than the work there is, in whatever order the streams take turns |
| PresenceConvergence.CanSettle | saebooks/connect_app.py:920-955 | from every such state some run leads to one where no stream has anything left to do |
| PresenceConvergence.SettledViewsAreTheStore | saebooks/grpc_server.py:737-743 | there, every client sees exactly the store's viewers of its scope |
| PresenceConvergence.StreamsConverge | saebooks/grpc_server.py:764-796 | so from any state of the invariant, once clients stop coming and going, runs are bounded, one settles, and wherever one has settled every view is the store |
| PresenceSafety.PoliteRunsAreCareful | saebooks/grpc_server.py:200-201 | one live stream per user and scope, and colon-free entity types, make every interleaving careful |
| PresenceSafety.ScopeKeysExact | saebooks/grpc_server.py:215-216 | scope keys tell the entities of a set of types apart if and only if no type extends another at a colon |
| PresenceSafety.TwinHidden | saebooks/grpc_server.py:806-808 | ending one of two streams of a user in a scope hides the live other one |
| PresenceSafety.TwinsDiverge | saebooks/grpc_server.py:778-808 | after that, the other stream's announcement leaves a viewer in the views that the store lacks |
| PresenceSafety.TwinsReachable | saebooks/grpc_server.py:744-776 | two tabs of one user on one entity bring an empty server there |
| Locks.LockService.AcquireLock | saebooks/grpc_server.py:828-868 | new store and answer of the handler: stale leases cleared, live foreign leases refused with their holder, otherwise granted or renewed |
| Locks.LockService.ReleaseLock | saebooks/grpc_server.py:870-881 | new store and answer: only the holder's lease is removed |
| Locks.SameLiveLeases | saebooks/connect_app.py:977-1031 | one request, asked of a lazy and an eager store with the same live leases, leaves the same live leases and gives the same answer unless it releases a stale own lease |
| Locks.AnswersLikeEagerStore | saebooks/connect_app.py:977-1031 | over every run whose clock does not go back, every acquire answer equals the eager store's, and a release answer differs if and only if a stale own lease is released |
| Locks.StaleReleaseShows | saebooks/grpc_server.py:870-881 | whoever gives back a lease that has run out is told it was released, at any later time |
| Locks.LeaseHeld | saebooks/grpc_server.py:847-868 | a granted lease stays in the store unchanged until it expires or its holder touches it |
| Locks.LeaseSafety | saebooks/grpc_server.py:828-881 | until a grant expires, is released or renewed, everybody else is refused and told its holder and expiry |
| Locks.ReleaseFrees | saebooks/connect_app.py:1018-1031 | release undoes a grant, and the next caller gets the lock at once |
| Locks.GrantLasts | saebooks/grpc_server.py:841-868 | a grant lasts the seconds asked for, or thirty when none or a negative number was, in answer and store |
| Locks.GrantedExactly | saebooks/grpc_server.py:847-860 | a key is granted to everybody unless another user's lease on it still runs, and a refusal changes nothing |
| Locks.ReleasedExactly | saebooks/grpc_server.py:876-881 | a key is given back exactly by the user of the stored lease, and no other lease changes |
| Locks.LeaseSafetyInSeconds | saebooks/grpc_server.py:828-881 | until the seconds granted have passed, everybody else is refused, unless the holder acts |
| Locks.LeaseEnds | saebooks/grpc_server.py:847-868 | from then on whoever asks next is granted the key |
| Locks.AnswersAreLive | saebooks/grpc_server.py:841-868 | every answer names the holder of a lease still running, with the caller named exactly when granted |
| ChangeFeed.WatchChanges | saebooks/grpc_server.py:682-714 | the polling loop with its moving cursor computes the specified progress for any batch size |
| ChangeFeed.EmitBatch | saebooks/grpc_server.py:699-708 | a batch is emitted in order, row by row, and the cursor ends at its last row |
| ChangeFeed.PollAdds | saebooks/services/change_log.py:90-112 | one query returns exactly the rows up to the new cursor, in id order |
| ChangeFeed.EmittedInOrder | saebooks/connect_app.py:848-868 | emitted ids rise strictly from above the start, and the cursor is the last of them |
| ChangeFeed.EmittedVisible | saebooks/connect_app.py:848-868 | everything emitted is a row of the log |
| ChangeFeed.LateRowIsMissed | saebooks/grpc_server.py:695-708 | a row that becomes visible behind the cursor is never emitted |
| ChangeFeed.LowerRowCommittedLater | saebooks/grpc_server.py:695-708 | of two rows visible in the wrong order the lower one is late and never emitted, whatever their ids and the batch size |
| ChangeFeed.StreamIsLog | saebooks/grpc_server.py:688-708 | the stream is the log from start to cursor, each row once and in order, if and only if no row becomes visible behind the cursor |
| ChangeFeed.AppendOnlyHasNoLateRow | alembic/versions/0036_phase0_api_scaffolding.py:5-7 | a log that only grows at its end never has such a row |
| ChangeFeed.ShortPollCatchesUp | saebooks/services/change_log.py:98-110 | a poll shorter than the limit means that everything has been emitted |
| ChangeFeed.PollsProgress | saebooks/grpc_server.py:692-708 | n polls of a log that stands still emit exactly the first n times limit rows above the cursor, or all of them |
| ChangeFeed.ResumedIsLog | saebooks/grpc_server.py:688-708 | what a client has that stopped anywhere and resumed at its last row, with any batch size, is the log from its first cursor to its last |
| ChangeFeed.ResumeLosesNothing | saebooks/grpc_server.py:688-708 | that and what the uninterrupted stream emits are one the beginning of the other |
| AllocationSession.CheckAllocationCap | alembic/versions/0102_alloc_invariants.py:87-141 | the procedure raises exactly when the document of the first set target exists and is over its cap |
| AllocationSession.SumRows | alembic/versions/0102_alloc_invariants.py:126-128 | the coalesced sum over all rows |
| AllocationSession.FireTrigger | alembic/versions/0102_alloc_invariants.py:143-175 | the trigger checks the new target, and the old one too when any target column changed |
| AllocationSession.ViolationReport | alembic/versions/0102_alloc_invariants.py:217-240 | under the constraints the grouped report lists exactly the documents over their cap |
| AllocationSession.GroupByTarget | alembic/versions/0102_alloc_invariants.py:220-226 | grouping gives each target its sum, and every id without a group a sum of zero |
| AllocationSession.Session.InsertRow | alembic/versions/0102_alloc_invariants.py:69-82 | inserting is refused exactly by XOR rule or foreign keys, else adds the row and queues one event |
| AllocationSession.Session.UpdateRow | alembic/versions/0102_alloc_invariants.py:177-187 | updating replaces one row and queues its old and new image |
| AllocationSession.Session.DeleteRow | alembic/versions/0102_alloc_invariants.py:177-187 | deleting removes one row and queues its old image |
| AllocationSession.Session.DropDocumentRow | alembic/versions/0020_payments_credit_notes.py:276-287 | a document with allocations cannot be deleted |
| AllocationSession.Session.WriteTotal | alembic/versions/0102_alloc_invariants.py:177-187 | writing a document's total queues no check |
| AllocationSession.Session.Commit | alembic/versions/0102_alloc_invariants.py:177-187 | commit succeeds exactly when every queued event passes on the final tables, undoes everything otherwise, and starts afresh |
| AllocationSession.Session.Run | alembic/versions/0102_alloc_invariants.py:87-187 | a whole session run, statement by statement in place, is the specified transaction, and commits exactly when every statement and every queued check passes |
| AllocationSession.Session.Rollback | alembic/versions/0102_alloc_invariants.py:177-187 | the tables are as they were at the start of the transaction |
| AllocationCap.CoalescedIsAllocated | alembic/versions/0102_alloc_invariants.py:126-128 | with exactly one target per row and ids disjoint across tables, the coalesced sum is the document's own sum |
| AllocationCap.CheckIsCap | alembic/versions/0102_alloc_invariants.py:100-135 | the check of a row image decides exactly the cap of the document it points at |
| AllocationCap.StatementFrame | alembic/versions/0102_alloc_invariants.py:143-187 | a statement changes no sum of a document that its events do not name |
| AllocationCap.TransactionFrame | alembic/versions/0102_alloc_invariants.py:143-187 | a whole transaction keeps the sum of a document that no event names, and leaves it the last total written if anything is allocated to it |
| AllocationCap.ChecksCoverNamed | alembic/versions/0102_alloc_invariants.py:143-175 | the queued checks pass if and only if every named document is within its cap in the final tables |
| AllocationCap.UnnamedCapped | alembic/versions/0102_alloc_invariants.py:143-187 | a document that no event names ends up capped if and only if its allocations before the transaction are within its last written total |
| AllocationCap.CommitKeepsCaps | alembic/versions/0102_alloc_invariants.py:87-187 | a committed transaction leaves every document capped, named or not, if and only if each total it wrote for an unnamed document covers what was allocated to it beforehand |
| AllocationCap.DeferredChecksAreGlobal | alembic/versions/0102_alloc_invariants.py:143-187 | without writes of totals, the per-row checks decide exactly as a check of every document would |
| AllocationCap.NeverOverAllocated | alembic/versions/0102_alloc_invariants.py:87-187 | no history of such transactions ever over-allocates a document |
| AllocationCap.RepricingIsUnchecked | alembic/versions/0102_alloc_invariants.py:177-187 | writing a total always commits, and keeps the cap if and only if it covers the allocations |
| AllocationCap.RepricedBelowAllocations | alembic/versions/0102_alloc_invariants.py:177-187 | an invoice of 100 with 100 allocated can be repriced to 50 |
| AllocationEffects.OneTargetMeansOne | alembic/versions/0102_alloc_invariants.py:69-82 | the XOR rule admits exactly the rows that point at one document |
| AllocationEffects.InsertEffect | alembic/versions/0102_alloc_invariants.py:69-82 | an insert is accepted exactly for a row with one existing target; it then stores the row, and every document's sum grows by the row's share |
| AllocationEffects.UpdateEffect | alembic/versions/0102_alloc_invariants.py:177-187 | an update replaces one row, and every document's sum changes by the new image less the old one |
| AllocationEffects.DeleteEffect | alembic/versions/0102_alloc_invariants.py:177-187 | a delete takes one row, and its share, out of every sum |
| AllocationEffects.AddDocumentEffect | alembic/versions/0020_payments_credit_notes.py:46-60 | a new document is accepted exactly under an unused id, has its total, and leaves the others |
| AllocationEffects.DropDocumentEffect | alembic/versions/0020_payments_credit_notes.py:275-286 | a document goes exactly when no row points at it, and leaves the others |
| AllocationEffects.SetTotalEffect | alembic/versions/0102_alloc_invariants.py:177-187 | writing a total always succeeds, and changes that total of an existing document only |
| AllocationEffects.TransactionConserves | alembic/versions/0102_alloc_invariants.py:143-187 | over any transaction, what is allocated to a document at the end is what was, plus the new images of the queued events, less the old ones |
| AllocationEffects.CommitsExactly | alembic/versions/0102_alloc_invariants.py:87-187 | a transaction whose statements succeed commits if and only if every named document stays within its final total, counted from the sum before and the events |
| AllocationEffects.InsertCommitsExactly | alembic/versions/0102_alloc_invariants.py:126-135 | a single insert commits if and only if the sum with it is within the total; then the row counts, else nothing changes |
| AllocationEffects.OverAllocationFails | alembic/versions/0102_alloc_invariants.py:130-135 | an invoice of 100 does not take an allocation of 150 |
| JournalSession.CheckEntry | alembic/versions/0101_je_balance_trigger.py:64-111 | the function raises exactly when the entry exists, is POSTED, and has fewer than two lines or unequal sums |
| JournalSession.FireTrigger | alembic/versions/0101_je_balance_trigger.py:118-154 | the wrappers check the entry of the new image, or of the old one for a delete |
| JournalSession.ViolationReport | alembic/versions/0101_je_balance_trigger.py:187-209 | the report over the left join lists exactly the entries that the function rejects, those without lines included |
| JournalSession.Session.InsertEntry | alembic/versions/0101_je_balance_trigger.py:160-170 | new entry and one queued event, refused for a known id |
| JournalSession.Session.UpdateEntry | alembic/versions/0101_je_balance_trigger.py:160-170 | new status and one queued event |
| JournalSession.Session.DeleteEntry | alembic/versions/0005_journal_entries.py:74-79 | the entry goes, the cascade deletes exactly its lines and queues one event for each |
| JournalSession.Session.InsertLine | alembic/versions/0101_je_balance_trigger.py:172-182 | new line and one queued event, refused without an entry |
| JournalSession.Session.UpdateLine | alembic/versions/0101_je_balance_trigger.py:172-182 | one line replaced, its old and new image queued |
| JournalSession.Session.DeleteLine | alembic/versions/0101_je_balance_trigger.py:172-182 | one line removed, its old image queued |
| JournalSession.Session.Commit | alembic/versions/0101_je_balance_trigger.py:156-182 | commit succeeds exactly when every queued check passes on the final tables, undoes everything otherwise, and starts afresh |
| JournalSession.Session.Run | alembic/versions/0101_je_balance_trigger.py:64-182 | a whole session run, statement by statement in place, is the specified transaction, and commits exactly when every statement and every queued check passes |
| JournalBalance.StatementFrame | alembic/versions/0101_je_balance_trigger.py:139-182 | an entry that a statement neither names nor updates a line of keeps its status and lines |
| JournalBalance.TransactionFrame | alembic/versions/0101_je_balance_trigger.py:139-182 | over any intermediate states, an entry that no event names keeps its status and has the lines it had, in number and in both sums, less the old images of those taken from it |
| JournalBalance.CascadeFrame | alembic/versions/0005_journal_entries.py:74-79 | a cascaded delete leaves the lines of every other entry |
| JournalBalance.ChecksCoverNamed | alembic/versions/0101_je_balance_trigger.py:118-154 | the queued checks pass if and only if every named entry is sound in the final tables |
| JournalBalance.StillThere | alembic/versions/0101_je_balance_trigger.py:76-80 | an unnamed entry is still there if and only if no statement deleted it |
| JournalBalance.UnnamedSound | alembic/versions/0101_je_balance_trigger.py:64-182 | an unnamed entry ends up sound if and only if what was taken from it balances and leaves two lines, or it is not POSTED, or is deleted |
| JournalBalance.CommitKeepsBalance | alembic/versions/0101_je_balance_trigger.py:64-182 | a committed transaction leaves every POSTED entry balanced with two lines or more if and only if each unnamed entry it took lines from can spare them, read off its lines before the transaction and the old images taken |
| JournalBalance.DeferredChecksAreGlobal | alembic/versions/0101_je_balance_trigger.py:64-182 | when line updates keep their entry, the per-row checks decide exactly as a check of the whole ledger |
| JournalBalance.LedgerStaysSound | alembic/versions/0101_je_balance_trigger.py:64-182 | no history of such transactions ever unbalances a POSTED entry |
| JournalBalance.RobbedEntry | alembic/versions/0101_je_balance_trigger.py:144-148 | the entry a line was moved from stays sound if and only if it is not POSTED or can do without the line |
| JournalBalance.RepointingIsHalfChecked | alembic/versions/0101_je_balance_trigger.py:139-154 | moving a line commits on the new entry's word alone, and keeps the ledger sound exactly under that condition |
| JournalBalance.LineMovedToDraft | alembic/versions/0101_je_balance_trigger.py:139-154 | a POSTED entry of two lines loses one to a DRAFT entry, and the transaction commits |
| JournalBalance.CascadedDeleteCommits | alembic/versions/0101_je_balance_trigger.py:76-80 | deleting an entry with its lines always commits and keeps the rest of the ledger |
| JournalEffects.InsertEntryEffect | alembic/versions/0101_je_balance_trigger.py:160-170 | a new entry is accepted exactly under an unused id, and stored with its status |
| JournalEffects.UpdateEntryEffect | alembic/versions/0101_je_balance_trigger.py:160-170 | an update stores the status of its entry and of no other |
| JournalEffects.DeleteEntryEffect | alembic/versions/0005_journal_entries.py:74-79 | an entry goes with all its lines, and every other entry keeps its own |
| JournalEffects.InsertLineEffect | alembic/versions/0101_je_balance_trigger.py:172-182 | a line is accepted exactly for an existing entry, and adds one to its count and its amounts to its debits and credits |
| JournalEffects.UpdateLineEffect | alembic/versions/0101_je_balance_trigger.py:172-182 | the old image leaves the figures of its entry, the new one enters those of its own |
| JournalEffects.DeleteLineEffect | alembic/versions/0101_je_balance_trigger.py:172-182 | a deleted line leaves the figures of its entry |
| JournalEffects.TransactionConserves | alembic/versions/0101_je_balance_trigger.py:156-182 | over any transaction, cascades included, count, debits and credits of every entry at the end are what they were, plus the new images of the queued events, less the old ones |
| JournalEffects.CommitsExactly | alembic/versions/0101_je_balance_trigger.py:64-182 | a transaction whose statements succeed commits if and only if every named entry that ends up POSTED comes out even, counted from its lines before and the events |
| JournalEffects.PostingCommitsExactly | alembic/versions/0101_je_balance_trigger.py:82-108 | posting an entry commits if and only if its lines balance and number two or more; then it is POSTED, else nothing changes |
| JournalEffects.LineCommitsExactly | alembic/versions/0101_je_balance_trigger.py:82-108 | a line added alone to a POSTED entry commits if and only if the entry has one already and balances with it |
| JournalEffects.EmptyEntryCannotBePosted | alembic/versions/0101_je_balance_trigger.py:96-101 | a DRAFT entry without lines cannot be posted |
| AccountChart.MatchPrefix | alembic/versions/0010_hyphenated_account_codes.py:48-58 | the match loop stops at the first range whose prefix the digits start with |
| AccountChart.HyphenateCode | alembic/versions/0010_hyphenated_account_codes.py:40-58 | setting the letter aside, matching and putting the hyphens in computes the specified rewriting |
| AccountChart.UnhyphenateCode | alembic/versions/0010_hyphenated_account_codes.py:162-172 | the downgrade's match loop computes the specified restoring |
| AccountChart.Chart.HyphenateCodes | alembic/versions/0010_hyphenated_account_codes.py:40-58 | the row-by-row renaming runs through exactly when no intermediate table breaks (company, code), and then every row has its new code |
| AccountChart.Chart.CreateHeaders | alembic/versions/0010_hyphenated_account_codes.py:83-112 | a header account for each range that has none |
| AccountChart.Chart.DeleteHeaders | alembic/versions/0010_hyphenated_account_codes.py:131-139 | one delete per range takes exactly the range headers, in one go or one by one |
| AccountChart.Chart.UnhyphenateCodes | alembic/versions/0010_hyphenated_account_codes.py:158-172 | the downgrade's renaming runs through exactly when no intermediate table breaks (company, code) |
| AccountChart.Chart.UpgradeAll | alembic/versions/0010_hyphenated_account_codes.py:19-112 | the upgrade in place is the specified one and keeps (company, code) unique |
| AccountChart.Chart.DowngradeAll | alembic/versions/0010_hyphenated_account_codes.py:115-172 | the downgrade in place is the specified one |
| AccountCodes.FirstPrefixLongest | alembic/versions/0010_hyphenated_account_codes.py:22-28 | sorted longest first, the first match is the longest |
| AccountCodes.RewriteInsertsHyphen | alembic/versions/0010_hyphenated_account_codes.py:35-58 | lettered or not, the rewriting inserts one hyphen after the matching prefix and changes nothing else, a dropped line break apart |
| AccountCodes.CodeRoundTrip | alembic/versions/0010_hyphenated_account_codes.py:162-172 | restoring undoes rewriting for codes of any shape if and only if no line break was dropped |
| AccountCodes.RewriteInjective | alembic/versions/0010_hyphenated_account_codes.py:40-58 | two codes are never rewritten to one, a dropped line break apart |
| AccountCodes.SafeRenameExactly | alembic/versions/0010_hyphenated_account_codes.py:54-57 | renaming row by row to distinct codes stays unique at every step if and only if no row takes a code that a later row still has |
| AccountCodes.AddedHeaders | alembic/versions/0010_hyphenated_account_codes.py:83-112 | creating headers adds only headers, each range ends up with one, and uniqueness is kept |
| AccountCodes.DropAfterAdd | alembic/versions/0010_hyphenated_account_codes.py:131-139 | deleting headers removes all that creating them added |
| AccountCodes.BothWaysUncrossed | alembic/versions/0010_hyphenated_account_codes.py:162-172 | in table order, renaming there and back both run through only if no account's new code is another account's old one |
| AccountCodes.MigrationRoundTrip | alembic/versions/0010_hyphenated_account_codes.py:19-172 | with both directions in table order, downgrade after upgrade restores every account and code if and only if no code crosses another, no header account becomes prefix-0000, and no line break is dropped |
| AccountOrders.UncrossedRunsThrough | alembic/versions/0010_hyphenated_account_codes.py:30-58 | renaming to distinct, uncrossed codes stays unique at every step in whatever order the rows are visited |
| AccountOrders.RoundTripInEveryOrder | alembic/versions/0010_hyphenated_account_codes.py:19-172 | downgrade after upgrade restores every account and code, whatever order each direction visits the rows in, if and only if the same three conditions hold |
| AccountCodes.LineBreakLost | alembic/versions/0010_hyphenated_account_codes.py:38-45 | lettered code 1-a with a final line break comes back without it |
| AccountCodes.CrossedChartLost | alembic/versions/0010_hyphenated_account_codes.py:54-57 | accounts 11 and 1-1 under prefix 1 do not come back |
| AccountCodes.HeaderAccountLost | alembic/versions/0010_hyphenated_account_codes.py:131-139 | header account 10000 under prefix 1 does not come back |
| AccountMigration.LetteredExactly | alembic/versions/0010_hyphenated_account_codes.py:37-46 | the letter pattern is matched by exactly digits, hyphen, letter, up to a line break at the end |
| AccountMigration.ChompExactly | alembic/versions/0010_hyphenated_account_codes.py:38 | what may be ignored is one line break at the end and nothing else |
| AccountMigration.UpgradeHyphenates | alembic/versions/0010_hyphenated_account_codes.py:40-58 | every account's code gets one hyphen after the longest range prefix that starts it, or stays when none does; company and header mark stay |
| AccountMigration.DowngradeRestores | alembic/versions/0010_hyphenated_account_codes.py:162-172 | every account left loses the hyphen after the range prefix that starts its code, or stays; company and header mark stay |
| AccountMigration.DroppedExactly | alembic/versions/0010_hyphenated_account_codes.py:131-139 | the downgrade deletes exactly the header accounts prefix-0000 of a range's own company |
| AccountMigration.AddedExactly | alembic/versions/0010_hyphenated_account_codes.py:83-112 | only headers prefix-0000 whose company lacked that code are added, and afterwards every range's company has it |
| AccountMigration.UpgradeAddsHeaders | alembic/versions/0010_hyphenated_account_codes.py:77-112 | so it is after the whole upgrade |
| AccountTree.Accounts.RederiveParents | alembic/versions/0012_sub_header_accounts.py:91-124 | after the loop each listed account with a patterned code stores the id of its parent's row, and no other account changed |
| AccountTree.Accounts.UpdateParents | alembic/versions/0012_sub_header_accounts.py:97-124 | the loop over the accounts gives every patterned one its link, row by row |
| AccountTree.BuildLookup | alembic/versions/0012_sub_header_accounts.py:91-92 | the lookup knows exactly the codes of the rows, each with a row's id |
| AccountTree.SearchParent | alembic/versions/0012_sub_header_accounts.py:113-118 | the inner loop finds the nearest existing truncation |
| AccountTree.FindParent | alembic/versions/0012_sub_header_accounts.py:105-118 | the branch on the letter, then the loop, give the specified parent |
| AccountTree.SearchFinds | alembic/versions/0012_sub_header_accounts.py:113-118 | the search stops at the rightmost position that gives an existing other code |
| AccountTree.ParseJoin | alembic/versions/0012_sub_header_accounts.py:95-103 | a plain code reads back as prefix and children |
| AccountTree.ParseLettered | alembic/versions/0012_sub_header_accounts.py:95-103 | a lettered code reads back as prefix, children and letter |
| AccountTree.ParseIgnoresLineBreak | alembic/versions/0012_sub_header_accounts.py:95 | a line break at the very end makes no difference |
| AccountTree.ParseExactly | alembic/versions/0012_sub_header_accounts.py:95-100 | the pattern is matched by exactly the codes of the two shapes |
| AccountTree.TruncateMeans | alembic/versions/0012_sub_header_accounts.py:114-115 | truncating keeps the digits before a position and zeroes the others |
| AccountTree.ParentIsLower | alembic/versions/0012_sub_header_accounts.py:105-118 | a parent exists, is another unlettered account of the same prefix and length, and has a strictly lower rank, so links never form a cycle |
| AccountTree.AncestorsAreTruncations | alembic/versions/0012_sub_header_accounts.py:97-124 | following links from an unlettered account visits exactly the existing truncations of its code, each once, nearest first |
| AccountTree.LetteredHangsUnderBase | alembic/versions/0012_sub_header_accounts.py:107-111 | account prefix-children-letter hangs under account prefix-children when that exists, and is a root otherwise |
| AccountTree.ZeroAccountIsRoot | alembic/versions/0012_sub_header_accounts.py:113-118 | the all-zero account, if it exists, is the root of every account of its prefix and length |
| AccountTree.ZeroAccountIsRootOfLettered | alembic/versions/0012_sub_header_accounts.py:107-118 | and of the lettered ones whose base exists |
| Withholding.OneBandApplies | alembic/versions/0113_payg_tables.py:16-18 | in any table that tiles, exactly one band applies to any earnings, and the lookup finds it |
| Withholding.PublishedBandsTile | alembic/versions/0120_payg_tax_scales_fy25_26.py:161-266 | in every seeded scale and the study-loan table exactly one band applies to any earnings |
| Withholding.OneDollarMore | alembic/versions/0113_payg_tables.py:11-18 | across every band and boundary, a dollar more never lowers the unrounded amount nor raises it by more than the table's step |
| Withholding.ScaleIsGood | alembic/versions/0120_payg_tax_scales_fy25_26.py:161-266 | all eight scales tile and step by less than 66 cents in the dollar |
| Withholding.StslIsGood | alembic/versions/0120_payg_tax_scales_fy25_26.py:314-325 | so does the study-loan table, by at most 17 cents, although its top band drops to ten per cent |
| Withholding.WithholdingMonotone | saebooks/jurisdictions/au/payg.py:386-391 | rounded withholding never falls as earnings rise, without bound |
| Withholding.WithholdingBounds | saebooks/jurisdictions/au/payg.py:386-391 | it lies between nothing and the earnings, and taking negatives as zero changes nothing |
| Withholding.NetPayRises | alembic/versions/0120_payg_tax_scales_fy25_26.py:161-325 | before rounding, more earnings always leave more pay, with or without the study-loan amount |
| Withholding.RoundedStep | saebooks/jurisdictions/au/payg.py:237-239 | each rounded amount rises by at most a dollar per dollar earned |
| Withholding.StepByResidue | saebooks/jurisdictions/au/payg.py:237-239 | a rounded amount rises by a dollar exactly when the unrounded one passes a half dollar |
| Withholding.TakeHomeFallsExactly | saebooks/jurisdictions/au/payg.py:386-408 | rounded take-home pay falls at a dollar if and only if, before rounding, that dollar carries both amounts past a half dollar, and it falls by one dollar at most |
| Withholding.TakeHomeFallsInBands | saebooks/jurisdictions/au/payg.py:386-408 | inside two bands: if and only if what each amount is short of the next half dollar is no more than its band's coefficient takes of a dollar |
| Withholding.TakeHomeCanFall | saebooks/jurisdictions/au/payg.py:386-408 | on Scale 2 with a study loan it falls from $1,324 to $1,325 |
| WithholdingScales.ExemptionSavesLevy | alembic/versions/0120_payg_tax_scales_fy25_26.py:175-237 | before rounding, a full exemption (Scale 5) saves exactly the Medicare levy of Scale 2: nothing below $500, a tenth of the excess up to $625, two per cent from there; half an exemption (Scale 6) leaves the half levy |
| WithholdingScales.HalfLevyIsLess | alembic/versions/0120_payg_tax_scales_fy25_26.py:223-237 | the half levy is never more than the levy |
| WithholdingScales.WithoutFileNumber | alembic/versions/0120_payg_tax_scales_fy25_26.py:198-206 | without a tax file number, 47 per cent of everything for residents and 45 for the others |
| WithholdingScales.SecondJobRows | alembic/versions/0120_payg_tax_scales_fy25_26.py:161-170 | thresholds, rates and offsets of Scale 1 |
| WithholdingScales.ForeignRows | alembic/versions/0120_payg_tax_scales_fy25_26.py:191-253 | thresholds, rates and offsets of Scales 3 and 7 |
| WithholdingScales.StudyLoanRows | alembic/versions/0120_payg_tax_scales_fy25_26.py:314-325 | thresholds, rates and offsets of the study-loan table |
| Money.HalfUpUnique | saebooks/money.py:74 | half-up rounding is the only function that gives the nearest multiple with ties away from zero |
| Money.RoundMoneyOfValue | saebooks/money.py:61-74 | round_money depends on the value, not on its representation |
| Money.RoundMoneyMonotone | saebooks/money.py:61-74 | it keeps the order of decimals of any exponents |
| Money.RoundMoneyOdd | saebooks/money.py:61-74 | it commutes with changing the sign |
| Money.RoundMoneyDrift | saebooks/money.py:61-74 | for n amounts of any exponents, the sum of the rounded differs from the rounded total by at most (n + 1) / 2 quanta |
| Money.RoundMoneyIsNearest | saebooks/money.py:61-74 | round_money gives the nearest multiple of the quantum at the quantum's exponent |
| Money.RoundMoneyStable | saebooks/money.py:61-74 | it is idempotent and stable under later rounding to more places |
| Money.DecimalPlacesFor | saebooks/money.py:33-50 | seventeen currencies have no minor unit and seven have thousandths, each by its code in either case; every other one, or none, has hundredths |
| Money.PlacesIgnoreCase | saebooks/money.py:48-50 | the case of the code makes no difference |
| Money.Rounder.MoneyQuantum | saebooks/money.py:53-58 | with or without a cache hit the quantum is the directly computed one, and the cache stays right |
| Money.Rounder.RoundTo | saebooks/money.py:61-74 | rounding through the cache is rounding to the currency's, or the given, places |
| Money.QuantizeKeepsExactly | saebooks/db_types.py:155-157 | quantizing keeps a value exactly when the digits beyond the quantum are zeros, under every rounding mode |
| Money.RoundMeans | saebooks/db_types.py:155 | every rounding mode rounds as its name says, so that independence of the mode covers the real ones |
| Money.ReadNeverRounds | saebooks/db_types.py:148-158 | the trim keeps the value and gives the same representation whatever the rounding mode |
| Money.ReadExactly | saebooks/db_types.py:148-158 | what the trim returns for every decimal: hundredths if that loses nothing, else thousandths if that loses nothing, else the decimal as it is, never padded |
| Money.ReadIdempotent | saebooks/db_types.py:148-158 | trimming twice is trimming once |
| Money.ReadCanonical | saebooks/db_types.py:135-142 | values stored with two to four places are read alike if and only if they are equal |
| Money.StoreAndRead | saebooks/db_types.py:145-158 | writing and reading keeps a value if and only if it has no digit beyond the fourth place |
| Money.StoreIsNearest | saebooks/db_types.py:145 | what is stored has four places and is the nearest such number, ties away from zero |
| Money.RoundedAmountsSurvive | saebooks/db_types.py:135-142 | an amount rounded to four places or fewer survives storage, and one with two comes back digit for digit |
| Money.EveryCurrencySurvives | saebooks/db_types.py:135-142 | so does every amount in every currency |
| Memberships.Migration.RenameUserRoles | alembic/versions/0058_user_tenant_memberships.py:273-284 | the updates of the role map rename every user's role |
| Memberships.Migration.RestoreUserRoles | alembic/versions/0058_user_tenant_memberships.py:579-590 | the downgrade's two updates |
| Memberships.Migration.UpgradeRolePermissions | alembic/versions/0058_user_tenant_memberships.py:294-342 | rename, delete, copy and the new check constraint, with the primary key checked at the rename |
| Memberships.Migration.DowngradeRolePermissions | alembic/versions/0058_user_tenant_memberships.py:553-570 | delete, rename back and the legacy check constraint |
| Memberships.Migration.BackfillMembers | alembic/versions/0058_user_tenant_memberships.py:373-378 | the insert selects the active users without a membership in the table as it was, and fails as a whole exactly when an active user has no tenant |
| Memberships.UsersRoundTrip | alembic/versions/0058_user_tenant_memberships.py:80-85 | users come back from upgrade and downgrade if and only if none was a client, and meet the new check in between |
| Memberships.UpgradedGrants | alembic/versions/0058_user_tenant_memberships.py:294-342 | for any legal grant table the upgrade succeeds, owners hold exactly the admins' grants and viewers those of readonly |
| Memberships.GrantsRoundTrip | alembic/versions/0058_user_tenant_memberships.py:553-570 | downgrade after upgrade is the identity on all grants except those of clients |
| Memberships.BackfillCounts | alembic/versions/0058_user_tenant_memberships.py:172-184 | as many memberships as active users |
| Memberships.BackfillDefaults | alembic/versions/0058_user_tenant_memberships.py:204-239 | exactly one default membership for each active user and none for anybody else |
| Memberships.BackfillOnePerUser | alembic/versions/0058_user_tenant_memberships.py:410-423 | the backfill fits both partial unique indexes |
| Memberships.BackfillPasses | alembic/versions/0058_user_tenant_memberships.py:162-239 | all four post-checks hold after the backfill if and only if every active user has a tenant |
| Memberships.PreChecksSuffice | alembic/versions/0058_user_tenant_memberships.py:115-239 | passing pre-checks imply that the insert runs, all post-checks, both indexes, the new role checks and existing tenants |
| Memberships.BackfillIdempotent | alembic/versions/0058_user_tenant_memberships.py:493-519 | running the backfill again inserts nothing |
| Memberships.NewMembersExactly | alembic/versions/0058_user_tenant_memberships.py:501-519 | into any table the insert adds, field by field, a default membership with the user's own tenant and role for each active user without a current one, and nothing else |
| Memberships.BackfillExactly | alembic/versions/0058_user_tenant_memberships.py:501-513 | into an empty table: for each active user |
| Memberships.NewRoleByName | alembic/versions/0058_user_tenant_memberships.py:80-85 | readonly users and clients become viewers, the other roles stay |
| Memberships.OldRoleByName | alembic/versions/0058_user_tenant_memberships.py:579-590 | viewers become readonly and owners admin, the other roles stay |
| Memberships.RoleNames | alembic/versions/0058_user_tenant_memberships.py:72-96 | the roles that the check constraints admit before and after |
| Memberships.CollidesExactly | alembic/versions/0058_user_tenant_memberships.py:318-322 | a rename of grants is refused exactly when it would make one grant of two |
| Memberships.DowngradedGrants | alembic/versions/0058_user_tenant_memberships.py:553-570 | from any table the new check admits, owners go, viewers become readonly and the rest stays |
| EmailLog.BlockUpdate | alembic/versions/0125_email_log_tamper.py:54-94 | the column loop accepts an update if and only if overridden or different in delivery columns only, and otherwise names a protected column that changes |
| EmailLog.RecordIsProtected | alembic/versions/0125_email_log_tamper.py:38-48 | no column of the record of what was sent is among the delivery columns |
| EmailLog.RecordChangeRefused | alembic/versions/0125_email_log_tamper.py:71-89 | an update that changes a column of the record is not accepted without an override |
| EmailLog.StatementEffect | alembic/versions/0125_email_log_tamper.py:63-111 | each statement takes effect on its own row alone, exactly when the triggers let it |
| EmailLog.LogIsTamperEvident | alembic/versions/0125_email_log_tamper.py:51-127 | from any point of a run on, without an override, no row that is there disappears and none of its protected columns changes |
| EmailLog.InsertedRowKept | alembic/versions/0125_email_log_tamper.py:71-89 | a row inserted during the run keeps its place and its inserted protected columns to the end |
| EmailLog.StatementPreservesExactly | alembic/versions/0125_email_log_tamper.py:63-111 | an override preserves the log exactly when the update would have been accepted without it, and no overridden delete does |
| EmailLog.Log.UpdateRow | alembic/versions/0125_email_log_tamper.py:115-120 | the table with its update trigger |
| EmailLog.Log.DeleteRow | alembic/versions/0125_email_log_tamper.py:96-127 | the table with its delete trigger |

## Left out

- PresenceHub.Hub.Receive: timestamps of events, the five-second poll that only keeps the stream alive, an event lost when a wait is cancelled at the moment of delivery, and bounded queues (the queues are created without a bound, so a full queue cannot occur).
- Locks.AnswersLikeEagerStore: the clock is assumed not to go back; a clock step would be a change of the system time.
- ChangeFeed.StreamIsLog: assumes that rows are never changed or removed; the optional entity and tenant filters of the query and the sleep between empty polls are not modelled.
- AllocationCap.CommitKeepsCaps: one transaction at a time; anomalies between two concurrent transactions are out of scope. A document gets an id that no other document table uses (random UUIDs), and a statement addresses one row by its position; a statement over several rows, or the cascade from a deleted payment, is a sequence of such statements.
- JournalBalance.CommitKeepsBalance: one transaction at a time, rows addressed by position; changing the primary key of an entry is not modelled, and of the cascades only the one from entry to lines is.
- JournalBalance.CascadedDeleteCommits: speaks of the triggers of migration `0101` alone; `alembic/versions/0161_je_engine_guard.py` later refuses to delete a POSTED or REVERSED entry outside a declared rebuild, and restricts raw inserts and updates of such entries. Those guards are not modelled.
- JournalSession.ViolationReport: gives the set of entries; the order and the printed columns are left out.
- AccountCodes.MigrationRoundTrip: both directions visit the rows in table order, as the loops in `AccountChart` do; `RoundTripInEveryOrder` covers the other orders. Every range has its company (the column is not nullable, so the fallback to the first company is not modelled); names and types of header accounts, the GST settings and decimal digits outside ASCII are left out.
- AccountTree.Accounts.RederiveParents: the insertion of the fixed sub-headers, the choice of company and the filter on archived accounts are left out.
- Withholding.WithholdingBounds: earnings are non-negative whole weekly dollars; conversion between pay periods, the choice of scale for an employee, effective dates, and the seeding loops of both migrations are left out. The study-loan variant without the tax-free threshold is not seeded by the code either.
- Money.RoundMoneyIsNearest: the precision limit of the decimal context, NaN, infinity and negative zero are left out.
- Money.StoreAndRead: overflow of the eighteen digits of the column is left out.
- AccountChart.Chart.DeleteHeaders: a header account that journal lines or other rows refer to cannot be deleted (foreign keys), which would stop the downgrade; the model has no such references.
- Memberships.PreChecksSuffice: row-level security, grants to the application role, and the columns that record who granted a membership and when are left out.
- EmailLog.LogIsTamperEvident: speaks of inserts, updates and deletes; TRUNCATE fires no row trigger and is not blocked by the migration.
- EmailLog.Log.UpdateRow: how an operator sets the override is left out; every statement says whether it is set.
- Row conversion to wire messages, authentication and tenancy of requests: no algorithm to prove.
- The list and get handlers, document numbering, idempotency storage and payroll beyond the tables: thin wrappers or not described by the modelled files.
