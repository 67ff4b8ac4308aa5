# Verified model of the memory service's curation, embedding, transport and usage core

A Dafny model of the parts of the memory service whose correctness depends on state that changes over
time, with proofs about every run of them.

| files | what they hold |
|---|---|
| `Basics.dfy` | options, results, and the byte order of text |
| `CurationModel.dfy`, `CurationUow.dfy`, `CurationSurface.dfy` | records, links and the search index; preparing updates; the guarded surface a callback works through |
| `CurationAction.dfy`, `CurationHistory.dfy`, `CurationAdmission.dfy` | one curation action as a function of the store; what a commit does to history, guards and repair intents; when it commits, condition by condition, and what its rows say |
| `CurationLedger.dfy`, `CurationRuns.dfy`, `CurationCallers.dfy` | run and receipt states; whole runs of the store; replays, batches and concurrent callers |
| `CurationInstances.dfy` | concrete actions that commit: the inputs on which a property fails |
| `CurationActionStore.dfy`, `CurationStore.dfy` | the store objects, method by method |
| `MutationHistory.dfy` | event and restore-request identity, and first terminal write wins |
| `RepairQueue.dfy`, `RepairQueueStore.dfy` | the lease-based repair queue |
| `EmbeddingCache.dfy`, `EmbeddingStore.dfy` | the content-hash cache over a provider that may change mode in mid-call |
| `VectorStore.dfy` | the version-guarded vector upsert |
| `AsyncSemaphore.dfy`, `RequestServer.dfy`, `RequestOutcomes.dfy`, `RequestServerStore.dfy` | the request server between await points; what each client is told |
| `ProviderUsage.dfy`, `ProviderUsageStore.dfy` | the usage aggregator and the totals it computes |

Where the source changes state, the model has a class with the same fields, and each method is proved
to do what a function of the old state says. What each such function does is stated once more without its
help, field by field and condition by condition, and the properties are then proved about those functions,
over any sequence of steps by any callers. A concurrent caller is a sequence of atomic steps: the read outside
the transaction, the transaction, the conditional update.

## Assumptions

- A SQLite transaction is one atomic step or no step.
- Tokens, intent hashes and content hashes are free constructors: equal tokens mean equal contents.
- NFC normalisation with stripping, semantic normalisation of a text or a name, and the summary builder
  are arbitrary functions. Of these only canonical identifiers are assumed to be idempotent.
- A callback is any function from the tables it finds to a list of calls and an ending. It may swallow
  what a call raises and go on.
- Queue, event and request identifiers are never used twice (`uuid4`, or a row counter).
- The schema's keys are those of `src/mcp_memory/utils/db_schema.py`: receipts by (run, action), queue rows
  by (memory, model, version), links by (source, target, type), embeddings by (kind, id, model), events by
  action and by idempotency key. A link's source is a live memory, and deleting it deletes the link; a
  link's target need not exist.
- Times and timings are parameters. `load`, `Weather` and `Outcome` say what the environment does.
- The semaphore is that of Python 3.13's `asyncio`, written out in `AsyncSemaphore.dfy`.

## What the proofs found

- Undoing an action's record revisions recovers the earlier records exactly when its callback touched no
  existing record outside the targets. A record under an `ext:` identifier can be touched as a link
  endpoint, and its revision then says that it did not exist before (`CurationHistory.RecordUndoIff`). Over a
  whole run, undone in reverse order, the condition is that no record was hidden in this way by the first
  commit that revised it (`CurationRuns.HistoryInvertsIff`). Below, hidden means touched in this way.
- Which links existed is recovered exactly when no endpoint touched outside the targets already had a link
  that avoids the targets (`LinkUndoIff`), over a run when no link's first revision hid it
  (`LinkHistoryInvertsIff`). The context a link had before is not in its event's row: one event and the table
  after it fit a single earlier table exactly when the commit hid no link and revised none that existed
  (`ContextsRecoverableIff`), and over a run a link's first context is known exactly when its first revision
  neither hid it nor says that it existed (`FirstContextKnownIff`). The whole log does better: if it goes back
  to empty tables, every earlier state, contexts included, is the replay of a part of it
  (`EarlierStatesReplay`).
- A hidden record is queued for embedding repair although it did not change: apart from records that were
  created or changed, these are exactly the ones that gain a row (`RepairRowAddedIff`, `HiddenIsQueued`).
  `CurationInstances.HiddenEndpointsHappen` gives an action with all three effects.
- A queue row is not yet work: a version that was embedded before is not queued again, so a record that
  changes without a new time of update stays as it was embedded (`RepairWaitsIff`,
  `CurationInstances.CompletedVersionHappens`). Any other version that an action queued waits until a worker
  completes it (`RepairIsNotLost`).
- The token check looks at a token exactly when its key guards a target, as the spelling in force of its
  record or as its graph, or reads as a link key; to any other key it is blind (`TokenIgnoredIff`,
  `CommitIgnoresTokenIff`). The key of a link is read back as that link exactly when its source, target and
  type are free of colons (`LinkKeyRoundTripsIff`), so the token of a link to an `ext:` identifier is accepted
  however stale it is: link tokens protect against lost updates exactly the links between colon-free
  identifiers (`NoLostLinkUpdateIff`, `CurationInstances.StaleExternalLinkTokenCommits`). The restore path
  builds such keys from whatever its caller names (`src/mcp_memory/core/mutation_restore.py:285-292`).
- The check also refuses tokens that hold, exactly when the key that guards a target also reads as a link key
  (`TokensCheckedIff`, `MisreadGuardAlwaysRefused`). With one colon in the identifier, as in `ext:x`, these are
  the `graph:` key and the `record:` key; with two, as in `ext:https://host/x`, it is the bare key (with three
  if the identifier begins with `link:`); with any other number it is none (`SpellingsReadIff`). One of the two record spellings is always free
  (`SomeRecordSpellingIsPlain`): the bare one for one colon, `record:` without the bare one for two.
- A callback may swallow the failure of the hook between a record's row and its search row. The search index
  agrees after a run exactly when each surviving record's last row write completed its search row or left
  the projection that was last shown (`CallbackIndexedIff`, `RunIndexedIff`). A torn action commits, and a
  completed write of the same record mends it (`TornCommitHappens`); without swallowing the index always
  agrees (`UnswallowedRunsStayIndexed`).
- Asking again after a commit is refused exactly when the callback returned a verification descriptor other
  than the caller's own (`ReplayAfterCommitIff`, `RefusedReplayHappens`).
- A cached call returns what the provider alone would return exactly when, for every text found in the
  cache, the encoders before and after the call agree. A provider that gives up in mid-call mixes two
  encoders in one answer, whatever the encoders are (`TransparentIff`, `MixedEncodersHappen`).
- Appending a mutation event again after it was terminalised under another status is a conflict, although
  the request is the same (`AppendAgain`, `AppendConflictHappens`); a repeated restore request is told
  "already applied" as soon as the first one was recorded, before anything was restored (`RestoreAgain`).
- The slots that the server's snapshot calls available still include those granted to requests that have
  not resumed (`SlotsBalance`, and `GrantedSlotHappens` for a state with such a slot and none free).

## Model

| member | source | states |
|---|---|---|
| TextOrder.LeqIff | src/mcp_memory/curation_action_uow.py:200-205 | texts are ordered by the first character in which they differ, and a beginning comes before its continuations |
| CurationModel.SameRecordTokenIff | src/mcp_memory/core/curation_identity.py:123-152 | a record has one token in two states exactly if they agree, normalised, in title, content, summary, type, status, tags, workspaces, lineage and mutation metadata |
| CurationModel.SameGraphTokenIff | src/mcp_memory/core/curation_identity.py:155-178 | and one graph token exactly if it has the same links in both, in either direction, with the same contexts |
| CurationModel.SameLinkTokenIff | src/mcp_memory/core/curation_identity.py:191-202 | a link has one token in two tables exactly if it is in both with one context or in neither |
| CurationUow.UpdateIsAsAsked | src/mcp_memory/curation_action_uow.py:382-423 | an update is prepared exactly if the row it asks for, field by field, is valid, and then it is that row: given values trimmed, the others as they were, the summary in its four cases, the time of update now |
| CurationUow.UpdatedIsValid | src/mcp_memory/curation_action_uow.py:382-423 | a prepared update has a non-empty title and content, a valid type and status, and keeps the reference |
| CurationUow.CreateIsAsAsked | src/mcp_memory/curation_action_uow.py:442-478 | the same for creation: exactly the valid row asked for, with its defaults, in some workspace |
| CurationUow.CreatedIsValid | src/mcp_memory/curation_action_uow.py:442-478 | a prepared record is valid and takes the given reference |
| CurationUow.SplitAtColon | src/mcp_memory/curation_action_uow.py:242-247 | splitting at the first colon gives the part before it and the split of the rest |
| CurationUow.PlainKeysAreNotLinkKeys | src/mcp_memory/curation_action_uow.py:242-247 | the three token keys of a colon-free identifier are never read as a link key |
| CurationUow.ExternalGraphKeyIsALinkKey | src/mcp_memory/curation_action_uow.py:242-247 | the graph key of an external identifier is always read as a link key |
| CurationUow.RecordKeyIsALinkKey | src/mcp_memory/curation_action_uow.py:242-247 | the long record key of an identifier with one colon is always read as a link key from `record` |
| CurationUow.BareKeyIsALinkKey | src/mcp_memory/curation_action_uow.py:242-247 | the bare identifier with two colons is itself read as a link key |
| CurationUow.SpellingsReadIff | src/mcp_memory/curation_action_uow.py:242-247 | which of an identifier's three guard keys are read as link keys, by its parts between colons |
| CurationUow.SomeRecordSpellingIsPlain | src/mcp_memory/curation_action_uow.py:242-247 | at most one of an identifier's two record keys is read as a link key |
| CurationUow.LinkKeyRoundTripsIff | src/mcp_memory/curation_action_uow.py:242-247 | a link's key is read back as that link if and only if its source, target and type are non-empty and free of colons, and as no link otherwise |
| CurationSurface.UpdateStoresAsAsked | src/mcp_memory/curation_action_store.py:637-664 | an update or a lineage call raises nothing exactly if the record is there and open to the action, the row asked for is valid and no hook fails; it then stores that row and its search row, and nothing else |
| CurationSurface.LineageIsSet | src/mcp_memory/curation_action_store.py:733-741 | setting the lineage changes that entry of the metadata and the time of update, and trims the collections |
| CurationSurface.CreateStoresAsAsked | src/mcp_memory/curation_action_store.py:666-698 | a creation raises nothing exactly if the id is free, the row asked for is valid and no hook fails; it then stores it under the next reference with its search row |
| CurationSurface.LinkCallsIff | src/mcp_memory/curation_action_store.py:711-731 | a link is stored with its trimmed context, or removed, exactly if both guards let the ends pass and, for a new one, the source is a record |
| CurationSurface.DeleteIff | src/mcp_memory/curation_action_store.py:700-709 | a deletion takes the record, its search row and the links that leave it, and no other, exactly if the record is there and open to the action |
| CurationSurface.ReadIff | src/mcp_memory/curation_action_store.py:595-636 | a read changes nothing and is refused exactly for a record beyond the action or an empty type |
| CurationSurface.RaisedBecause | src/mcp_memory/curation_action_store.py:637-758 | which guard each raised error stands for |
| CurationSurface.FramedStep | src/mcp_memory/curation_action_store.py:637-758 | one call changes records only at touched ids, no existing record outside the targets, and links only at touched sources |
| CurationSurface.CallKeepsRecords | src/mcp_memory/curation_action_store.py:637-780 | every call, also one cut short, keeps references distinct, records valid and link sources live |
| CurationSurface.CallShows | src/mcp_memory/curation_action_store.py:637-709 | one call moves what the search table shows of each record: a completed write shows the new row, one cut short leaves what was shown, a deletion leaves nothing |
| CurationSurface.InterruptedUpdateAgreesIff | src/mcp_memory/curation_action_store.py:657-663 | an update cut short keeps the index in agreement if and only if the new row projects to the stored search row |
| CurationSurface.InterruptedCreateDisagrees | src/mcp_memory/curation_action_store.py:674-695 | a create cut short leaves a record without a search row |
| CurationSurface.RefIsStable | src/mcp_memory/curation_action_store.py:637-709 | no call changes the reference of a record that is there before and after |
| CurationSurface.GoneIff | src/mcp_memory/curation_action_store.py:700-709 | a record is gone after a call if and only if the call is a deletion of it that is not refused |
| CurationSurface.CallsKeepRef | src/mcp_memory/curation_action_store.py:637-709 | a record that no deletion in a callback takes effect on is there at the end, under its reference |
| CurationSurface.CallsKeepFrame | src/mcp_memory/curation_action_store.py:589-758 | the frame holds over a whole callback, whatever it swallows |
| CurationSurface.CallsKeepRecords | src/mcp_memory/curation_action_store.py:589-780 | so does a whole callback, whatever it swallows |
| CurationSurface.CallbackIndexedIff | src/mcp_memory/curation_action_store.py:589-709 | after a callback, whatever it swallows, the index agrees if and only if each surviving record's last row write completed its search row or left the projection last shown |
| CurationSurface.UnswallowedStaysWhole | src/mcp_memory/curation_action_store.py:589-698 | a callback that swallows no fault of the domain hook leaves no row cut short |
| CurationAdmission.PreconditionsPassIff | src/mcp_memory/curation_action_store.py:358-390 | the preconditions pass exactly if each status entry names a target of that status, each required link between targets is stored, with its context if given, and each absent one, given without context, is not |
| CurationAdmission.FirstUnmetDecides | src/mcp_memory/curation_action_store.py:358-390 | the first entry not met decides the refusal: beyond the targets, or with a context that may not be, for good; with an empty type as a bad value; otherwise as stale |
| CurationAdmission.LastSpellingWins | src/mcp_memory/curation_action_store.py:126-128 | the token of a normalised key is the one given last under any spelling of it |
| CurationAdmission.TokensPassIff | src/mcp_memory/curation_action_store.py:321-356 | the token check passes exactly if every token that is looked at is that of the stored record, graph or link |
| CurationAdmission.KeysComeInOrder | src/mcp_memory/curation_action_store.py:126-128 | the normalised keys come in the order in which they were first given, each once |
| CurationAdmission.TokenRefusal | src/mcp_memory/curation_action_store.py:321-356 | a stale record or graph refuses first; then the first link key that fails, as a bad value for an empty type and as stale otherwise |
| CurationAdmission.AdmittedIff | src/mcp_memory/curation_action_store.py:171-203 | an action is admitted exactly if its run is known or it restores, the run is unfinished or it restores, its local targets exist, its tokens hold and its preconditions are met |
| CurationAdmission.AdmissionRefusal | src/mcp_memory/curation_action_store.py:195-203 | an unknown or finished run refuses for good, a missing target as stale, before tokens and preconditions |
| CurationAdmission.CommitsIff | src/mcp_memory/curation_action_store.py:107-274 | an action commits exactly if it is sound and not done before, is admitted, its callback returns the operation asked for, no stage fails, the ids it reports are proper and its event is new |
| CurationAdmission.CommitMeetsPreconditions | src/mcp_memory/curation_action_store.py:358-390 | so the store committed on has every status and required link, and none of the absent links |
| CurationAdmission.ErrorsAreTold | src/mcp_memory/curation_action_store.py:274-293 | a refusal is called transient exactly for a busy database, and stale exactly for a stale guard |
| CurationAdmission.UnsoundIsRefused | src/mcp_memory/curation_action_store.py:123-133 | a request without targets, operation or with an empty token is refused for good |
| CurationAdmission.CollisionIff | src/mcp_memory/curation_action_uow.py:303-337 | any request under a committed identity changes nothing and gets the receipt exactly if operation, targets, tokens, preconditions and payload are the same and no two descriptors differ; otherwise it is refused for good |
| CurationAdmission.ReceiptTells | src/mcp_memory/curation_action_store.py:210-271 | the receipt reports the local ids named, or touched, or targeted, in this order, the joint states before and after, the new event, the whole intent, and the returned descriptor before the caller's |
| CurationAdmission.StateTokenTells | src/mcp_memory/curation_action_uow.py:266-273 | a joint state holds exactly the snapshots of the ids that have a record, and is absent if none has |
| CurationAdmission.EventTells | src/mcp_memory/curation_action_store.py:423-466 | the event carries the identity, operation, actor, run fields, restored event and idempotency key, or the one made of run and action |
| CurationAdmission.RunRowTells | src/mcp_memory/curation_action_store.py:175-194 | a restore under an unknown run makes that run, executing; any other commit leaves the runs alone |
| CurationAdmission.RecordRevisedIff | src/mcp_memory/curation_action_store.py:467-490 | a commit writes a revision of exactly the records that it created, deleted, changed or hid |
| CurationAdmission.LinkRevisedIff | src/mcp_memory/curation_action_store.py:491-516 | and of exactly the links that it added, removed, gave another context or hid |
| CurationHistory.CommitShape | src/mcp_memory/curation_action_store.py:200-272 | what a commit leaves in each table: the callback's records and links, one new event, one new receipt pointing at it, the repair intents, and no other run row |
| CurationInstances.PlainActionCommits | src/mcp_memory/curation_action_store.py:135-274 | commits happen: an unguarded action on one existing record commits, whatever the normalisers are |
| CurationInstances.HiddenEndpointsHappen | src/mcp_memory/curation_action_store.py:711-722 | linking a record to an external identifier that has a record and a link commits, touches a hidden record and a hidden link, and queues the unchanged record for repair |
| CurationInstances.TornCommitHappens | src/mcp_memory/curation_action_store.py:657-663 | an action that swallows the hook failure of an update commits and leaves a search row that disagrees; with a completed update after it, the index agrees |
| CurationInstances.StaleExternalLinkTokenCommits | src/mcp_memory/curation_action_store.py:337-356 | an action whose only token says that a link to an external identifier has a context it no longer has commits |
| CurationInstances.CompletedVersionHappens | src/mcp_memory/curation_action_store.py:392-421 | an action changes a record semantically and leaves no work, because an item of the same version was completed before |
| CurationHistory.RecordReplay | src/mcp_memory/curation_action_store.py:467-490 | replaying an event's record revisions on the earlier records gives the later ones |
| CurationHistory.RecordUndoIff | src/mcp_memory/curation_action_store.py:200-246 | undoing them recovers the earlier records if and only if no existing record outside the targets was touched |
| CurationHistory.BeforeIff | src/mcp_memory/curation_action_store.py:467-490 | a revision's after-state and tokens are right; its before-state is the record's snapshot before the commit if and only if the commit did not hide that record, and is absent if it did |
| CurationHistory.LinkReplay | src/mcp_memory/curation_action_store.py:491-516 | replaying an event's link revisions gives the later link table, contexts included |
| CurationHistory.LinkUndoIff | src/mcp_memory/curation_action_store.py:204-222 | undoing them recovers which links existed if and only if no hidden link was touched |
| CurationHistory.LinkBeforeIff | src/mcp_memory/curation_action_store.py:491-516 | a link revision says rightly whether the link existed before if and only if the commit did not hide that link |
| CurationHistory.RowsFitOneTableIff | src/mcp_memory/curation_action_store.py:491-516 | link rows and the table after them fit a single table before if and only if no row says that its link existed |
| CurationHistory.ContextsRecoverableIff | src/mcp_memory/curation_action_store.py:491-516 | for the event of a commit, that single table is the true one if and only if, besides, the commit hid no link |
| CurationHistory.CommitFrame | src/mcp_memory/curation_action_store.py:743-758 | a commit changes no record outside its targets |
| CurationHistory.CommitMeansFresh | src/mcp_memory/curation_action_store.py:321-356 | a commit happens only on a store in which every token that the check looks at holds: those guarding its targets' records and graphs, and those whose key reads as a link key |
| CurationHistory.TokenIgnoredIff | src/mcp_memory/curation_action_store.py:321-356 | a token under a key passes the check whatever it says if and only if the key neither reads as a link key nor guards a target in the spelling in force |
| CurationHistory.CommitIgnoresTokenIff | src/mcp_memory/curation_action_store.py:200-202 | to an action that commits, such a token can be added with any content if and only if its key is ignored in this sense |
| CurationHistory.TokensCheckedIff | src/mcp_memory/curation_action_store.py:321-356 | for any targets and tokens, the check passes if and only if every guarded target holds its tokens, every link token holds and no guard's own key reads as a link key |
| CurationHistory.PlainTokensCheckedIff | src/mcp_memory/curation_action_store.py:321-356 | for colon-free targets guarded by record and graph tokens, the check passes if and only if those tokens hold |
| CurationHistory.MisreadGuardAlwaysRefused | src/mcp_memory/curation_action_store.py:321-356 | an action never commits with a guard whose key reads as a link key |
| CurationHistory.ExternalGraphTokenAlwaysRefused | src/mcp_memory/curation_action_store.py:334-356 | an action with a graph token for an external target never commits |
| CurationHistory.ColonRecordTokenAlwaysRefused | src/mcp_memory/curation_action_store.py:321-356 | nor with a long record token for a target with one colon, external or local |
| CurationHistory.BareRecordTokenAlwaysRefused | src/mcp_memory/curation_action_store.py:321-356 | nor with a bare record token for a target with two colons |
| CurationHistory.IntentsCover | src/mcp_memory/curation_action_store.py:392-421 | the intents cover every record that needs repair, add rows for no other, and keep the queue's invariant and rows |
| CurationHistory.RepairCoverage | src/mcp_memory/curation_action_store.py:220-227 | after a commit every record that was created, changed semantically or hidden has a queue row for its version, earlier rows are as they were, and the rows added are pending and for such records only |
| CurationHistory.AddedRowTells | src/mcp_memory/curation_action_store.py:392-421 | an added row names the model and the record's time of update, the first of its workspaces, and is due now; nobody has worked on it |
| CurationHistory.RepairRowAddedIff | src/mcp_memory/curation_action_store.py:392-421 | a version not queued before gains a row if and only if its record was created, changed semantically or hidden |
| CurationHistory.RepairWaitsIff | src/mcp_memory/curation_action_store.py:392-421 | after a commit a version waits to be embedded if and only if it waited before, or was never queued and its record was created, changed or hidden |
| CurationHistory.HiddenIsQueued | src/mcp_memory/curation_action_store.py:392-421 | a hidden record is unchanged and queued all the same |
| CurationLedger.RunMovesIff | src/mcp_memory/curation_store.py:106-164 | an unfinished run moves exactly along planning, execution, verification, or to its end with an outcome; a finished one stays |
| CurationLedger.BoundedTransitions | src/mcp_memory/curation_store.py:116-164 | whatever is attempted, a run moves at most as often as its rank, four times for a new one |
| CurationLedger.FirstVerdictStays | src/mcp_memory/curation_store.py:166-206 | whatever is attempted, an unverified receipt carries the first verdict for ever and keeps the rest of its evidence |
| CurationLedger.UpdateTakesEffectIff | src/mcp_memory/curation_store.py:268-459 | each guarded statement writes its own row exactly if the stored one was as expected, and no other row |
| CurationLedger.FinalRowsStay | src/mcp_memory/curation_store.py:301-459 | the first terminal run row and the first final receipt never change under any interleaving of writers that expect live states |
| CurationLedger.SwapWinsIff | src/mcp_memory/curation_store.py:517-570 | a swap wins exactly if the stored token is the expected one, null and absent alike, and then its row is stored |
| CurationLedger.WinnersChain | src/mcp_memory/curation_store.py:517-570 | in any interleaving each success expects the token written by the one before |
| CurationLedger.AtMostOneWinner | src/mcp_memory/curation_store.py:517-570 | among racers with one expected token and other new tokens at most one succeeds |
| CurationRuns.RunKeepsInv | src/mcp_memory/curation_action_store.py:637-780 | in every reachable store references are distinct, records are valid, link sources are live and the queue is sound, whatever callbacks swallow |
| CurationRuns.RunIndexedIff | src/mcp_memory/curation_action_store.py:637-780 | after any run each memory has exactly one agreeing search row and none is left over, if and only if each surviving record's last committed row write completed its search row or left the projection last shown |
| CurationRuns.UnswallowedRunsStayIndexed | src/mcp_memory/curation_action_store.py:637-780 | so it is in every store reached without swallowing a fault of the domain hook |
| CurationRuns.RefsNeverChange | src/mcp_memory/curation_action_store.py:666-709 | a record's reference never changes over a run in which no deletion of it takes effect, refused deletions included |
| CurationRuns.CommitsAreDistinct | src/mcp_memory/curation_action_store.py:152-169 | no identity commits twice, and none that already had a receipt |
| CurationRuns.ReceiptsAreEarned | src/mcp_memory/curation_action_store.py:251-272 | every new receipt is that of a commit or was put by hand |
| CurationRuns.TablesAreCommits | src/mcp_memory/curation_action_store.py:206-212 | the memory tables are the committed callbacks applied in commit order |
| CurationRuns.ExactlyOnce | src/mcp_memory/curation_action_store.py:135-293 | all of it together, with one event per commit in commit order |
| CurationRuns.LogGrows | src/mcp_memory/curation_action_store.py:423-466 | the event log grows by exactly the events of the commits |
| CurationRuns.EventsAreCommits | src/mcp_memory/curation_action_store.py:439-466 | one event per commit, in order, under its identity |
| CurationRuns.RecordHistoryReplays | src/mcp_memory/curation_action_store.py:467-490 | replaying the whole record history forward from the first state gives the last |
| CurationRuns.LinkHistoryReplays | src/mcp_memory/curation_action_store.py:491-516 | replaying the whole link history forward gives the last link table |
| CurationRuns.UndoneIff | src/mcp_memory/curation_action_store.py:467-490 | undoing a run's events in reverse order restores a record if and only if its first revision in the run did not hide it |
| CurationRuns.HistoryInvertsIff | src/mcp_memory/curation_action_store.py:467-490 | undoing them recovers the first records if and only if no record's first revision in the run hid it |
| CurationRuns.LinkUndoneIff | src/mcp_memory/curation_action_store.py:491-516 | undoing them recovers whether a link existed at first if and only if its first revision in the run did not hide it |
| CurationRuns.LinkHistoryInvertsIff | src/mcp_memory/curation_action_store.py:491-516 | undoing them recovers which links existed at first if and only if no link's first revision in the run hid it |
| CurationRuns.FirstContextKnownIff | src/mcp_memory/curation_action_store.py:491-516 | a run's events and last table leave one context for a link at first, the true one, if and only if its first revision neither hid it nor says that it existed |
| CurationRuns.EarlierStatesReplay | src/mcp_memory/curation_action_store.py:423-516 | if the log goes back to empty tables, replaying the part of any later log that a state had gives that state's records and its links with their contexts |
| CurationRuns.UnrevisedIsUnchanged | src/mcp_memory/curation_action_store.py:467-473 | a record that no event of a run revises keeps its snapshot |
| CurationRuns.RevisionsChainIff | src/mcp_memory/curation_action_store.py:474-490 | of two successive revisions of one record, whatever else runs in between, the later before-token is the earlier after-token if and only if the later commit did not hide that record |
| CurationRuns.NoLostUpdate | src/mcp_memory/curation_action_store.py:305-356 | while a record is off a token no action expecting it commits, unless an event in between put the record back into the state of that token |
| CurationRuns.NoLostLinkUpdate | src/mcp_memory/curation_action_store.py:321-356 | the same for a token under any key that reads as a link key |
| CurationRuns.NoLostLinkUpdateIff | src/mcp_memory/curation_action_store.py:337-356 | a link's own key protects it in this way if and only if its source, target and type are non-empty and free of colons |
| CurationRuns.NoLostGraphUpdate | src/mcp_memory/curation_action_store.py:334-356 | the same for the graph around a target, which an event must have turned back by revising a link of it |
| CurationRuns.TerminalIsClosed | src/mcp_memory/curation_action_store.py:171-198 | from the moment a run is terminal its row never changes and only restores commit under it |
| CurationRuns.CoveragePersists | src/mcp_memory/curation_action_store.py:392-421 | without pruning, the queue row for what a commit created, changed or hid is still there after any continuation |
| CurationRuns.RepairIsNotLost | src/mcp_memory/curation_action_store.py:392-421 | unless its version was embedded before, what a commit queued waits until a worker completes it, through claims, releases, pruning and other commits |
| CurationActionStore.SQLiteCurationTransaction.UpdateMemory | src/mcp_memory/curation_action_store.py:637-664 | the update method is the modelled update, also when a hook fails half-way |
| CurationActionStore.SQLiteCurationTransaction.CreateMemory | src/mcp_memory/curation_action_store.py:666-698 | the same for creation |
| CurationActionStore.SQLiteCurationTransaction.DeleteMemory | src/mcp_memory/curation_action_store.py:700-709 | the same for deletion, with the cascade to outgoing links |
| CurationActionStore.SQLiteCurationTransaction.AddLink | src/mcp_memory/curation_action_store.py:711-722 | the same for adding a link, with both endpoint guards |
| CurationActionStore.SQLiteCurationTransaction.RemoveLink | src/mcp_memory/curation_action_store.py:724-733 | the same for removing a link |
| CurationActionStore.SQLiteCurationTransaction.SetLineage | src/mcp_memory/curation_action_store.py:735-741 | the same for setting the lineage |
| CurationActionStore.SQLiteCurationTransaction.RequireAccess | src/mcp_memory/curation_action_store.py:743-748 | access is allowed exactly to targets, new records and identifiers of no record |
| CurationActionStore.SQLiteCurationTransaction.RequireEndpoint | src/mcp_memory/curation_action_store.py:750-758 | an endpoint is allowed exactly if external, a target or new |
| CurationActionStore.SQLiteCurationTransaction.PerformAll | src/mcp_memory/curation_action_store.py:206-212 | the callback's calls run in order until one raises unswallowed |
| CurationActionStore.NormalizeTokens | src/mcp_memory/curation_action_store.py:126-128 | the loop builds the normalised token mapping, later spellings winning, and its key order |
| CurationActionStore.CheckTokens | src/mcp_memory/curation_action_store.py:321-356 | the loops find the first token failure in the source's order |
| CurationActionStore.CheckPreconditions | src/mcp_memory/curation_action_store.py:358-390 | the loops find the first precondition failure in the source's order |
| CurationActionStore.CheckAssertions | src/mcp_memory/curation_action_store.py:369-390 | the same for one list of link assertions |
| CurationActionStore.LockTargets | src/mcp_memory/curation_action_store.py:305-311 | passes exactly if every local target exists |
| CurationActionStore.WriteRepairIntents | src/mcp_memory/curation_action_store.py:392-421 | the loop inserts exactly the missing versions of created or semantically changed records |
| CurationActionStore.WriteRecordRevisions | src/mcp_memory/curation_action_store.py:467-490 | the loop writes one revision for each record that appeared, disappeared or changed |
| CurationActionStore.WriteLinkRevisions | src/mcp_memory/curation_action_store.py:491-516 | the loop writes one revision for each link that appeared, disappeared or changed context |
| CurationActionStore.SQLiteCurationActionStore.ExecuteAction | src/mcp_memory/curation_action_store.py:123-293 | the whole call leaves the store and the outcome that the functional model gives |
| CurationActionStore.SQLiteCurationActionStore.Transact | src/mcp_memory/curation_action_store.py:152-293 | the transaction body, with its second look for a receipt |
| CurationActionStore.SQLiteCurationActionStore.Commit | src/mcp_memory/curation_action_store.py:171-274 | either every table moves to the modelled result or none moves |
| CurationActionStore.SQLiteCurationActionStore.Check | src/mcp_memory/curation_action_store.py:200-203 | locks, tokens and preconditions are checked in that order |
| CurationActionStore.SQLiteCurationActionStore.Finish | src/mcp_memory/curation_action_store.py:218-274 | intents, history and receipt are derived and written, or the first failure is reported |
| CurationActionStore.SQLiteCurationActionStore.WriteHistory | src/mcp_memory/curation_action_store.py:423-516 | the event row with its run, task, plan, policy, actor, restore and status fields, and one revision row per changed record and link |
| CurationActionStore.SQLiteCurationActionStore.PrepareReceipt | src/mcp_memory/curation_action_store.py:248-271 | the receipt: affected local ids, both state tokens, the new event, the intent hash, and the descriptor of the result before that of the caller |
| CurationCallers.ReplayAfterCommitIff | src/mcp_memory/curation_action_uow.py:303-337 | repeating a committed action changes nothing, and returns its receipt if and only if the descriptors do not clash |
| CurationCallers.RefusedReplayHappens | src/mcp_memory/curation_action_uow.py:332-337 | a request whose callback returns another descriptor commits, and is refused when asked again |
| CurationCallers.SequentialCurationActionExecutor.ExecuteActions | src/mcp_memory/curation_batch_executor.py:22-43 | one outcome per request, in order, on the store left by the request before |
| CurationCallers.BatchIsItsAccepted | src/mcp_memory/curation_batch_executor.py:22-43 | a batch ends where its accepted requests alone end |
| CurationCallers.RerunReturnsTheSameReceipts | src/mcp_memory/curation_batch_executor.py:22-43 | a rerun with targets permuted or repeated returns the same receipts and applies nothing again |
| CurationCallers.SchedulesAreSerial | src/mcp_memory/curation_action_store.py:135-169 | any interleaving of outside reads and transactions leaves what the transactions leave one after the other |
| CurationCallers.AcceptedAreBacked | src/mcp_memory/curation_action_store.py:135-169 | every accepted caller's identity has a stored receipt |
| CurationCallers.HandedReceiptWasStored | src/mcp_memory/curation_action_store.py:135-169 | the receipt an accepted caller holds is the one the store held under its identity at the move that answered it |
| CurationCallers.HandedReceiptStays | src/mcp_memory/curation_action_store.py:135-169 | it is still the stored one at the end, unless the ledger moved that receipt |
| CurationCallers.ConcurrentExactlyOnce | src/mcp_memory/curation_action_store.py:135-293 | exactly once under any interleaving of concurrent callers, and every accepted caller was handed the receipt then stored under its identity |
| CurationStore.SQLiteCurationStore.InsertRun | src/mcp_memory/curation_store.py:268-284 | inserts a run unless its id is taken |
| CurationStore.OtherEvidenceIff | src/mcp_memory/curation_store.py:367-420 | evidence is another's exactly if operation, affected ids or before-state differ, or an intent or a descriptor that both sides state |
| CurationStore.SQLiteCurationStore.TransitionRunRow | src/mcp_memory/curation_store.py:301-335 | a terminal row is returned unchanged; otherwise the row moves exactly if it is in the expected state |
| CurationStore.SQLiteCurationStore.TerminalizeRunRow | src/mcp_memory/curation_store.py:337-365 | the guarded terminal update, returning the row exactly if it is terminal afterwards |
| CurationStore.SQLiteCurationStore.PutReceiptRow | src/mcp_memory/curation_store.py:367-397 | the first receipt of a key stays; the same identity returns it and another is refused |
| CurationStore.SQLiteCurationStore.TransitionReceiptRow | src/mcp_memory/curation_store.py:422-459 | a final receipt is returned unchanged; otherwise it moves exactly from the expected state |
| CurationStore.SQLiteCurationStore.CompareAndSetCandidateState | src/mcp_memory/curation_store.py:517-570 | both statement forms together are one compare-and-set in which absent equals null, and no other memory's row moves |
| MutationHistory.AppendWritesIff | src/mcp_memory/mutation_history_store.py:49-132 | an append writes its event as it is exactly if no stored event has its id, action or key and the event it restores is there; otherwise the stored one decides the answer by identity and status |
| MutationHistory.RequestWritesIff | src/mcp_memory/mutation_history_store.py:328-384 | a request is recorded as applied exactly if id and key are new and its event is there; a known key is answered exactly if the same was asked |
| MutationHistory.ConclusionWritesIff | src/mcp_memory/mutation_history_store.py:386-423 | a conclusion moves an open request exactly if the event it names is there |
| MutationHistory.InsertKeepsInv | src/mcp_memory/mutation_history_store.py:49-92 | an insert keeps the unique indexes exact |
| MutationHistory.IdentitiesAreForever | src/mcp_memory/mutation_history_store.py:49-424 | no row is removed and no identity changes, over any run |
| MutationHistory.FirstTerminalWriteWins | src/mcp_memory/mutation_history_store.py:298-326 | after any interleaving an event carries exactly what the first terminal write gave it |
| MutationHistory.TerminalEventsStay | src/mcp_memory/mutation_history_store.py:298-326 | a terminal event never changes; a later terminal write is told it if and only if the status is equal, and refused otherwise |
| MutationHistory.LookIsHarmlessIff | src/mcp_memory/mutation_history_store.py:298-326 | a look for the event before the guarded update changes the answer if and only if the event was appended in between |
| MutationHistory.ConcludedRestoresStay | src/mcp_memory/mutation_history_store.py:386-423 | the same for restore requests |
| MutationHistory.FirstConclusionWins | src/mcp_memory/mutation_history_store.py:386-423 | after any interleaving an open request carries exactly the result of the first conclusion whose event was there, and is untouched when there was none |
| MutationHistory.OneEventPerIdentity | src/mcp_memory/mutation_history_store.py:112-132 | in every reachable history an action and an idempotency key name at most one event |
| MutationHistory.AppendAgain | src/mcp_memory/mutation_history_store.py:119-132 | appending again writes nothing and returns the stored event if and only if its status is still the one given |
| MutationHistory.AppendConflictHappens | src/mcp_memory/mutation_history_store.py:119-132 | the same event appended again after a terminal write of another status is refused |
| MutationHistory.RestoreAgain | src/mcp_memory/mutation_history_store.py:328-384 | a repeated request writes nothing and is told the stored result, "already applied" exactly when that is stored as applied, also before any conclusion |
| MutationHistory.SQLiteMutationHistoryStore.AppendEvent | src/mcp_memory/mutation_history_store.py:49-92 | the insert with its look-ups on a violated constraint is the modelled append |
| MutationHistory.SQLiteMutationHistoryStore.FindExistingEvent | src/mcp_memory/mutation_history_store.py:119-132 | looks by id, then by action, then by idempotency key |
| MutationHistory.SQLiteMutationHistoryStore.TerminalizeEvent | src/mcp_memory/mutation_history_store.py:298-326 | the look, the guarded update and the second look, with any writes of other connections before and after the update, give the answer of the update at its moment, or not-found by the first look |
| MutationHistory.SQLiteMutationHistoryStore.RequestRestoreOf | src/mcp_memory/mutation_history_store.py:328-384 | the insert, or the comparison with the stored request |
| MutationHistory.SQLiteMutationHistoryStore.TerminalizeRestoreRequest | src/mcp_memory/mutation_history_store.py:386-423 | the guarded update and its answer |
| RepairQueue.ClaimLegalIff | src/mcp_memory/embedding_repair_store.py:113-180 | a claim takes only rows of the workspace asked for that are pending and due or whose lease ran out, as many as its limit allows, and none that is younger than one it leaves |
| RepairQueue.PruneLegalIff | src/mcp_memory/embedding_repair_store.py:282-312 | a pruning removes only rows completed at least so long ago, as many as its limit allows, the longest completed first |
| RepairQueue.RowAfter | src/mcp_memory/embedding_repair_store.py:113-223 | what claim, completion, release and pruning make of each row, field by field; all other rows stay |
| RepairQueue.EnqueueAdds | src/mcp_memory/embedding_repair_store.py:46-98 | an enqueue adds one pending row that nobody worked on, exactly if the version has none |
| RepairQueue.RunKeepsInv | src/mcp_memory/embedding_repair_store.py:46-312 | over any run: running exactly if leased, completed exactly if dated, one row per version |
| RepairQueue.LeaseExclusive | src/mcp_memory/embedding_repair_store.py:113-180 | two successive claims of an item are separated by a release, or the first lease had expired |
| RepairQueue.CompletedNeverClaimed | src/mcp_memory/embedding_repair_store.py:182-202 | a completed item is never claimed again |
| RepairQueue.AttemptsCountClaims | src/mcp_memory/embedding_repair_store.py:113-180 | the attempt counter is the number of claims |
| RepairQueue.Conservation | src/mcp_memory/embedding_repair_store.py:46-312 | rows created are pending, running, completed or pruned |
| RepairQueue.VersionPersists | src/mcp_memory/embedding_repair_store.py:282-312 | only pruning removes a version |
| RepairQueue.OnlyCompletionEnds | src/mcp_memory/embedding_repair_store.py:46-312 | no step but its own completion ends the wait of an item that is not completed |
| RepairQueueStore.SelectFirst | src/mcp_memory/embedding_repair_store.py:113-180 | takes exactly the smaller of the limit and the number of rows, those with the smallest keys, in order |
| RepairQueueStore.LeaseAll | src/mcp_memory/embedding_repair_store.py:113-180 | leases exactly the selected rows |
| RepairQueueStore.SQLiteEmbeddingRepairQueue.FindByVersion | src/mcp_memory/embedding_repair_store.py:100-111 | finds the row of a version exactly if there is one |
| RepairQueueStore.SQLiteEmbeddingRepairQueue.EnqueueUnique | src/mcp_memory/embedding_repair_store.py:46-98 | inserts exactly if the version is new, and returns its row either way |
| RepairQueueStore.SQLiteEmbeddingRepairQueue.ClaimBatch | src/mcp_memory/embedding_repair_store.py:113-180 | one legal claim, oldest first; a limit below one is refused |
| RepairQueueStore.SQLiteEmbeddingRepairQueue.CompleteItem | src/mcp_memory/embedding_repair_store.py:182-202 | completes exactly a running item, whoever asks |
| RepairQueueStore.SQLiteEmbeddingRepairQueue.ReleaseItem | src/mcp_memory/embedding_repair_store.py:204-223 | releases exactly a running item, whoever asks |
| RepairQueueStore.SQLiteEmbeddingRepairQueue.PruneCompleted | src/mcp_memory/embedding_repair_store.py:282-312 | removes the oldest completed rows up to the limit, and counts them |
| RepairQueueStore.SQLiteEmbeddingRepairQueue.BacklogSnapshot | src/mcp_memory/embedding_repair_store.py:261-280 | the counts are the sizes of the two live states, and the age is the greatest |
| EmbeddingCache.FallbackIsRecognised | src/mcp_memory/embeddings.py:671-673 | the name a provider reports after giving up is always recognised as a fallback |
| EmbeddingCache.FallbackNameIff | src/mcp_memory/embeddings.py:671-673 | a name means the fallback exactly if, trimmed and in either case, it begins with `hash:` or is `hashing-local` |
| EmbeddingCache.NamespaceTells | src/mcp_memory/embeddings.py:74-82 | the namespace is the one the loaded model declares, else that of the fallback in use, else the model's |
| EmbeddingCache.LoadingTells | src/mcp_memory/embeddings.py:133-153 | what loading remembers: a model, a failed local load until a download is allowed, never a failed download |
| EmbeddingCache.MissingInOrder | src/mcp_memory/embeddings.py:306-311 | the missing texts come in order of first appearance |
| EmbeddingCache.CallIsSound | src/mcp_memory/embeddings.py:289-331 | no call stores a vector that is not its namespace's encoding of its text, nor drops a row |
| EmbeddingCache.FallbackStoresNothing | src/mcp_memory/embeddings.py:370-391 | after the provider gave up nothing is stored |
| EmbeddingCache.HistoryIsSound | src/mcp_memory/embeddings.py:133-153 | soundness over any sequence of calls, downloads and failures |
| EmbeddingCache.ComputedIsStored | src/mcp_memory/embeddings.py:370-391 | unless something failed or the provider gave up, every text a call had to compute is stored in the provider's namespace of then |
| EmbeddingCache.RepeatedCallIsServed | src/mcp_memory/embeddings.py:289-331 | from then on, while the namespace is that one and the cache is consulted, the same texts are answered with the same vectors without the provider, after any other calls, downloads and failures |
| EmbeddingCache.AllFoundNeedsNoProvider | src/mcp_memory/embeddings.py:289-331 | a call that finds all its texts does not depend on the provider at all |
| EmbeddingCache.FailureEndsCaching | src/mcp_memory/embeddings.py:348-397 | a failure to open or read ends caching for good, and the call answers as the provider alone |
| EmbeddingCache.WriteFailureEndsCaching | src/mcp_memory/embeddings.py:370-397 | so does a failure to write or to reopen, exactly then, and nothing is lost |
| EmbeddingCache.CallIsExact | src/mcp_memory/embeddings.py:289-331 | position by position, a hit is encoded in the namespace before the call and a miss in the one after; a wrong number of vectors is passed on exactly when the cache is not consulted |
| EmbeddingCache.TransparentIff | src/mcp_memory/embeddings.py:289-331 | with a provider that counts right, a cached call equals the provider alone if and only if the encoders before and after agree on every hit, so always when the namespace does not change; with one that counts wrong, if and only if the cache is not consulted |
| EmbeddingCache.MixedEncodersHappen | src/mcp_memory/embeddings.py:289-331 | for any encoder, a call that hits one text and whose provider gives up on the other answers with vectors of two namespaces |
| EmbeddingStore.SentenceTransformerEmbedder.EnsureModelLoaded | src/mcp_memory/embeddings.py:133-153 | the mode changes of loading: a failed local load is remembered, a failed download is not |
| EmbeddingStore.SentenceTransformerEmbedder.EmbedTexts | src/mcp_memory/embeddings.py:85-97 | vectors of the model, or of the fallback, position by position; or the wrong number of them |
| EmbeddingStore.RehashIsHash | src/mcp_memory/embeddings.py:382-387 | rehashing what was hashed in another namespace is hashing in this one |
| EmbeddingStore.SQLiteCachedEmbeddingProvider.OpenCache | src/mcp_memory/embeddings.py:348-368 | keeps a handle of the current namespace, reopens on a change, gives up on a failure |
| EmbeddingStore.SQLiteCachedEmbeddingProvider.PutComputedVectors | src/mcp_memory/embeddings.py:370-391 | stores the computed vectors under the namespace now in force |
| EmbeddingStore.SQLiteCachedEmbeddingProvider.DisableCache | src/mcp_memory/embeddings.py:393-397 | drops the handle and stays disabled |
| EmbeddingStore.SQLiteCachedEmbeddingProvider.MissingTexts | src/mcp_memory/embeddings.py:306-311 | each text without a stored vector once, in order of first appearance |
| EmbeddingStore.SQLiteCachedEmbeddingProvider.AnswerFromCache | src/mcp_memory/embeddings.py:300-331 | hits from the cache and the rest from the provider; a wrong number of vectors is an error and stores nothing |
| EmbeddingStore.SQLiteCachedEmbeddingProvider.EmbedTexts | src/mcp_memory/embeddings.py:289-331 | the method is the modelled call |
| VectorStore.UpsertStoresIff | src/mcp_memory/embeddings.py:422-498 | an upsert stores its row exactly if it is unguarded, or names the live memory's version and the stored one is no later |
| VectorStore.VersionsNeverDecrease | src/mcp_memory/embeddings.py:433-479 | over guarded writes mixed with memory changes, a set version never goes back |
| VectorStore.OnlyUnguardedWritesRegress | src/mcp_memory/embeddings.py:477-498 | a write can lose a set version if and only if it is an unguarded write of that key |
| VectorStore.RowIsTheLastTaken | src/mcp_memory/embeddings.py:446-476 | a row is exactly what the last accepted write gave; refused writes leave no trace |
| VectorStore.CurrentRowsAreFresh | src/mcp_memory/embeddings.py:433-476 | under any delays, a row of its memory's current version encodes the current text |
| VectorStore.TakenIffCurrent | src/mcp_memory/embeddings.py:438-476 | while memories only move forward, a guarded write is taken if and only if it names the current version |
| VectorStore.RefusedIffAhead | src/mcp_memory/embeddings.py:452-459 | a write naming the current version is refused if and only if the stored version is later |
| VectorStore.SQLiteVectorStore.UpsertVector | src/mcp_memory/embeddings.py:422-498 | true means the row now holds the vector, at the memory's current version if guarded; false means no row moved |
| AsyncSemaphore.EnterKeeps | src/mcp_memory/daemon_transport.py:385-388 | joining the queue keeps grants in arrival order and loses no wake-up |
| AsyncSemaphore.ReleaseKeeps | src/mcp_memory/daemon_transport.py:437-438 | so does a release, which adds one slot |
| AsyncSemaphore.ResumeKeeps | src/mcp_memory/daemon_transport.py:386-393 | so does a resumption, which takes one slot and passes on the rest |
| RequestServer.NextKeepsCapacity | src/mcp_memory/daemon_transport.py:373-438 | every step keeps free, granted and held slots adding up to the limit, and the three counters exact |
| RequestServer.NextKeepsTracking | src/mcp_memory/daemon_transport.py:440-449 | the tracked ids are exactly those of the live tasks, with the phase each is in |
| RequestServer.NextKeepsFinalised | src/mcp_memory/daemon_transport.py:481-489 | exactly the ended requests are in the log, once each |
| RequestServer.NextKeepsAnswered | src/mcp_memory/daemon_transport.py:342-368 | exactly the answered requests have a reply, once each, their own |
| RequestServer.NextKeepsRecent | src/mcp_memory/daemon_transport.py:481-489 | both deques are the tail of the log |
| RequestServer.NextKeepsLoop | src/mcp_memory/daemon_transport.py:315-368 | the loop watches exactly the dispatches not yet taken up, and sends one at a time |
| RequestServer.NextKeepsPaths | src/mcp_memory/daemon_transport.py:377-398 | only constrained requests queue or hold a slot |
| RequestServer.NextKeepsOrder | src/mcp_memory/daemon_transport.py:382-393 | the queue is in the order in which requests started |
| RequestServer.SlotsBalance | src/mcp_memory/daemon_transport.py:262-281 | over every run, held slots are the limit minus the free and the granted ones, constrained requests never exceed the limit, and the snapshot's counts are true |
| RequestServer.GrantedSlotHappens | src/mcp_memory/daemon_transport.py:262-281 | a run of five steps in which no slot is free and the snapshot calls one available |
| RequestServer.BypassNeverWaits | src/mcp_memory/daemon_transport.py:53-59 | a bypass path never queues and never holds a slot |
| RequestServer.NoOvertaking | src/mcp_memory/daemon_transport.py:382-393 | slots are granted in the order in which requests began to wait |
| RequestServer.FinalisedExactlyOnce | src/mcp_memory/daemon_transport.py:342-368 | a request is finalised exactly once if and only if it has ended, and answered at most once, at its own identity, with its own response |
| RequestOutcomes.RepliesAreDue | src/mcp_memory/daemon_transport.py:369-438 | over every run each reply is the one due to how its own dispatch ended: the handler's response, the timeout with the request's path and limit, or the failure; it is sent exactly if sending did not fail; and the last diagnostics tell the request's path, times, status, error and phase |
| RequestOutcomes.StoriesAreToldOnce | src/mcp_memory/daemon_transport.py:342-438 | a dispatch ends once, and its reply after it, once |
| RequestOutcomes.RequestsAreReceived | src/mcp_memory/daemon_transport.py:326-336 | the tasks are exactly the requests received in two frames or more, in order |
| RequestOutcomes.TimeoutTells | src/mcp_memory/daemon_transport.py:146-155 | the limit is a minute for exactly the extended paths, and five seconds otherwise |
| RequestServer.RecentIsLast | src/mcp_memory/daemon_transport.py:481-489 | the two histories are the last 32 finalisations, record for record |
| RequestServer.NoDeadlock | src/mcp_memory/daemon_transport.py:315-438 | while a request is open some step can be taken, for a running one the end that its time limit brings about |
| RequestServer.MovesDecrease | src/mcp_memory/daemon_transport.py:315-438 | every step that does something lowers the work left |
| RequestServer.Drains | src/mcp_memory/daemon_transport.py:315-438 | without arrivals every schedule is bounded, and one that can go no further has closed every request |
| RequestServerStore.SlotSemaphore.WakeUpNext | src/mcp_memory/daemon_transport.py:437-438 | the scan grants a slot to the first waiter without one |
| RequestServerStore.SlotSemaphore.TryAcquire | src/mcp_memory/daemon_transport.py:386-388 | takes a slot exactly if one is free and nobody waits |
| RequestServerStore.SlotSemaphore.FinishAcquire | src/mcp_memory/daemon_transport.py:386-393 | the granted waiter leaves and every free slot is passed on |
| RequestServerStore.DaemonZmqServer.ReceiveFrames | src/mcp_memory/daemon_transport.py:326-336 | two frames or more spawn one task; fewer are dropped |
| RequestServerStore.DaemonZmqServer.StartDispatch | src/mcp_memory/daemon_transport.py:373-402 | a task up to its first await |
| RequestServerStore.DaemonZmqServer.ResumeAdmitted | src/mcp_memory/daemon_transport.py:386-402 | a granted task up to the await of its handler |
| RequestServerStore.DaemonZmqServer.EndDispatch | src/mcp_memory/daemon_transport.py:403-438 | success, timeout, failure and cancellation, then the freed slot |
| RequestServerStore.DaemonZmqServer.FinalizeRequestTracking | src/mcp_memory/daemon_transport.py:481-489 | one sample, one diagnostic, and the id no longer active |
| RequestServerStore.DaemonZmqServer.RecordRequestSample | src/mcp_memory/daemon_transport.py:527-535 | appends to a deque of at most 32 |
| RequestServerStore.DaemonZmqServer.CollectDone | src/mcp_memory/daemon_transport.py:340-344 | an idle loop takes over the dispatches that are done |
| RequestServerStore.DaemonZmqServer.TakeCompleted | src/mcp_memory/daemon_transport.py:345-357 | the next completed task up to the await of its send; a cancelled one is dropped |
| RequestServerStore.DaemonZmqServer.ConcludeReply | src/mcp_memory/daemon_transport.py:357-368 | a sent or failed reply is finalised either way |
| ProviderUsage.ObserveFields | src/mcp_memory/operational_store_rows.py:515-542 | the branches of one observation together grow each counter, tally and window independently |
| ProviderUsage.FoldIsExact | src/mcp_memory/operational_store_rows.py:515-542 | after any samples every counter and tally is the declared total in its window |
| ProviderUsage.TalliesAddUp | src/mcp_memory/operational_store_rows.py:522-540 | the reason tallies sum to the day's failures and skips |
| ProviderUsage.HourWithinDay | src/mcp_memory/operational_store_rows.py:516-518 | no count of the hour exceeds that of the day |
| ProviderUsage.GroupsConserve | src/mcp_memory/operational_store_rows.py:617-625 | the totals of all groups add up to the total of all samples |
| ProviderUsage.OrderDoesNotMatter | src/mcp_memory/operational_store_rows.py:515-542 | no total depends on the order of the samples |
| ProviderUsage.MeanIsAverage | src/mcp_memory/operational_store_rows.py:649-652 | the mean is the total duration over the number of calls |
| ProviderUsage.TopReason | src/mcp_memory/operational_store_rows.py:655-658 | a reason of greatest count, and of those the greatest text; none exactly if there is none |
| ProviderUsage.SummaryIsDetermined | src/mcp_memory/operational_store_rows.py:544-586 | a group's samples determine its summary, whatever their order |
| ProviderUsage.LastStateTells | src/mcp_memory/operational_store_rows.py:626-629 | the admission state that counts is the last one of that provider and model |
| ProviderUsage.MostUsedFirst | src/mcp_memory/operational_store_rows.py:638-645 | in a sorted list calls fall, then skips, then tasks and providers rise |
| ProviderUsage.BeforeTransitive | src/mcp_memory/operational_store_rows.py:638-645 | the sort key orders summaries transitively |
| ProviderUsage.OrderIsDetermined | src/mcp_memory/operational_store_rows.py:638-645 | the sort key with the order of first occurrence lists given summaries in one way only |
| ProviderUsage.PlaceOf | src/mcp_memory/operational_store_rows.py:638-645 | putting a summary at this place keeps the list in order, behind all that tie with it |
| ProviderUsageStore.ProviderUsageAccumulator.ObserveTokens | src/mcp_memory/operational_store_rows.py:588-607 | the loop adds each reported field to the day, and to the hour if recent |
| ProviderUsageStore.ProviderUsageAccumulator.ObserveSample | src/mcp_memory/operational_store_rows.py:515-542 | the method is the modelled observation |
| ProviderUsageStore.ProviderUsageAccumulator.ToSummary | src/mcp_memory/operational_store_rows.py:544-586 | an exact accumulator gives the summary that its samples describe |
| ProviderUsageStore.GroupSamples | src/mcp_memory/operational_store_rows.py:617-625 | one accumulator of its own per key, exact for that key's samples, and the keys in order of first occurrence |
| ProviderUsageStore.BuildProviderUsageSummaries | src/mcp_memory/operational_store_rows.py:610-646 | one summary for each key that occurs, describing exactly its group, most used first and ties in order of first occurrence |

`CurationHistory.AllOrNothing` and `CurationLedger.TerminalRowMovesIff` are read off single definitions and
are not counted among these.

## Left out

- The dates on receipts, which no rule reads.
- JSON, UUID, datetime and Pydantic encoding, SHA hashing, Unicode normalisation, hydration of damaged rows: abstract, as stated under Assumptions.
- SQL text, connections, pragmas and busy retries; the Postgres variants of the same stores.
- Read-cache invalidation after a commit, which cannot change the outcome.
- Reading protections through the transaction surface; storing protections; listing and paging queries; unconditional overwriting of a candidate state.
- Query embeddings, the Ollama and hashing embedders, cosine search, the thread race between a model load and a cache write.
- Execution of restores and the repair worker's loop: a drained queue is not claimed to mean fresh embeddings.
- Stopping the server and cancellation of waiting tasks; payload parsing (a path arrives already normalised), handlers, rounding of timings, warnings, client-side timing.
- Quality and telemetry stores, sockets, clocks, HTTP routes, CLI, TUI, installer, configuration, process management.
