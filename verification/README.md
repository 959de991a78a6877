# Verification of the proxy core

A Dafny model of the parts of CPA Core LTS whose correctness is hardest to see by reading: the
replay caches that let concurrent requests publish conversation state optimistically, the
connection hand-off and wire code, and the translation of configuration files between the
legacy and the v8 layout.

`dafny verify dfyconfig.toml` checks the whole project.

## What is modelled

**Replay caches.** A request reads a snapshot of a conversation, and later publishes, appends or
deletes only if the snapshot is still valid, while other requests write, delete, expire, evict
or clear entries.

- `ReplayRegister` is the abstract versioned register: versions with an identity that is never
  reused, a branch token and items, and a log of everything ever stored.
- `AntigravityLocal` is the mutex-guarded cache as a class; `AntigravityRuns` proves that every
  run of it refines the register. `AntigravityHome` is the compare-and-swap back end as
  interleaved store accesses, refining the same register. `AntigravityLaws` says what a caller can
  count on: when an operation goes through, what a get answers and for how long, what is lost and why.
- `ThinkingReplay` is the Claude and the Kimi cache as one class with a `kind`, `ThinkingRuns`
  its runs, `ThinkingLaws` what a caller can count on, `ThinkingHome` their shared-store back end,
  `ThinkingSample` runs that meet the limits.
- `CodexReplay` is the turn history with its append and trim, `CodexHome` the append loop over
  the shared store.
- `Eviction` chooses the oldest entries, ties broken arbitrarily.

**Hand-off and wire code.** `MuxListener` is the connection hand-off as a state machine over the
atomic steps of any number of concurrent `Put` and `Accept` calls and one `Close`. `Resp` is the
reader and writer of the Redis serialization protocol. `ResponseCompression` is the writer that
buffers a response, decides once about Content-Encoding (section 8.4 of RFC 9110), then streams;
`CompressionLaws` says which responses are compressed.

**Configuration.** `YamlGraph` holds documents as graphs and the alias-cycle search.
`AliasExpand` expands aliases (section 7.1 of YAML 1.2.2) and merge keys. `ConfigTree`,
`KeyGroups`, `ConfigLayout` are the path operations, the key groups and the two translations;
`ConfigMeaning` says what a document means and proves that the translations agree with it;
`KeyLaws` says what every key of a group becomes, `ConfigLaws` which documents flatten, what a blank
container resets and that one spelling is left, `ConfigBlanks` what normalizing does with blank containers;
`ConfigSample` shows that rows of the program's own path table meet the theorem's conditions.

**Linked caches.** `Recency` is the list in order of use and its agreement with an index,
`BoundedLru` and `WebSearchCache` the two caches that keep such a list and an index into it.

Clocks, random tokens, replies of the transport, fragment sizes and JSON facts about an item are
parameters. Random tokens are fresh: one that was drawn before is not drawn again. Encodings are
injective, so a stored value is its decoded form.

## Where the code does less than one might expect

- The byte cap of the Claude and Kimi caches evicts in batches of 128, and an entry just published
  may go with them: exactly when the newest entries left over by whole batches exceed the cap
  (`ThinkingReplay.NewestSurvivesIff`; `ThinkingSample.PublishedTurnVanishes` is a run).
- A conditional delete that expects absence stores a tombstone without enforcing the limits; it is
  the only operation that can leave the entry cap (`ThinkingReplay.StepCaps`, an equivalence;
  `ThinkingSample.DeleteOverfills`). In runs whose snapshots come from local gets it cannot happen
  (`ThinkingRuns.RunInv`).
- Publishing a Claude turn twice is publishing it once only if the turn has a canonical form, or the
  session is full of it already (`ThinkingReplay.AppendTurnTwice`, an equivalence).
- Appending a Codex turn twice is not always appending it once: not when the caps trim the stored
  copy away (`CodexReplay.AppendTwice`, an equivalence; `CodexReplay.ReservedIdNotIdempotent`).
- Migrating a document whose key list has an entry that groups cannot hold, or in which an alias
  spells a struct as a scalar, produces a document that does not flatten
  (`ConfigMeaning.MigrationFlattensIff`, an equivalence with the exact condition;
  `ConfigSample.BareKeyBreaksMigration`, `ConfigSample.ScalarBreaksMigration`).
- A blank container in the current spelling resets the legacy settings of its struct. Where two struct
  rows share that container, as `claude-code` and `claude` do, the first row takes it away and the
  settings of the second are not reset (`ConfigLaws.FlattenResets`, with the exact condition;
  `ConfigSample.SecondStructNotReset`).

## Model

| member | source | states |
|---|---|---|
| `AntigravityLocal.ReplayCache.CacheItems` | internal/cache/antigravity_reasoning_replay_cache.go:127-142 | an unconditional store is one register step with a new revision and branch, evicting the oldest batch over the cap |
| `AntigravityLocal.ReplayCache.GetWithSnapshot` | internal/cache/antigravity_reasoning_replay_cache.go:230-251 | a hit refreshes the timestamp and snapshots the entry; a miss or an expired entry is fenced with a tombstone of its own |
| `AntigravityLocal.ReplayCache.ReserveAbsent` | internal/cache/antigravity_reasoning_replay_cache.go:256-275 | room is made before the tombstone goes in, and the snapshot is that tombstone's |
| `AntigravityLocal.ReplayCache.ReplaceIfUnchanged` | internal/cache/antigravity_reasoning_replay_cache.go:333-353 | accepted exactly on the snapshot's revision or on a live same-branch entry that the items extend; the branch survives exactly when the read chain is extended |
| `AntigravityLocal.ReplayCache.DeleteIfUnchanged` | internal/cache/antigravity_reasoning_replay_cache.go:357-385 | a tombstone replaces exactly the state that was read, otherwise nothing changes |
| `AntigravityLocal.ReplayCache.DeleteRequired` | internal/cache/antigravity_reasoning_replay_cache.go:409-418 | an unconditional delete leaves a tombstone with a new revision and branch |
| `AntigravityLocal.ReplayCache.EvictOldest` | internal/cache/antigravity_reasoning_replay_cache.go:623-645 | the removed entries are a batch no newer than any entry kept, each counted in the eviction epoch |
| `Eviction.OldestKeys` | internal/cache/antigravity_reasoning_replay_cache.go:623-645 | as many keys as asked for, or all, none of them newer than any key left |
| `AntigravityLocal.ReplayCache.PurgeExpired` | internal/cache/antigravity_reasoning_replay_cache.go:647-656 | exactly the expired entries go, each counted in the eviction epoch |
| `AntigravityLocal.ReplayCache.ClearAll` | internal/cache/antigravity_reasoning_replay_cache.go:478-483 | everything goes and the epoch moves, while revisions go on |
| `AntigravityRuns.StepRefines` | internal/cache/antigravity_reasoning_replay_cache.go:333-385 | every local operation is a transaction of the abstract register |
| `AntigravityRuns.RunInv` | internal/cache/antigravity_reasoning_replay_cache.go:127-142 | in every run identities are unique, branches are chains, and every snapshot handed out is a version of the log |
| `AntigravityRuns.StaleSnapshotRejected` | internal/cache/antigravity_reasoning_replay_cache.go:333-385 | after a key was deleted, evicted, expired, cleared or overwritten, no replace or delete carrying an older snapshot of it ever succeeds, whatever was republished since |
| `AntigravityRuns.BranchesAreChains` | internal/cache/antigravity_reasoning_replay_cache.go:337-348 | of two moments at which a key is on the same branch, the earlier items are a prefix of the later ones |
| `AntigravityRuns.RevisionsFormChains` | internal/cache/antigravity_reasoning_replay_cache.go:456-466 | all item lists ever stored under one key and branch form a prefix chain in revision order |
| `AntigravityRuns.AcceptedReplaceDropsNothing` | internal/cache/antigravity_reasoning_replay_cache.go:337-348 | a replace accepted on an entry that moved on keeps every item that is there and every item its request read |
| `AntigravityLaws.ReplaceAcceptedIff` | internal/cache/antigravity_reasoning_replay_cache.go:333-353 | in every run a replace is accepted if and only if the entry still has the revision that was read, or is live, on the branch that was read, and a prefix of the new items; then the key holds exactly the new items, on the branch that was read exactly if they extend what was read, or a full cache evicted it and kept nothing older |
| `AntigravityLaws.DeleteAcceptedIff` | internal/cache/antigravity_reasoning_replay_cache.go:372-385 | in every run a conditional delete is accepted if and only if the entry still has the revision that was read, and leaves a tombstone |
| `AntigravityLaws.ReadAnswers` | internal/cache/antigravity_reasoning_replay_cache.go:230-251 | a get answers exactly what was last stored or published, up to one hour after the last write or read of the key, and a miss later; a deleted key is a miss |
| `AntigravityLaws.LostOnlyTo` | internal/cache/antigravity_reasoning_replay_cache.go:623-656 | in every run an entry is lost only to a clear, to a purge more than an hour after its last use, or to a full cache that kept nothing older |
| `AntigravityLaws.PurgeLaw` | internal/cache/antigravity_reasoning_replay_cache.go:647-656 | exactly the entries used within the last hour stay, unchanged |
| `AntigravityLaws.ClearLaw` | internal/cache/antigravity_reasoning_replay_cache.go:478-483 | nothing is left, and revisions go on |
| `AntigravityLaws.RunBounded` | internal/cache/antigravity_reasoning_replay_cache.go:138-140 | no run ever takes the cache over 10240 entries |
| `AntigravityHome.StepRefines` | internal/cache/antigravity_reasoning_replay_cache.go:291-331 | every store access of the retry loop is a transaction of the same register |
| `AntigravityHome.SwapOverwritesKnownState` | internal/cache/antigravity_reasoning_replay_cache.go:303-329 | a successful swap overwrote exactly the snapshot or a live same-branch value whose items are a prefix of the new ones |
| `AntigravityHome.StaleRequestNeverSwaps` | internal/cache/antigravity_reasoning_replay_cache.go:312-329 | a request whose key was lost or overwritten after its read never replaces or deletes, over all its retries |
| `AntigravityHome.BranchesAreChains` | internal/cache/antigravity_reasoning_replay_cache.go:442-466 | the chain law of the local cache holds of the shared store |
| `AntigravityHome.ReadHandsOut` | internal/cache/antigravity_reasoning_replay_cache.go:183-206 | a read hands out what the store holds; an absent key is fenced with a tombstone that is handed out, unless somebody was faster |
| `AntigravityHome.FirstSwapTakesIff` | internal/cache/antigravity_reasoning_replay_cache.go:303-311 | the first swap goes through if and only if the key still holds what the request read |
| `AntigravityHome.RetriesIff` | internal/cache/antigravity_reasoning_replay_cache.go:312-328 | a lost swap is retried if and only if the key is live, on the branch that was read, a prefix of the new items, and fewer than four swaps were tried |
| `AntigravityHome.LaterSwapTakesIff` | internal/cache/antigravity_reasoning_replay_cache.go:303-330 | a later swap goes through if and only if the key still holds what was found before it |
| `AntigravityHome.DeleteTakesIff` | internal/cache/antigravity_reasoning_replay_cache.go:365-371 | a conditional delete goes through if and only if the key still holds what the request read |
| `ThinkingReplay.AppendContent` | internal/cache/claude_thinking_replay_cache.go:367-382 | the loop returns the contents unchanged for a known turn, else the trimmed extension |
| `ThinkingReplay.TrimIsLongest` | internal/cache/claude_thinking_replay_cache.go:375-381 | trimming keeps the longest suffix within the turn and the byte cap |
| `ThinkingReplay.NewTurnIsLast` | internal/cache/claude_thinking_replay_cache.go:367-382 | a valid new turn is always stored, as the last one |
| `ThinkingReplay.AppendTurnTwice` | internal/cache/claude_thinking_replay_cache.go:367-382 | publishing the same turn twice is publishing it once, if and only if the turn has a canonical form or the session is full of it already |
| `ThinkingReplay.ReplayCache.EnforceLimits` | internal/cache/claude_thinking_replay_cache.go:438-446 | the loop ends within both caps; the running total is the sum throughout, so an empty map over the cap is never met |
| `ThinkingReplay.EnforcedMeans` | internal/cache/claude_thinking_replay_cache.go:438-471 | enforcement establishes both caps, changes no entry it keeps, and drops nothing newer than what it keeps |
| `ThinkingReplay.SmallCacheIsEmptied` | internal/cache/kimi_thinking_replay_cache.go:382-390 | over the byte cap with at most one batch of entries, everything goes |
| `ThinkingReplay.NewestSurvivesIff` | internal/cache/kimi_thinking_replay_cache.go:382-415 | the strictly newest entry survives enforcement if and only if the newest entries that whole batches leave over hold at most the byte cap together; otherwise nothing survives |
| `ThinkingReplay.NewestExist` | internal/cache/kimi_thinking_replay_cache.go:404-409 | with distinct timestamps those newest entries exist, for every number |
| `ThinkingSample.PublishedTurnVanishes` | internal/cache/claude_thinking_replay_cache.go:354-364 | a run of 33 accepted stores of sessions within their own limits, after which the session stored last is gone with all others |
| `ThinkingSample.DeleteOverfills` | internal/cache/claude_thinking_replay_cache.go:240-248 | a full cache that a delete from expected absence takes over the entry cap |
| `ThinkingReplay.ReplayCache.EvictOldest` | internal/cache/claude_thinking_replay_cache.go:448-471 | one batch of the oldest goes and the running total follows |
| `ThinkingReplay.ReplayCache.CacheContent` | internal/cache/claude_thinking_replay_cache.go:347-358 | an unconditional store, with the total kept and the limits enforced |
| `ThinkingReplay.ReplayCache.GetWithSnapshot` | internal/cache/claude_thinking_replay_cache.go:143-162 | a hit refreshes the timestamp; a miss is fenced with a tombstone that outlives the enforcement it triggers; the total stays the sum |
| `ThinkingReplay.ReplayCache.ReplaceIfUnchanged` | internal/cache/claude_thinking_replay_cache.go:199-213 | accepted exactly on the generation that was read; publishes the update of what is there and enforces the limits |
| `ThinkingReplay.ReplayCache.DeleteIfUnchanged` | internal/cache/kimi_thinking_replay_cache.go:238-247 | a tombstone replaces exactly the generation that was read |
| `ThinkingReplay.ReplayCache.DeleteRequired` | internal/cache/kimi_thinking_replay_cache.go:266-272 | the key goes and the total follows |
| `ThinkingReplay.ReplayCache.PurgeExpired` | internal/cache/kimi_thinking_replay_cache.go:417-426 | exactly the expired entries go and the total follows |
| `ThinkingReplay.ReplayCache.Reserve` | internal/cache/claude_thinking_replay_cache.go:347-352 | a tombstone goes in and the limits are enforced, with the total kept |
| `ThinkingReplay.ReplayCache.ClearAll` | internal/cache/claude_thinking_replay_cache.go:278-283 | no entries and no bytes are left |
| `ThinkingReplay.StepCaps` | internal/cache/claude_thinking_replay_cache.go:240-248 | every operation keeps both caps, except exactly the delete that expects absence at full capacity |
| `ThinkingRuns.RunInv` | internal/cache/claude_thinking_replay_cache.go:143-162 | at every point of every run both caps and the per-session caps hold and stored generations are ones that were drawn |
| `ThinkingRuns.AtMostOneSuccess` | internal/cache/claude_thinking_replay_cache.go:201-212 | per key and generation at most one conditional replace or delete ever succeeds |
| `ThinkingRuns.HeldThroughout` | internal/cache/kimi_thinking_replay_cache.go:199-211 | a generation found again was there all the time, with the same contents |
| `ThinkingRuns.ReplaceExtendsRead` | internal/cache/claude_thinking_replay_cache.go:199-213 | an accepted replace publishes the contents its request read with its own turn added, and nobody changed the key in between |
| `ThinkingLaws.AcceptedIff` | internal/cache/claude_thinking_replay_cache.go:197-248 | in every run a conditional replace or delete is accepted if and only if its turn is an array of 1 to 512 blocks in at most 8 MiB and the key held the generation that was read all the time |
| `ThinkingLaws.ReadAnswers` | internal/cache/claude_thinking_replay_cache.go:143-162 | a get answers exactly what was last published, up to one hour after the last publication or read of the key, and a miss later |
| `ThinkingLaws.DeletedIsNotRead` | internal/cache/kimi_thinking_replay_cache.go:238-272 | what was deleted is not returned by any get before the next publication |
| `ThinkingLaws.LostOnlyTo` | internal/cache/claude_thinking_replay_cache.go:438-482 | in every run an entry is lost only to a clear, to a delete of its key, to a purge more than an hour after its last use, or to a cache without room for one more session |
| `ThinkingHome.RunInv` | internal/cache/claude_thinking_replay_cache.go:318-345 | stored sessions stay within their caps in every run of the shared store |
| `ThinkingHome.AtMostOnePublication` | internal/cache/kimi_thinking_replay_cache.go:186-196 | per key and generation at most one compare-and-swap ever takes effect, whatever reply it got |
| `ThinkingHome.ReplaceExtendsRead` | internal/cache/claude_thinking_replay_cache.go:177-196 | a swap that takes effect publishes what was read plus its own turn, and the key never held anything else in between |
| `ThinkingHome.SwapTakesIff` | internal/cache/kimi_thinking_replay_cache.go:186-247 | a conditional operation changes the store if and only if its turn is valid and nobody changed the key since its request read it |
| `ThinkingHome.AbsentTakesIff` | internal/cache/kimi_thinking_replay_cache.go:186-247 | from absence a reservation and a delete go through if and only if the key is absent, a replace only for Kimi |
| `CodexReplay.TrimItems` | internal/cache/codex_reasoning_replay_cache.go:217-235 | the scanning loop computes the trimmed history |
| `CodexReplay.TrimIsLongest` | internal/cache/codex_reasoning_replay_cache.go:217-235 | the longest suffix that starts a turn and meets both caps; nothing when none does |
| `CodexReplay.AppendTurn` | internal/cache/codex_reasoning_replay_cache.go:194-215 | a turn is added unless its identifier is stored, flat histories get the legacy marker first |
| `CodexReplay.NewTurnIsTail` | internal/cache/codex_reasoning_replay_cache.go:211-214 | a new single-marker turn is the whole tail of the result, behind a tail of what was stored |
| `CodexReplay.AppendTwice` | internal/cache/codex_reasoning_replay_cache.go:203-210 | appending the same turn twice equals appending it once if and only if the caps do not trim its stored copy away |
| `CodexReplay.AppendTwiceWithinCaps` | internal/cache/codex_reasoning_replay_cache.go:194-215 | in particular on every history within the caps, for every identifier but the reserved one |
| `CodexReplay.ReservedIdNotIdempotent` | internal/cache/codex_reasoning_replay_cache.go:195-198 | the reserved identifier is a real exception |
| `CodexReplay.AppendAllIsConcat` | internal/cache/codex_reasoning_replay_cache.go:194-235 | any number of distinct new turns add up to one concatenation trimmed once |
| `CodexHome.RunInv` | internal/cache/codex_reasoning_replay_cache.go:142-172 | the store is at all times the outcome of the commits in order, and each request committed as often as its reply allows |
| `CodexHome.AppendsLinearize` | internal/cache/codex_reasoning_replay_cache.go:142-172 | an append that reports success took effect exactly once, after it began, as one append to the value just before |
| `CodexHome.NoHiddenAppend` | internal/cache/codex_reasoning_replay_cache.go:161-171 | an append that fails took effect at most once, one under way not yet |
| `CodexHome.NoTurnOverwritten` | internal/cache/codex_reasoning_replay_cache.go:142-172 | between two moments with only appends to a key, the history is the earlier one plus all committed turns in commit order, trimmed once |
| `CodexHome.SwapTakesIff` | internal/cache/codex_reasoning_replay_cache.go:142-172 | a swap goes through if and only if the key still holds the history read before it, and then holds that history with the turn appended |
| `CodexHome.GivesUpOnlyAfter` | internal/cache/codex_reasoning_replay_cache.go:142-172 | an append gives up only after an error, an unacknowledged swap, or 32 lost swaps |
| `MuxListener.RunConserves` | internal/api/mux_listener.go:30-133 | for every connection, sends equal queued plus held plus delivered plus closed copies, at every point of every run |
| `MuxListener.ExactlyOnePlace` | internal/api/mux_listener.go:51-78 | a connection whose Put returned nil is in exactly one place |
| `MuxListener.QueueEmptyForever` | internal/api/mux_listener.go:107-133 | once Close is through, the queue is empty forever |
| `MuxListener.SettledAfterClose` | internal/api/mux_listener.go:116-131 | from then on everything sent is with an acceptor, delivered or closed |
| `MuxListener.NothingDeliveredAfterClose` | internal/api/mux_listener.go:89-105 | nothing is delivered once the listener began to close |
| `MuxListener.OpenKeepsEverything` | internal/api/mux_listener.go:89-105 | while the listener is open, no connection was closed and no Accept was refused, in every run |
| `MuxListener.HandOverDelivers` | internal/api/mux_listener.go:97-103 | a received connection is delivered if and only if the listener is open at that moment |
| `MuxListener.FirstInFirstOut` | internal/api/mux_listener.go:43-98 | at every point of every run the connections sent are those taken, in order, followed by the queue |
| `MuxListener.OpenReceivesInOrder` | internal/api/mux_listener.go:89-105 | while the listener is open, the connections received are a prefix of the connections sent, in order |
| `MuxListener.PutFailsOnlyFor` | internal/api/mux_listener.go:30-78 | a Put fails only at a closed listener or after its timeout, and succeeds only by a send |
| `MuxListener.HandOffWorks` | internal/api/mux_listener.go:30-105 | left alone, an open listener takes a connection from Put to Accept and delivers it |
| `MuxListener.CloseNeverBlocks` | internal/api/mux_listener.go:107-133 | while Close waits or drains, one of its steps or a step of a Put it waits for is enabled without anybody else |
| `MuxListener.ClosingStepsDecreaseWork` | internal/api/mux_listener.go:107-133 | every such step uses up work, and no other step adds any |
| `MuxListener.CloseReturns` | internal/api/mux_listener.go:107-133 | once as many closing steps were taken as there was work, Close has returned; until then another is possible |
| `MuxListener.CloseCompletes` | internal/api/mux_listener.go:107-133 | from every state in which the listener began to close, closing steps alone lead to the return of Close |
| `YamlGraph.HasAliasCycle` | internal/config/config_v8_plugin_opaque.go:71-96 | true if and only if a cycle through content or alias pointers can be reached; terminates on every finite graph |
| `YamlGraph.CycleSearch.Visit` | internal/config/config_v8_plugin_opaque.go:74-94 | the recursion keeps the path on the stack and ranks what is done; a hit on the stack is a real cycle |
| `YamlGraph.CycleSearch.VisitEach` | internal/config/config_v8_plugin_opaque.go:71-96 | after the loop every successor is finished, or a cycle was found |
| `YamlGraph.RankedIsAcyclic` | internal/config/config_v8_plugin_opaque.go:71-96 | what the search finished with has no reachable cycle |
| `AliasExpand.ResolveMerges` | internal/config/config_v8.go:917-939 | the in-place loop over the pairs computes explicit pairs plus the missing merged ones, and terminates although it grows the list |
| `AliasExpand.AddMissingPairs` | internal/config/config_v8.go:930-936 | exactly the keys not yet there are appended, in order |
| `AliasExpand.ExpandAliases` | internal/config/config_v8.go:908-941 | the recursive copy terminates on acyclic documents and has no alias and no merge key |
| `AliasExpand.ExpandIsMergeFree` | internal/config/config_v8.go:908-941 | no merge key is left at any depth |
| `AliasExpand.LookupAgrees` | internal/config/config_v8.go:908-941 | every lookup in the expansion equals the lookup under alias and merge semantics: explicit keys first, then earlier sources before later ones |
| `AliasExpand.FindKey` | internal/config/config_v8_plugin_opaque.go:158-176 | the content index of the first key that matches in tag and value, or -1 exactly if none does |
| `AliasExpand.LookupFindsScalar` | internal/config/config_v8_plugin_opaque.go:158-176 | a scalar key is found by value and tag and by nothing else, and the first such pair counts |
| `ConfigTree.GetSetSame` | internal/config/config_v8.go:188-195 | a value set is the value read |
| `ConfigTree.GetSetOther` | internal/config/config_v8.go:188-195 | setting leaves every incomparable path alone |
| `ConfigTree.GetRemoveSame` | internal/config/config_v8.go:240-257 | a deleted path is gone |
| `ConfigTree.GetRemoveOther` | internal/config/config_v8.go:240-257 | deleting, with pruning of emptied ancestors, leaves every incomparable path alone |
| `ConfigTree.RemoveAbove` | internal/config/config_v8.go:240-257 | what is not at or below a deleted path stays as it was, is pruned, or is a mapping with something left in it |
| `KeyGroups.GroupLegacyKeys` | internal/config/config_v8.go:504-531 | the loops compute one group per legacy entry |
| `KeyGroups.CheckGroup` | internal/config/config_v8.go:444-478 | accepts exactly the well-formed groups |
| `KeyGroups.ExpandV8Groups` | internal/config/config_v8.go:438-500 | the loops accept and expand exactly the well-formed groups |
| `KeyGroups.GroupThenExpand` | internal/config/config_v8.go:438-531 | for every provider, grouping then expanding gives every entry back up to null and auth-index fields, if and only if groups can hold every entry |
| `KeyLaws.KeysInherit` | internal/config/config_v8.go:480-498 | for every accepted list of groups there is one entry per key, in order; every field is the key's own unless absent or null, else the group's if it is base-url or a shared field, and auth indices are gone |
| `KeyLaws.CompatKeeps` | internal/config/config_v8.go:438-500 | an OpenAI-compatible group stays one entry with all its fields and its keys without auth indices |
| `KeyLaws.ExpandAcceptsIff` | internal/config/config_v8.go:444-478 | a list of groups is accepted if and only if every group has the required shape, weights included |
| `KeyLaws.GroupLifts` | internal/config/config_v8.go:504-531 | grouping lifts exactly the inherited fields of an entry and leaves the others to its one key |
| `ConfigLayout.CheckShape` | internal/config/config_v8.go:332-359 | accepts exactly the documents in which everything above a current path is a mapping, or a null where that means defaults |
| `ConfigLayout.FlattenV8` | internal/config/config_v8.go:319-418 | the loops over the tables compute the flattening, errors included |
| `ConfigLayout.NormalizeConfigLayout` | internal/config/config_v8.go:547-617 | the loops over the tables compute the normalized document, errors included |
| `ConfigMeaning.FlattenGivesEffective` | internal/config/config_v8.go:360-407 | flattening gives every leaf its effective value: the current spelling of the leaf or of the struct an alias moves as a whole, else the first alias present, else the legacy spelling |
| `ConfigMeaning.FlattenGivesFamily` | internal/config/config_v8.go:408-416 | flattening gives every key family its expanded groups, else its legacy list |
| `ConfigLaws.FlattensIff` | internal/config/config_v8.go:319-418 | a document without blank containers flattens if and only if it is a mapping with mappings above all current settings, of version 8 if it gives one, and with acceptable key groups |
| `ConfigLaws.FlattenResets` | internal/config/config_v8.go:393-407 | every setting gets its effective value, unless its struct is blank in the current spelling and no earlier row shares that container: then it is reset |
| `ConfigMeaning.NormalizePreservesMeaning` | internal/config/config_v8.go:556-617 | normalizing, migrating or not, changes the flattened value of no leaf of the path table |
| `ConfigMeaning.NormalizePreservesFamily` | internal/config/config_v8.go:594-608 | nor of a key family, up to null and auth-index fields when a migration groups it |
| `ConfigMeaning.MigrationFlattensIff` | internal/config/config_v8.go:556-617 | the normalized document flattens if and only if, when migrating, every key list that is grouped has only entries groups can hold, and every scalar an alias spells in the place of a struct is overlaid by a legacy setting of that struct |
| `ConfigLaws.NormalizeLeavesOne` | internal/config/config_v8.go:578-617 | of a document without blank containers that flattens, normalizing leaves no setting in two spellings; a migration leaves none in the legacy spelling or an alias |
| `ConfigBlanks.NormalizeResets` | internal/config/config_v8.go:556-617 | normalizing, migrating or not, leaves no legacy setting of a struct that is blank in the current spelling |
| `ConfigBlanks.MigrationMovesBlank` | internal/config/config_v8.go:563-617 | a migration takes every blank legacy container away and its current spelling is there afterwards |
| `ConfigBlanks.SharedMustBeMapping` | internal/config/config_v8.go:369-376 | a document flattens only if every shared container that it gives is a mapping or null |
| `ConfigLaws.ClearPassGet` | internal/config/config_v8.go:556-562 | normalizing first resets exactly the settings whose struct is blank in the current spelling |
| `ConfigLaws.EmptyContainersAre` | internal/config/config_v8.go:563-577 | the legacy containers that move as a whole are exactly the blank ones that have somewhere to move |
| `ConfigLaws.EmptyNullsGet` | internal/config/config_v8.go:563-577 | a null legacy container becomes an empty mapping exactly if it is going to move |
| `ConfigLaws.SharedPassMoves` | internal/config/config_v8.go:369-386 | a blank shared container makes way for its current spelling, which is there afterwards |
| `ConfigSample.SampleIsOk` | internal/config/config_v8.go:27-112 | rows of the program's table of every kind, an alias of a whole struct among them, meet the conditions of the theorems |
| `ConfigSample.BareKeyBreaksMigration` | internal/config/config_v8.go:504-531 | a document with a bare string for a key flattens, and its migration does not |
| `ConfigSample.ScalarBreaksMigration` | internal/config/config_v8.go:578-593 | a document with a number for an aliased struct flattens, and its migration does not |
| `ConfigSample.SecondStructNotReset` | internal/config/config_v8.go:393-400 | a document in which a null container does not reset a setting of the second struct row that shares it |
| `Decimal.AtoiItoa` | internal/api/redis_queue_protocol.go:441-482 | a number written in decimal reads back, over all 64-bit integers |
| `Resp.ReadLine` | internal/api/redis_queue_protocol.go:521-549 | the fragment loop returns the same line, or the same error, as a whole-input read, for every sequence of fragment sizes |
| `Resp.LineReadIff` | internal/api/redis_queue_protocol.go:521-549 | a line is read if and only if a newline exists and the line without terminator is at most 64 KiB |
| `Resp.ReadBulkString` | internal/api/redis_queue_protocol.go:490-519 | consumes exactly one bulk string within the budget, or fails as specified |
| `Resp.ReadString` | internal/api/redis_queue_protocol.go:461-483 | consumes exactly one bulk, simple or integer string within the budget |
| `Resp.SimpleStringReads` | internal/api/redis_queue_protocol.go:461-483 | a simple string or integer reads as exactly its line and leaves exactly the rest, if and only if it is within the line limit and the budget |
| `Resp.BulkReads` | internal/api/redis_queue_protocol.go:490-519 | what every announced length comes to: the payload and the rest, or which error |
| `Resp.ReadArray` | internal/api/redis_queue_protocol.go:429-455 | consumes exactly one array with one budget for all its arguments |
| `Resp.WriteBulkString` | internal/api/redis_queue_protocol.go:575-590 | appends the encoding of the payload, nil included, and nothing else |
| `Resp.WriteArray` | internal/api/redis_queue_protocol.go:592-605 | appends the encoding of all payloads in order and nothing else |
| `Resp.ArrayRoundTrip` | internal/api/redis_queue_protocol.go:429-605 | reading a written array followed by any tail returns the payloads and leaves exactly the tail, if and only if there are at most 1024 of at most 64 KiB together |
| `Resp.ArrayBounded` | internal/api/redis_queue_protocol.go:429-455 | every successful read of any input has at most 1024 arguments of at most 64 KiB together |
| `Resp.ArrayFramed` | internal/api/redis_queue_protocol.go:429-519 | a request that was read would have been read the same whatever follows it |
| `ResponseCompression.ResponseCompressionWriter.WriteBytes` | internal/api/response_compression.go:253-277 | a write buffers, or decides, drains and feeds the one target, and reports the bytes taken |
| `ResponseCompression.ResponseCompressionWriter.SendHeader` | internal/api/response_compression.go:284-291 | a header commit forces the decision and drains first |
| `ResponseCompression.ResponseCompressionWriter.FlushError` | internal/api/response_compression.go:300-317 | a flush forces the decision, drains, then flushes encoder and client, keeping the first error |
| `ResponseCompression.ResponseCompressionWriter.MakeDecision` | internal/api/response_compression.go:319-357 | the decision, taken once; the encoder is announced in the header before the header goes out |
| `ResponseCompression.ResponseCompressionWriter.DrainBuffer` | internal/api/response_compression.go:378-389 | the buffer goes to the one target and is empty afterwards, unless writing already failed |
| `ResponseCompression.ResponseCompressionWriter.FinishResponse` | internal/api/response_compression.go:391-414 | decides, drains, closes the encoder and makes later writes fail |
| `ResponseCompression.FinishDelivers` | internal/api/response_compression.go:253-414 | after any operations without transport error and finish, the chosen target got exactly the written bytes in order and the other nothing |
| `ResponseCompression.OnlyPrefixReaches` | internal/api/response_compression.go:253-389 | whatever fails, only a prefix of the written bytes reaches a single target |
| `ResponseCompression.NeverRevoked` | internal/api/response_compression.go:319-357 | the decision, the committed header and, after an error, the body never change again |
| `ResponseCompression.EncodingDeclaredIffUsed` | internal/api/response_compression.go:349-356 | the header that goes out differs from the handler's Content-Encoding if and only if the encoder is used, then and for ever |
| `ResponseCompression.NothingAfterEncodedFinish` | internal/api/response_compression.go:404-413 | after an encoded finish no later operation sends anything, plain or encoded |
| `CompressionLaws.CompressedIff` | internal/api/response_compression.go:319-357 | without faults and with an encoder at hand a response is compressed if and only if its status allows a body, it has no encoding yet, its type is one of the five classes, and it is an event stream or neither its declared length nor the bytes before the decision fall short of the minimum |
| `CompressionLaws.MediaTypeIgnores` | internal/api/response_compression.go:323-324 | parameters, surrounding blanks and letter case of the type do not matter |
| `CompressionLaws.NoEncoderNoCompression` | internal/api/response_compression.go:345-349 | without an encoder nothing is ever compressed |
| `CompressionLaws.StatusIsFixed` | internal/api/response_compression.go:245-251 | the first write or commit fixes the status; until then the last positive one counts |
| `CompressionLaws.SizeCounts` | internal/api/response_compression.go:253-277 | without a transport error the reported size is the number of bytes written |
| `BoundedLru.Cache.constructor` | internal/cache/bounded_lru.go:24-34 | capacity is at least one |
| `BoundedLru.Cache.GetOrAdd` | internal/cache/bounded_lru.go:38-66 | refines use of a most-recent-first list; the least recent pair is handed to the callback exactly when a new key exceeds the capacity, and is never the new one |
| `BoundedLru.Cache.Get` | internal/cache/bounded_lru.go:68-77 | returns the cached value and makes it most recent |
| `BoundedLru.Cache.Delete` | internal/cache/bounded_lru.go:79-95 | removes the pair from index and list and hands it to the callback once |
| `BoundedLru.Cache.Len` | internal/cache/bounded_lru.go:97-101 | index and list have the same size |
| `BoundedLru.OrderedByAccess` | internal/cache/bounded_lru.go:38-95 | after any history of uses, lookups and deletions the cached keys are in order of their last access |
| `BoundedLru.ValueIsLatest` | internal/cache/bounded_lru.go:38-95 | a cached value is the one created when its key was last inserted, and has been cached ever since |
| `BoundedLru.EvictsLeastRecent` | internal/cache/bounded_lru.go:38-95 | a pair leaves only by deletion, or when a new key arrives at a full cache and every other pair was accessed later |
| `BoundedLru.KeepsMostRecent` | internal/cache/bounded_lru.go:38-66 | after any history of uses alone exactly the most recently used distinct keys are cached, in that order |
| `WebSearchCache.Cache.Store` | internal/cache/claude_web_search_result_cache.go:101-126 | replaces the key, purges before evicting, keeps index and list in agreement and the list within the limit |
| `WebSearchCache.Cache.Get` | internal/cache/claude_web_search_result_cache.go:166-190 | an unexpired entry is renewed in place and moved to the front; an expired one is removed and not returned |
| `WebSearchCache.Cache.PurgeExpired` | internal/cache/claude_web_search_result_cache.go:206-215 | exactly the expired entries go, the others keep their order |
| `WebSearchCache.Cache.Remove` | internal/cache/claude_web_search_result_cache.go:217-221 | the entry leaves index and list together |
| `WebSearchCache.Cache.Renew` | internal/cache/claude_web_search_result_cache.go:179-189 | the entry object is extended in place, moved to the front, and no other entry changes |
| `WebSearchCache.Cache.EvictTo` | internal/cache/claude_web_search_result_cache.go:118-124 | the most recent entries within the limit stay |
| `WebSearchCache.Cache.Clear` | internal/cache/claude_web_search_result_cache.go:193-198 | index and list are empty |
| `WebSearchCache.HitIsLeased` | internal/cache/claude_web_search_result_cache.go:101-190 | after any history a hit returns what the key was last given, and only within the lease its own stores and hits gave it |
| `WebSearchCache.StoreKeeps` | internal/cache/claude_web_search_result_cache.go:107-124 | a store never evicts its own key, and evicts an unexpired entry only if the unexpired ones alone fill the limit |
| `WebSearchCache.FoundUntilDeadline` | internal/cache/claude_web_search_result_cache.go:101-190 | a stored result is found, with its content, exactly until its deadline, which every hit moves on |

## Left out

- Per-item normalizers, JSON validity, cache key construction and the size limits of serialized values: items arrive normalized, an empty list stands for rejected items, and blank model or session names are the caller's.
- Stored Home values that this code did not write (legacy, foreign or oversized ones), except legacy flat Codex histories.
- The retry counters of the Claude and Kimi reserve loops in Home mode: each attempt is a step of its own.
- The in-process mode of the Codex cache: one mutex section around the same append, with the eviction of the other caches.
- Wrap-around of revision and epoch counters, which are 64-bit in the program.
- MuxListener.RunConserves: the listener is a state machine on values rather than a class, because its calls interleave inside their bodies; nil connections are not modelled.
- AliasExpand.LookupAgrees: key equality by node identity is not modelled, since expansion copies every node; tags are in short form.
- AliasExpand.ResolveMerges: a sequence nested directly in a merge sequence is read as contributing nothing; the YAML library rejects such documents before expansion.
- Comments, key order, anchors inside opaque plugin sections and the archiving of unknown sections.
- The construction of the path table by reflection: the table is a parameter with disjointness conditions.
- ConfigMeaning.NormalizePreservesMeaning: documents with an empty or null struct container in any of its spellings are outside the theorem, since flattening moves aliases before it clears containers and normalizing clears first; so is the deprecated private-IP flag. A shared struct that is not a mapping is rejected by flattening.
- ConfigLaws.FlattensIff: leaves out documents with blank containers, whose aliases and shared structs move before the containers are cleared.
- ConfigLaws.NormalizeLeavesOne: leaves out the same documents.
- ConfigLaws.FlattenResets: leaves out blank aliases, aliases whose target lies in a blank container, and blank shared structs, which flattening fills before it looks for blank containers.
- ConfigLayout.FlattenV8: does not model the deprecated private-IP flag, comments and key order.
- ConfigLayout.NormalizeConfigLayout: does not model the deprecated private-IP flag and the archiving of unknown sections.
- KeyGroups.GroupLegacyKeys: a legacy key value that is a filled mapping, whose keys and values the loop would take for entries, is grouped as an empty list, and the migration theorems exclude it; an entry that is itself a sequence lends its group no fields, where the loop would pair up its items, and cannot be expanded in either case.
- KeyGroups.GroupThenExpand: leaves out field names with dots, which the path operations would split.
- Resp.WriteBulkString: does not model write errors of the buffered writer, which belong to the network.
- Resp.WriteArray: does not model write errors of the buffered writer either.
- The command handling around the RESP reader.
- Compressor internals, encoder pooling, the Vary header, encoding negotiation and content sniffing: the encoder is a sink, the sniffed type a parameter; media types are compared in ASCII.
- The value creator and the eviction callback of the bounded LRU as code: the created value is a parameter, the scheduled pair a result.
- The Home mode of the web search cache, and the xAI, signature and session caches, which repeat weaker forms of the same patterns.
- HTTP routing, management, OAuth, discovery, TLS sniffing and usage statistics.
