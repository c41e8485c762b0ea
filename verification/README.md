# Replication core of the archive game engine, in Dafny

This project models the server side of archive's entity replication, with
proofs about it. The realm is the authoritative ECS world. Every
replicated entity in it holds a generational token from a token pool. For
each client the server keeps a `ServerSnapshot`: what that client was last
sent, plus the token map and the per-key accumulated priorities. A tick
diffs the snapshot against the realm. The diff is a batch of at most ten
entity actions (spawn, update, despawn), most urgent first. The actions
that do not fit are carried over as priorities. Applying the batch to the
snapshot gives the client's next snapshot.

The model covers these parts:

- **the token pool**: `alloc`, `free`, `range_for_key`;
- **the two ring buffers**: `CircularBuf` and the rolling-index `RollingBuf`;
- **the realm's replication bookkeeping**: spawn, despawn, token lookup,
  priorities;
- **snapshots**: `server_augment`, `clone_mut`;
- **the delta engine**: merge, patch, prioritise, diff, apply;
- **the native WebRTC session**: the state mapping and the close-once flag.

Modules and files:

| module | file | models |
|---|---|---|
| `Common` | common.dfy | `Option`/`Result`, the abort reasons (`Fault`), u32 wrapping and saturating arithmetic |
| `TokenPool` | token_pool.dfy | archive-engine/src/token_pool.rs |
| `Circular` | circular.dfy | archive-engine/src/containers/circular.rs |
| `Ecs` | components.dfy | the component set of an entity and a hecs-like world of entities |
| `Patches` | patches.dfy | component patches of archive-engine/src/ecs/delta.rs: making, applying, building spawns |
| `Realms` | realm.dfy | archive-engine/src/ecs/realm.rs |
| `Snapshots` | snapshot.dfy | archive-engine/src/ecs/snapshot.rs |
| `Delta` | delta.dfy | the diff and apply of archive-engine/src/ecs/delta.rs |
| `DeltaProofs` | delta_proofs.dfy | what a diff achieves: no abort, synced keys, deferred keys, priorities, convergence |
| `DeltaScenarios` | delta_scenarios.dfy | the two tests of delta.rs |
| `DeltaAsWritten` | delta_as_written.dfy | `patch_for_entity` as written, with the inputs on which it goes wrong |
| `Session` | session.dfy | archive-server/src/session/native_rtc.rs |

The source calls `unwrap`, `assert!` and `unreachable!` in several places.
When an input can reach one of them, the model returns `Err(f)`, where `f`
names the abort. Examples are a double free, an update for a missing
entity, and a spawn that carries a removal. When the data invariants rule
an abort out, the model states those invariants as predicates and proves
that the abort cannot happen:

- `TokenPool.Valid`
- `Circular.Valid` and `Circular.RValid`
- `Realms.RealmValid`
- `Snapshots.ServerValid`

Two behaviours of the code differ from what a reader would expect. The
model follows the code:

- **Peer `Disconnected`.** One would expect a peer connection that is
  `Disconnected` to report a `Disconnected` session. `get_state` reports it
  as `Connected` instead
  (archive-server/src/session/native_rtc.rs:41). The model reports
  `Connected`, as the code does (`Session.GetState`).
- **Stale rolling index.** One would expect every index older than the
  window to be reported `TooOld`. `calc_true_index` and `index`
  (archive-engine/src/containers/circular.rs:110-139) make the outcome
  depend on the rolling block:
  - an index behind `start` in the current rolling block, fewer than
    `VCAP - 2*CAP` behind, is `TooOld` (`Circular.StaleInBlockIsTooOld`);
  - an index from the previous rolling block, at most `VCAP - CAP` behind,
    resolves to a true index ahead of the window and is `OutOfBounds`
    (`Circular.StaleAcrossBlockIsOutOfBounds`).

## Model

| member | source | states |
|---|---|---|
| Common.WrappingIncrement | archive-engine/src/token_pool.rs:62-63 | the generation bump of `free`: one more, except that u32::MAX wraps to 0 |
| Common.SaturatingAdd | archive-engine/src/ecs/delta.rs:323 | the accumulated priority: the exact sum when it fits in a u32, otherwise u32::MAX; never less than either operand |
| TokenPool.RangeForKey | archive-engine/src/token_pool.rs:18-26 | the search range for a key holds exactly the tokens of that key, of every generation, for every key including u32::MAX (corrected bound) |
| TokenPool.RangeForKeyAsWritten | archive-engine/src/token_pool.rs:18-26 | the range with the `key + 1` upper bound as written; it agrees with the corrected range on every key below u32::MAX |
| TokenPool.RangeForKeyAsWrittenEmptyAtMax | archive-engine/src/token_pool.rs:18-26 | as written, the range for key u32::MAX wraps and holds no token, although token (u32::MAX, 0) belongs to that key |
| TokenPool.New | archive-engine/src/token_pool.rs:36-38 | a new pool is valid, with no key issued and none freed |
| TokenPool.Alloc | archive-engine/src/token_pool.rs:39-55 | fails exactly when 2^32 keys exist and none is freed. Otherwise it pops the smallest freed key at its current generation, or appends the next key at generation 0. The pool stays valid |
| TokenPool.Insert | archive-engine/src/token_pool.rs:65 | pushing onto the freed min-heap: the freed keys stay in pop order and gain exactly the pushed key |
| TokenPool.Free | archive-engine/src/token_pool.rs:57-68 | a key never issued aborts, and a generation other than the current one aborts as a double free (each an if-and-only-if). Otherwise only that key's generation advances, with wrap-around, and the key joins the freed keys |
| TokenPool.AllocIsSmallestUnused | archive-engine/src/token_pool.rs:39-55 | the key `alloc` hands out is unused, and no unused key is smaller |
| TokenPool.DoubleFreeAborts | archive-engine/src/token_pool.rs:57-60 | freeing a token a second time aborts with the double-free error |
| TokenPool.ReallocGivesFreshToken | archive-engine/src/token_pool.rs:39-68 | a freed key taken again comes back one generation later, as a token different from the freed one |
| TokenPool.AllocMakesLive | archive-engine/src/token_pool.rs:39-55 | `alloc` makes exactly the returned token live, and it was not live before; every other token's liveness is unchanged |
| TokenPool.FreeEndsLive | archive-engine/src/token_pool.rs:57-68 | freeing a live token succeeds and ends exactly that token's life |
| TokenPool.IndicesScenario | archive-engine/src/token_pool.rs:73-89 | `test_indices`: keys 0, 1, 2; after freeing 1 the next alloc reuses 1 and the one after takes 3 |
| TokenPool.AllocsLowestScenario | archive-engine/src/token_pool.rs:90-103 | `test_allocs_lowest`: with keys 2 and 0 freed, in that order, alloc takes 0 |
| TokenPool.DoubleFreeScenario | archive-engine/src/token_pool.rs:104-111 | `test_double_free`: alloc, free, free aborts as a double free |
| Circular.WrapIsMod | archive-engine/src/containers/circular.rs:76-87 | the position wrap used for the ring is the remainder modulo the capacity |
| Circular.WrapDistinct | archive-engine/src/containers/circular.rs:76-87 | two positions less than one capacity apart never share a physical slot |
| Circular.NewCircular | archive-engine/src/containers/circular.rs:31-37 | a new ring is valid, empty, with start 0 and the requested capacity |
| Circular.CalcIdx | archive-engine/src/containers/circular.rs:76-87 | no slot exactly when the index is at or past the length; otherwise the physical slot of that element, which is occupied (the `assert!` cannot fire) |
| Circular.Get | archive-engine/src/containers/circular.rs:66-70 | nothing exactly when out of range; otherwise the element at that position of the ring's contents |
| Circular.Set | archive-engine/src/containers/circular.rs:23-27 | writing through an index changes that element of the contents and nothing else |
| Circular.SetAt | archive-engine/src/containers/circular.rs:23-27 | read by true index, a write through a logical index changes the slot written and no other |
| Circular.PopFront | archive-engine/src/containers/circular.rs:54-65 | an empty ring gives nothing and is unchanged; otherwise the first element comes out, the rest keep their order and start advances by one |
| Circular.PushBack | archive-engine/src/containers/circular.rs:44-53 | the value joins the back; a full ring drops its oldest element and advances start |
| Circular.PushBackAt | archive-engine/src/containers/circular.rs:44-53 | after a push, every absolute position held reads the old element, except the new last position, which reads the pushed value |
| Circular.NewRolling | archive-engine/src/containers/circular.rs:104-108 | a rolling buffer exists exactly when `CAP * 8 <= VCAP` (the `bad_cap` panic otherwise); it starts empty at 0 |
| Circular.CheckCaps | archive-engine/src/containers/circular.rs:104-109 | the construction-time condition: rollovers are detectable only when CAP * 8 <= VCAP |
| Circular.CalcTrueIndex | archive-engine/src/containers/circular.rs:110-128 | OutOfBounds exactly when the rolling index is at or past VCAP. TooOld exactly when it is below `start mod VCAP` and is not a small index past a wraparound. Otherwise it gives a true index in `[start, start + VCAP)` whose remainder is the rolling index |
| Circular.CalcTrueIndexCases | archive-engine/src/containers/circular.rs:114-127 | an index at or above `start mod VCAP` resolves inside the block of `start`. A smaller one seen near the top of the block, at most CAP, resolves inside the next block |
| Circular.CalcTrueIndexRecovers | archive-engine/src/containers/circular.rs:110-128 | every true index from start to start + CAP is recovered from its rolling index |
| Circular.Index | archive-engine/src/containers/circular.rs:130-139 | resolution errors pass through; a resolved index inside the stored window reads its slot, one outside it is OutOfBounds |
| Circular.IndexOfWindow | archive-engine/src/containers/circular.rs:130-139 | every true index in the stored window is read back through its rolling index |
| Circular.PadTo | archive-engine/src/containers/circular.rs:153-156 | padding with empty slots up to a target covers the target, keeps every slot still held and evicts only from the front |
| Circular.Add | archive-engine/src/containers/circular.rs:147-160 | resolution errors pass through, and an index more than 2*CAP past start is OutOfBounds (if and only if). A resolved index at most 2*CAP past start always succeeds and returns that index (if and only if). Then the buffer stays valid and its window covers the index. The index holds the value, and every other slot keeps its value or is new and empty |
| Circular.AddStores | archive-engine/src/containers/circular.rs:153-158 | padding up to the true index and writing there keeps the buffer valid with the same capacities. The window ends just past the larger of the old end and the index, and only a full buffer moves `start`. The index holds the value; every other slot keeps its value or is new and empty |
| Circular.AddThenIndex | archive-engine/src/containers/circular.rs:147-160 | what `add` stored is what `index` reads back at the same rolling index |
| Circular.StaleInBlockIsTooOld | archive-engine/src/containers/circular.rs:110-128 | an index behind start but within the current rolling block, and within VCAP - 2*CAP of start, is TooOld |
| Circular.StaleAcrossBlockIsOutOfBounds | archive-engine/src/containers/circular.rs:110-139 | an index from the previous rolling block, at most VCAP - CAP behind start, resolves ahead of the window and is OutOfBounds |
| Circular.Fill | archive-engine/src/containers/circular.rs:211-216 | adding 0, 1, …, n-1 in turn, each at its own rolling index, never fails. It leaves the last CAP indices in the window, each holding itself |
| Circular.AddNext | archive-engine/src/containers/circular.rs:211-216 | one round of the tests' loop on a window holding each index at itself is `add` of the next index under its rolling index, and it succeeds with that index. It extends the window by that index and keeps each index holding itself |
| Circular.CircularBasicScenario | archive-engine/src/containers/circular.rs:169-189 | `test_circular_basic`: pushes 0, 1, 2 into a ring of two give [1, 2]; pops give 1, 2, then nothing |
| Circular.RolloverAccessScenario | archive-engine/src/containers/circular.rs:190-210 | `test_rollover_circular_access`: the reads from the buffers `Fill` leaves after one, two and three adds, with 0 TooOld and 3 OutOfBounds at the end |
| Circular.RolloverWraparoundScenario | archive-engine/src/containers/circular.rs:211-223 | `test_rollover_wraparound`: after adding 0..=20 modulo 16, 18 is TooOld, 19 and 20 read back and 21 is OutOfBounds |
| Circular.EvictedAcrossBlockScenario | archive-engine/src/containers/circular.rs:110-139 | after adding 0..=18 modulo 16, rolling index 15 (true index 15, evicted) reports OutOfBounds, not TooOld |
| Circular.BadCapScenario | archive-engine/src/containers/circular.rs:246-250 | `bad_cap`: CAP 2 with VCAP 4 is refused; CAP 256 with VCAP 4096 is accepted |
| Ecs.SetDiff | archive-engine/src/ecs/delta.rs:442-450 | setting one diff component changes that component only |
| Ecs.SetReplace | archive-engine/src/ecs/delta.rs:451-459 | setting one replace component changes that component only |
| Ecs.WorldSpawn | archive-engine/src/ecs/realm.rs:64 | a spawned entity gets a handle not in use before, and the world gains exactly that entity |
| Ecs.WorldDespawn | archive-engine/src/ecs/realm.rs:76 | despawning fails exactly for a handle not in the world; otherwise exactly that entity is removed |
| Patches.DiffPatch | archive-engine/src/ecs/delta.rs:223-241 | one diff component yields no patch exactly when old and new are equal; a patch against a missing old value never removes |
| Patches.ReplacePatch | archive-engine/src/ecs/delta.rs:243-259 | one replace component yields no patch exactly when old and new are equal; a patch against a missing old value never removes |
| Patches.PatchesForComponents | archive-engine/src/ecs/delta.rs:200-263 | no patches exactly when the client's components (none counting as empty) equal the realm's; patches against nothing never remove |
| Patches.ApplyPatch | archive-engine/src/ecs/delta.rs:433-466 | only removing an absent component aborts. A diff adds to the component or inserts it, a replace overwrites or inserts, and a remove drops the component |
| Patches.ApplyComponentPatches | archive-engine/src/ecs/delta.rs:433-466 | a patch list without removals always applies |
| Patches.BuildPatch | archive-engine/src/ecs/delta.rs:419-431 | building from one patch aborts exactly on a removal (`unreachable!`); diff and replace set the component |
| Patches.BuildSpawn | archive-engine/src/ecs/delta.rs:419-431 | a spawn builds exactly when its patches contain no removal |
| Patches.ApplyConcat | archive-engine/src/ecs/delta.rs:438-464 | applying a concatenation of patch lists is applying the first and then the second |
| Patches.UpdateRoundTrip | archive-engine/src/ecs/delta.rs:200-263 | applying the update patches made from `before` and `after` to `before` gives exactly `after` |
| Patches.SpawnRoundTrip | archive-engine/src/ecs/delta.rs:200-263 | building a spawn from the patches made against nothing gives exactly the realm's components |
| Realms.BiInsert | archive-engine/src/ecs/realm.rs:67 | the bidirectional token/entity map after an insert stays a bijection, maps the token to the entity and drops any pair it displaced |
| Realms.NewRealm | archive-engine/src/ecs/realm.rs:30-32 | a new realm is valid and empty |
| Realms.Spawn | archive-engine/src/ecs/realm.rs:63-70 | the bundle is added under a fresh handle. A replicated bundle also takes the pool's next token, and fails only when the pool is exhausted. A non-replicated bundle leaves the tokens alone. Validity is kept |
| Realms.Despawn | archive-engine/src/ecs/realm.rs:71-77 | fails exactly for an entity not in the world. Otherwise the entity is removed, and a replicated one frees its token and loses its map entries. Validity is kept |
| Realms.EntityForToken | archive-engine/src/ecs/realm.rs:59-62 | resolves exactly the live tokens, to the entity the bidirectional map holds for them |
| Realms.CalcPriorityInc | archive-engine/src/ecs/realm.rs:41-54 | the priority increment by blueprint: 1000 for a player, 100 for a bullet, 10 for a static entity and 1 for none. It succeeds exactly for an entity with a `Replicated` component, and aborts for a missing entity or one without it (each an if-and-only-if) |
| Realms.DeletedPriorityAccum | archive-engine/src/ecs/realm.rs:55-57 | a key whose entity left the realm gains the constant 10 per diff |
| Realms.ReplicatedHasPriority | archive-engine/src/ecs/realm.rs:41-62 | in a valid realm every mapped token resolves to an entity with a defined priority, so the `unwrap`s cannot fire |
| Realms.TokenMap | archive-engine/src/ecs/realm.rs:25-26 | the realm's live tokens filed by key: every entry is a mapped token under its own key, and every mapped token is there |
| Realms.Step | archive-engine/src/ecs/realm.rs:63-77 | a successful spawn or despawn keeps the realm valid |
| Realms.RunKeepsValid | archive-engine/src/ecs/realm.rs:63-77 | any sequence of spawns and despawns that succeeds keeps the realm valid |
| Realms.SpawnThenDespawn | archive-engine/src/ecs/realm.rs:63-77 | despawning the entity just spawned succeeds and restores the world and the token map |
| Snapshots.NewSnapshot | archive-engine/src/ecs/snapshot.rs:15-20 | a new snapshot is valid and empty |
| Snapshots.NewMeta | archive-engine/src/ecs/snapshot.rs:102-107 | new metadata has no tokens and no priorities |
| Snapshots.NewServerSnapshot | archive-engine/src/ecs/snapshot.rs:115-120 | a new server snapshot is valid and empty |
| Snapshots.EntityForToken | archive-engine/src/ecs/snapshot.rs:22-24 | an entity exactly when the token's key is mapped, and then the entity filed under that key |
| Snapshots.PriorityAccumForToken | archive-engine/src/ecs/snapshot.rs:125-127 | a priority exactly when the token's key has one, and then that priority |
| Snapshots.EntityForTokenIgnoresGeneration | archive-engine/src/ecs/snapshot.rs:22-24 | two tokens with the same key and any generations find the same entity |
| Snapshots.PriorityAccumIgnoresGeneration | archive-engine/src/ecs/snapshot.rs:125-127 | two tokens with the same key and any generations find the same accumulated priority |
| Snapshots.Slot | archive-engine/src/ecs/snapshot.rs:11 | in a valid snapshot a key has components exactly when the entity map files it |
| Snapshots.ServerAugment | archive-engine/src/ecs/snapshot.rs:26-54 | keeps the snapshot and the priorities. It keeps exactly the tokens whose key has an entity or a priority, each with its value unchanged |
| Snapshots.AugmentIsValid | archive-engine/src/ecs/snapshot.rs:26-54 | augmenting a valid snapshot with tokens that cover its entities and priorities gives a valid server snapshot |
| Snapshots.CloneBuilder | archive-engine/src/ecs/snapshot.rs:56-65 | the builder copies every component of the entity |
| Snapshots.CloneMut | archive-engine/src/ecs/snapshot.rs:66-86 | the clone equals the original: same entities with the same components, same key map |
| Snapshots.CloneMutScenario | archive-engine/src/ecs/snapshot.rs:133-148 | the `clone_mut` test: a snapshot with one health-27 entity clones to one whose only health is 27 |
| Delta.NewestToken | archive-engine/src/ecs/delta.rs:147-150 | the realm's token when there is one, else the client's; it aborts exactly when both are missing |
| Delta.SortedKeys | archive-engine/src/ecs/delta.rs:308 | the key order of a BTreeMap walk: strictly ascending, every key once |
| Delta.MergeDiffMap | archive-engine/src/ecs/delta.rs:164-197 | the keys are exactly those in the client's token map or the realm's, each paired with its client token and realm token, either possibly absent |
| Delta.OldComponents | archive-engine/src/ecs/delta.rs:209-216 | the client's components of the old entity; it aborts exactly when a named entity is not in the client's world |
| Delta.PatchForEntity | archive-engine/src/ecs/delta.rs:265-296 | (corrected) aborts on two absent tokens or a dead realm token. Updates only an entity the client holds under the same token. Despawns only an entity the client holds. Spawns never carry removals |
| Delta.PriorityInc | archive-engine/src/ecs/delta.rs:318-321 | the deleted-entity increment when the realm has no token; otherwise defined exactly for a live token, between 1 and 1000 |
| Delta.PriorityFor | archive-engine/src/ecs/delta.rs:314-323 | the accumulated priority is the key's carried-over priority plus this diff's increment, saturating at u32::MAX. The carried-over priority is 0 when there is no old token or the base holds none for its key. It fails exactly when the increment does, and it is never below the increment or the carried-over priority |
| Delta.Candidate | archive-engine/src/ecs/delta.rs:308-335 | (over the corrected patch) one key's entry: it fails exactly when priority or patch does. There is an action exactly when there is a patch, and it carries the key, that patch and the accumulated priority |
| Delta.CandidateResults | archive-engine/src/ecs/delta.rs:308-335 | (over the corrected patch) the key's entry for every merged key, in the walk's order |
| Delta.Collect | archive-engine/src/ecs/delta.rs:302-335 | fails exactly when some key's entry fails. Otherwise it keeps exactly the entries that hold an action, in ascending key order |
| Delta.NewestTokens | archive-engine/src/ecs/delta.rs:337-340 | the newest token of every merged key, defined exactly when every key has one |
| Delta.PrioritizedTotalDiff | archive-engine/src/ecs/delta.rs:298-342 | (over the corrected patch) the token map returned is the newest token of every merged key |
| Delta.InsertByPriority | archive-engine/src/ecs/delta.rs:346-358 | inserting into the pop order keeps it non-increasing in priority and adds exactly the element |
| Delta.SortByPriority | archive-engine/src/ecs/delta.rs:346-358 | the heap's pop order: a permutation of the candidates, non-increasing in priority |
| Delta.ActionsOf | archive-engine/src/ecs/delta.rs:351-352 | the actions of the popped entries, in pop order |
| Delta.DeferredInto | archive-engine/src/ecs/delta.rs:360-366 | the carried-over priorities: exactly the keys of the entries left in the heap, each with its accumulated priority |
| Delta.Diff | archive-engine/src/ecs/delta.rs:344-379 | (over the corrected patch) at most ten actions, and the new token map is the newest token of every merged key |
| Delta.ApplyAction | archive-engine/src/ecs/delta.rs:397-413 | a despawn drops the key and any other action files it. Every other key keeps its entity, and, in a valid world, every entity except the one the key filed keeps its components. A spawn files a new entity built from its patches and removes the old one; an update patches the filed entity in place; a despawn removes it. An update or despawn of an unfiled key aborts. The slot-level statement is `DeltaProofs.ApplyActionSlot` |
| Delta.ApplyActions | archive-engine/src/ecs/delta.rs:392-415 | an empty batch changes nothing. A key no action names keeps its entity, and the last action decides whether its key stays filed. The batch fails if its first action does. The per-key result of a batch on distinct keys is `DeltaProofs.ApplyActionsSlots` |
| Delta.Apply | archive-engine/src/ecs/delta.rs:390-417 | applying the actions to the `clone_mut` copy gives the same result as applying them to the snapshot itself |
| Delta.ApplyServer | archive-engine/src/ecs/delta.rs:381-385 | it fails exactly when `apply` does; otherwise the result is the applied snapshot augmented with the delta's metadata |
| DeltaProofs.SlotEffect | archive-engine/src/ecs/delta.rs:397-414 | one action's effect on its key: a despawn needs an entity and removes it; an update needs an entity; a spawn or update leaves one |
| DeltaProofs.ApplyActionSlot | archive-engine/src/ecs/delta.rs:390-417 | applying one action succeeds exactly when its effect on its key does. It then changes that key's components as the effect says and leaves every other key alone |
| DeltaProofs.PatchFor | archive-engine/src/ecs/delta.rs:390-417 | the patch a batch holds for a key: none exactly when no action names the key |
| DeltaProofs.ApplyActionsSlots | archive-engine/src/ecs/delta.rs:390-417 | a batch whose actions name distinct keys, each applicable alone, applies as a whole, and every key ends as its own action alone leaves it |
| DeltaProofs.Target | archive-engine/src/ecs/realm.rs:25-26 | what the client should hold under a key: the realm's components when the realm uses the key, else nothing |
| DeltaProofs.KeyOutcome | archive-engine/src/ecs/delta.rs:298-342 | for a valid pair, every merged key's entry is defined. Its action, if any, names the key and takes the client's entry to the target, and no action means the client already agrees |
| DeltaProofs.KeyPatch | archive-engine/src/ecs/delta.rs:265-296 | for each merged key, the patch is defined and takes the client's entry to the target, or there is none and the entry already agrees |
| DeltaProofs.PatchWhenLive | archive-engine/src/ecs/delta.rs:280-295 | for a key the realm uses: nothing when the components agree. Otherwise an update when the client holds the same token, and otherwise a full spawn |
| DeltaProofs.PatchWhenGone | archive-engine/src/ecs/delta.rs:276-278 | for a key the realm dropped: a despawn exactly when the client holds an entity under it, otherwise nothing |
| DeltaProofs.ChoiceOutcome | archive-engine/src/ecs/delta.rs:289-295 | no patch means the copies agree; the update and the full spawn each land on the realm's components |
| DeltaProofs.IncreasingIsDistinct | archive-engine/src/ecs/delta.rs:308 | entries in ascending key order name each key once |
| DeltaProofs.SortKeepsDistinct | archive-engine/src/ecs/delta.rs:346-358 | the heap's pop order still names each key once |
| DeltaProofs.CandidatesOk | archive-engine/src/ecs/delta.rs:308-335 | for a valid snapshot and realm, no key's entry aborts |
| DeltaProofs.TotalDiffStructure | archive-engine/src/ecs/delta.rs:298-342 | the collected entries are exactly the keys' actions, each key once, ascending |
| DeltaProofs.MergedTokensOk | archive-engine/src/ecs/delta.rs:337-340 | on a valid snapshot every merged key has a newest token, so the token lookup never aborts |
| DeltaProofs.TotalDiffOfParts | archive-engine/src/ecs/delta.rs:298-342 | when collecting the candidates and looking up the tokens both succeed, the total diff is exactly their pair |
| DeltaProofs.DiffParts | archive-engine/src/ecs/delta.rs:344-379 | the diff sends the first `min(n, 10)` entries of a priority-ordered permutation of the candidates, each key at most once, and defers the rest |
| DeltaProofs.SyncedView | archive-engine/src/ecs/delta.rs:298-342 | on a synced key the client sees exactly what the realm holds |
| DeltaProofs.SplitKeys | archive-engine/src/ecs/delta.rs:351-366 | every key is sent, deferred or without a candidate, and never both sent and deferred |
| DeltaProofs.KeySent | archive-engine/src/ecs/delta.rs:390-417 | a sent entry takes the client's entry for its key to the target |
| DeltaProofs.KeyUnsent | archive-engine/src/ecs/delta.rs:298-342 | a key without an action already agrees with the realm |
| DeltaProofs.KeyAgrees | archive-engine/src/ecs/delta.rs:344-417 | after the batch, every key that was not deferred agrees with the realm |
| DeltaProofs.NewestTokensKeyed | archive-engine/src/ecs/delta.rs:337-340 | the new token map is defined, filed by key, and holds the realm's token on every key the realm uses |
| DeltaProofs.AgreesIsSynced | archive-engine/src/ecs/snapshot.rs:26-54 | an agreeing key that is not deferred and carries the realm's token is synced after augmenting |
| DeltaProofs.FinalKeysKnown | archive-engine/src/ecs/delta.rs:344-417 | every key the applied snapshot files, and every deferred key, was known to the client or the realm |
| DeltaProofs.DiffApplySyncs | archive-engine/src/ecs/delta.rs:344-417 | (over the corrected patch) for a valid snapshot and realm, the diff and its application never abort, and the diff has at most ten actions. The next snapshot is valid. Every key not deferred is synced with the realm (its components and token), and every deferred key is left as it was |
| DeltaProofs.DeferredEntry | archive-engine/src/ecs/delta.rs:360-366 | a deferred key carries the priority of the unsent entry that names it |
| DeltaProofs.DeferredUrgency | archive-engine/src/ecs/delta.rs:314-323 | an entry's priority is its key's urgency and is at least the key's carried-over priority |
| DeltaProofs.DiffUrgencies | archive-engine/src/ecs/delta.rs:298-379 | the split of `DiffParts`, with each entry's priority equal to its key's urgency |
| DeltaProofs.BudgetSplit | archive-engine/src/ecs/delta.rs:351-358 | a deferral happens only once ten actions are sent, and the deferred entry ranks below every sent one |
| DeltaProofs.DiffPriorities | archive-engine/src/ecs/delta.rs:298-379 | a key is deferred only when all ten slots are taken, and it carries its accumulated priority. That priority never drops below what it carried before and never exceeds any sent action's |
| DeltaProofs.DeferredKeepUrgency | archive-engine/src/ecs/delta.rs:351-366 | in a priority-ordered split, a key is deferred only once ten actions are taken, at its urgency, never below the priority the base stored for it |
| DeltaProofs.SentOutrankDeferred | archive-engine/src/ecs/delta.rs:346-358 | in a priority-ordered split, every sent action is at least as urgent as any deferred key |
| DeltaProofs.SyncedNeedsNothing | archive-engine/src/ecs/delta.rs:289-290 | a synced key produces no action |
| DeltaProofs.SyncedDiffIsEmpty | archive-engine/src/ecs/delta.rs:298-379 | (over the corrected patch) when every key is synced, the diff has no actions and defers nothing |
| DeltaProofs.DiffConverges | archive-engine/src/ecs/delta.rs:344-417 | (over the corrected patch) when a diff defers nothing, a second diff from the snapshot it produced has no actions and defers nothing |
| DeltaScenarios.OnlyCandidate | archive-engine/src/ecs/delta.rs:351-366 | with one candidate, the diff sends exactly it and defers nothing |
| DeltaScenarios.OneCandidateDiff | archive-engine/src/ecs/delta.rs:344-379 | a pair with a single key whose entry is an action diffs to exactly that action, with nothing deferred |
| DeltaScenarios.EmptyDiffScenario | archive-engine/src/ecs/delta.rs:479-485 | `test_empty_diff`: a new snapshot against a new realm has no actions |
| DeltaScenarios.PlayerRealm | archive-engine/src/ecs/delta.rs:497 | the player spawned into a new realm takes token (0, 0) and shows its position under key 0; despawning it leaves no key in use |
| DeltaScenarios.FirstSpawn | archive-engine/src/ecs/delta.rs:497 | the first replicated entity spawned into a new realm takes token (0, 0) and shows its components under key 0; despawning it leaves no key in use |
| DeltaScenarios.PlayerGone | archive-engine/src/ecs/delta.rs:521 | the realm after the despawn is valid and uses no key |
| DeltaScenarios.FreshCandidate | archive-engine/src/ecs/delta.rs:298-342 | against a new snapshot, a realm using only key 0 has one candidate, a full spawn of its components |
| DeltaScenarios.SpawnScenario | archive-engine/src/ecs/delta.rs:499-511 | the first diff is one spawn of key 0 carrying the player's position, with nothing deferred |
| DeltaScenarios.Midpoint | archive-engine/src/ecs/delta.rs:499-514 | the snapshot the first diff produces is valid, defers nothing and is synced on every key |
| DeltaScenarios.MidpointScenario | archive-engine/src/ecs/delta.rs:516-519 | diffing the midpoint against the unchanged realm sends nothing |
| DeltaScenarios.DespawnFromBaseScenario | archive-engine/src/ecs/delta.rs:523-530 | after the despawn, the empty base diffs to nothing |
| DeltaScenarios.DespawnFromMidpointScenario | archive-engine/src/ecs/delta.rs:532-540 | after the despawn, the midpoint diffs to exactly one despawn of key 0 |
| DeltaScenarios.DespawnFromSynced | archive-engine/src/ecs/delta.rs:532-540 | a snapshot synced with the one-player realm, diffed against a realm with no key in use, sends exactly one despawn of key 0 |
| DeltaScenarios.GoneCandidate | archive-engine/src/ecs/delta.rs:276-278 | against a snapshot holding only key k, a realm using no key has one candidate: a despawn of k |
| DeltaScenarios.MidHoldsPlayer | archive-engine/src/ecs/delta.rs:499-514 | a snapshot synced with the player's realm files exactly key 0, with an entity |
| DeltaAsWritten.PatchForEntityAsWritten | archive-engine/src/ecs/delta.rs:265-296 | as written: two absent tokens abort, a dropped key is always despawned, and an update needs equal tokens |
| DeltaAsWritten.AsWrittenAgreesOnSteadyKeys | archive-engine/src/ecs/delta.rs:265-296 | on a valid snapshot, the source's classification and the corrected one agree on every key that has an entity whenever it has a token, and whose token the realm did not replace. So the two differ only on a respawned key or a key whose spawn was deferred |
| DeltaAsWritten.SpawnAt | archive-engine/src/ecs/delta.rs:419-431 | a spawn built from one position patch is an entity with that position |
| DeltaAsWritten.RespawnAsWrittenMisplaces | archive-engine/src/ecs/delta.rs:280-295 | as written, a player respawned under a reused key is sent as a spawn carrying `b - a`, which the client builds at `b - a` instead of `b` |
| DeltaAsWritten.RespawnCorrectedLands | archive-engine/src/ecs/delta.rs:280-295 | corrected, the respawn carries the whole player and lands at `b` |
| DeltaAsWritten.DeferredSpawnAsWrittenUpdates | archive-engine/src/ecs/delta.rs:289-292 | as written, a deferred spawn is later sent as an update, which the client cannot apply (missing entity) |
| DeltaAsWritten.DeferredSpawnCorrectedSpawns | archive-engine/src/ecs/delta.rs:289-292 | corrected, the deferred spawn is sent as a spawn and lands on the realm's components |
| DeltaAsWritten.DeferredSpawnAsWrittenDespawns | archive-engine/src/ecs/delta.rs:276-278 | as written, a deferred spawn whose entity is gone is sent as a despawn, which the client cannot apply |
| DeltaAsWritten.DeferredSpawnCorrectedSkips | archive-engine/src/ecs/delta.rs:276-278 | corrected, nothing is sent for an entity the client never had |
| Session.GetState | archive-server/src/session/native_rtc.rs:35-45 | new or connecting peers are Connecting; connected and disconnected peers are Connected; unspecified and failed peers are Disconnected; closed peers are Closed (each an if-and-only-if) |
| Session.GetStateOnto | archive-server/src/session/native_rtc.rs:35-45 | every session state is reported for some peer state |
| Session.Close | archive-server/src/session/native_rtc.rs:47-61 | the flag is set afterwards, and a close is issued exactly when it was not set before |
| Session.CloseIdempotent | archive-server/src/session/native_rtc.rs:47-61 | a second `close` changes nothing and issues nothing |
| Session.CloseTimes | archive-server/src/session/native_rtc.rs:47-61 | any number of `close` calls issue at most one close: exactly one if there was a call and the flag was clear |

## Left out

- Delta.PatchForEntity: the diff (`Delta.Candidate`, `Delta.Diff`) and every `DeltaProofs` theorem use the corrected classification. The source's own classification is `DeltaAsWritten.PatchForEntityAsWritten`, and `DeltaAsWritten.AsWrittenAgreesOnSteadyKeys` bounds where the two differ: only a respawned key or a key whose spawn was deferred (the three inputs under "## Findings").
- **Integer widths.** `usize` and `u32` keys, lengths and ring positions are
  unbounded `nat`. The source's overflow at `usize::MAX` is not modelled.
  u32 generations and priorities are modelled, with their wrapping and
  saturating arithmetic.
- **Component values.** They are modelled as integers. The source has
  fixed-point `V2` positions with a `zed` level, and velocities, rotations
  and health, with `+` and `-` per type. The model keeps `Default` as 0
  and the diff `new - old` applied with `+=`. Floating point and
  fixed-point rounding are not modelled.
- **hecs worlds.** An entity's components are one record with an optional
  field per kind (`Ecs.Components`). Handles come from a counter, fresh on
  every spawn, instead of hecs' generational ids.
- **Snapshots.CloneMut.** It keeps every entity's handle. The source
  re-spawns the entities into a new world and keeps the key map. It so
  relies on hecs handing out the same ids in the same order, which is not
  part of this model.
- **Delta.SortByPriority.** The heap's order among equal priorities is
  unspecified in the source. The model uses a stable sort over ascending
  keys. The proved properties hold for any order that is non-increasing
  in priority.
- **Realm iteration.** The realm's token map is walked in key order, as
  its BTreeMap does.
- **CircularBuf with CAP = 0.** It is excluded (`requires cap > 0`); the
  source would divide by zero.
- **Realm systems.** `run_systems`, `tick`, the player map, the input,
  movement and health systems, and `get_mut`/`query_mut` are not part of
  this model. They change components, and the model takes any valid realm
  as input.
- **Theorem preconditions.** The delta theorems assume `ServerValid` and
  `RealmValid`. `DeltaProofs.DiffApplySyncs` proves that a diff keeps
  `ServerValid`, and `Realms.RunKeepsValid` proves that spawns and
  despawns keep `RealmValid`.
- **Sessions.**
  - The asynchronous peer close and its panic on failure are not modelled,
    so `Session.Close` leaves the peer state as it is.
  - `send` and `try_recv` are `todo!()` in the source.
  - The WebRTC library and `rtc::SessionState` are not part of this model.
    The session states are the four the mapping uses.
- **Serialization.** The serde encodings of deltas and tokens, the network
  and the wire format are not part of this model.
- **Fault messages.** The source's panic texts are represented only by
  the abort reason.

## Findings

| source | as written | input that shows it | evidently intended | confidence | as-written member | corrected member |
|---|---|---|---|---|---|---|
| archive-engine/src/ecs/delta.rs:280-295 | when a key's token changed (entity respawned under a reused key), the spawn's patches are computed against the client's old entity, so they carry the difference `new - old` (or a removal) | the client holds key 0's first generation at position `a ≠ 0`; the realm freed and re-took key 0 and holds a player at `b ≠ a` | a spawn carries the whole entity, computed against nothing | not executed | DeltaAsWritten.RespawnAsWrittenMisplaces | DeltaAsWritten.RespawnCorrectedLands |
| archive-engine/src/ecs/delta.rs:289-292 | a key whose spawn was deferred has the same token in the snapshot's token map, so it is later sent as an update; applying it `unwrap`s a missing entity (delta.rs:407-408) | a snapshot with token (0, 0) for key 0 and priority `p` but no entity; the realm holds token (0, 0) as a player at `b ≠ 0` | an update only for an entity the client holds; otherwise a spawn | not executed | DeltaAsWritten.DeferredSpawnAsWrittenUpdates | DeltaAsWritten.DeferredSpawnCorrectedSpawns |
| archive-engine/src/ecs/delta.rs:276-278 | a key the realm dropped is always despawned, even when the client never received it (its spawn was deferred); applying it `unwrap`s a missing entity (delta.rs:410-412) | the same deferred snapshot against a new realm | despawn only an entity the client holds; otherwise nothing | not executed | DeltaAsWritten.DeferredSpawnAsWrittenDespawns | DeltaAsWritten.DeferredSpawnCorrectedSkips |
| archive-engine/src/token_pool.rs:18-26 | the upper bound `key + 1` overflows for key u32::MAX (a panic in debug builds, an empty range when it wraps) | `range_for_key(u32::MAX)` | the range of all tokens of key u32::MAX | not executed | TokenPool.RangeForKeyAsWrittenEmptyAtMax | TokenPool.RangeForKey |
