/** What a delta achieves: after `ApplyServer(Diff(base, realm), base)`
    every key that was not deferred shows the client exactly what the realm
    holds, and a second diff against the result has nothing left to send
    but the deferred keys. */
module DeltaProofs {
  import opened Common
  import opened TokenPool
  import opened Ecs
  import opened Patches
  import opened Realms
  import opened Snapshots
  import opened Delta

  // ---------------------------------------------------------------------
  // One action, seen from the key it names
  // ---------------------------------------------------------------------

  /** What an entity action does to the components under its key. */
  function SlotEffect(slot: Option<Components>, p: EntityPatch): (r: Result<Option<Components>, Fault>)
    ensures p.DespawnEntity? ==> (r.Ok? <==> slot.Some?) && (r.Ok? ==> r.value.None?)
    ensures p.UpdateEntity? && slot.None? ==> r == Err(MissingEntity)
    ensures r.Ok? && !p.DespawnEntity? ==> r.value.Some?
  {
    match p
    case SpawnEntity(ps) =>
      var c :- BuildSpawn(ps);
      Ok(Some(c))
    case UpdateEntity(ps) =>
      if slot.None? then Err(MissingEntity)
      else if ps == [] then Ok(slot)
      else
        var c :- ApplyComponentPatches(slot.value, ps);
        Ok(Some(c))
    case DespawnEntity =>
      if slot.None? then Err(MissingEntity) else Ok(None)
  }

  /** On a valid snapshot an action succeeds exactly when its effect on
      its own key does, changes that key's slot by that effect, and leaves
      every other key's slot alone. */
  lemma ApplyActionSlot(s: Snapshot, a: DeltaAction)
    requires SnapshotValid(s)
    ensures ApplyAction(s, a).Ok? <==> SlotEffect(Slot(s, a.replKey), a.entPatch).Ok?
    ensures ApplyAction(s, a).Ok? ==>
      var s' := ApplyAction(s, a).value;
      && SnapshotValid(s')
      && Slot(s', a.replKey) == SlotEffect(Slot(s, a.replKey), a.entPatch).value
      && forall j :: j != a.replKey ==> Slot(s', j) == Slot(s, j)
  {
    var k := a.replKey;
    match a.entPatch
    case SpawnEntity(ps) =>
      var w := if k in s.entMap then s.world.(ents := s.world.ents - {s.entMap[k]}) else s.world;
      assert WorldValid(w);
      assert forall j :: j in s.entMap && j != k ==> s.entMap[j] in w.ents;
      if BuildSpawn(ps).Ok? {
        var c := BuildSpawn(ps).value;
        var s' := ApplyAction(s, a).value;
        assert s' == Snapshot(World(w.ents[w.next := c], w.next + 1), s.entMap[k := w.next]);
        assert forall j :: j in s.entMap ==> s.entMap[j] < w.next;
      }
    case UpdateEntity(ps) =>
    case DespawnEntity =>
  }

  // ---------------------------------------------------------------------
  // A sequence of actions on distinct keys
  // ---------------------------------------------------------------------

  predicate DistinctActionKeys(acts: seq<DeltaAction>) {
    forall i, j :: 0 <= i < |acts| && 0 <= j < |acts| && acts[i].replKey == acts[j].replKey ==> i == j
  }

  /** The patch the first action naming `k` carries, if any does. */
  function PatchFor(acts: seq<DeltaAction>, k: PoolKey): (r: Option<EntityPatch>)
    ensures r.None? <==> forall i :: 0 <= i < |acts| ==> acts[i].replKey != k
    ensures r.Some? ==> exists i :: 0 <= i < |acts| && acts[i].replKey == k && acts[i].entPatch == r.value
    decreases |acts|
  {
    if acts == [] then None
    else if acts[0].replKey == k then Some(acts[0].entPatch)
    else
      var r := PatchFor(acts[1..], k);
      assert forall i :: 1 <= i < |acts| ==> acts[i] == acts[1..][i - 1];
      r
  }

  /** The slot after an effect, or the slot unchanged if the effect aborts. */
  function SlotAfter(slot: Option<Components>, p: EntityPatch): Option<Components> {
    var e := SlotEffect(slot, p);
    if e.Ok? then e.value else slot
  }

  /** A key's slot after the action naming it, if there is one. */
  function Settled(slot: Option<Components>, p: Option<EntityPatch>): Option<Components> {
    if p.None? then slot else SlotAfter(slot, p.value)
  }

  /** Where no two actions name the same key and each action's own effect
      succeeds, the whole sequence succeeds and each key ends up with the
      effect of the action naming it, or unchanged. */
  lemma {:induction false} ApplyActionsSlots(s: Snapshot, acts: seq<DeltaAction>)
    requires SnapshotValid(s)
    requires DistinctActionKeys(acts)
    requires forall i :: 0 <= i < |acts| ==> SlotEffect(Slot(s, acts[i].replKey), acts[i].entPatch).Ok?
    ensures ApplyActions(s, acts).Ok?
    ensures SnapshotValid(ApplyActions(s, acts).value)
    ensures forall j :: Slot(ApplyActions(s, acts).value, j) == Settled(Slot(s, j), PatchFor(acts, j))
    decreases |acts|
  {
    if acts != [] {
      var a := acts[0];
      var rest := acts[1..];
      ApplyActionSlot(s, a);
      var s1 := ApplyAction(s, a).value;
      assert forall i :: 0 <= i < |rest| ==> rest[i] == acts[i + 1];
      assert forall i :: 0 <= i < |rest| ==> rest[i].replKey != a.replKey;
      ApplyActionsSlots(s1, rest);
      var fin := ApplyActions(s1, rest).value;
      assert ApplyActions(s, acts) == ApplyActions(s1, rest);
      forall j
        ensures Slot(fin, j) == Settled(Slot(s, j), PatchFor(acts, j))
      {
        if j == a.replKey {
          assert PatchFor(rest, j).None?;
        } else {
          assert PatchFor(acts, j) == PatchFor(rest, j);
        }
      }
    }
  }

  // ---------------------------------------------------------------------
  // One key of a diff
  // ---------------------------------------------------------------------

  /** The slot a client should hold for a key: the realm's components
      while the key is in use, nothing otherwise. */
  function Target(realm: Realm, k: PoolKey): (r: Option<Components>)
    requires RealmValid(realm)
    ensures r.Some? <==> k in TokenMap(realm)
    ensures r.GetOr(Empty) == RealmView(realm, k)
  {
    if k in TokenMap(realm) then Some(RealmView(realm, k)) else None
  }

  /** A slot that needs no action: it holds the target, or it is empty
      while the realm's entity has no replicated component. */
  predicate Agrees(slot: Option<Components>, realm: Realm, k: PoolKey)
    requires RealmValid(realm)
  {
    slot == Target(realm, k) || (slot.None? && k in TokenMap(realm) && RealmView(realm, k) == Empty)
  }

  /** For each merged key of valid inputs the candidate is computed
      without abort; an action it yields turns the base's slot into the
      target, and no action means the base's slot already agrees. */
  lemma KeyOutcome(base: ServerSnapshot, realm: Realm, k: PoolKey)
    requires ServerValid(base) && RealmValid(realm)
    requires k in MergeDiffMap(base, realm)
    ensures var c := Candidate(base, realm, k, MergeDiffMap(base, realm)[k]);
      && c.Ok?
      && (c.value.Some? ==>
            && c.value.value.action.replKey == k
            && SlotEffect(Slot(base.inner, k), c.value.value.action.entPatch) == Ok(Target(realm, k)))
      && (c.value.None? ==> Agrees(Slot(base.inner, k), realm, k))
  {
    var d := MergeDiffMap(base, realm)[k];
    KeyPatch(base, realm, k, d);
  }

  /** The same, one level down: the key's patch and priority. */
  lemma KeyPatch(base: ServerSnapshot, realm: Realm, k: PoolKey, d: SingleDiff)
    requires ServerValid(base) && RealmValid(realm)
    requires d == SingleDiff(Lookup(base.meta.tokenMap, k), Lookup(TokenMap(realm), k))
    requires k in base.meta.tokenMap || k in TokenMap(realm)
    ensures PriorityFor(base, realm, d).Ok?
    ensures var p := PatchForEntity(base, realm, d);
      && p.Ok?
      && (p.value.Some? ==> SlotEffect(Slot(base.inner, k), p.value.value) == Ok(Target(realm, k)))
      && (p.value.None? ==> Agrees(Slot(base.inner, k), realm, k))
  {
    var slot := Slot(base.inner, k);
    if k in TokenMap(realm) {
      PatchWhenLive(base, realm, d, k);
      var view := RealmView(realm, k);
      ChoiceOutcome(slot, view, d.oldToken == d.newToken && k in base.inner.entMap);
    } else {
      PatchWhenGone(base, realm, d, k);
    }
  }

  /** `patch_for_entity` for a key the realm uses: no abort, and the
      choice among nothing, an update and a full spawn. */
  lemma PatchWhenLive(base: ServerSnapshot, realm: Realm, d: SingleDiff, k: PoolKey)
    requires RealmValid(realm) && SnapshotValid(base.inner)
    requires d.newToken.Some? && d.newToken.value in realm.left && d.newToken.value.key == k
    requires d.oldToken.Some? ==> d.oldToken.value.key == k
    requires d.oldToken.None? ==> k !in base.inner.entMap
    ensures PriorityFor(base, realm, d).Ok?
    ensures var slot := Slot(base.inner, k);
      var view := RealmView(realm, k);
      var update := PatchesForComponents(slot, view);
      PatchForEntity(base, realm, d) ==
        Ok(if update == [] then None
           else if d.oldToken == d.newToken && k in base.inner.entMap then Some(UpdateEntity(update))
           else Some(SpawnEntity(PatchesForComponents(None, view))))
  {
    var t := d.newToken.value;
    assert Live(realm.pool, t);
    assert TokenMap(realm)[k] == t;
    var newEnt := Realms.EntityForToken(realm, t).value;
    assert realm.world.ents[newEnt].comps == RealmView(realm, k);
    var oldEnt := if d.oldToken.Some? then Snapshots.EntityForToken(base.inner, d.oldToken.value) else None;
    assert d.oldToken.Some? ==> oldEnt == Lookup(base.inner.entMap, k);
    assert OldComponents(base, oldEnt) == Ok(if oldEnt.Some? then Slot(base.inner, k) else None);
  }

  /** `patch_for_entity` for a key the realm no longer uses: a despawn
      exactly when the snapshot maps the key. */
  lemma PatchWhenGone(base: ServerSnapshot, realm: Realm, d: SingleDiff, k: PoolKey)
    requires RealmValid(realm)
    requires d.newToken.None? && d.oldToken.Some? && d.oldToken.value.key == k
    ensures PriorityFor(base, realm, d).Ok?
    ensures PatchForEntity(base, realm, d) == Ok(if k in base.inner.entMap then Some(DespawnEntity) else None)
  {
  }

  /** The choice `patch_for_entity` makes once both entities are known:
      an update from the client's copy, or a spawn from scratch, each lands
      on the realm's components; no patch means the copies already agree. */
  lemma ChoiceOutcome(slot: Option<Components>, view: Components, same: bool)
    ensures var update := PatchesForComponents(slot, view);
      && (update == [] ==> slot.GetOr(Empty) == view)
      && (update != [] && same && slot.Some? ==> SlotEffect(slot, UpdateEntity(update)) == Ok(Some(view)))
      && SlotEffect(slot, SpawnEntity(PatchesForComponents(None, view))) == Ok(Some(view))
  {
    SpawnRoundTrip(view);
    if slot.Some? {
      UpdateRoundTrip(slot.value, view);
    }
  }

  // ---------------------------------------------------------------------
  // The shape of a diff
  // ---------------------------------------------------------------------

  lemma IncreasingIsDistinct(ps: seq<PrioritizedAction>)
    requires IncreasingKeys(ps)
    ensures DistinctKeys(ps)
  {
  }

  lemma ConsDistinct(y: PrioritizedAction, rest: seq<PrioritizedAction>)
    requires DistinctKeys(rest)
    requires forall z :: z in rest ==> KeyOf(z) != KeyOf(y)
    ensures DistinctKeys([y] + rest)
  {
    var r := [y] + rest;
    forall i, j | 0 <= i < |r| && 0 <= j < |r| && KeyOf(r[i]) == KeyOf(r[j])
      ensures i == j
    {
      if i > 0 {
        assert r[i] == rest[i - 1];
      }
      if j > 0 {
        assert r[j] == rest[j - 1];
      }
    }
  }

  /** Inserting an action with a new key keeps the keys distinct. */
  lemma {:induction false} InsertKeepsDistinct(x: PrioritizedAction, s: seq<PrioritizedAction>)
    requires NonIncreasing(s) && DistinctKeys(s)
    requires forall y :: y in s ==> KeyOf(y) != KeyOf(x)
    ensures DistinctKeys(InsertByPriority(x, s))
    decreases |s|
  {
    if s == [] {
    } else if s[0].priorityAccum < x.priorityAccum {
      ConsDistinct(x, s);
    } else {
      var tail := s[1..];
      assert forall y :: y in tail ==> KeyOf(y) != KeyOf(s[0]) by {
        forall y | y in tail ensures KeyOf(y) != KeyOf(s[0]) {
          var i :| 0 <= i < |tail| && tail[i] == y;
          assert s[i + 1] == y;
        }
      }
      InsertKeepsDistinct(x, tail);
      var rest := InsertByPriority(x, tail);
      forall z | z in rest
        ensures KeyOf(z) != KeyOf(s[0])
      {
        assert z in multiset(rest);
        assert z == x || z in multiset(tail);
      }
      ConsDistinct(s[0], rest);
    }
  }

  /** Sorting by priority keeps the keys distinct. */
  lemma {:induction false} SortKeepsDistinct(ps: seq<PrioritizedAction>)
    requires DistinctKeys(ps)
    ensures DistinctKeys(SortByPriority(ps))
    decreases |ps|
  {
    if ps != [] {
      var init := ps[..|ps| - 1];
      var x := ps[|ps| - 1];
      assert DistinctKeys(init);
      SortKeepsDistinct(init);
      var sorted := SortByPriority(init);
      forall y | y in sorted
        ensures KeyOf(y) != KeyOf(x)
      {
        assert y in multiset(init);
        var i :| 0 <= i < |init| && init[i] == y;
        assert ps[i] == y;
      }
      InsertKeepsDistinct(x, sorted);
    }
  }

  /** Every merged key's candidate, by key. */
  function CandidateMap(base: ServerSnapshot, realm: Realm): (r: map<PoolKey, Result<Option<PrioritizedAction>, Fault>>)
    requires RealmValid(realm)
  {
    var merged := MergeDiffMap(base, realm);
    map k | k in merged :: Candidate(base, realm, k, merged[k])
  }

  /** Every merged key of valid inputs has its candidate. */
  lemma CandidatesOk(base: ServerSnapshot, realm: Realm)
    requires ServerValid(base) && RealmValid(realm)
    ensures forall k :: k in CandidateMap(base, realm) ==> CandidateMap(base, realm)[k].Ok?
  {
    forall k | k in CandidateMap(base, realm)
      ensures CandidateMap(base, realm)[k].Ok?
    {
      KeyOutcome(base, realm, k);
    }
  }

  /** Collecting per-key results, each filed under its own key: no abort
      when none aborts, every collected action is its key's result, and
      every key's action is collected. */
  lemma CollectByKey(cs: map<PoolKey, Result<Option<PrioritizedAction>, Fault>>,
                     ks: seq<PoolKey>, rs: seq<Result<Option<PrioritizedAction>, Fault>>)
    requires forall k :: k in ks <==> k in cs
    requires |rs| == |ks| && forall i :: 0 <= i < |ks| ==> rs[i] == cs[ks[i]]
    requires forall k :: k in cs ==> cs[k].Ok?
    requires forall k :: k in cs && cs[k].value.Some? ==> KeyOf(cs[k].value.value) == k
    ensures Collect(rs, ks).Ok?
    ensures var cands := Collect(rs, ks).value;
      forall i :: 0 <= i < |cands| ==> KeyOf(cands[i]) in cs && cs[KeyOf(cands[i])] == Ok(Some(cands[i]))
    ensures var cands := Collect(rs, ks).value;
      forall k :: k in cs && cs[k].value.Some? ==> cs[k].value.value in cands
  {
    var cands := Collect(rs, ks).value;
    forall i | 0 <= i < |cands|
      ensures KeyOf(cands[i]) in cs && cs[KeyOf(cands[i])] == Ok(Some(cands[i]))
    {
      var m :| 0 <= m < |rs| && rs[m] == Ok(Some(cands[i]));
      assert KeyOf(cands[i]) == ks[m];
    }
    forall k | k in cs && cs[k].value.Some?
      ensures cs[k].value.value in cands
    {
      var m :| 0 <= m < |ks| && ks[m] == k;
      assert rs[m] == cs[k];
    }
  }

  /** `PrioritizedTotalDiff` of valid inputs collects the candidates `cs`
      of the merged keys in key order. */
  lemma TotalDiffStructure(base: ServerSnapshot, realm: Realm, cs: map<PoolKey, Result<Option<PrioritizedAction>, Fault>>)
    returns (cands: seq<PrioritizedAction>)
    requires ServerValid(base) && RealmValid(realm)
    requires cs == CandidateMap(base, realm)
    requires forall k :: k in cs ==> cs[k].Ok?
    ensures NewestTokens(MergeDiffMap(base, realm)).Ok?
    ensures PrioritizedTotalDiff(base, realm) == Ok((cands, NewestTokens(MergeDiffMap(base, realm)).value))
    ensures IncreasingKeys(cands)
    ensures forall i :: 0 <= i < |cands| ==> KeyOf(cands[i]) in cs && cs[KeyOf(cands[i])] == Ok(Some(cands[i]))
    ensures forall k :: k in cs && cs[k].value.Some? ==> cs[k].value.value in cands
  {
    var merged := MergeDiffMap(base, realm);
    var ks := SortedKeys(merged.Keys);
    var rs := CandidateResults(base, realm, merged, ks);
    assert forall i :: 0 <= i < |ks| ==> rs[i] == cs[ks[i]];
    CollectByKey(cs, ks, rs);
    cands := Collect(rs, ks).value;
    MergedTokensOk(base, realm);
    TotalDiffOfParts(base, realm);
  }

  /** Every merged key of a valid snapshot has a token on one side. */
  lemma MergedTokensOk(base: ServerSnapshot, realm: Realm)
    requires ServerValid(base) && RealmValid(realm)
    ensures NewestTokens(MergeDiffMap(base, realm)).Ok?
  {
    var merged := MergeDiffMap(base, realm);
    assert forall k :: k in merged ==> NewestToken(merged[k]).Ok?;
  }

  /** When collecting and token lookup both succeed, the total diff is
      their pair. */
  lemma TotalDiffOfParts(base: ServerSnapshot, realm: Realm)
    requires RealmValid(realm)
    requires var merged := MergeDiffMap(base, realm);
      var ks := SortedKeys(merged.Keys);
      Collect(CandidateResults(base, realm, merged, ks), ks).Ok? && NewestTokens(merged).Ok?
    ensures var merged := MergeDiffMap(base, realm);
      var ks := SortedKeys(merged.Keys);
      PrioritizedTotalDiff(base, realm) == Ok((Collect(CandidateResults(base, realm, merged, ks), ks).value, NewestTokens(merged).value))
  {
  }

  /** The candidates in the order the heap pops them, with no key twice;
      the delta sends the first ten and defers the rest. */
  lemma DiffParts(base: ServerSnapshot, realm: Realm) returns (sorted: seq<PrioritizedAction>, n: nat)
    requires ServerValid(base) && RealmValid(realm)
    ensures n == Min(|sorted|, ACTION_LIMIT)
    ensures Diff(base, realm) == Ok(ServerDelta(
      DeltaMsg(ActionsOf(sorted[..n])),
      Meta(NewestTokens(MergeDiffMap(base, realm)).value, DeferredInto(map[], sorted[n..]))))
    ensures NonIncreasing(sorted) && DistinctKeys(sorted)
    ensures forall i :: 0 <= i < |sorted| ==>
      KeyOf(sorted[i]) in CandidateMap(base, realm) && CandidateMap(base, realm)[KeyOf(sorted[i])] == Ok(Some(sorted[i]))
    ensures forall k :: k in CandidateMap(base, realm) ==>
      CandidateMap(base, realm)[k].Ok? && (CandidateMap(base, realm)[k].value.Some? ==> CandidateMap(base, realm)[k].value.value in sorted)
  {
    CandidatesOk(base, realm);
    var cs := CandidateMap(base, realm);
    var cands := TotalDiffStructure(base, realm, cs);
    sorted := SortByPriority(cands);
    n := Min(|sorted|, ACTION_LIMIT);
    SortedFacts(cs, cands);
  }

  /** Sorting the candidates keeps exactly the same actions, each still
      its key's candidate, with no key twice. */
  lemma SortedFacts(cs: map<PoolKey, Result<Option<PrioritizedAction>, Fault>>, cands: seq<PrioritizedAction>)
    requires IncreasingKeys(cands)
    requires forall i :: 0 <= i < |cands| ==> KeyOf(cands[i]) in cs && cs[KeyOf(cands[i])] == Ok(Some(cands[i]))
    requires forall k :: k in cs && cs[k].Ok? && cs[k].value.Some? ==> cs[k].value.value in cands
    ensures var sorted := SortByPriority(cands);
      && DistinctKeys(sorted)
      && (forall i :: 0 <= i < |sorted| ==> KeyOf(sorted[i]) in cs && cs[KeyOf(sorted[i])] == Ok(Some(sorted[i])))
      && (forall k :: k in cs && cs[k].Ok? && cs[k].value.Some? ==> cs[k].value.value in sorted)
  {
    var sorted := SortByPriority(cands);
    IncreasingIsDistinct(cands);
    SortKeepsDistinct(cands);
    forall i | 0 <= i < |sorted|
      ensures sorted[i] in cands
    {
      assert sorted[i] in multiset(cands);
    }
    forall x | x in cands
      ensures x in sorted
    {
      assert x in multiset(sorted);
    }
  }

  // ---------------------------------------------------------------------
  // What a diff achieves
  // ---------------------------------------------------------------------

  /** A key on which the client is up to date: it holds the realm's
      components under the realm's token, or holds nothing and has no
      token while the realm has nothing to show under the key. */
  ghost predicate Synced(s: ServerSnapshot, realm: Realm, k: PoolKey)
    requires RealmValid(realm)
  {
    if k in TokenMap(realm) then
      || (Slot(s.inner, k) == Some(RealmView(realm, k))
          && k in s.meta.tokenMap && s.meta.tokenMap[k] == TokenMap(realm)[k])
      || (Slot(s.inner, k).None? && RealmView(realm, k) == Empty && k !in s.meta.tokenMap)
    else
      Slot(s.inner, k).None? && k !in s.meta.tokenMap
  }

  /** On a synced key the client sees what the realm holds. */
  lemma SyncedView(s: ServerSnapshot, realm: Realm, k: PoolKey)
    requires RealmValid(realm) && Synced(s, realm, k)
    ensures View(s.inner, k) == RealmView(realm, k)
  {
  }

  /** How the sent and the deferred part of the popped candidates
      divide the keys: a key is sent, deferred, or has no candidate. */
  lemma SplitKeys(sorted: seq<PrioritizedAction>, n: nat, k: PoolKey)
    requires n <= |sorted| && DistinctKeys(sorted)
    ensures var acts := ActionsOf(sorted[..n]);
      var pm := DeferredInto(map[], sorted[n..]);
      && (PatchFor(acts, k).Some? ==> k !in pm)
      && (PatchFor(acts, k).Some? ==>
            exists i :: 0 <= i < n && KeyOf(sorted[i]) == k && sorted[i].action.entPatch == PatchFor(acts, k).value)
      && (k in pm ==> PatchFor(acts, k).None?)
      && (PatchFor(acts, k).None? && k !in pm ==> forall i :: 0 <= i < |sorted| ==> KeyOf(sorted[i]) != k)
  {
    var acts := ActionsOf(sorted[..n]);
    var deferred := sorted[n..];
    var pm := DeferredInto(map[], deferred);
    assert forall i :: 0 <= i < n ==> acts[i] == sorted[i].action;
    assert forall j :: 0 <= j < |deferred| ==> deferred[j] == sorted[n + j];
    if PatchFor(acts, k).Some? {
      var i :| 0 <= i < n && acts[i].replKey == k && acts[i].entPatch == PatchFor(acts, k).value;
      assert KeyOf(sorted[i]) == k;
    }
    if PatchFor(acts, k).None? && k !in pm {
      forall i | 0 <= i < |sorted|
        ensures KeyOf(sorted[i]) != k
      {
        if i < n {
          assert acts[i].replKey != k;
        } else {
          assert KeyOf(deferred[i - n]) != k;
        }
      }
    }
  }

  /** A key whose candidate was sent ends up with the target slot. */
  lemma KeySent(base: ServerSnapshot, realm: Realm, k: PoolKey, x: PrioritizedAction)
    requires ServerValid(base) && RealmValid(realm)
    requires k in CandidateMap(base, realm) && CandidateMap(base, realm)[k] == Ok(Some(x))
    ensures SlotEffect(Slot(base.inner, k), x.action.entPatch) == Ok(Target(realm, k))
    ensures SlotAfter(Slot(base.inner, k), x.action.entPatch) == Target(realm, k)
  {
    KeyOutcome(base, realm, k);
  }

  /** A key without a candidate already agrees. */
  lemma KeyUnsent(base: ServerSnapshot, realm: Realm, k: PoolKey)
    requires ServerValid(base) && RealmValid(realm)
    requires k in CandidateMap(base, realm) ==> CandidateMap(base, realm)[k] == Ok(None)
    ensures Agrees(Slot(base.inner, k), realm, k)
  {
    if k in MergeDiffMap(base, realm) {
      KeyOutcome(base, realm, k);
    } else {
      assert k !in base.meta.tokenMap && k !in TokenMap(realm);
    }
  }

  /** The first `n` of a sequence with distinct keys name distinct keys. */
  lemma SentDistinct(sorted: seq<PrioritizedAction>, n: nat)
    requires n <= |sorted| && DistinctKeys(sorted)
    ensures DistinctActionKeys(ActionsOf(sorted[..n]))
  {
    var acts := ActionsOf(sorted[..n]);
    forall i, j | 0 <= i < |acts| && 0 <= j < |acts| && acts[i].replKey == acts[j].replKey
      ensures i == j
    {
      assert KeyOf(sorted[i]) == KeyOf(sorted[j]);
    }
  }

  /** Every candidate that is sent applies cleanly to its key's slot. */
  lemma SentApplies(base: ServerSnapshot, realm: Realm, sorted: seq<PrioritizedAction>, n: nat)
    requires ServerValid(base) && RealmValid(realm)
    requires n <= |sorted|
    requires forall i :: 0 <= i < |sorted| ==>
      KeyOf(sorted[i]) in CandidateMap(base, realm) && CandidateMap(base, realm)[KeyOf(sorted[i])] == Ok(Some(sorted[i]))
    ensures var acts := ActionsOf(sorted[..n]);
      forall i :: 0 <= i < |acts| ==> SlotEffect(Slot(base.inner, acts[i].replKey), acts[i].entPatch).Ok?
  {
    var acts := ActionsOf(sorted[..n]);
    forall i | 0 <= i < |acts|
      ensures SlotEffect(Slot(base.inner, acts[i].replKey), acts[i].entPatch).Ok?
    {
      assert acts[i] == sorted[i].action;
      KeySent(base, realm, KeyOf(sorted[i]), sorted[i]);
    }
  }

  /** A key that is not deferred ends up agreeing with the realm: either
      the action sent for it brings it there, or it had no candidate and
      already agreed. */
  lemma KeyAgrees(base: ServerSnapshot, realm: Realm, sorted: seq<PrioritizedAction>, n: nat, k: PoolKey)
    requires ServerValid(base) && RealmValid(realm)
    requires n <= |sorted| && DistinctKeys(sorted)
    requires forall i :: 0 <= i < |sorted| ==>
      KeyOf(sorted[i]) in CandidateMap(base, realm) && CandidateMap(base, realm)[KeyOf(sorted[i])] == Ok(Some(sorted[i]))
    requires forall k :: k in CandidateMap(base, realm) ==>
      CandidateMap(base, realm)[k].Ok? && (CandidateMap(base, realm)[k].value.Some? ==> CandidateMap(base, realm)[k].value.value in sorted)
    requires k !in DeferredInto(map[], sorted[n..])
    ensures Agrees(Settled(Slot(base.inner, k), PatchFor(ActionsOf(sorted[..n]), k)), realm, k)
  {
    var acts := ActionsOf(sorted[..n]);
    SplitKeys(sorted, n, k);
    if PatchFor(acts, k).Some? {
      var i :| 0 <= i < n && KeyOf(sorted[i]) == k && sorted[i].action.entPatch == PatchFor(acts, k).value;
      KeySent(base, realm, k, sorted[i]);
    } else {
      if k in CandidateMap(base, realm) && CandidateMap(base, realm)[k].value.Some? {
        KeyOutcome(base, realm, k);
        assert false;
      }
      KeyUnsent(base, realm, k);
    }
  }

  /** The newest token of a merged key of valid inputs is filed under that
      key, and is the realm's token when the realm uses the key. */
  lemma NewestTokensKeyed(base: ServerSnapshot, realm: Realm)
    requires ServerValid(base) && RealmValid(realm)
    ensures NewestTokens(MergeDiffMap(base, realm)).Ok?
    ensures var nt := NewestTokens(MergeDiffMap(base, realm)).value;
      && Keyed(nt)
      && (forall k :: k in base.meta.tokenMap ==> k in nt)
      && (forall k :: k in TokenMap(realm) ==> k in nt && nt[k] == TokenMap(realm)[k])
  {
    var merged := MergeDiffMap(base, realm);
    assert forall k :: k in merged ==> NewestToken(merged[k]).Ok?;
  }

  /** A key that agrees and is not deferred is synced once the metadata
      is attached. */
  lemma AgreesIsSynced(fin: Snapshot, meta: Meta, realm: Realm, k: PoolKey)
    requires RealmValid(realm) && SnapshotValid(fin)
    requires k !in meta.priorityMap
    requires Agrees(Slot(fin, k), realm, k)
    requires k in TokenMap(realm) ==> k in meta.tokenMap && meta.tokenMap[k] == TokenMap(realm)[k]
    ensures Synced(ServerAugment(fin, meta), realm, k)
  {
  }

  /** Every key a candidate is filed under is one the base's metadata
      or the realm knows. */
  lemma CandidateKeysKnown(base: ServerSnapshot, realm: Realm, sorted: seq<PrioritizedAction>)
    requires ServerValid(base) && RealmValid(realm)
    requires forall i :: 0 <= i < |sorted| ==> KeyOf(sorted[i]) in CandidateMap(base, realm)
    ensures forall i :: 0 <= i < |sorted| ==> KeyOf(sorted[i]) in base.meta.tokenMap.Keys + TokenMap(realm).Keys
  {
  }

  /** When every candidate's key and every key the base maps lie in
      `known`, so do the keys the applied snapshot maps and the deferred
      keys. */
  lemma FinalKeysKnown(s: Snapshot, fin: Snapshot, sorted: seq<PrioritizedAction>, n: nat, known: set<PoolKey>)
    requires SnapshotValid(s) && SnapshotValid(fin)
    requires n <= |sorted| && DistinctKeys(sorted)
    requires forall i :: 0 <= i < |sorted| ==> KeyOf(sorted[i]) in known
    requires forall k :: k in s.entMap ==> k in known
    requires forall k :: Slot(fin, k) == Settled(Slot(s, k), PatchFor(ActionsOf(sorted[..n]), k))
    ensures forall k :: k in fin.entMap ==> k in known
    ensures forall k :: k in DeferredInto(map[], sorted[n..]) ==> k in known
  {
    forall k | k in fin.entMap
      ensures k in known
    {
      SplitKeys(sorted, n, k);
      assert Slot(fin, k).Some?;
    }
    var deferred := sorted[n..];
    forall k | k in DeferredInto(map[], deferred)
      ensures k in known
    {
      var j :| 0 <= j < |deferred| && KeyOf(deferred[j]) == k;
      assert deferred[j] == sorted[n + j];
    }
  }

  /** The central promise of the delta engine: for a valid server
      snapshot and a valid realm, the diff is computed without abort,
      carries at most ten actions, and applies without abort; the result
      is valid, every key that was not deferred is synced with the realm,
      and every deferred key is left as it was, still owed. */
  lemma DiffApplySyncs(base: ServerSnapshot, realm: Realm)
    requires ServerValid(base) && RealmValid(realm)
    ensures Diff(base, realm).Ok?
    ensures |Diff(base, realm).value.inner.actions| <= ACTION_LIMIT
    ensures ApplyServer(Diff(base, realm).value, base).Ok?
    ensures var next := ApplyServer(Diff(base, realm).value, base).value;
      && ServerValid(next)
      && (forall k :: k !in next.meta.priorityMap ==> Synced(next, realm, k))
      && (forall k :: k in next.meta.priorityMap ==> Slot(next.inner, k) == Slot(base.inner, k))
  {
    var sorted, n := DiffParts(base, realm);
    var acts := ActionsOf(sorted[..n]);
    var pm := DeferredInto(map[], sorted[n..]);
    NewestTokensKeyed(base, realm);
    var nt := NewestTokens(MergeDiffMap(base, realm)).value;
    SentDistinct(sorted, n);
    SentApplies(base, realm, sorted, n);
    ApplyActionsSlots(base.inner, acts);
    var fin := ApplyActions(base.inner, acts).value;
    var meta := Meta(nt, pm);
    var next := ServerAugment(fin, meta);
    assert ApplyServer(Diff(base, realm).value, base) == Ok(next);
    CandidateKeysKnown(base, realm, sorted);
    FinalKeysKnown(base.inner, fin, sorted, n, base.meta.tokenMap.Keys + TokenMap(realm).Keys);
    AugmentIsValid(fin, meta);
    forall k | k !in pm
      ensures Synced(next, realm, k)
    {
      KeyAgrees(base, realm, sorted, n, k);
      AgreesIsSynced(fin, meta, realm, k);
    }
    forall k | k in pm
      ensures Slot(fin, k) == Slot(base.inner, k)
    {
      SplitKeys(sorted, n, k);
    }
  }

  /** The accumulated priority of the key's candidate, or 0 when the key
      has none. */
  function Urgency(base: ServerSnapshot, realm: Realm, k: PoolKey): nat
    requires RealmValid(realm)
  {
    var cm := CandidateMap(base, realm);
    if k in cm && cm[k].Ok? && cm[k].value.Some? then cm[k].value.value.priorityAccum else 0
  }

  /** A deferred key is filed with the priority of the deferred candidate
      that names it. */
  lemma DeferredEntry(sorted: seq<PrioritizedAction>, n: nat, k: PoolKey) returns (j: nat)
    requires n <= |sorted| && DistinctKeys(sorted)
    requires k in DeferredInto(map[], sorted[n..])
    ensures n <= j < |sorted| && KeyOf(sorted[j]) == k
    ensures DeferredInto(map[], sorted[n..])[k] == sorted[j].priorityAccum
  {
    var deferred := sorted[n..];
    assert DistinctKeys(deferred) by {
      forall a, b | 0 <= a < |deferred| && 0 <= b < |deferred| && KeyOf(deferred[a]) == KeyOf(deferred[b])
        ensures a == b
      {
        assert deferred[a] == sorted[n + a] && deferred[b] == sorted[n + b];
      }
    }
    var i :| 0 <= i < |deferred| && KeyOf(deferred[i]) == k;
    assert deferred[i] == sorted[n + i];
    j := n + i;
  }

  /** A deferred key's stored priority is its candidate's urgency, and
      that never falls below what the base had stored for it. */
  lemma DeferredUrgency(base: ServerSnapshot, realm: Realm, x: PrioritizedAction, k: PoolKey)
    requires ServerValid(base) && RealmValid(realm)
    requires k in CandidateMap(base, realm) && CandidateMap(base, realm)[k] == Ok(Some(x))
    ensures Urgency(base, realm, k) == x.priorityAccum
    ensures k in base.meta.priorityMap ==> base.meta.priorityMap[k] <= x.priorityAccum
  {
  }

  /** The popped candidates again, seen through their priorities only:
      each one's priority is its key's urgency, and no less than what the
      base stored for that key. */
  lemma DiffUrgencies(base: ServerSnapshot, realm: Realm) returns (sorted: seq<PrioritizedAction>, n: nat)
    requires ServerValid(base) && RealmValid(realm)
    ensures n == Min(|sorted|, ACTION_LIMIT)
    ensures Diff(base, realm) == Ok(ServerDelta(
      DeltaMsg(ActionsOf(sorted[..n])),
      Meta(NewestTokens(MergeDiffMap(base, realm)).value, DeferredInto(map[], sorted[n..]))))
    ensures NonIncreasing(sorted) && DistinctKeys(sorted)
    ensures forall i :: 0 <= i < |sorted| ==> Urgency(base, realm, KeyOf(sorted[i])) == sorted[i].priorityAccum
    ensures forall i :: 0 <= i < |sorted| && KeyOf(sorted[i]) in base.meta.priorityMap ==>
      base.meta.priorityMap[KeyOf(sorted[i])] <= sorted[i].priorityAccum
  {
    sorted, n := DiffParts(base, realm);
    forall i | 0 <= i < |sorted|
      ensures Urgency(base, realm, KeyOf(sorted[i])) == sorted[i].priorityAccum
      ensures KeyOf(sorted[i]) in base.meta.priorityMap ==> base.meta.priorityMap[KeyOf(sorted[i])] <= sorted[i].priorityAccum
    {
      DeferredUrgency(base, realm, sorted[i], KeyOf(sorted[i]));
    }
  }

  /** The split of a priority-ordered sequence into the first `n` and the
      deferred rest: something is deferred only when `n` reached the
      limit, and every deferred priority is one of the rest's and at most
      any of the first `n`. */
  lemma BudgetSplit(sorted: seq<PrioritizedAction>, n: nat, k: PoolKey) returns (j: nat)
    requires n == Min(|sorted|, ACTION_LIMIT) && DistinctKeys(sorted) && NonIncreasing(sorted)
    requires k in DeferredInto(map[], sorted[n..])
    ensures n == ACTION_LIMIT
    ensures n <= j < |sorted| && KeyOf(sorted[j]) == k
    ensures DeferredInto(map[], sorted[n..])[k] == sorted[j].priorityAccum
    ensures forall i :: 0 <= i < n ==> sorted[j].priorityAccum <= sorted[i].priorityAccum
  {
    j := DeferredEntry(sorted, n, k);
  }

  /** How the diff spends its budget: keys are deferred only when all ten
      slots are used, each deferred key keeps its candidate's urgency
      (never less than the base had stored), and no sent action is less
      urgent than any deferred one. */
  lemma DiffPriorities(base: ServerSnapshot, realm: Realm)
    requires ServerValid(base) && RealmValid(realm)
    ensures Diff(base, realm).Ok?
    ensures var d := Diff(base, realm).value;
      var pm := d.serverMeta.priorityMap;
      && (forall k :: k in pm ==> |d.inner.actions| == ACTION_LIMIT)
      && (forall k :: k in pm ==> pm[k] == Urgency(base, realm, k))
      && (forall k :: k in pm && k in base.meta.priorityMap ==> base.meta.priorityMap[k] <= pm[k])
      && (forall i, k :: 0 <= i < |d.inner.actions| && k in pm ==>
            pm[k] <= Urgency(base, realm, d.inner.actions[i].replKey))
  {
    var sorted, n := DiffUrgencies(base, realm);
    DeferredKeepUrgency(base, realm, sorted, n);
    SentOutrankDeferred(base, realm, sorted, n);
  }

  /** The deferred half of `DiffPriorities`: deferral only at the limit,
      at the key's urgency, never below the base's stored priority. */
  lemma DeferredKeepUrgency(base: ServerSnapshot, realm: Realm, sorted: seq<PrioritizedAction>, n: nat)
    requires RealmValid(realm)
    requires n == Min(|sorted|, ACTION_LIMIT) && NonIncreasing(sorted) && DistinctKeys(sorted)
    requires forall i :: 0 <= i < |sorted| ==> Urgency(base, realm, KeyOf(sorted[i])) == sorted[i].priorityAccum
    requires forall i :: 0 <= i < |sorted| && KeyOf(sorted[i]) in base.meta.priorityMap ==>
      base.meta.priorityMap[KeyOf(sorted[i])] <= sorted[i].priorityAccum
    ensures var pm := DeferredInto(map[], sorted[n..]);
      && (forall k :: k in pm ==> |ActionsOf(sorted[..n])| == ACTION_LIMIT)
      && (forall k :: k in pm ==> pm[k] == Urgency(base, realm, k))
      && (forall k :: k in pm && k in base.meta.priorityMap ==> base.meta.priorityMap[k] <= pm[k])
  {
    var pm := DeferredInto(map[], sorted[n..]);
    forall k | k in pm
      ensures |ActionsOf(sorted[..n])| == ACTION_LIMIT && pm[k] == Urgency(base, realm, k)
      ensures k in base.meta.priorityMap ==> base.meta.priorityMap[k] <= pm[k]
    {
      var j := BudgetSplit(sorted, n, k);
    }
  }

  /** The sent half of `DiffPriorities`: every sent action is at least as
      urgent as any deferred key. */
  lemma SentOutrankDeferred(base: ServerSnapshot, realm: Realm, sorted: seq<PrioritizedAction>, n: nat)
    requires RealmValid(realm)
    requires n == Min(|sorted|, ACTION_LIMIT) && NonIncreasing(sorted) && DistinctKeys(sorted)
    requires forall i :: 0 <= i < |sorted| ==> Urgency(base, realm, KeyOf(sorted[i])) == sorted[i].priorityAccum
    ensures var pm, acts := DeferredInto(map[], sorted[n..]), ActionsOf(sorted[..n]);
      forall i, k :: 0 <= i < |acts| && k in pm ==> pm[k] <= Urgency(base, realm, acts[i].replKey)
  {
    var pm, acts := DeferredInto(map[], sorted[n..]), ActionsOf(sorted[..n]);
    forall i, k | 0 <= i < |acts| && k in pm
      ensures pm[k] <= Urgency(base, realm, acts[i].replKey)
    {
      var j := BudgetSplit(sorted, n, k);
      assert acts[i].replKey == KeyOf(sorted[i]);
    }
  }

  /** A synced key has a candidate, and it asks for no action. */
  lemma SyncedNeedsNothing(base: ServerSnapshot, realm: Realm, k: PoolKey)
    requires ServerValid(base) && RealmValid(realm)
    requires Synced(base, realm, k) && k in CandidateMap(base, realm)
    ensures CandidateMap(base, realm)[k] == Ok(None)
  {
    var d := MergeDiffMap(base, realm)[k];
    assert k in TokenMap(realm);
    PatchWhenLive(base, realm, d, k);
  }

  /** Diffing a snapshot that is synced on every key sends nothing and
      defers nothing. */
  lemma SyncedDiffIsEmpty(base: ServerSnapshot, realm: Realm)
    requires ServerValid(base) && RealmValid(realm)
    requires forall k :: Synced(base, realm, k)
    ensures Diff(base, realm) == Ok(ServerDelta(DeltaMsg([]), Meta(NewestTokens(MergeDiffMap(base, realm)).value, map[])))
  {
    var sorted, n := DiffParts(base, realm);
    if sorted != [] {
      SyncedNeedsNothing(base, realm, KeyOf(sorted[0]));
      assert false;
    }
  }

  /** When a diff defers nothing, diffing again from the snapshot it
      produced sends nothing: one round brings the client up to date. */
  lemma DiffConverges(base: ServerSnapshot, realm: Realm)
    requires ServerValid(base) && RealmValid(realm)
    requires Diff(base, realm).Ok? && Diff(base, realm).value.serverMeta.priorityMap == map[]
    ensures ApplyServer(Diff(base, realm).value, base).Ok?
    ensures var next := ApplyServer(Diff(base, realm).value, base).value;
      && Diff(next, realm).Ok?
      && Diff(next, realm).value.inner.actions == []
      && Diff(next, realm).value.serverMeta.priorityMap == map[]
  {
    DiffApplySyncs(base, realm);
    var next := ApplyServer(Diff(base, realm).value, base).value;
    SyncedDiffIsEmpty(next, realm);
  }
}
