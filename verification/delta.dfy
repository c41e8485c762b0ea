/** The replication delta (archive-engine/src/ecs/delta.rs).

    `Diff` compares what the server believes a client holds (a
    `ServerSnapshot`) with the realm, key by key, and produces at most ten
    entity actions, the most urgent first; the rest are deferred with their
    accumulated priority.  `ApplyServer` plays the actions onto the
    snapshot, as the client does, and attaches the new metadata. */
module Delta {
  import opened Common
  import opened TokenPool
  import opened Ecs
  import opened Patches
  import opened Realms
  import opened Snapshots

  datatype EntityPatch =
    | SpawnEntity(spawnPatches: seq<ComponentPatch>)
    | UpdateEntity(updatePatches: seq<ComponentPatch>)
    | DespawnEntity

  datatype DeltaAction = DeltaAction(replKey: PoolKey, entPatch: EntityPatch)

  /** An action with the priority it has accumulated; the heap orders on
      the priority alone. */
  datatype PrioritizedAction = PrioritizedAction(action: DeltaAction, priorityAccum: u32)

  /** A key's token in the base snapshot and in the realm. */
  datatype SingleDiff = SingleDiff(oldToken: Option<PoolToken>, newToken: Option<PoolToken>)

  datatype DeltaMsg = DeltaMsg(actions: seq<DeltaAction>)

  datatype ServerDelta = ServerDelta(inner: DeltaMsg, serverMeta: Meta)

  /** How many actions one delta carries at most. */
  const ACTION_LIMIT: nat := 10

  /** `newest_token`: the realm's token, else the base's; a diff with
      neither aborts. */
  function NewestToken(d: SingleDiff): (r: Result<PoolToken, Fault>)
    ensures r.Err? <==> d.oldToken.None? && d.newToken.None?
    ensures d.newToken.Some? ==> r == Ok(d.newToken.value)
    ensures d.newToken.None? && d.oldToken.Some? ==> r == Ok(d.oldToken.value)
  {
    if d.newToken.Some? then Ok(d.newToken.value)
    else if d.oldToken.Some? then Ok(d.oldToken.value)
    else Err(NoToken)
  }

  // ---------------------------------------------------------------------
  // Iterating a BTreeMap: its keys in ascending order
  // ---------------------------------------------------------------------

  predicate Increasing(ks: seq<PoolKey>) {
    forall i, j :: 0 <= i < j < |ks| ==> ks[i] < ks[j]
  }

  lemma {:induction false} MinOf(s: set<PoolKey>) returns (lo: PoolKey)
    requires s != {}
    ensures lo in s && forall k :: k in s ==> lo <= k
    decreases |s|
  {
    var x :| x in s;
    if s == {x} {
      lo := x;
    } else {
      var m := MinOf(s - {x});
      lo := if x < m then x else m;
      forall k | k in s
        ensures lo <= k
      {
        if k != x {
          assert k in s - {x};
        }
      }
    }
  }

  lemma MinExists(s: set<PoolKey>)
    requires s != {}
    ensures exists m :: m in s && forall k :: k in s ==> m <= k
  {
    var m := MinOf(s);
  }

  function SetMin(s: set<PoolKey>): (m: PoolKey)
    requires s != {}
    ensures m in s && forall k :: k in s ==> m <= k
  {
    MinExists(s);
    var m :| m in s && forall k :: k in s ==> m <= k;
    m
  }

  /** The keys of a map in the order a `BTreeMap` visits them. */
  function SortedKeys(s: set<PoolKey>): (r: seq<PoolKey>)
    ensures Increasing(r)
    ensures forall k :: k in r <==> k in s
    ensures |r| == |s|
    decreases |s|
  {
    if s == {} then []
    else
      var m := SetMin(s);
      var rest := SortedKeys(s - {m});
      assert forall i :: 0 <= i < |rest| ==> m < rest[i] by {
        forall i | 0 <= i < |rest| ensures m < rest[i] {
          assert rest[i] in s - {m};
        }
      }
      [m] + rest
  }

  // ---------------------------------------------------------------------
  // merge_diff_map
  // ---------------------------------------------------------------------

  /** Every token is filed under its own key. */
  predicate Keyed(tm: map<PoolKey, PoolToken>) {
    forall k :: k in tm ==> tm[k].key == k
  }

  /** The first loop of `merge_diff_map`: each base token, filed under its
      key, as an old token. */
  function InsertOld(acc: map<PoolKey, SingleDiff>, tm: map<PoolKey, PoolToken>, ks: seq<PoolKey>)
    : (r: map<PoolKey, SingleDiff>)
    requires forall k :: k in ks ==> k in tm
    ensures Keyed(tm) ==> forall k :: k in r <==> k in acc || k in ks
    ensures Keyed(tm) ==> forall k :: k in r ==>
      r[k] == if k in ks then SingleDiff(Some(tm[k]), None) else acc[k]
    decreases |ks|
  {
    if ks == [] then acc
    else
      var t := tm[ks[0]];
      InsertOld(acc[t.key := SingleDiff(Some(t), None)], tm, ks[1..])
  }

  /** The second loop: each realm token becomes the new token of its key,
      joining the old token when the key has one. */
  function InsertNew(acc: map<PoolKey, SingleDiff>, rm: map<PoolKey, PoolToken>, ks: seq<PoolKey>)
    : (r: map<PoolKey, SingleDiff>)
    requires forall k :: k in ks ==> k in rm
    ensures Keyed(rm) ==> forall k :: k in r <==> k in acc || k in ks
    ensures Keyed(rm) ==> forall k :: k in r ==>
      r[k] == if k !in ks then acc[k]
              else SingleDiff(if k in acc then acc[k].oldToken else None, Some(rm[k]))
    decreases |ks|
  {
    if ks == [] then acc
    else
      var t := rm[ks[0]];
      var d := if t.key in acc then acc[t.key].(newToken := Some(t)) else SingleDiff(None, Some(t));
      InsertNew(acc[t.key := d], rm, ks[1..])
  }

  /** The two loops of `merge_diff_map` over a base token map and the
      realm's tokens by key. */
  function JoinTokens(tm: map<PoolKey, PoolToken>, rm: map<PoolKey, PoolToken>): map<PoolKey, SingleDiff> {
    InsertNew(InsertOld(map[], tm, SortedKeys(tm.Keys)), rm, SortedKeys(rm.Keys))
  }

  /** `merge_diff_map`: joins the base's tokens and the realm's on their
      keys.  The realm's tokens are visited by key, which is their order as
      well, since a valid realm holds one token per key. */
  function MergeDiffMap(base: ServerSnapshot, realm: Realm): (r: map<PoolKey, SingleDiff>)
    requires RealmValid(realm)
    ensures Keyed(base.meta.tokenMap) ==>
      forall k :: k in r <==> k in base.meta.tokenMap || k in TokenMap(realm)
    ensures Keyed(base.meta.tokenMap) ==>
      forall k :: k in r ==>
        r[k] == SingleDiff(Lookup(base.meta.tokenMap, k), Lookup(TokenMap(realm), k))
  {
    JoinOnKeys(base.meta.tokenMap, TokenMap(realm));
    JoinTokens(base.meta.tokenMap, TokenMap(realm))
  }

  /** With every token filed under its key, the join pairs each key's base
      token with its realm token. */
  lemma JoinOnKeys(tm: map<PoolKey, PoolToken>, rm: map<PoolKey, PoolToken>)
    requires Keyed(rm)
    ensures var r := JoinTokens(tm, rm);
      Keyed(tm) ==> forall k :: k in r <==> k in tm || k in rm
    ensures var r := JoinTokens(tm, rm);
      Keyed(tm) ==> forall k :: k in r ==> r[k] == SingleDiff(Lookup(tm, k), Lookup(rm, k))
  {
    var withOld := InsertOld(map[], tm, SortedKeys(tm.Keys));
    var r := InsertNew(withOld, rm, SortedKeys(rm.Keys));
    if Keyed(tm) {
      assert forall k :: k in withOld <==> k in tm;
      assert forall k :: k in withOld ==> withOld[k] == SingleDiff(Some(tm[k]), None);
      forall k | k in r
        ensures r[k] == SingleDiff(Lookup(tm, k), Lookup(rm, k))
      {
        if k in rm {
          assert k in SortedKeys(rm.Keys);
        } else {
          assert k !in SortedKeys(rm.Keys);
        }
      }
    }
  }

  // ---------------------------------------------------------------------
  // patch_for_entity and priorities
  // ---------------------------------------------------------------------

  /** The components a base entity holds, if the token's key is mapped to
      a live entity; a mapped but dead entity aborts, as the `assert!` in
      `patches_for_components` does. */
  function OldComponents(base: ServerSnapshot, oldEnt: Option<Entity>): (r: Result<Option<Components>, Fault>)
    ensures r.Err? <==> oldEnt.Some? && oldEnt.value !in base.inner.world.ents
    ensures r.Ok? ==> (r.value.Some? <==> oldEnt.Some?)
    ensures r.Ok? && oldEnt.Some? ==> r.value.value == base.inner.world.ents[oldEnt.value]
  {
    if oldEnt.None? then Ok(None)
    else if oldEnt.value in base.inner.world.ents then Ok(Some(base.inner.world.ents[oldEnt.value]))
    else Err(MissingEntity)
  }

  /** `patch_for_entity`, corrected: the entity action for one key, if the
      client's copy differs from the realm's.  A despawn or an update is
      only sent to a key the snapshot maps, and a spawn carries the whole
      entity, never a difference against the entity it replaces.  Both
      tokens missing and a realm token that is not in use abort. */
  function PatchForEntity(base: ServerSnapshot, realm: Realm, d: SingleDiff): (r: Result<Option<EntityPatch>, Fault>)
    requires RealmValid(realm)
    ensures d.oldToken.None? && d.newToken.None? ==> r == Err(NoToken)
    ensures d.newToken.Some? && !Live(realm.pool, d.newToken.value) ==> r == Err(UnknownToken)
    ensures r.Ok? && r.value.Some? && r.value.value.UpdateEntity? ==>
      d.oldToken == d.newToken && d.oldToken.Some? && Snapshots.EntityForToken(base.inner, d.oldToken.value).Some?
    ensures r.Ok? && r.value == Some(DespawnEntity) ==>
      d.newToken.None? && d.oldToken.Some? && Snapshots.EntityForToken(base.inner, d.oldToken.value).Some?
    ensures r.Ok? && r.value.Some? && r.value.value.SpawnEntity? ==> NoRemove(r.value.value.spawnPatches)
  {
    if d.oldToken.None? && d.newToken.None? then Err(NoToken)
    else
      var oldEnt := if d.oldToken.Some? then Snapshots.EntityForToken(base.inner, d.oldToken.value) else None;
      if d.newToken.None? then
        Ok(if oldEnt.Some? then Some(DespawnEntity) else None)
      else
        var newEnt :- Realms.EntityForToken(realm, d.newToken.value);
        var oldComps :- OldComponents(base, oldEnt);
        var newComps := realm.world.ents[newEnt].comps;
        var update := PatchesForComponents(oldComps, newComps);
        if update == [] then Ok(None)
        else if d.oldToken == d.newToken && oldEnt.Some? then Ok(Some(UpdateEntity(update)))
        else Ok(Some(SpawnEntity(PatchesForComponents(None, newComps))))
  }

  /** The priority gained this diff: by blueprint for a key in the realm,
      the deleted-entity increment for a key that left it. */
  function PriorityInc(realm: Realm, newToken: Option<PoolToken>): (r: Result<u32, Fault>)
    requires RealmValid(realm)
    ensures newToken.None? ==> r == Ok(DeletedPriorityAccum())
    ensures newToken.Some? ==> (r.Ok? <==> Live(realm.pool, newToken.value))
    ensures r.Ok? ==> 1 <= r.value <= 1000
  {
    if newToken.None? then Ok(DeletedPriorityAccum())
    else
      var e :- Realms.EntityForToken(realm, newToken.value);
      CalcPriorityInc(realm, e)
  }

  /** The priority a key's action carries: the base's accumulated priority
      for the key (none counts as 0) plus this diff's increment, saturating. */
  function PriorityFor(base: ServerSnapshot, realm: Realm, d: SingleDiff): (r: Result<u32, Fault>)
    requires RealmValid(realm)
    ensures r.Ok? <==> PriorityInc(realm, d.newToken).Ok?
    ensures r.Ok? ==> PriorityInc(realm, d.newToken).value <= r.value
    ensures r.Ok? && d.oldToken.Some? && d.oldToken.value.key in base.meta.priorityMap ==>
      base.meta.priorityMap[d.oldToken.value.key] <= r.value
    ensures r.Ok? ==>
      var carried := if d.oldToken.Some? && d.oldToken.value.key in base.meta.priorityMap
                     then base.meta.priorityMap[d.oldToken.value.key] else 0;
      r.value == Min(carried + PriorityInc(realm, d.newToken).value, U32_MAX)
  {
    var oldAccum := if d.oldToken.Some? then PriorityAccumForToken(base, d.oldToken.value).GetOr(0) else 0;
    var inc :- PriorityInc(realm, d.newToken);
    Ok(SaturatingAdd(oldAccum, inc))
  }

  /** One iteration of the loop in `prioritized_total_diff`: the key's
      prioritized action, if it needs one. */
  function Candidate(base: ServerSnapshot, realm: Realm, k: PoolKey, d: SingleDiff)
    : (r: Result<Option<PrioritizedAction>, Fault>)
    requires RealmValid(realm)
    ensures r.Ok? <==> PriorityFor(base, realm, d).Ok? && PatchForEntity(base, realm, d).Ok?
    ensures r.Ok? ==> (r.value.Some? <==> PatchForEntity(base, realm, d).value.Some?)
    ensures r.Ok? && r.value.Some? ==>
      && r.value.value.action == DeltaAction(k, PatchForEntity(base, realm, d).value.value)
      && r.value.value.priorityAccum == PriorityFor(base, realm, d).value
  {
    var p :- PriorityFor(base, realm, d);
    var patch :- PatchForEntity(base, realm, d);
    Ok(if patch.Some? then Some(PrioritizedAction(DeltaAction(k, patch.value), p)) else None)
  }

  function KeyOf(a: PrioritizedAction): PoolKey {
    a.action.replKey
  }

  /** Keys strictly increase along the sequence, so no key repeats. */
  predicate IncreasingKeys(ps: seq<PrioritizedAction>) {
    forall i, j :: 0 <= i < j < |ps| ==> KeyOf(ps[i]) < KeyOf(ps[j])
  }

  predicate DistinctKeys(ps: seq<PrioritizedAction>) {
    forall i, j :: 0 <= i < |ps| && 0 <= j < |ps| && KeyOf(ps[i]) == KeyOf(ps[j]) ==> i == j
  }

  /** The loop body of `prioritized_total_diff` for each merged key, in
      key order. */
  function CandidateResults(base: ServerSnapshot, realm: Realm, merged: map<PoolKey, SingleDiff>, ks: seq<PoolKey>)
    : (r: seq<Result<Option<PrioritizedAction>, Fault>>)
    requires RealmValid(realm)
    requires forall k :: k in ks ==> k in merged
    ensures |r| == |ks|
    ensures forall i :: 0 <= i < |ks| ==> r[i] == Candidate(base, realm, ks[i], merged[ks[i]])
    ensures forall i :: 0 <= i < |ks| && r[i].Ok? && r[i].value.Some? ==> KeyOf(r[i].value.value) == ks[i]
  {
    seq(|ks|, i requires 0 <= i < |ks| => Candidate(base, realm, ks[i], merged[ks[i]]))
  }

  /** The loop itself: the candidates in order, the first abort aborting. */
  function Collect(rs: seq<Result<Option<PrioritizedAction>, Fault>>, ks: seq<PoolKey>)
    : (r: Result<seq<PrioritizedAction>, Fault>)
    requires |rs| == |ks|
    requires forall i :: 0 <= i < |ks| && rs[i].Ok? && rs[i].value.Some? ==> KeyOf(rs[i].value.value) == ks[i]
    ensures r.Ok? <==> forall i :: 0 <= i < |rs| ==> rs[i].Ok?
    ensures r.Ok? ==> forall j :: 0 <= j < |r.value| ==> Ok(Some(r.value[j])) in rs && KeyOf(r.value[j]) in ks
    ensures r.Ok? ==> forall i :: 0 <= i < |rs| && rs[i].value.Some? ==> rs[i].value.value in r.value
    ensures r.Ok? && Increasing(ks) ==> IncreasingKeys(r.value)
    ensures r.Ok? ==> |r.value| <= |rs|
    decreases |rs|
  {
    if rs == [] then Ok([])
    else
      var c :- rs[0];
      var rest :- Collect(rs[1..], ks[1..]);
      var out := if c.Some? then [c.value] + rest else rest;
      assert forall i :: 1 <= i < |rs| ==> rs[i] == rs[1..][i - 1];
      assert Increasing(ks) ==> IncreasingKeys(out) by {
        if Increasing(ks) && c.Some? {
          PrependIncreasing(c.value, rest, ks);
        }
      }
      Ok(out)
  }

  lemma PrependIncreasing(c: PrioritizedAction, rest: seq<PrioritizedAction>, ks: seq<PoolKey>)
    requires Increasing(ks) && |ks| > 0 && KeyOf(c) == ks[0]
    requires forall i :: 0 <= i < |rest| ==> KeyOf(rest[i]) in ks[1..]
    requires IncreasingKeys(rest)
    ensures IncreasingKeys([c] + rest)
  {
    var r := [c] + rest;
    forall i, j | 0 <= i < j < |r|
      ensures KeyOf(r[i]) < KeyOf(r[j])
    {
      assert r[j] == rest[j - 1];
      if i == 0 {
        var m :| 0 <= m < |ks[1..]| && ks[1..][m] == KeyOf(rest[j - 1]);
        assert ks[m + 1] == KeyOf(rest[j - 1]);
      } else {
        assert r[i] == rest[i - 1];
      }
    }
  }

  /** The closing `collect` of `prioritized_total_diff`: each merged
      key's newest token. */
  function NewestTokens(merged: map<PoolKey, SingleDiff>): (r: Result<map<PoolKey, PoolToken>, Fault>)
    ensures r.Ok? <==> forall k :: k in merged ==> NewestToken(merged[k]).Ok?
    ensures r.Ok? ==> r.value.Keys == merged.Keys
    ensures r.Ok? ==> forall k :: k in r.value ==> NewestToken(merged[k]) == Ok(r.value[k])
  {
    if forall k :: k in merged ==> NewestToken(merged[k]).Ok? then
      Ok(map k | k in merged :: NewestToken(merged[k]).value)
    else Err(NoToken)
  }

  /** `prioritized_total_diff`: the candidate actions, in key order, and
      the newest token of every merged key. */
  function PrioritizedTotalDiff(base: ServerSnapshot, realm: Realm)
    : (r: Result<(seq<PrioritizedAction>, map<PoolKey, PoolToken>), Fault>)
    requires RealmValid(realm)
    ensures r.Ok? ==> NewestTokens(MergeDiffMap(base, realm)) == Ok(r.value.1)
  {
    var merged := MergeDiffMap(base, realm);
    var ks := SortedKeys(merged.Keys);
    var cands :- Collect(CandidateResults(base, realm, merged, ks), ks);
    var tokenMap :- NewestTokens(merged);
    Ok((cands, tokenMap))
  }

  // ---------------------------------------------------------------------
  // The priority queue
  // ---------------------------------------------------------------------

  predicate NonIncreasing(ps: seq<PrioritizedAction>) {
    forall i, j :: 0 <= i < j < |ps| ==> ps[i].priorityAccum >= ps[j].priorityAccum
  }

  /** Insert after every element of at least the same priority. */
  function InsertByPriority(x: PrioritizedAction, s: seq<PrioritizedAction>): (r: seq<PrioritizedAction>)
    requires NonIncreasing(s)
    ensures NonIncreasing(r)
    ensures multiset(r) == multiset(s) + multiset{x}
    ensures |r| == |s| + 1
  {
    if s == [] then [x]
    else if s[0].priorityAccum < x.priorityAccum then [x] + s
    else
      var rest := InsertByPriority(x, s[1..]);
      ConsKeepsOrder(s[0], rest, s[1..] + [x]);
      assert s == [s[0]] + s[1..];
      [s[0]] + rest
  }

  /** An element at least as urgent as every element of a sorted sequence
      can go in front of it. */
  lemma ConsKeepsOrder(y: PrioritizedAction, rest: seq<PrioritizedAction>, elems: seq<PrioritizedAction>)
    requires NonIncreasing(rest)
    requires multiset(rest) == multiset(elems)
    requires forall i :: 0 <= i < |elems| ==> y.priorityAccum >= elems[i].priorityAccum
    ensures NonIncreasing([y] + rest)
  {
    var r := [y] + rest;
    forall i, j | 0 <= i < j < |r|
      ensures r[i].priorityAccum >= r[j].priorityAccum
    {
      assert r[j] == rest[j - 1];
      if i > 0 {
        assert r[i] == rest[i - 1];
      } else {
        assert rest[j - 1] in multiset(elems);
      }
    }
  }

  /** The order a `BinaryHeap` pops its elements in: highest priority
      first.  Equal priorities keep their order of insertion. */
  function SortByPriority(ps: seq<PrioritizedAction>): (r: seq<PrioritizedAction>)
    ensures NonIncreasing(r)
    ensures multiset(r) == multiset(ps)
    ensures |r| == |ps|
  {
    if ps == [] then []
    else
      var init := ps[..|ps| - 1];
      assert ps == init + [ps[|ps| - 1]];
      InsertByPriority(ps[|ps| - 1], SortByPriority(init))
  }

  /** The actions carried by prioritized actions, in order. */
  function ActionsOf(ps: seq<PrioritizedAction>): (r: seq<DeltaAction>)
    ensures |r| == |ps|
    ensures forall i :: 0 <= i < |ps| ==> r[i] == ps[i].action
  {
    if ps == [] then [] else [ps[0].action] + ActionsOf(ps[1..])
  }

  /** The drain loop of `diff`: each deferred action's priority, by key. */
  function DeferredInto(acc: map<PoolKey, u32>, ps: seq<PrioritizedAction>): (r: map<PoolKey, u32>)
    ensures forall k :: k in r <==> k in acc || exists i :: 0 <= i < |ps| && KeyOf(ps[i]) == k
    ensures DistinctKeys(ps) ==> forall i :: 0 <= i < |ps| ==> r[KeyOf(ps[i])] == ps[i].priorityAccum
    ensures forall k :: k in r && (forall i :: 0 <= i < |ps| ==> KeyOf(ps[i]) != k) ==> r[k] == acc[k]
    decreases |ps|
  {
    if ps == [] then acc
    else
      var r := DeferredInto(acc[KeyOf(ps[0]) := ps[0].priorityAccum], ps[1..]);
      assert forall i :: 1 <= i < |ps| ==> ps[i] == ps[1..][i - 1];
      r
  }

  /** `diff`: the candidates by priority, the first ten sent, the rest
      deferred into the priority map.  The token map still holds every
      merged key; `ServerAugment` trims it. */
  function Diff(base: ServerSnapshot, realm: Realm): (r: Result<ServerDelta, Fault>)
    requires RealmValid(realm)
    ensures r.Ok? ==> |r.value.inner.actions| <= ACTION_LIMIT
    ensures r.Ok? ==> NewestTokens(MergeDiffMap(base, realm)) == Ok(r.value.serverMeta.tokenMap)
  {
    var total :- PrioritizedTotalDiff(base, realm);
    var (cands, tokenMap) := total;
    var sorted := SortByPriority(cands);
    var n := Min(|sorted|, ACTION_LIMIT);
    Ok(ServerDelta(DeltaMsg(ActionsOf(sorted[..n])), Meta(tokenMap, DeferredInto(map[], sorted[n..]))))
  }

  // ---------------------------------------------------------------------
  // Applying a delta
  // ---------------------------------------------------------------------

  /** One action of `Delta::apply`.  A spawn replaces whatever entity the
      key maps; an update or a despawn of a key the snapshot does not map
      aborts on the `unwrap()`, as does patching a dead entity. */
  function ApplyAction(s: Snapshot, a: DeltaAction): (r: Result<Snapshot, Fault>)
    ensures r.Ok? && a.entPatch.DespawnEntity? ==> a.replKey !in r.value.entMap
    ensures r.Ok? && !a.entPatch.DespawnEntity? ==> a.replKey in r.value.entMap
    ensures r.Ok? ==> forall k :: k != a.replKey ==> (k in r.value.entMap <==> k in s.entMap)
    ensures a.replKey !in s.entMap && !a.entPatch.SpawnEntity? ==> r == Err(MissingEntity)
    // every other key keeps its entity
    ensures r.Ok? ==> forall k :: k != a.replKey && k in s.entMap ==> r.value.entMap[k] == s.entMap[k]
    // every entity but the one the key filed keeps its components
    ensures r.Ok? && WorldValid(s.world) ==>
      forall e :: e in s.world.ents && Lookup(s.entMap, a.replKey) != Some(e) ==>
        e in r.value.world.ents && r.value.world.ents[e] == s.world.ents[e]
    // a spawn files a new entity built from its patches, and the old one is gone
    ensures r.Ok? && a.entPatch.SpawnEntity? ==>
      && BuildSpawn(a.entPatch.spawnPatches).Ok?
      && r.value.entMap[a.replKey] in r.value.world.ents
      && r.value.world.ents[r.value.entMap[a.replKey]] == BuildSpawn(a.entPatch.spawnPatches).value
    ensures r.Ok? && a.entPatch.SpawnEntity? && a.replKey in s.entMap && WorldValid(s.world) ==>
      s.entMap[a.replKey] !in r.value.world.ents
    // an update patches the filed entity in place
    ensures r.Ok? && a.entPatch.UpdateEntity? && a.entPatch.updatePatches != [] ==>
      var e := s.entMap[a.replKey];
      && r.value.entMap[a.replKey] == e && e in s.world.ents && e in r.value.world.ents
      && ApplyComponentPatches(s.world.ents[e], a.entPatch.updatePatches) == Ok(r.value.world.ents[e])
    // a despawn removes the filed entity from the world
    ensures r.Ok? && a.entPatch.DespawnEntity? ==> s.entMap[a.replKey] !in r.value.world.ents
  {
    var ent := Lookup(s.entMap, a.replKey);
    match a.entPatch
    case SpawnEntity(ps) =>
      var w :- if ent.Some? then WorldDespawn(s.world, ent.value) else Ok(s.world);
      var c :- BuildSpawn(ps);
      var (w', e) := WorldSpawn(w, c);
      Ok(Snapshot(w', s.entMap[a.replKey := e]))
    case UpdateEntity(ps) =>
      if ent.None? then Err(MissingEntity)
      else if ps == [] then Ok(s)
      else if ent.value !in s.world.ents then Err(MissingEntity)
      else
        var c :- ApplyComponentPatches(s.world.ents[ent.value], ps);
        Ok(Snapshot(World(s.world.ents[ent.value := c], s.world.next), s.entMap))
    case DespawnEntity =>
      if ent.None? then Err(MissingEntity)
      else
        var w :- WorldDespawn(s.world, ent.value);
        Ok(Snapshot(w, s.entMap - {a.replKey}))
  }

  function ApplyActions(s: Snapshot, acts: seq<DeltaAction>): (r: Result<Snapshot, Fault>)
    ensures acts == [] ==> r == Ok(s)
    // a key that no action names keeps its entity
    ensures r.Ok? ==> forall k :: k in s.entMap && (forall i :: 0 <= i < |acts| ==> acts[i].replKey != k) ==>
      k in r.value.entMap && r.value.entMap[k] == s.entMap[k]
    // the last action decides whether its key stays filed
    ensures r.Ok? && acts != [] ==>
      (acts[|acts| - 1].replKey in r.value.entMap <==> !acts[|acts| - 1].entPatch.DespawnEntity?)
    // the batch succeeds only if its first action does
    ensures r.Ok? && acts != [] ==> ApplyAction(s, acts[0]).Ok?
    decreases |acts|
  {
    if acts == [] then Ok(s)
    else
      var s' :- ApplyAction(s, acts[0]);
      var r := ApplyActions(s', acts[1..]);
      assert forall i :: 1 <= i < |acts| ==> acts[i] == acts[1..][i - 1];
      r
  }

  /** `Delta::apply`: the actions in order, onto a copy of the snapshot. */
  function Apply(d: DeltaMsg, onto: Snapshot): (r: Result<Snapshot, Fault>)
    ensures r == ApplyActions(onto, d.actions)
  {
    ApplyActions(CloneMut(onto), d.actions)
  }

  /** `apply_server`: apply, then attach the delta's metadata. */
  function ApplyServer(d: ServerDelta, to: ServerSnapshot): (r: Result<ServerSnapshot, Fault>)
    ensures r.Ok? <==> Apply(d.inner, to.inner).Ok?
    ensures r.Ok? ==> r.value == ServerAugment(Apply(d.inner, to.inner).value, d.serverMeta)
  {
    var s :- Apply(d.inner, to.inner);
    Ok(ServerAugment(s, d.serverMeta))
  }
}
