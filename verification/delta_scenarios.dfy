/** The delta engine's own tests (archive-engine/src/ecs/delta.rs), as
    lemmas: an empty realm diffs to nothing, and one player spawned and
    later despawned travels to the client as a spawn and then a despawn,
    with nothing sent in between. */
module DeltaScenarios {
  import opened Common
  import opened TokenPool
  import opened Ecs
  import opened Patches
  import opened Realms
  import opened Snapshots
  import opened Delta
  import opened DeltaProofs

  lemma FirstTwoDiffer(ps: seq<PrioritizedAction>)
    requires DistinctKeys(ps) && |ps| > 1
    ensures KeyOf(ps[0]) != KeyOf(ps[1])
  {
  }

  /** Candidates that all share one key are at most one, so the only
      candidate is all that is sent and nothing is deferred. */
  lemma OnlyCandidate(sorted: seq<PrioritizedAction>, n: nat, k: PoolKey, x: PrioritizedAction)
    requires n == Min(|sorted|, ACTION_LIMIT) && DistinctKeys(sorted)
    requires forall i :: 0 <= i < |sorted| ==> KeyOf(sorted[i]) == k
    requires x in sorted
    ensures ActionsOf(sorted[..n]) == [x.action]
    ensures DeferredInto(map[], sorted[n..]) == map[]
  {
    if |sorted| > 1 {
      FirstTwoDiffer(sorted);
      assert false;
    }
    assert sorted == [x];
    assert sorted[..n] == [x] && sorted[n..] == [];
  }

  /** A diff with exactly one candidate, under key `k`, sends exactly that
      candidate's action and defers nothing. */
  lemma OneCandidateDiff(base: ServerSnapshot, realm: Realm, k: PoolKey, x: PrioritizedAction)
    requires ServerValid(base) && RealmValid(realm)
    requires forall j :: j in CandidateMap(base, realm) <==> j == k
    requires CandidateMap(base, realm)[k] == Ok(Some(x))
    ensures Diff(base, realm).Ok?
    ensures Diff(base, realm).value.inner.actions == [x.action]
    ensures Diff(base, realm).value.serverMeta.priorityMap == map[]
  {
    var sorted, n := DiffParts(base, realm);
    OnlyCandidate(sorted, n, k, x);
  }

  /** `test_empty_diff`: a new snapshot against a new realm. */
  lemma EmptyDiffScenario()
    ensures Diff(NewServerSnapshot(), NewRealm()).Ok?
    ensures Diff(NewServerSnapshot(), NewRealm()).value.inner.actions == []
  {
    var base := NewServerSnapshot();
    var realm := NewRealm();
    assert forall k :: Synced(base, realm, k);
    SyncedDiffIsEmpty(base, realm);
  }

  /** The player bundle of `test_spawn_despawn`: a position and the
      player's `Replicated` marker. */
  function PlayerAt(pa: int): RealmEntity {
    RealmEntity(Empty.(position := Some(pa)), Some(Replicated(Some(PlayerBlueprint))))
  }

  /** `realm.spawn((pos_a, R_PLAYER))` on a new realm: the player takes
      the pool's first token, `(0, 0)`, and shows its components under
      key 0; despawning it again leaves no key in use. */
  function PlayerRealm(pa: int): (r: (Realm, Entity))
    ensures RealmValid(r.0)
    ensures TokenMap(r.0) == map[0 := PoolToken(0, 0)]
    ensures RealmView(r.0, 0) == PlayerAt(pa).comps
    ensures Despawn(r.0, r.1).Ok? && TokenMap(Despawn(r.0, r.1).value) == map[]
  {
    FirstSpawn(PlayerAt(pa));
    Spawn(NewRealm(), PlayerAt(pa)).value
  }

  /** The first replicated entity spawned into a new realm takes token
      `(0, 0)` and shows its components under key 0; despawning it again
      leaves no key in use. */
  lemma FirstSpawn(b: RealmEntity)
    requires b.replicated.Some?
    ensures Spawn(NewRealm(), b).Ok?
    ensures var (realm, e) := Spawn(NewRealm(), b).value;
      && TokenMap(realm) == map[0 := PoolToken(0, 0)]
      && RealmView(realm, 0) == b.comps
      && Despawn(realm, e).Ok? && TokenMap(Despawn(realm, e).value) == map[]
  {
    var (realm, e) := Spawn(NewRealm(), b).value;
    var t := PoolToken(0, 0);
    assert Alloc(TokenPool.New()).value.0 == t;
    assert realm.left == map[t := e];
    SpawnThenDespawn(NewRealm(), b);
  }

  /** The realm after `realm.despawn(ent)`. */
  function PlayerGone(pa: int): (r: Realm)
    ensures RealmValid(r) && TokenMap(r) == map[]
  {
    Despawn(PlayerRealm(pa).0, PlayerRealm(pa).1).value
  }

  /** Against a new snapshot, a realm using only key 0 has one candidate:
      a spawn of its components. */
  lemma FreshCandidate(realm: Realm, t: PoolToken)
    requires RealmValid(realm)
    requires TokenMap(realm) == map[0 := t]
    requires RealmView(realm, 0) != Empty
    ensures var cm := CandidateMap(NewServerSnapshot(), realm);
      && (forall j :: j in cm <==> j == 0)
      && cm[0].Ok? && cm[0].value.Some?
      && cm[0].value.value.action == DeltaAction(0, SpawnEntity(PatchesForComponents(None, RealmView(realm, 0))))
  {
    var base := NewServerSnapshot();
    var merged := MergeDiffMap(base, realm);
    assert forall j :: j in merged <==> j == 0;
    var d := merged[0];
    assert d == SingleDiff(None, Some(t));
    PatchWhenLive(base, realm, d, 0);
  }

  /** Spawning the player from scratch takes one patch, its position. */
  lemma PlayerPatches(pa: int)
    ensures PatchesForComponents(None, PlayerAt(pa).comps) == [DiffComponent(Position, pa)]
  {
  }

  /** The first diff of `test_spawn_despawn`: a realm holding one player
      diffs against a new snapshot to one action spawning the player's
      position under key 0, and defers nothing. */
  lemma SpawnScenario(pa: int)
    ensures var realm := PlayerRealm(pa).0;
      && Diff(NewServerSnapshot(), realm).Ok?
      && Diff(NewServerSnapshot(), realm).value.inner.actions ==
           [DeltaAction(0, SpawnEntity([DiffComponent(Position, pa)]))]
      && Diff(NewServerSnapshot(), realm).value.serverMeta.priorityMap == map[]
  {
    var realm := PlayerRealm(pa).0;
    FreshCandidate(realm, PoolToken(0, 0));
    PlayerPatches(pa);
    OneCandidateDiff(NewServerSnapshot(), realm, 0, CandidateMap(NewServerSnapshot(), realm)[0].value.value);
  }

  /** `midpoint`: the client's snapshot once the first diff is applied
      to a new one; it is synced with the player's realm on every key. */
  function Midpoint(pa: int): (r: ServerSnapshot)
    ensures var base := NewServerSnapshot();
      && Diff(base, PlayerRealm(pa).0).Ok?
      && ApplyServer(Diff(base, PlayerRealm(pa).0).value, base) == Ok(r)
    ensures ServerValid(r) && r.meta.priorityMap == map[]
    ensures forall k :: Synced(r, PlayerRealm(pa).0, k)
  {
    SpawnScenario(pa);
    DiffApplySyncs(NewServerSnapshot(), PlayerRealm(pa).0);
    ApplyServer(Diff(NewServerSnapshot(), PlayerRealm(pa).0).value, NewServerSnapshot()).value
  }

  /** `test_spawn_despawn`, second diff: the midpoint is up to date, so
      diffing it again sends nothing. */
  lemma MidpointScenario(pa: int)
    ensures Diff(Midpoint(pa), PlayerRealm(pa).0).Ok?
    ensures Diff(Midpoint(pa), PlayerRealm(pa).0).value.inner.actions == []
  {
    SyncedDiffIsEmpty(Midpoint(pa), PlayerRealm(pa).0);
  }

  /** `test_spawn_despawn`, third diff: once the player is despawned, the
      new snapshot is up to date with the realm. */
  lemma DespawnFromBaseScenario(pa: int)
    ensures Diff(NewServerSnapshot(), PlayerGone(pa)).Ok?
    ensures Diff(NewServerSnapshot(), PlayerGone(pa)).value.inner.actions == []
  {
    var base := NewServerSnapshot();
    var gone := PlayerGone(pa);
    assert forall k :: Synced(base, gone, k);
    SyncedDiffIsEmpty(base, gone);
  }

  /** `test_spawn_despawn`, last diff: the midpoint still holds the
      player, so once the player is despawned diffing it sends one
      despawn of key 0. */
  lemma DespawnFromMidpointScenario(pa: int)
    ensures Diff(Midpoint(pa), PlayerGone(pa)).Ok?
    ensures Diff(Midpoint(pa), PlayerGone(pa)).value.inner.actions == [DeltaAction(0, DespawnEntity)]
  {
    DespawnFromSynced(Midpoint(pa), PlayerRealm(pa).0, PlayerGone(pa), pa);
  }

  /** A snapshot synced with the player's realm, diffed against a realm
      that uses no key, sends one despawn of key 0. */
  lemma DespawnFromSynced(mid: ServerSnapshot, realm: Realm, gone: Realm, pa: int)
    requires ServerValid(mid) && RealmValid(realm) && RealmValid(gone)
    requires TokenMap(realm) == map[0 := PoolToken(0, 0)] && RealmView(realm, 0) == PlayerAt(pa).comps
    requires forall k :: Synced(mid, realm, k)
    requires TokenMap(gone) == map[]
    ensures Diff(mid, gone).Ok?
    ensures Diff(mid, gone).value.inner.actions == [DeltaAction(0, DespawnEntity)]
  {
    MidHoldsPlayer(mid, realm, pa);
    GoneCandidate(mid, gone, 0);
    OneCandidateDiff(mid, gone, 0, CandidateMap(mid, gone)[0].value.value);
  }

  /** Against a snapshot holding only key `k`, a realm that uses no key
      has one candidate: a despawn of `k`. */
  lemma GoneCandidate(s: ServerSnapshot, realm: Realm, k: PoolKey)
    requires ServerValid(s) && RealmValid(realm)
    requires TokenMap(realm) == map[]
    requires forall j :: j in s.meta.tokenMap <==> j == k
    requires k in s.inner.entMap
    ensures var cm := CandidateMap(s, realm);
      && (forall j :: j in cm <==> j == k)
      && cm[k].Ok? && cm[k].value.Some?
      && cm[k].value.value.action == DeltaAction(k, DespawnEntity)
  {
    var d := MergeDiffMap(s, realm)[k];
    PatchWhenGone(s, realm, d, k);
  }

  /** A snapshot synced on every key with the player's realm holds
      exactly key 0. */
  lemma MidHoldsPlayer(mid: ServerSnapshot, realm: Realm, pa: int)
    requires ServerValid(mid) && RealmValid(realm)
    requires TokenMap(realm) == map[0 := PoolToken(0, 0)] && RealmView(realm, 0) == PlayerAt(pa).comps
    requires forall k :: Synced(mid, realm, k)
    ensures forall j :: j in mid.meta.tokenMap <==> j == 0
    ensures 0 in mid.inner.entMap
  {
    assert Synced(mid, realm, 0);
    forall j
      ensures j in mid.meta.tokenMap <==> j == 0
    {
      assert Synced(mid, realm, j);
    }
  }
}
