/** `patch_for_entity` as archive-engine/src/ecs/delta.rs writes it, and
    the three inputs on which it sends the client an action that lands
    wrong or cannot be applied.  The rest of the model uses the corrected
    `Delta.PatchForEntity`; the lemmas here show where the two part ways
    and that the corrected one gets each of these inputs right. */
module DeltaAsWritten {
  import opened Common
  import opened TokenPool
  import opened Ecs
  import opened Patches
  import opened Realms
  import opened Snapshots
  import opened Delta
  import opened DeltaProofs

  /** `patch_for_entity` as written: a key the realm dropped is always
      despawned; otherwise the patches against the client's entity become
      an update when the tokens are equal and a spawn when they are not. */
  function PatchForEntityAsWritten(base: ServerSnapshot, realm: Realm, d: SingleDiff)
    : (r: Result<Option<EntityPatch>, Fault>)
    requires RealmValid(realm)
    ensures d.oldToken.None? && d.newToken.None? ==> r == Err(NoToken)
    ensures d.oldToken.Some? && d.newToken.None? ==> r == Ok(Some(DespawnEntity))
    ensures d.newToken.Some? && !Live(realm.pool, d.newToken.value) ==> r == Err(UnknownToken)
    ensures r.Ok? && r.value.Some? && r.value.value.UpdateEntity? ==> d.oldToken == d.newToken
  {
    if d.oldToken.None? && d.newToken.None? then Err(NoToken)
    else if d.newToken.None? then Ok(Some(DespawnEntity))
    else
      var oldEnt := if d.oldToken.Some? then Snapshots.EntityForToken(base.inner, d.oldToken.value) else None;
      var newEnt :- Realms.EntityForToken(realm, d.newToken.value);
      var oldComps :- OldComponents(base, oldEnt);
      var update := PatchesForComponents(oldComps, realm.world.ents[newEnt].comps);
      if update == [] then Ok(None)
      else if d.oldToken == d.newToken then Ok(Some(UpdateEntity(update)))
      else Ok(Some(SpawnEntity(update)))
  }

  /** The two agree on every key of a valid snapshot that the client
      holds whenever the snapshot has a token for it, and whose token the
      realm did not replace: the three faults below need a respawned key
      or a token the client never received an entity for. */
  lemma AsWrittenAgreesOnSteadyKeys(base: ServerSnapshot, realm: Realm, k: PoolKey)
    requires ServerValid(base) && RealmValid(realm)
    requires k in base.meta.tokenMap ==> k in base.inner.entMap
    requires k in base.meta.tokenMap && k in TokenMap(realm) ==> base.meta.tokenMap[k] == TokenMap(realm)[k]
    ensures var d := SingleDiff(Lookup(base.meta.tokenMap, k), Lookup(TokenMap(realm), k));
      PatchForEntityAsWritten(base, realm, d) == PatchForEntity(base, realm, d)
  {
  }

  // ---------------------------------------------------------------------
  // Respawn under a reused key
  // ---------------------------------------------------------------------

  /** A player at `a`, known to the client as the first generation of key 0. */
  function Player(a: int): Components {
    Empty.(position := Some(a))
  }

  /** Building a spawn from one position patch gives a player there. */
  lemma SpawnAt(x: int)
    ensures BuildSpawn([DiffComponent(Position, x)]) == Ok(Player(x))
  {
    var ps := [DiffComponent(Position, x)];
    assert ps[1..] == [];
    assert BuildPatch(Empty, ps[0]) == Ok(Player(x));
    assert BuildFrom(Player(x), []) == Ok(Player(x));
  }

  /** The client holds key 0's first generation at position `a`. */
  function HoldsFirst(a: int): (s: ServerSnapshot)
    ensures ServerValid(s)
  {
    ServerSnapshot(
      Snapshot(World(map[0 := Player(a)], 1), map[0 := 0]),
      Meta(map[0 := PoolToken(0, 0)], map[]))
  }

  /** The realm after key 0 was freed and taken again: its second
      generation is a player at `b`. */
  function Respawned(b: int): (r: Realm)
    ensures RealmValid(r)
    ensures TokenMap(r) == map[0 := PoolToken(0, 1)]
    ensures RealmView(r, 0) == Player(b)
  {
    var r := Realm(
      World(map[0 := RealmEntity(Player(b), Some(Replicated(Some(PlayerBlueprint))))], 1),
      Pool([1], []),
      map[PoolToken(0, 1) := 0],
      map[0 := PoolToken(0, 1)]);
    assert forall t :: t in r.left <==> Live(r.pool, t);
    assert TokenMap(r) == map[0 := PoolToken(0, 1)];
    r
  }

  /** As written, the respawned player is sent as a spawn carrying the
      difference against the old player, so the client builds it at
      `b - a` instead of `b`. */
  lemma RespawnAsWrittenMisplaces(a: int, b: int)
    requires a != 0 && a != b
    ensures var d := SingleDiff(Some(PoolToken(0, 0)), Some(PoolToken(0, 1)));
      var p := PatchForEntityAsWritten(HoldsFirst(a), Respawned(b), d);
      && p == Ok(Some(SpawnEntity([DiffComponent(Position, b - a)])))
      && ApplyAction(HoldsFirst(a).inner, DeltaAction(0, p.value.value)).Ok?
      && Slot(ApplyAction(HoldsFirst(a).inner, DeltaAction(0, p.value.value)).value, 0) == Some(Player(b - a))
      && Player(b - a) != RealmView(Respawned(b), 0)
  {
    var d := SingleDiff(Some(PoolToken(0, 0)), Some(PoolToken(0, 1)));
    assert Snapshots.EntityForToken(HoldsFirst(a).inner, PoolToken(0, 0)) == Some(0);
    assert PatchesForComponents(Some(Player(a)), Player(b)) == [DiffComponent(Position, b - a)];
    SpawnAt(b - a);
  }

  /** Corrected, the respawn carries the whole player and lands at `b`. */
  lemma RespawnCorrectedLands(a: int, b: int)
    requires a != b
    ensures var d := SingleDiff(Some(PoolToken(0, 0)), Some(PoolToken(0, 1)));
      var p := PatchForEntity(HoldsFirst(a), Respawned(b), d);
      && p == Ok(Some(SpawnEntity([DiffComponent(Position, b)])))
      && ApplyAction(HoldsFirst(a).inner, DeltaAction(0, p.value.value)).Ok?
      && Slot(ApplyAction(HoldsFirst(a).inner, DeltaAction(0, p.value.value)).value, 0) == Some(RealmView(Respawned(b), 0))
  {
    assert Snapshots.EntityForToken(HoldsFirst(a).inner, PoolToken(0, 0)) == Some(0);
    assert PatchesForComponents(Some(Player(a)), Player(b)) != [];
    assert PatchesForComponents(None, Player(b)) == [DiffComponent(Position, b)];
    SpawnAt(b);
  }

  // ---------------------------------------------------------------------
  // A deferred spawn
  // ---------------------------------------------------------------------

  /** The client was never sent key 0: its spawn was deferred with
      priority `p`, so the snapshot has key 0's token but no entity. */
  function Deferred(p: u32): (s: ServerSnapshot)
    ensures ServerValid(s)
  {
    ServerSnapshot(NewSnapshot(), Meta(map[0 := PoolToken(0, 0)], map[0 := p]))
  }

  /** The realm still holds key 0's first generation, a player at `b`. */
  function StillThere(b: int): (r: Realm)
    ensures RealmValid(r)
    ensures TokenMap(r) == map[0 := PoolToken(0, 0)]
    ensures RealmView(r, 0) == Player(b)
  {
    var r := Realm(
      World(map[0 := RealmEntity(Player(b), Some(Replicated(Some(PlayerBlueprint))))], 1),
      Pool([0], []),
      map[PoolToken(0, 0) := 0],
      map[0 := PoolToken(0, 0)]);
    assert forall t :: t in r.left <==> Live(r.pool, t);
    assert TokenMap(r) == map[0 := PoolToken(0, 0)];
    r
  }

  /** As written, the deferred spawn is later sent as an update, which
      the client cannot apply: it has no entity under key 0. */
  lemma DeferredSpawnAsWrittenUpdates(p: u32, b: int)
    requires b != 0
    ensures var d := SingleDiff(Some(PoolToken(0, 0)), Some(PoolToken(0, 0)));
      var patch := PatchForEntityAsWritten(Deferred(p), StillThere(b), d);
      && patch == Ok(Some(UpdateEntity([DiffComponent(Position, b)])))
      && ApplyAction(Deferred(p).inner, DeltaAction(0, patch.value.value)) == Err(MissingEntity)
  {
    assert PatchesForComponents(None, Player(b)) == [DiffComponent(Position, b)];
  }

  /** Corrected, the deferred spawn is sent as a spawn and lands. */
  lemma DeferredSpawnCorrectedSpawns(p: u32, b: int)
    requires b != 0
    ensures var d := SingleDiff(Some(PoolToken(0, 0)), Some(PoolToken(0, 0)));
      var patch := PatchForEntity(Deferred(p), StillThere(b), d);
      && patch == Ok(Some(SpawnEntity([DiffComponent(Position, b)])))
      && ApplyAction(Deferred(p).inner, DeltaAction(0, patch.value.value)).Ok?
      && Slot(ApplyAction(Deferred(p).inner, DeltaAction(0, patch.value.value)).value, 0) == Some(RealmView(StillThere(b), 0))
  {
    assert PatchesForComponents(None, Player(b)) == [DiffComponent(Position, b)];
    SpawnAt(b);
  }

  /** As written, a deferred spawn whose entity is gone from the realm is
      sent as a despawn, which the client cannot apply either. */
  lemma DeferredSpawnAsWrittenDespawns(p: u32)
    ensures var d := SingleDiff(Some(PoolToken(0, 0)), None);
      var patch := PatchForEntityAsWritten(Deferred(p), NewRealm(), d);
      && patch == Ok(Some(DespawnEntity))
      && ApplyAction(Deferred(p).inner, DeltaAction(0, patch.value.value)) == Err(MissingEntity)
  {
  }

  /** Corrected, nothing is sent for it: the client never had it. */
  lemma DeferredSpawnCorrectedSkips(p: u32)
    ensures PatchForEntity(Deferred(p), NewRealm(), SingleDiff(Some(PoolToken(0, 0)), None)) == Ok(None)
  {
  }
}
