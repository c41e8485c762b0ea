/** What the server believes a client holds (archive-engine/src/ecs/snapshot.rs).

    A snapshot is a world of replicated components with a map from
    replication keys to its entities.  The server side adds the token last
    sent for each key and the priority accumulated by keys whose changes
    were deferred. */
module Snapshots {
  import opened Common
  import opened TokenPool
  import opened Ecs

  datatype Snapshot = Snapshot(world: World<Components>, entMap: map<PoolKey, Entity>)

  /** `ServerSnapshotMeta`. */
  datatype Meta = Meta(tokenMap: map<PoolKey, PoolToken>, priorityMap: map<PoolKey, u32>)

  datatype ServerSnapshot = ServerSnapshot(inner: Snapshot, meta: Meta)

  /** Every mapped key names a live entity, no two keys share one, and
      the world's handles are fresh. */
  ghost predicate SnapshotValid(s: Snapshot) {
    && WorldValid(s.world)
    && (forall k :: k in s.entMap ==> s.entMap[k] in s.world.ents)
    && (forall k1, k2 :: k1 in s.entMap && k2 in s.entMap && k1 != k2 ==> s.entMap[k1] != s.entMap[k2])
  }

  /** Each token is filed under its own key, and every key the snapshot
      maps or has deferred has a token. */
  ghost predicate MetaValid(s: ServerSnapshot) {
    && (forall k :: k in s.meta.tokenMap ==> s.meta.tokenMap[k].key == k)
    && (forall k :: k in s.inner.entMap ==> k in s.meta.tokenMap)
    && (forall k :: k in s.meta.priorityMap ==> k in s.meta.tokenMap)
  }

  ghost predicate ServerValid(s: ServerSnapshot) {
    SnapshotValid(s.inner) && MetaValid(s)
  }

  /** `Snapshot::new`. */
  function NewSnapshot(): (s: Snapshot)
    ensures SnapshotValid(s)
    ensures s.world.ents == map[] && s.entMap == map[]
  {
    Snapshot(NewWorld(), map[])
  }

  /** `ServerSnapshotMeta::new`. */
  function NewMeta(): (m: Meta)
    ensures m.tokenMap == map[] && m.priorityMap == map[]
  {
    Meta(map[], map[])
  }

  /** `ServerSnapshot::new`. */
  function NewServerSnapshot(): (s: ServerSnapshot)
    ensures ServerValid(s)
    ensures s.inner.world.ents == map[] && s.inner.entMap == map[]
    ensures s.meta.tokenMap == map[] && s.meta.priorityMap == map[]
  {
    ServerSnapshot(NewSnapshot(), NewMeta())
  }

  /** `entity_for_token`: looks up the token's key only, so tokens that
      differ in generation resolve to the same entity. */
  function EntityForToken(s: Snapshot, t: PoolToken): (r: Option<Entity>)
    ensures r.Some? <==> t.key in s.entMap
    ensures r.Some? ==> r.value == s.entMap[t.key]
  {
    Lookup(s.entMap, t.key)
  }

  /** A token of any other generation under the same key finds the same
      entity. */
  lemma EntityForTokenIgnoresGeneration(s: Snapshot, t: PoolToken, g: Generation)
    ensures EntityForToken(s, PoolToken(t.key, g)) == EntityForToken(s, t)
  {
  }

  /** `priority_accum_for_token`: likewise by key only. */
  function PriorityAccumForToken(s: ServerSnapshot, t: PoolToken): (r: Option<u32>)
    ensures r.Some? <==> t.key in s.meta.priorityMap
    ensures r.Some? ==> r.value == s.meta.priorityMap[t.key]
  {
    Lookup(s.meta.priorityMap, t.key)
  }

  /** Likewise for the accumulated priority. */
  lemma PriorityAccumIgnoresGeneration(s: ServerSnapshot, t: PoolToken, g: Generation)
    ensures PriorityAccumForToken(s, PoolToken(t.key, g)) == PriorityAccumForToken(s, t)
  {
  }

  /** The components the snapshot holds under a key, if it maps the key. */
  function Slot(s: Snapshot, k: PoolKey): (r: Option<Components>)
    ensures SnapshotValid(s) ==> (r.Some? <==> k in s.entMap)
  {
    if k in s.entMap && s.entMap[k] in s.world.ents then Some(s.world.ents[s.entMap[k]]) else None
  }

  /** What the client sees under a key: a missing entity reads as one
      without components. */
  function View(s: Snapshot, k: PoolKey): Components {
    Slot(s, k).GetOr(Empty)
  }

  /** `server_augment`: attach metadata, first dropping each token whose
      key the snapshot neither maps nor has deferred.  Only `tokenMap`
      entries are deleted; the snapshot and the priorities pass through. */
  function ServerAugment(s: Snapshot, meta: Meta): (r: ServerSnapshot)
    ensures r.inner == s
    ensures r.meta.priorityMap == meta.priorityMap
    ensures forall k :: k in r.meta.tokenMap <==>
      k in meta.tokenMap && (k in s.entMap || k in meta.priorityMap)
    ensures forall k :: k in r.meta.tokenMap ==> r.meta.tokenMap[k] == meta.tokenMap[k]
  {
    var toRemove := set k | k in meta.tokenMap && k !in s.entMap && k !in meta.priorityMap;
    ServerSnapshot(s, Meta(meta.tokenMap - toRemove, meta.priorityMap))
  }

  /** Augmenting with metadata that files every token under its key and
      covers every mapped and deferred key gives valid metadata. */
  lemma AugmentIsValid(s: Snapshot, meta: Meta)
    requires SnapshotValid(s)
    requires forall k :: k in meta.tokenMap ==> meta.tokenMap[k].key == k
    requires forall k :: k in s.entMap ==> k in meta.tokenMap
    requires forall k :: k in meta.priorityMap ==> k in meta.tokenMap
    ensures ServerValid(ServerAugment(s, meta))
  {
  }

  /** `clone_builder`: copy each of the seven components that is present. */
  function CloneBuilder(c: Components): (r: Components)
    ensures forall k :: GetDiff(r, k) == GetDiff(c, k)
    ensures forall k :: GetReplace(r, k) == GetReplace(c, k)
  {
    Components(c.position, c.rotation, c.velocity, c.health, c.camera, c.player, c.bullet)
  }

  /** `clone_mut`: every entity re-built into a new world, `ent_map` copied.
      hecs is assumed to hand the copies their original handles, which is
      what copying `ent_map` verbatim relies on. */
  function CloneMut(s: Snapshot): (r: Snapshot)
    ensures r == s
  {
    var ents := map e | e in s.world.ents :: CloneBuilder(s.world.ents[e]);
    assert forall e :: e in ents ==> ents[e] == s.world.ents[e] by {
      forall e | e in ents
        ensures ents[e] == s.world.ents[e]
      {
        ComponentsExtensional(ents[e], s.world.ents[e]);
      }
    }
    Snapshot(World(ents, s.world.next), s.entMap)
  }

  /** The `clone_mut` test: a snapshot holding one entity with Health 27
      clones to one whose Health values are exactly 27. */
  lemma CloneMutScenario(s: Snapshot)
    requires s == Snapshot(WorldSpawn(NewWorld(), Empty.(health := Some(27))).0, map[])
    ensures var c := CloneMut(s);
      (set e | e in c.world.ents && c.world.ents[e].health.Some? :: c.world.ents[e].health.value) == {27}
  {
    var c := CloneMut(s);
    assert c.world.ents == map[0 := Empty.(health := Some(27))];
    assert 0 in c.world.ents;
  }
}
