/** The authoritative server world (archive-engine/src/ecs/realm.rs).

    A realm holds its entities, a token pool, and a bimap between the pool
    tokens in use and the replicated entities.  `Spawn` and `Despawn` keep
    the three in step; `RealmValid` states how. */
module Realms {
  import opened Common
  import opened TokenPool
  import opened Ecs

  datatype Blueprint = PlayerBlueprint | BulletBlueprint | StaticBlueprint

  /** The `Replicated` component: present on exactly the entities that are
      sent to clients. */
  datatype Replicated = Replicated(blueprint: Option<Blueprint>)

  /** A realm entity: its replicated components and its `Replicated` marker. */
  datatype RealmEntity = RealmEntity(comps: Components, replicated: Option<Replicated>)

  /** `Realm` without the tick counter and the client map, which the
      replication core does not read.  `left` and `right` are the two sides
      of the `ent_map` bimap. */
  datatype Realm = Realm(
    world: World<RealmEntity>,
    pool: Pool,
    left: map<PoolToken, Entity>,
    right: map<Entity, PoolToken>)

  /** The two sides of a bimap are inverse to each other. */
  predicate BiMap(left: map<PoolToken, Entity>, right: map<Entity, PoolToken>) {
    && (forall t :: t in left ==> left[t] in right && right[left[t]] == t)
    && (forall e :: e in right ==> right[e] in left && left[right[e]] == e)
  }

  /** `BiBTreeMap::insert`: any pair sharing the token or the entity is
      dropped, then the new pair is recorded. */
  function BiInsert(left: map<PoolToken, Entity>, right: map<Entity, PoolToken>, t: PoolToken, e: Entity)
    : (r: (map<PoolToken, Entity>, map<Entity, PoolToken>))
    requires BiMap(left, right)
    ensures BiMap(r.0, r.1)
    ensures t in r.0 && r.0[t] == e
    ensures forall t' :: t' != t ==> (t' in r.0 <==> t' in left && left[t'] != e)
    ensures forall t' :: t' in r.0 && t' != t ==> r.0[t'] == left[t']
    ensures t !in left && e !in right ==> r == (left[t := e], right[e := t])
  {
    var l1 := if t in left then left - {t} else left;
    var r1 := if t in left then right - {left[t]} else right;
    assert BiMap(l1, r1) && t !in l1;
    var l2 := if e in r1 then l1 - {r1[e]} else l1;
    var r2 := r1 - {e};
    assert BiMap(l2, r2) && t !in l2 && e !in r2;
    assert forall t' :: t' in l2 <==> t' in left && t' != t && left[t'] != e;
    assert forall t' :: t' in l2 ==> l2[t'] == left[t'];
    assert t !in left && e !in right ==> l2 == left && r2 == right;
    (l2[t := e], r2[e := t])
  }

  /** What `spawn` and `despawn` maintain: the bimap relates exactly the
      live pool tokens to exactly the live replicated entities. */
  ghost predicate RealmValid(r: Realm) {
    && WorldValid(r.world)
    && TokenPool.Valid(r.pool) && NoDuplicates(r.pool)
    && BiMap(r.left, r.right)
    && (forall e :: e in r.right <==> e in r.world.ents && r.world.ents[e].replicated.Some?)
    && (forall t :: t in r.left <==> Live(r.pool, t))
  }

  function NewRealm(): (r: Realm)
    ensures RealmValid(r)
    ensures r.world.ents == map[] && r.left == map[] && r.right == map[]
  {
    Realm(NewWorld(), TokenPool.New(), map[], map[])
  }

  /** `spawn`: a fresh entity; a replicated one also takes a fresh token
      from the pool, which aborts when the pool's keys are exhausted. */
  function Spawn(r: Realm, bundle: RealmEntity): (res: Result<(Realm, Entity), Fault>)
    requires RealmValid(r)
    ensures res.Err? <==> bundle.replicated.Some? && Alloc(r.pool).Err?
    ensures res.Err? ==> res.error == KeysExhausted
    ensures res.Ok? ==>
      var (r', e) := res.value;
      && RealmValid(r')
      && e !in r.world.ents
      && r'.world.ents == r.world.ents[e := bundle]
    ensures res.Ok? && bundle.replicated.None? ==>
      var r' := res.value.0;
      r'.pool == r.pool && r'.left == r.left && r'.right == r.right
    ensures res.Ok? && bundle.replicated.Some? ==>
      var (r', e) := res.value;
      var (t, p') := Alloc(r.pool).value;
      && t !in r.left
      && r'.pool == p'
      && r'.left == r.left[t := e] && r'.right == r.right[e := t]
  {
    var (w, e) := WorldSpawn(r.world, bundle);
    if bundle.replicated.Some? then
      var taken :- Alloc(r.pool);
      var (t, pool) := taken;
      AllocMakesLive(r.pool);
      var (left, right) := BiInsert(r.left, r.right, t, e);
      var r' := Realm(w, pool, left, right);
      assert forall t' :: t' in left <==> Live(pool, t') by {
        forall t' ensures t' in left <==> Live(pool, t') {
          if t' != t {
            assert t' in left <==> t' in r.left;
          }
        }
      }
      Ok((r', e))
    else
      Ok((Realm(w, r.pool, r.left, r.right), e))
  }

  /** `despawn`: an entity that is not live aborts ("missing ent"); a
      replicated one gives its token back to the pool and leaves the
      bimap; every live entity leaves the world. */
  function Despawn(r: Realm, e: Entity): (res: Result<Realm, Fault>)
    requires RealmValid(r)
    ensures res.Ok? <==> e in r.world.ents
    ensures res.Err? ==> res.error == MissingEntity
    ensures res.Ok? ==>
      && RealmValid(res.value)
      && res.value.world.ents == r.world.ents - {e}
    ensures res.Ok? && r.world.ents[e].replicated.None? ==>
      res.value.pool == r.pool && res.value.left == r.left && res.value.right == r.right
    ensures res.Ok? && r.world.ents[e].replicated.Some? ==>
      var t := r.right[e];
      && Free(r.pool, t) == Ok(res.value.pool)
      && res.value.left == r.left - {t} && res.value.right == r.right - {e}
  {
    if e !in r.world.ents then Err(MissingEntity)
    else
      var w := WorldDespawn(r.world, e).value;
      if r.world.ents[e].replicated.Some? then
        var t := r.right[e];
        FreeEndsLive(r.pool, t);
        var pool := Free(r.pool, t).value;
        Ok(Realm(w, pool, r.left - {t}, r.right - {e}))
      else
        Ok(Realm(w, r.pool, r.left, r.right))
  }

  /** `entity_for_token`: the entity of a token in use; any other token,
      including an outdated generation of a live key, aborts. */
  function EntityForToken(r: Realm, t: PoolToken): (res: Result<Entity, Fault>)
    requires RealmValid(r)
    ensures res.Ok? <==> Live(r.pool, t)
    ensures res.Err? ==> res.error == UnknownToken
    ensures res.Ok? ==>
      && res.value in r.world.ents
      && r.world.ents[res.value].replicated.Some?
      && r.right[res.value] == t
  {
    if t in r.left then Ok(r.left[t]) else Err(UnknownToken)
  }

  /** `calc_priority_inc`: the priority a replicated entity gains per
      diff, by blueprint; a missing or unreplicated entity aborts. */
  function CalcPriorityInc(r: Realm, e: Entity): (res: Result<u32, Fault>)
    ensures e !in r.world.ents <==> res == Err(MissingEntity)
    ensures e in r.world.ents && r.world.ents[e].replicated.None? <==> res == Err(NotReplicated)
    ensures e in r.world.ents && r.world.ents[e].replicated.Some? <==> res.Ok?
    ensures res.Ok? ==> 1 <= res.value <= 1000
    ensures res.Ok? ==>
      var bp := r.world.ents[e].replicated.value.blueprint;
      && (bp.None? ==> res.value == 1)
      && (bp == Some(PlayerBlueprint) ==> res.value == 1000)
      && (bp == Some(BulletBlueprint) ==> res.value == 100)
      && (bp == Some(StaticBlueprint) ==> res.value == 10)
  {
    if e !in r.world.ents then Err(MissingEntity)
    else match r.world.ents[e].replicated
      case None => Err(NotReplicated)
      case Some(Replicated(None)) => Ok(1)
      case Some(Replicated(Some(PlayerBlueprint))) => Ok(1000)
      case Some(Replicated(Some(BulletBlueprint))) => Ok(100)
      case Some(Replicated(Some(StaticBlueprint))) => Ok(10)
  }

  /** `calc_deleted_priority_accum`: the increment for a despawned key. */
  function DeletedPriorityAccum(): (p: u32)
    ensures p == 10
  {
    10
  }

  /** Every replicated entity of a valid realm has a priority increment. */
  lemma ReplicatedHasPriority(r: Realm, t: PoolToken)
    requires RealmValid(r) && t in r.left
    ensures EntityForToken(r, t).Ok?
    ensures CalcPriorityInc(r, EntityForToken(r, t).value).Ok?
  {
  }

  /** The realm's tokens in use, by key: `left_values()` as the delta
      engine reads it.  Each live key has one live token. */
  function TokenMap(r: Realm): (m: map<PoolKey, PoolToken>)
    requires RealmValid(r)
    ensures forall k :: k in m ==> m[k] in r.left && m[k].key == k
    ensures forall t :: t in r.left ==> t.key in m && m[t.key] == t
  {
    map t | t in r.left :: t.key := t
  }

  /** The replicated components the realm holds under a key, or no
      component at all when the key is not in use. */
  function RealmView(r: Realm, k: PoolKey): Components
    requires RealmValid(r)
  {
    var m := TokenMap(r);
    if k in m then r.world.ents[r.left[m[k]]].comps else Empty
  }

  // ---------------------------------------------------------------------
  // Sequences of operations
  // ---------------------------------------------------------------------

  datatype RealmOp = SpawnOp(bundle: RealmEntity) | DespawnOp(entity: Entity)

  function Step(r: Realm, op: RealmOp): (res: Result<Realm, Fault>)
    requires RealmValid(r)
    ensures res.Ok? ==> RealmValid(res.value)
  {
    match op
    case SpawnOp(b) => var (r', _) :- Spawn(r, b); Ok(r')
    case DespawnOp(e) => Despawn(r, e)
  }

  /** A realm after a sequence of spawns and despawns, aborting at the
      first abort. */
  function Run(r: Realm, ops: seq<RealmOp>): Result<Realm, Fault>
    requires RealmValid(r)
    decreases |ops|
  {
    if ops == [] then Ok(r)
    else
      var r' :- Step(r, ops[0]);
      Run(r', ops[1..])
  }

  /** The bimap stays a bijection between live tokens and live replicated
      entities across any sequence of operations from a new realm. */
  lemma {:induction false} RunKeepsValid(r: Realm, ops: seq<RealmOp>)
    requires RealmValid(r)
    ensures Run(r, ops).Ok? ==> RealmValid(Run(r, ops).value)
    decreases |ops|
  {
    if ops != [] {
      var s := Step(r, ops[0]);
      if s.Ok? {
        RunKeepsValid(s.value, ops[1..]);
      }
    }
  }

  lemma MapUpdateRemove<K, V>(m: map<K, V>, k: K, v: V)
    requires k !in m
    ensures m[k := v] - {k} == m
  {
  }

  /** Despawning what was just spawned restores the world and the bimap;
      only the pool remembers, with the key's generation bumped. */
  lemma SpawnThenDespawn(r: Realm, b: RealmEntity)
    requires RealmValid(r)
    requires Spawn(r, b).Ok?
    ensures
      var (r1, e) := Spawn(r, b).value;
      var r2 := Despawn(r1, e);
      && r2.Ok?
      && r2.value.world.ents == r.world.ents
      && r2.value.left == r.left && r2.value.right == r.right
  {
    var (r1, e) := Spawn(r, b).value;
    assert e in r1.world.ents;
    var r2 := Despawn(r1, e).value;
    assert e !in r.right;
    assert r2.world.ents == r1.world.ents - {e};
    MapUpdateRemove(r.world.ents, e, b);
    assert r2.world.ents == r.world.ents;
    if b.replicated.Some? {
      var t := Alloc(r.pool).value.0;
      assert t !in r.left && r1.left == r.left[t := e] && r1.right == r.right[e := t];
      assert r1.right[e] == t;
      assert r2.left == r1.left - {t};
      assert r2.right == r1.right - {e};
      MapUpdateRemove(r.left, t, e);
      MapUpdateRemove(r.right, e, t);
    }
  }
}
