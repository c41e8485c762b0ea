/** The replicated components and the entity worlds that hold them.

    Position, Rotation, Velocity and Health are "diff" kinds: a delta sends
    the difference `new - old` and the receiver adds it.  Their arithmetic
    types live outside this model, so their values are integers with
    default 0.  Camera, Player and Bullet are "replace" kinds: a delta sends
    the whole value, which is opaque here. */
module Ecs {
  import opened Common

  datatype DiffKind = Position | Rotation | Velocity | Health

  datatype ReplaceKind = Camera | Player | Bullet

  /** The seven kinds a `RemoveComponent` patch can name. */
  datatype Kind = DiffKindOf(diff: DiffKind) | ReplaceKindOf(replace: ReplaceKind)

  /** The value of a replace kind; only its identity matters. */
  datatype Tag = Tag(data: int)

  /** The replicated components of one entity, each present or absent. */
  datatype Components = Components(
    position: Option<int>,
    rotation: Option<int>,
    velocity: Option<int>,
    health: Option<int>,
    camera: Option<Tag>,
    player: Option<Tag>,
    bullet: Option<Tag>)

  /** An entity without any replicated component. */
  const Empty: Components := Components(None, None, None, None, None, None, None)

  function GetDiff(c: Components, k: DiffKind): Option<int> {
    match k
    case Position => c.position
    case Rotation => c.rotation
    case Velocity => c.velocity
    case Health => c.health
  }

  function SetDiff(c: Components, k: DiffKind, v: Option<int>): (r: Components)
    ensures GetDiff(r, k) == v
    ensures forall k' :: k' != k ==> GetDiff(r, k') == GetDiff(c, k')
    ensures forall k' :: GetReplace(r, k') == GetReplace(c, k')
  {
    match k
    case Position => c.(position := v)
    case Rotation => c.(rotation := v)
    case Velocity => c.(velocity := v)
    case Health => c.(health := v)
  }

  function GetReplace(c: Components, k: ReplaceKind): Option<Tag> {
    match k
    case Camera => c.camera
    case Player => c.player
    case Bullet => c.bullet
  }

  function SetReplace(c: Components, k: ReplaceKind, v: Option<Tag>): (r: Components)
    ensures GetReplace(r, k) == v
    ensures forall k' :: k' != k ==> GetReplace(r, k') == GetReplace(c, k')
    ensures forall k' :: GetDiff(r, k') == GetDiff(c, k')
  {
    match k
    case Camera => c.(camera := v)
    case Player => c.(player := v)
    case Bullet => c.(bullet := v)
  }

  /** Two component records are equal exactly when every kind agrees. */
  lemma ComponentsExtensional(a: Components, b: Components)
    requires forall k :: GetDiff(a, k) == GetDiff(b, k)
    requires forall k :: GetReplace(a, k) == GetReplace(b, k)
    ensures a == b
  {
    assert GetDiff(a, Position) == GetDiff(b, Position);
    assert GetDiff(a, Rotation) == GetDiff(b, Rotation);
    assert GetDiff(a, Velocity) == GetDiff(b, Velocity);
    assert GetDiff(a, Health) == GetDiff(b, Health);
    assert GetReplace(a, Camera) == GetReplace(b, Camera);
    assert GetReplace(a, Player) == GetReplace(b, Player);
    assert GetReplace(a, Bullet) == GetReplace(b, Bullet);
  }

  // ---------------------------------------------------------------------
  // Worlds
  // ---------------------------------------------------------------------

  /** An entity handle.  A world never hands out the same handle twice. */
  type Entity = nat

  /** A world: the live entities with their data, and the next fresh handle. */
  datatype World<C> = World(ents: map<Entity, C>, next: Entity)

  predicate WorldValid<C>(w: World<C>) {
    forall e :: e in w.ents ==> e < w.next
  }

  function NewWorld<C>(): (w: World<C>)
    ensures WorldValid(w) && w.ents == map[]
  {
    World(map[], 0)
  }

  /** `World::spawn`: a fresh entity holding `c`; nothing else changes. */
  function WorldSpawn<C>(w: World<C>, c: C): (r: (World<C>, Entity))
    ensures WorldValid(w) ==> WorldValid(r.0) && r.1 !in w.ents
    ensures r.0.ents == w.ents[r.1 := c]
    ensures r.1 == w.next && r.0.next > r.1
  {
    (World(w.ents[w.next := c], w.next + 1), w.next)
  }

  /** `World::despawn`: fails for an entity that is not live. */
  function WorldDespawn<C>(w: World<C>, e: Entity): (r: Result<World<C>, Fault>)
    ensures r.Ok? <==> e in w.ents
    ensures r.Err? ==> r.error == MissingEntity
    ensures r.Ok? ==> r.value.ents == w.ents - {e} && r.value.next == w.next
    ensures r.Ok? && WorldValid(w) ==> WorldValid(r.value)
  {
    if e in w.ents then Ok(World(w.ents - {e}, w.next)) else Err(MissingEntity)
  }
}
