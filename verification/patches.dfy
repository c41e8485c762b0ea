/** Per-component patches (archive-engine/src/ecs/delta.rs): how a delta
    describes the change of one entity's components, and the two ways the
    receiver applies such a description, to a live entity (`UpdateEntity`)
    or to a fresh one (`SpawnEntity`). */
module Patches {
  import opened Common
  import opened Ecs

  /** `DeltaComponentPatch` with its `DeltaDiff`, `DeltaReplace` and
      `DeltaRemove` payloads. */
  datatype ComponentPatch =
    | DiffComponent(diffKind: DiffKind, amount: int)
    | ReplaceComponent(replaceKind: ReplaceKind, value: Tag)
    | RemoveComponent(kind: Kind)

  predicate NoRemove(ps: seq<ComponentPatch>) {
    forall i :: 0 <= i < |ps| ==> !ps[i].RemoveComponent?
  }

  // ---------------------------------------------------------------------
  // Building patches
  // ---------------------------------------------------------------------

  /** One step of `standard_diff!`: nothing when the values agree; the
      difference from the old value (or from the default 0) when the new
      value is present; a removal otherwise. */
  function DiffPatch(k: DiffKind, before: Option<int>, after: Option<int>): (r: seq<ComponentPatch>)
    ensures |r| <= 1
    ensures r == [] <==> before == after
    ensures before.None? ==> NoRemove(r)
  {
    if before == after then []
    else if after.Some? then [DiffComponent(k, after.value - before.GetOr(0))]
    else [RemoveComponent(DiffKindOf(k))]
  }

  /** One step of `standard_replace!`: the whole new value, or a removal. */
  function ReplacePatch(k: ReplaceKind, before: Option<Tag>, after: Option<Tag>): (r: seq<ComponentPatch>)
    ensures |r| <= 1
    ensures r == [] <==> before == after
    ensures before.None? ==> NoRemove(r)
  {
    if before == after then []
    else if after.Some? then [ReplaceComponent(k, after.value)]
    else [RemoveComponent(ReplaceKindOf(k))]
  }

  /** `patches_for_components`: the patches turning the old entity (None
      for no entity, which reads as every component absent) into the new
      one, in the order Position, Rotation, Velocity, Health, Camera,
      Player, Bullet. */
  function PatchesForComponents(before: Option<Components>, after: Components): (r: seq<ComponentPatch>)
    ensures |r| <= 7
    ensures r == [] <==> before.GetOr(Empty) == after
    ensures before.None? ==> NoRemove(r)
  {
    var o := before.GetOr(Empty);
    var r :=
      DiffPatch(Position, o.position, after.position) +
      DiffPatch(Rotation, o.rotation, after.rotation) +
      DiffPatch(Velocity, o.velocity, after.velocity) +
      DiffPatch(Health, o.health, after.health) +
      ReplacePatch(Camera, o.camera, after.camera) +
      ReplacePatch(Player, o.player, after.player) +
      ReplacePatch(Bullet, o.bullet, after.bullet);
    assert r == [] <==> o == after;
    r
  }

  // ---------------------------------------------------------------------
  // Applying patches
  // ---------------------------------------------------------------------

  /** Whether a component of the given kind is present. */
  predicate Has(c: Components, k: Kind) {
    match k
    case DiffKindOf(d) => GetDiff(c, d).Some?
    case ReplaceKindOf(p) => GetReplace(c, p).Some?
  }

  /** The record with the given kind absent. */
  function Without(c: Components, k: Kind): Components {
    match k
    case DiffKindOf(d) => SetDiff(c, d, None)
    case ReplaceKindOf(p) => SetReplace(c, p, None)
  }

  /** One patch of `apply_component_patches`: a diff is added to the
      present value or inserted as the value; a replace overwrites or
      inserts; removing an absent component aborts (`remove_one` fails). */
  function ApplyPatch(c: Components, p: ComponentPatch): (r: Result<Components, Fault>)
    ensures r.Err? <==> p.RemoveComponent? && !Has(c, p.kind)
    ensures r.Err? ==> r.error == MissingComponent
    ensures p.DiffComponent? ==>
      r == Ok(SetDiff(c, p.diffKind, Some(GetDiff(c, p.diffKind).GetOr(0) + p.amount)))
    ensures p.ReplaceComponent? ==> r == Ok(SetReplace(c, p.replaceKind, Some(p.value)))
    ensures p.RemoveComponent? && Has(c, p.kind) ==> r == Ok(Without(c, p.kind))
  {
    match p
    case DiffComponent(k, amount) =>
      (match GetDiff(c, k)
       case Some(v) => Ok(SetDiff(c, k, Some(v + amount)))
       case None => Ok(SetDiff(c, k, Some(amount))))
    case ReplaceComponent(k, value) => Ok(SetReplace(c, k, Some(value)))
    case RemoveComponent(k) => if Has(c, k) then Ok(Without(c, k)) else Err(MissingComponent)
  }

  /** `apply_component_patches` on the components of one live entity: the
      patches in order, stopping at the first that aborts. */
  function ApplyComponentPatches(c: Components, ps: seq<ComponentPatch>): (r: Result<Components, Fault>)
    ensures NoRemove(ps) ==> r.Ok?
    ensures r.Err? ==> r.error == MissingComponent
    decreases |ps|
  {
    if ps == [] then Ok(c)
    else
      var c' :- ApplyPatch(c, ps[0]);
      ApplyComponentPatches(c', ps[1..])
  }

  /** One patch of `build_spawn`: a diff or a replace payload is added to
      the builder as the component's value; a removal is `unreachable!()`. */
  function BuildPatch(c: Components, p: ComponentPatch): (r: Result<Components, Fault>)
    ensures r.Err? <==> p.RemoveComponent?
    ensures r.Err? ==> r.error == UnreachablePatch
    ensures p.DiffComponent? ==> r == Ok(SetDiff(c, p.diffKind, Some(p.amount)))
    ensures p.ReplaceComponent? ==> r == Ok(SetReplace(c, p.replaceKind, Some(p.value)))
  {
    match p
    case DiffComponent(k, amount) => Ok(SetDiff(c, k, Some(amount)))
    case ReplaceComponent(k, value) => Ok(SetReplace(c, k, Some(value)))
    case RemoveComponent(_) => Err(UnreachablePatch)
  }

  function BuildFrom(c: Components, ps: seq<ComponentPatch>): (r: Result<Components, Fault>)
    ensures r.Ok? <==> NoRemove(ps)
    ensures r.Err? ==> r.error == UnreachablePatch
    decreases |ps|
  {
    if ps == [] then Ok(c)
    else
      var c' :- BuildPatch(c, ps[0]);
      BuildFrom(c', ps[1..])
  }

  /** `build_spawn`: the components of a fresh entity, from no component
      at all; aborts on a removal. */
  function BuildSpawn(ps: seq<ComponentPatch>): (r: Result<Components, Fault>)
    ensures r.Ok? <==> NoRemove(ps)
    ensures r.Err? ==> r.error == UnreachablePatch
  {
    BuildFrom(Empty, ps)
  }

  // ---------------------------------------------------------------------
  // Round trips
  // ---------------------------------------------------------------------

  lemma {:induction false} ApplyConcat(c: Components, a: seq<ComponentPatch>, b: seq<ComponentPatch>)
    ensures ApplyComponentPatches(c, a + b) ==
      match ApplyComponentPatches(c, a)
      case Ok(c') => ApplyComponentPatches(c', b)
      case Err(e) => Err(e)
    decreases |a|
  {
    if a != [] {
      assert (a + b)[0] == a[0];
      assert (a + b)[1..] == a[1..] + b;
      match ApplyPatch(c, a[0])
      case Ok(c') => ApplyConcat(c', a[1..], b);
      case Err(_) =>
    } else {
      assert a + b == b;
    }
  }

  lemma {:induction false} BuildConcat(c: Components, a: seq<ComponentPatch>, b: seq<ComponentPatch>)
    ensures BuildFrom(c, a + b) ==
      match BuildFrom(c, a)
      case Ok(c') => BuildFrom(c', b)
      case Err(e) => Err(e)
    decreases |a|
  {
    if a != [] {
      assert (a + b)[0] == a[0];
      assert (a + b)[1..] == a[1..] + b;
      match BuildPatch(c, a[0])
      case Ok(c') => BuildConcat(c', a[1..], b);
      case Err(_) =>
    } else {
      assert a + b == b;
    }
  }

  /** Applying one kind's patch to a record whose value of that kind is
      the old value sets it to the new value. */
  lemma ApplyDiffPatch(c: Components, k: DiffKind, after: Option<int>)
    ensures ApplyComponentPatches(c, DiffPatch(k, GetDiff(c, k), after)) == Ok(SetDiff(c, k, after))
  {
    var ps := DiffPatch(k, GetDiff(c, k), after);
    if ps == [] {
      ComponentsExtensional(c, SetDiff(c, k, after));
    } else {
      assert ps[1..] == [];
    }
  }

  lemma ApplyReplacePatch(c: Components, k: ReplaceKind, after: Option<Tag>)
    ensures ApplyComponentPatches(c, ReplacePatch(k, GetReplace(c, k), after)) == Ok(SetReplace(c, k, after))
  {
    var ps := ReplacePatch(k, GetReplace(c, k), after);
    if ps == [] {
      ComponentsExtensional(c, SetReplace(c, k, after));
    } else {
      assert ps[1..] == [];
    }
  }

  /** Building one kind's patch, computed against an absent value, onto a
      record where that kind is absent sets it to the new value. */
  lemma BuildDiffPatch(c: Components, k: DiffKind, after: Option<int>)
    requires GetDiff(c, k).None?
    ensures BuildFrom(c, DiffPatch(k, None, after)) == Ok(SetDiff(c, k, after))
  {
    var ps := DiffPatch(k, None, after);
    if ps == [] {
      ComponentsExtensional(c, SetDiff(c, k, after));
    } else {
      assert ps[1..] == [];
    }
  }

  lemma BuildReplacePatch(c: Components, k: ReplaceKind, after: Option<Tag>)
    requires GetReplace(c, k).None?
    ensures BuildFrom(c, ReplacePatch(k, None, after)) == Ok(SetReplace(c, k, after))
  {
    var ps := ReplacePatch(k, None, after);
    if ps == [] {
      ComponentsExtensional(c, SetReplace(c, k, after));
    } else {
      assert ps[1..] == [];
    }
  }

  /** Update round trip: applying the patches computed from `before` to
      `after` onto `before` yields exactly `after`. */
  lemma UpdateRoundTrip(before: Components, after: Components)
    ensures ApplyComponentPatches(before, PatchesForComponents(Some(before), after)) == Ok(after)
  {
    var p1 := DiffPatch(Position, before.position, after.position);
    var p2 := DiffPatch(Rotation, before.rotation, after.rotation);
    var p3 := DiffPatch(Velocity, before.velocity, after.velocity);
    var p4 := DiffPatch(Health, before.health, after.health);
    var p5 := ReplacePatch(Camera, before.camera, after.camera);
    var p6 := ReplacePatch(Player, before.player, after.player);
    var p7 := ReplacePatch(Bullet, before.bullet, after.bullet);
    var c1 := SetDiff(before, Position, after.position);
    var c2 := SetDiff(c1, Rotation, after.rotation);
    var c3 := SetDiff(c2, Velocity, after.velocity);
    var c4 := SetDiff(c3, Health, after.health);
    var c5 := SetReplace(c4, Camera, after.camera);
    var c6 := SetReplace(c5, Player, after.player);
    var c7 := SetReplace(c6, Bullet, after.bullet);
    ApplyDiffPatch(before, Position, after.position);
    ApplyDiffPatch(c1, Rotation, after.rotation);
    ApplyDiffPatch(c2, Velocity, after.velocity);
    ApplyDiffPatch(c3, Health, after.health);
    ApplyReplacePatch(c4, Camera, after.camera);
    ApplyReplacePatch(c5, Player, after.player);
    ApplyReplacePatch(c6, Bullet, after.bullet);
    ApplyConcat(before, p1, p2);
    ApplyConcat(before, p1 + p2, p3);
    ApplyConcat(before, p1 + p2 + p3, p4);
    ApplyConcat(before, p1 + p2 + p3 + p4, p5);
    ApplyConcat(before, p1 + p2 + p3 + p4 + p5, p6);
    ApplyConcat(before, p1 + p2 + p3 + p4 + p5 + p6, p7);
    ComponentsExtensional(c7, after);
  }

  /** Spawn round trip: building the patches computed against no entity
      yields exactly the new entity's components. */
  lemma SpawnRoundTrip(after: Components)
    ensures BuildSpawn(PatchesForComponents(None, after)) == Ok(after)
  {
    var p1 := DiffPatch(Position, None, after.position);
    var p2 := DiffPatch(Rotation, None, after.rotation);
    var p3 := DiffPatch(Velocity, None, after.velocity);
    var p4 := DiffPatch(Health, None, after.health);
    var p5 := ReplacePatch(Camera, None, after.camera);
    var p6 := ReplacePatch(Player, None, after.player);
    var p7 := ReplacePatch(Bullet, None, after.bullet);
    var c1 := SetDiff(Empty, Position, after.position);
    var c2 := SetDiff(c1, Rotation, after.rotation);
    var c3 := SetDiff(c2, Velocity, after.velocity);
    var c4 := SetDiff(c3, Health, after.health);
    var c5 := SetReplace(c4, Camera, after.camera);
    var c6 := SetReplace(c5, Player, after.player);
    var c7 := SetReplace(c6, Bullet, after.bullet);
    BuildDiffPatch(Empty, Position, after.position);
    BuildDiffPatch(c1, Rotation, after.rotation);
    BuildDiffPatch(c2, Velocity, after.velocity);
    BuildDiffPatch(c3, Health, after.health);
    BuildReplacePatch(c4, Camera, after.camera);
    BuildReplacePatch(c5, Player, after.player);
    BuildReplacePatch(c6, Bullet, after.bullet);
    BuildConcat(Empty, p1, p2);
    BuildConcat(Empty, p1 + p2, p3);
    BuildConcat(Empty, p1 + p2 + p3, p4);
    BuildConcat(Empty, p1 + p2 + p3 + p4, p5);
    BuildConcat(Empty, p1 + p2 + p3 + p4 + p5, p6);
    BuildConcat(Empty, p1 + p2 + p3 + p4 + p5 + p6, p7);
    ComponentsExtensional(c7, after);
  }
}
