/** The ECS data model shared by every system: entity ids, component tags,
    the per-entity component rows (one column per component, indexed by
    entity id, as bitecs stores typed arrays), the externally owned actors
    and the world that every system threads through. */
module Ecs {

  type Eid = nat

  datatype Option<+T> = None | Some(value: T)

  datatype Vec = Vec(x: real, y: real)

  /** The component tags a query or `hasComponent` can ask about. */
  datatype Component =
    | Transform | Velocity | Speed | Controls | BoxCollider | Physics2D
    | TileMovement | Animations | Interactable | Player | GameObjectComp
    | InputListener | Position | Size

  datatype ColliderType = Kinematic | Solid | Trigger

  /** A named collision side, seen from the first entity of the pair. */
  datatype Side = Top | Right | Left | Bottom

  datatype TransformData = TransformData(x: real, y: real, ox: real, oy: real, w: real, h: real)

  /** Controls: the stored direction and the ui8 action flags. */
  datatype ControlData = ControlData(dir: Vec, action1: int, action2: int, action3: int, action4: int, menu: int)

  datatype BoxColliderData = BoxColliderData(w: real, h: real, anchor: Vec, offset: Vec, kind: ColliderType)

  datatype Physics2DData = Physics2DData(jumpHeight: real, gravity: real, grounded: int)

  /** Start and end waypoints of the current tile step. */
  datatype TileMovementData = TileMovementData(start: Vec, end: Vec)

  /** The renderable bound to an entity: the fields the systems write, the
      name of the animation last played, and whether that animation has
      reached its last frame (answered by the sprite's playback). */
  datatype Actor = Actor(x: real, y: real, width: real, height: real, scaleX: real,
                         animation: string, finished: bool)

  predicate Distinct(s: seq<Eid>)
  {
    forall i, j :: 0 <= i < j < |s| ==> s[i] != s[j]
  }

  /** Every id of `ents` indexes a column of length `n`. */
  predicate AllBelow(ents: seq<Eid>, n: nat)
  {
    forall k :: 0 <= k < |ents| ==> ents[k] < n
  }

  /** `e` is one of the first `i` ids of `ents`. */
  predicate Listed(ents: seq<Eid>, i: nat, e: Eid)
    requires i <= |ents|
    decreases i
  {
    i > 0 && (ents[i - 1] == e || Listed(ents, i - 1, e))
  }

  lemma {:induction false} ListedIsIn(ents: seq<Eid>, i: nat, e: Eid)
    requires i <= |ents|
    ensures Listed(ents, i, e) <==> e in ents[..i]
  {
    if i > 0 {
      ListedIsIn(ents, i - 1, e);
      assert ents[..i] == ents[..i - 1] + [ents[i - 1]];
    }
  }

  /** In a sequence without repeats, an id is not among those before it. */
  lemma {:induction false} DistinctNotListedBefore(ents: seq<Eid>, i: nat)
    requires Distinct(ents) && i < |ents|
    ensures !Listed(ents, i, ents[i])
  {
    ListedIsIn(ents, i, ents[i]);
    assert forall k :: 0 <= k < i ==> ents[k] != ents[i];
  }

  function Abs(x: real): real
  {
    if x < 0.0 then -x else x
  }

  /** `Math.floor(size * frac)`, the whole-pixel part of a fraction of a size. */
  function FloorPart(size: real, frac: real): (f: real)
    ensures f == f.Floor as real
    ensures f <= size * frac < f + 1.0
  {
    (size * frac).Floor as real
  }

  /** The ids of `ids` (in order) whose component set holds all of `req`. */
  function Matching(ids: seq<Eid>, comps: seq<set<Component>>, req: set<Component>): (q: seq<Eid>)
    ensures forall e :: e in q <==> e in ids && e < |comps| && req <= comps[e]
    ensures |q| <= |ids|
    ensures Distinct(ids) ==> Distinct(q)
  {
    if ids == [] then []
    else
      var rest := Matching(ids[1..], comps, req);
      if ids[0] < |comps| && req <= comps[ids[0]] then
        assert Distinct(ids) ==> ids[0] !in ids[1..];
        [ids[0]] + rest
      else rest
  }

  datatype World = World(
    entities: seq<Eid>,
    comps: seq<set<Component>>,
    transform: seq<TransformData>,
    velocity: seq<Vec>,
    speed: seq<real>,
    controls: seq<ControlData>,
    box: seq<BoxColliderData>,
    physics: seq<Physics2DData>,
    tile: seq<TileMovementData>,
    range: seq<real>,
    delta: real,
    tileSize: real,
    scroll: Vec,
    actors: map<Eid, Actor>,
    collisions: map<(Eid, Eid), Side>)
  {
    /** The capacity of every component column. */
    function Size(): nat
    {
      |comps|
    }

    ghost predicate Valid()
    {
      && |transform| == Size() && |velocity| == Size() && |speed| == Size()
      && |controls| == Size() && |box| == Size() && |physics| == Size()
      && |tile| == Size() && |range| == Size()
      && (forall e :: e in entities ==> e < Size())
      && Distinct(entities)
      && (forall e :: e in actors ==> e < Size())
    }

    predicate Has(e: Eid, c: Component)
      requires e < Size()
    {
      c in comps[e]
    }

    /** The live entities holding every component of `req`, in the world's order. */
    function Query(req: set<Component>): (q: seq<Eid>)
      requires Valid()
      ensures Distinct(q)
      ensures forall e :: e in q <==> e in entities && req <= comps[e]
    {
      Matching(entities, comps, req)
    }

    function Pos(e: Eid): Vec
      requires Valid() && e < Size()
    {
      Vec(transform[e].x, transform[e].y)
    }
  }
}
