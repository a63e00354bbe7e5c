/** Actor sync: the renderable bound to an entity takes the entity's
    transform, faces the way it moves and plays the animation that matches
    its motion. */
module ActorUpdateSystem {
  import opened Ecs

  /** Facing after a horizontal velocity `xVel`: right for a positive one,
      left for a negative one, unchanged at rest. */
  function Facing(scaleX: real, xVel: real): (s: real)
    ensures xVel > 0.0 ==> s == 1.0
    ensures xVel < 0.0 ==> s == -1.0
    ensures xVel == 0.0 ==> s == scaleX
  {
    if xVel > 0.0 then 1.0 else if xVel < 0.0 then -1.0 else scaleX
  }

  /** The animation chosen for a moving entity: in the air when it has
      physics and is not grounded, otherwise idle below a speed of 0.1 and
      walking above it. */
  function MotionAnimation(airborne: bool, xVel: real): (name: string)
    ensures airborne ==> name == "air"
    ensures !airborne && -0.1 < xVel < 0.1 ==> name == "idle"
    ensures !airborne && (xVel <= -0.1 || xVel >= 0.1) ==> name == "walk"
  {
    if airborne then "air" else if Abs(xVel) < 0.1 then "idle" else "walk"
  }

  /** The actor `go` of entity `e` after one sync. */
  function Synced(w: World, e: Eid, go: Actor): (r: Actor)
    requires w.Valid() && e < w.Size()
  {
    var tr := w.transform[e];
    var go1 := go.(x := tr.x, y := tr.y, width := tr.w, height := tr.h);
    if !w.Has(e, Velocity) then go1
    else
      var xVel := w.velocity[e].x;
      var go2 := go1.(scaleX := Facing(go1.scaleX, xVel));
      if !w.Has(e, Animations) then go2
      else
        go2.(animation := MotionAnimation(w.Has(e, Physics2D) && w.physics[e].grounded == 0, xVel))
  }

  /** Syncs the actor bound to `e`, if there is one; only that actor changes. */
  function UpdateGameObject(w: World, e: Eid): (w': World)
    requires w.Valid() && e < w.Size()
    ensures w'.Valid()
    ensures e !in w.actors ==> w' == w
    ensures w'.actors.Keys == w.actors.Keys
    ensures e in w.actors ==>
      && w' == w.(actors := w.actors[e := w'.actors[e]])
      && var go, go' := w.actors[e], w'.actors[e];
         && go'.x == w.transform[e].x && go'.y == w.transform[e].y
         && go'.width == w.transform[e].w && go'.height == w.transform[e].h
         && go'.finished == go.finished
         && go'.scaleX == (if w.Has(e, Velocity) then Facing(go.scaleX, w.velocity[e].x) else go.scaleX)
         && go'.animation ==
              (if w.Has(e, Velocity) && w.Has(e, Animations)
               then MotionAnimation(w.Has(e, Physics2D) && w.physics[e].grounded == 0, w.velocity[e].x)
               else go.animation)
  {
    if e !in w.actors then w
    else w.(actors := w.actors[e := Synced(w, e, w.actors[e])])
  }

  /** Syncing twice is syncing once. */
  lemma UpdateGameObjectIdempotent(w: World, e: Eid)
    requires w.Valid() && e < w.Size()
    ensures UpdateGameObject(UpdateGameObject(w, e), e) == UpdateGameObject(w, e)
  {
    if e in w.actors {
      var w1 := UpdateGameObject(w, e);
      assert w1.(actors := w1.actors[e := Synced(w1, e, w1.actors[e])]) == w1;
    }
  }

  /** Syncs every game object that has an actor, in query order. */
  method UpdateActors(w: World) returns (w': World)
    requires w.Valid()
    ensures w'.Valid() && w' == w.(actors := w'.actors) && w'.actors.Keys == w.actors.Keys
    ensures forall e :: e in w.actors ==>
      w'.actors[e] == if e in w.Query({GameObjectComp, Transform}) then Synced(w, e, w.actors[e]) else w.actors[e]
  {
    var entities := w.Query({GameObjectComp, Transform});
    w' := w;
    for i := 0 to |entities|
      invariant w'.Valid() && w' == w.(actors := w'.actors) && w'.actors.Keys == w.actors.Keys
      invariant forall e :: e in w.actors ==>
        w'.actors[e] == if e in entities[..i] then Synced(w, e, w.actors[e]) else w.actors[e]
    {
      var eid := entities[i];
      assert eid in w.entities;
      if eid in w'.actors {
        w' := UpdateGameObject(w', eid);
      }
      assert entities[..i + 1] == entities[..i] + [eid];
    }
    assert entities[..|entities|] == entities;
  }
}
