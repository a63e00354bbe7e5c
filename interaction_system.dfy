/** The interaction system: a door's animation cycles closed, open, opened
    while the player is in range and opened, close, closed while the player
    is away, one step each time the current animation has finished. */
module InteractionSystem {
  import opened Ecs

  /** The animation a door plays next once its current one has finished. */
  function DoorNext(anim: string, inRange: bool): (next: string)
    ensures inRange && (anim == "closed" || anim == "close") ==> next == "open"
    ensures inRange && anim == "open" ==> next == "opened"
    ensures !inRange && (anim == "opened" || anim == "open") ==> next == "close"
    ensures !inRange && anim == "close" ==> next == "closed"
    ensures next != anim ==> next in {"open", "opened", "close", "closed"}
    ensures (inRange && anim == "opened") || (!inRange && anim == "closed") ==> next == anim
    ensures anim !in {"closed", "close", "open", "opened"} ==> next == anim
  {
    if inRange then
      if anim == "closed" || anim == "close" then "open"
      else if anim == "open" then "opened"
      else anim
    else
      if anim == "opened" || anim == "open" then "close"
      else if anim == "close" then "closed"
      else anim
  }

  /** From any of the four door animations, two finished steps with the
      player staying in range (or away) reach "opened" (or "closed"), and
      that animation then stays. */
  lemma DoorSettles(anim: string, inRange: bool)
    requires anim in {"closed", "close", "open", "opened"}
    ensures var goal := if inRange then "opened" else "closed";
      DoorNext(DoorNext(anim, inRange), inRange) == goal && DoorNext(goal, inRange) == goal
  {
  }

  /** A door's actor after one frame: unchanged until its animation has
      finished, then the next animation. */
  function DoorUpdate(go: Actor, inRange: bool): (r: Actor)
    ensures !go.finished ==> r == go
    ensures go.finished ==> r == go.(animation := DoorNext(go.animation, inRange))
  {
    if !go.finished then go else go.(animation := DoorNext(go.animation, inRange))
  }

  /** The player's position: that of the first entity of the player query.
      With no player the id is undefined, so are both coordinates, and
      kontra's `Vector` defaults them to (0, 0). */
  function PlayerPos(w: World): (p: Vec)
    requires w.Valid()
    ensures w.Query({Player}) == [] ==> p == Vec(0.0, 0.0)
    ensures w.Query({Player}) != [] ==>
      var first := w.Query({Player})[0];
      first in w.Query({Player}) && Player in w.comps[first] && p == w.Pos(first)
  {
    var ps := w.Query({Player});
    if ps == [] then Vec(0.0, 0.0)
    else
      assert ps[0] in ps;
      w.Pos(ps[0])
  }

  /** The player is strictly closer than `range` to `pos`. */
  predicate InRange(player: Vec, pos: Vec, range: real, dist: (Vec, Vec) -> real)
  {
    dist(player, pos) < range
  }

  /** The range test is strict: a player exactly at the range is out of it. */
  lemma RangeIsStrict(p: Vec, pos: Vec, range: real, dist: (Vec, Vec) -> real)
    requires dist(p, pos) == range
    ensures !InRange(p, pos, range, dist)
  {
  }

  /** Entity `e`'s door update in world `w`, with the player at `player`. */
  function DoorOf(w: World, e: Eid, player: Vec, dist: (Vec, Vec) -> real): Actor
    requires w.Valid() && e in w.actors
  {
    DoorUpdate(w.actors[e], InRange(player, w.Pos(e), w.range[e], dist))
  }

  /** The frame as written: the loop variable ranges over the positions
      0 .. n-1 of the interactable query, and each position is used as an
      entity id. */
  function ByPosition(w: World, dist: (Vec, Vec) -> real): (w': World)
    requires w.Valid()
    ensures w'.Valid() && w' == w.(actors := w'.actors) && w'.actors.Keys == w.actors.Keys
  {
    var n := |w.Query({Interactable})|;
    w.(actors := map e | e in w.actors :: if e < n then DoorOf(w, e, PlayerPos(w), dist) else w.actors[e])
  }

  /** The frame as intended: every interactable entity with an actor. */
  function ById(w: World, dist: (Vec, Vec) -> real): (w': World)
    requires w.Valid()
    ensures w'.Valid() && w' == w.(actors := w'.actors) && w'.actors.Keys == w.actors.Keys
  {
    var q := w.Query({Interactable});
    w.(actors := map e | e in w.actors :: if e in q then DoorOf(w, e, PlayerPos(w), dist) else w.actors[e])
  }

  /** The loop body of `interactionSystem` for the id `eid`, on the actors
      of `w`: an id without an actor, or whose animation has not finished,
      is skipped; otherwise the door steps by the range test. */
  method VisitDoor(w: World, actors: map<Eid, Actor>, eid: Eid, playerPos: Vec, dist: (Vec, Vec) -> real)
    returns (actors': map<Eid, Actor>)
    requires w.Valid() && actors.Keys == w.actors.Keys
    ensures eid !in actors ==> actors' == actors
    ensures eid in actors ==>
      actors' == actors[eid := DoorUpdate(actors[eid], InRange(playerPos, w.Pos(eid), w.range[eid], dist))]
  {
    actors' := actors;
    if eid !in actors {
      return;
    }
    var a := actors[eid];
    var interactablePos := w.Pos(eid);
    var playerInRange := InRange(playerPos, interactablePos, w.range[eid], dist);
    if !a.finished {
      return;
    }
    if playerInRange {
      if a.animation == "closed" || a.animation == "close" {
        a := a.(animation := "open");
      } else if a.animation == "open" {
        a := a.(animation := "opened");
      }
    } else {
      if a.animation == "opened" || a.animation == "open" {
        a := a.(animation := "close");
      } else if a.animation == "close" {
        a := a.(animation := "closed");
      }
    }
    actors' := actors[eid := a];
  }

  /** `interactionSystem` as written (`for..in` over the query result). The
      actors are updated in place; no other part of the world changes. */
  method InteractionByPosition(w: World, dist: (Vec, Vec) -> real) returns (w': World)
    requires w.Valid()
    ensures w' == ByPosition(w, dist)
  {
    var entities := w.Query({Interactable});
    var playerPos := PlayerPos(w);
    var actors := w.actors;
    for eid := 0 to |entities|
      invariant actors.Keys == w.actors.Keys
      invariant forall e :: e in w.actors && e < eid ==> actors[e] == DoorOf(w, e, playerPos, dist)
      invariant forall e :: e in w.actors && e >= eid ==> actors[e] == w.actors[e]
    {
      actors := VisitDoor(w, actors, eid, playerPos, dist);
    }
    w' := w.(actors := actors);
    assert actors == ByPosition(w, dist).actors;
  }

  /** `interactionSystem` visiting the entity ids of the query. */
  method InteractionSystem(w: World, dist: (Vec, Vec) -> real) returns (w': World)
    requires w.Valid()
    ensures w' == ById(w, dist)
  {
    var entities := w.Query({Interactable});
    var playerPos := PlayerPos(w);
    var actors := w.actors;
    for i := 0 to |entities|
      invariant actors.Keys == w.actors.Keys
      invariant forall e :: e in w.actors ==>
        actors[e] == if e in entities[..i] then DoorOf(w, e, playerPos, dist) else w.actors[e]
    {
      var eid := entities[i];
      assert entities[..i + 1] == entities[..i] + [eid];
      actors := VisitDoor(w, actors, eid, playerPos, dist);
    }
    assert entities[..|entities|] == entities;
    w' := w.(actors := actors);
    assert actors == ById(w, dist).actors;
  }

  /** With no player entity, every interactable door is judged from the
      origin: one closer to (0, 0) than its range counts as in range. */
  lemma MissingPlayerAtOrigin(w: World, e: Eid, dist: (Vec, Vec) -> real)
    requires w.Valid() && e in w.actors && e in w.Query({Interactable}) && w.Query({Player}) == []
    ensures ById(w, dist).actors[e] == DoorUpdate(w.actors[e], dist(Vec(0.0, 0.0), w.Pos(e)) < w.range[e])
  {
  }

  /** A two-entity world: entity 0 is the player, entity 1 a closed door
      whose closing animation has finished, with range 200, both at the
      origin. */
  function DoorWorld(): (w: World)
    ensures w.Valid()
  {
    var tr := TransformData(0.0, 0.0, 0.0, 0.0, 16.0, 16.0);
    var c := ControlData(Vec(0.0, 0.0), 0, 0, 0, 0, 0);
    var bc := BoxColliderData(16.0, 16.0, Vec(0.0, 0.0), Vec(0.0, 0.0), Kinematic);
    var ph := Physics2DData(0.0, 0.0, 0);
    var tm := TileMovementData(Vec(0.0, 0.0), Vec(0.0, 0.0));
    World([0, 1], [{Player, Transform}, {Interactable, Transform}],
          [tr, tr], [Vec(0.0, 0.0), Vec(0.0, 0.0)], [0.0, 0.0], [c, c], [bc, bc], [ph, ph], [tm, tm],
          [0.0, 200.0], 0.016, 16.0, Vec(0.0, 0.0),
          map[0 := Actor(0.0, 0.0, 16.0, 16.0, 1.0, "idle", true),
              1 := Actor(0.0, 0.0, 16.0, 16.0, 1.0, "closed", true)],
          map[])
  }

  /** With the player standing on the door, the loop as written never
      opens it: the only position it visits is 0, the player's own id,
      while the intended loop starts opening door 1. */
  lemma PositionLoopMissesDoor(dist: (Vec, Vec) -> real)
    requires dist(Vec(0.0, 0.0), Vec(0.0, 0.0)) == 0.0
    ensures ByPosition(DoorWorld(), dist).actors[1].animation == "closed"
    ensures ById(DoorWorld(), dist).actors[1].animation == "open"
  {
    var w := DoorWorld();
    assert w.Query({Interactable}) == [1];
    assert w.Query({Player}) == [0];
  }
}
