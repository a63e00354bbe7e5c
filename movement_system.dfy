/** The movement system: every mover first records its position as the
    previous one; a tile mover then steps towards its current waypoint and
    ends the whole pass, any other mover moves freely, under gravity when
    it has one. */
module MovementSystem {
  import opened Ecs
  import opened Utils
  import opened ActorUpdateSystem

  /** Only the transform, velocity, tile-movement columns and the actors may
      change, and no column changes length. */
  ghost predicate MovementFrame(w: World, w': World)
  {
    && w' == w.(transform := w'.transform, velocity := w'.velocity, tile := w'.tile, actors := w'.actors)
    && |w'.transform| == |w.transform| && |w'.velocity| == |w.velocity| && |w'.tile| == |w.tile|
    && w'.actors.Keys == w.actors.Keys
  }

  /** Entity `d`'s rows and actor are the same in both worlds. */
  ghost predicate RowsKept(w: World, w': World, d: Eid)
    requires MovementFrame(w, w') && d < |w.transform| && d < |w.velocity| && d < |w.tile|
  {
    && w'.transform[d] == w.transform[d] && w'.velocity[d] == w.velocity[d] && w'.tile[d] == w.tile[d]
    && (d in w.actors ==> w'.actors[d] == w.actors[d])
  }

  /** `lo` and `hi` in either order bracket `v`. */
  predicate Between(v: real, a: real, b: real)
  {
    Min(a, b) <= v <= Max(a, b)
  }

  /** The entity stands on its waypoint. */
  predicate AtEnd(w: World, e: Eid)
    requires w.Valid() && e < w.Size()
  {
    w.transform[e].x == w.tile[e].end.x && w.transform[e].y == w.tile[e].end.y
  }

  /** Both components of the stored direction are non-zero. */
  predicate Diagonal(w: World, e: Eid)
    requires w.Valid() && e < w.Size()
  {
    w.controls[e].dir.x != 0.0 && w.controls[e].dir.y != 0.0
  }

  /** The waypoints of the step under way: a new step from here towards the
      neighbouring tile along the direction on the waypoint, else the stored one. */
  function StepWaypoints(w: World, e: Eid): TileMovementData
    requires w.Valid() && e < w.Size()
  {
    var pos, dir := w.Pos(e), w.controls[e].dir;
    if AtEnd(w, e) then TileMovementData(pos, Vec(pos.x + dir.x * w.tileSize, pos.y + dir.y * w.tileSize))
    else w.tile[e]
  }

  /** The velocity of the step under way. */
  function StepVelocity(w: World, e: Eid): Vec
    requires w.Valid() && e < w.Size()
  {
    var dir, spd := w.controls[e].dir, w.speed[e];
    if AtEnd(w, e) then Vec(dir.x * spd, dir.y * spd) else w.velocity[e]
  }

  /** The position after one frame of the step, clamped to the step's segment. */
  function StepPosition(w: World, e: Eid): Vec
    requires w.Valid() && e < w.Size()
  {
    var pos, tm, v := w.Pos(e), StepWaypoints(w, e), StepVelocity(w, e);
    Vec(Clamp(pos.x + v.x * w.delta, Min(tm.start.x, tm.end.x), Max(tm.start.x, tm.end.x)),
        Clamp(pos.y + v.y * w.delta, Min(tm.start.y, tm.end.y), Max(tm.start.y, tm.end.y)))
  }

  lemma StepPositionFrom(w: World, e: Eid, p: Vec, v: Vec, tm: TileMovementData)
    requires w.Valid() && e < w.Size()
    requires p == w.Pos(e) && v == StepVelocity(w, e) && tm == StepWaypoints(w, e)
    ensures StepPosition(w, e) ==
      Vec(Clamp(p.x + v.x * w.delta, Min(tm.start.x, tm.end.x), Max(tm.start.x, tm.end.x)),
          Clamp(p.y + v.y * w.delta, Min(tm.start.y, tm.end.y), Max(tm.start.y, tm.end.y)))
  {
  }

  /** One tile step of entity `e`: only its rows change. */
  function TileMove(w: World, e: Eid): (w': World)
    requires w.Valid() && e < w.Size()
    ensures w'.Valid() && MovementFrame(w, w') && w'.actors == w.actors
    ensures forall d :: 0 <= d < w.Size() && d != e ==> RowsKept(w, w', d)
  {
    if AtEnd(w, e) && Diagonal(w, e) then w
    else
      var p := StepPosition(w, e);
      w.(velocity := w.velocity[e := StepVelocity(w, e)],
         transform := w.transform[e := w.transform[e].(x := p.x, y := p.y)],
         tile := w.tile[e := StepWaypoints(w, e)])
  }

  /** On its waypoint with a diagonal direction, the entity does not move
      and nothing is written. */
  lemma DiagonalAtEndIsInert(w: World, e: Eid)
    requires w.Valid() && e < w.Size() && AtEnd(w, e) && Diagonal(w, e)
    ensures TileMove(w, e) == w
  {
  }

  /** On its waypoint with a cardinal (or zero) direction, a new step starts
      here, towards the neighbouring tile along the direction, at the
      entity's speed. */
  lemma NewStepAtEnd(w: World, e: Eid)
    requires w.Valid() && e < w.Size() && AtEnd(w, e) && !Diagonal(w, e)
    ensures var w', pos, dir, spd := TileMove(w, e), w.Pos(e), w.controls[e].dir, w.speed[e];
      && w'.tile[e].start == pos
      && w'.tile[e].end == Vec(pos.x + dir.x * w.tileSize, pos.y + dir.y * w.tileSize)
      && w'.velocity[e] == Vec(dir.x * spd, dir.y * spd)
  {
  }

  /** Between waypoints the step and the velocity carry on unchanged. */
  lemma StepContinues(w: World, e: Eid)
    requires w.Valid() && e < w.Size() && !AtEnd(w, e)
    ensures TileMove(w, e).tile[e] == w.tile[e] && TileMove(w, e).velocity[e] == w.velocity[e]
  {
  }

  /** A tile step never overshoots: each coordinate stays between the
      step's start and end, and is position plus velocity times delta
      whenever that is itself in range. Only x and y of the transform move. */
  lemma TileStepNeverOvershoots(w: World, e: Eid)
    requires w.Valid() && e < w.Size() && !(AtEnd(w, e) && Diagonal(w, e))
    ensures var w' := TileMove(w, e);
      var tm, tr, v := w'.tile[e], w'.transform[e], w'.velocity[e];
      && Between(tr.x, tm.start.x, tm.end.x) && Between(tr.y, tm.start.y, tm.end.y)
      && (Between(w.transform[e].x + v.x * w.delta, tm.start.x, tm.end.x) ==>
            tr.x == w.transform[e].x + v.x * w.delta)
      && (Between(w.transform[e].y + v.y * w.delta, tm.start.y, tm.end.y) ==>
            tr.y == w.transform[e].y + v.y * w.delta)
      && tr == w.transform[e].(x := tr.x, y := tr.y)
  {
    var tm := TileMove(w, e).tile[e];
    assert Min(tm.start.x, tm.end.x) <= Max(tm.start.x, tm.end.x);
    assert Min(tm.start.y, tm.end.y) <= Max(tm.start.y, tm.end.y);
  }

  /** A tile step writes only x and y of the transform. */
  lemma TileStepWritesOnlyPosition(w: World, e: Eid)
    requires w.Valid() && e < w.Size()
    ensures TileMove(w, e).transform[e] ==
      w.transform[e].(x := TileMove(w, e).transform[e].x, y := TileMove(w, e).transform[e].y)
  {
  }

  /** The ox/oy snapshot: the previous position becomes the current one. */
  function Snapshot(w: World, e: Eid): (w': World)
    requires w.Valid() && e < w.Size()
    ensures w'.Valid() && MovementFrame(w, w')
    ensures w'.transform[e] == w.transform[e].(ox := w.transform[e].x, oy := w.transform[e].y)
    ensures forall d :: 0 <= d < w.Size() && d != e ==> RowsKept(w, w', d)
  {
    w.(transform := w.transform[e := w.transform[e].(ox := w.transform[e].x, oy := w.transform[e].y)])
  }

  /** The gravity of `e`: its Physics2D gravity, or 0 without Physics2D. */
  function Gravity(w: World, e: Eid): real
    requires w.Valid() && e < w.Size()
  {
    if w.Has(e, Physics2D) then w.physics[e].gravity else 0.0
  }

  /** `e` may jump: it is grounded and ACTION1 is set. */
  predicate CanJump(w: World, e: Eid)
    requires w.Valid() && e < w.Size()
  {
    w.Has(e, Physics2D) && w.physics[e].grounded == 1 && w.controls[e].action1 != 0
  }

  /** The upward jump impulse for a jump height and a gravity: minus the
      square root of jumpHeight * -2 * -gravity. */
  function JumpImpulse(jumpHeight: real, g: real, sqrt: real -> real): real
  {
    -sqrt(jumpHeight * -2.0 * -g)
  }

  /** The velocity of a free mover after this frame. Horizontally the
      direction times the speed; vertically the same without gravity, or
      with gravity the previous (or, when jumping, the jump impulse's)
      velocity accelerated by gravity for one frame. */
  function FreeVelocity(w: World, e: Eid, sqrt: real -> real): (v: Vec)
    requires w.Valid() && e < w.Size()
  {
    var c, spd, g := w.controls[e], w.speed[e], Gravity(w, e);
    var vy := if g == 0.0 then c.dir.y * spd
              else (if CanJump(w, e) then JumpImpulse(w.physics[e].jumpHeight, g, sqrt) else w.velocity[e].y)
                   + g * w.delta;
    Vec(c.dir.x * spd, vy)
  }

  /** A free move: the velocity is stored, the position advances by it over
      one frame, and the actor is synced. */
  function FreeMove(w: World, e: Eid, sqrt: real -> real): (w': World)
    requires w.Valid() && e < w.Size()
    ensures w'.Valid() && MovementFrame(w, w')
    ensures forall d :: 0 <= d < w.Size() && d != e ==> RowsKept(w, w', d)
  {
    var v := FreeVelocity(w, e, sqrt);
    UpdateGameObject(w.(velocity := w.velocity[e := v],
                        transform := w.transform[e := Advance(w.transform[e], v, w.delta)]), e)
  }

  /** The transform moved by velocity `v` over a frame of length `dt`. */
  function Advance(tr: TransformData, v: Vec, dt: real): TransformData
  {
    tr.(x := tr.x + v.x * dt, y := tr.y + v.y * dt)
  }

  /** The movers of the pass. */
  function MoverQuery(w: World): (q: seq<Eid>)
    requires w.Valid()
    ensures Distinct(q) && AllBelow(q, w.Size())
  {
    var q := w.Query({Transform, Speed, Velocity, Controls});
    assert forall k :: 0 <= k < |q| ==> q[k] in q;
    q
  }

  /** The pass over the movers `ents[i..]`: a tile mover is the last one
      processed. */
  function MoveFrom(w: World, ents: seq<Eid>, i: nat, sqrt: real -> real): (w': World)
    requires w.Valid() && i <= |ents| && AllBelow(ents, w.Size())
    ensures w'.Valid() && MovementFrame(w, w')
    decreases |ents| - i
  {
    if i == |ents| then w
    else
      var e := ents[i];
      var w1 := Snapshot(w, e);
      if w.Has(e, TileMovement) then TileMove(w1, e)
      else MoveFrom(FreeMove(w1, e, sqrt), ents, i + 1, sqrt)
  }

  function Movement(w: World, sqrt: real -> real): World
    requires w.Valid()
  {
    MoveFrom(w, MoverQuery(w), 0, sqrt)
  }

  /** Without gravity a free mover moves by direction times speed times
      delta on both axes, so a zero direction leaves it in place. */
  lemma FreeMoveWithoutGravity(w: World, e: Eid, sqrt: real -> real)
    requires w.Valid() && e < w.Size() && Gravity(w, e) == 0.0
    ensures var w', dir, spd := FreeMove(w, e, sqrt), w.controls[e].dir, w.speed[e];
      && w'.velocity[e] == Vec(dir.x * spd, dir.y * spd)
      && w'.transform[e].x == w.transform[e].x + dir.x * spd * w.delta
      && w'.transform[e].y == w.transform[e].y + dir.y * spd * w.delta
      && (dir == Vec(0.0, 0.0) ==> w'.Pos(e) == w.Pos(e))
  {
  }

  /** Under gravity, a jump impulse replaces the vertical velocity only when
      the entity is grounded and ACTION1 is set; either way the vertical
      velocity then gains exactly gravity times delta (never 1.5 times, even
      when falling), and the new y is the old y plus the new vertical
      velocity times delta, not plus gravity times delta. */
  lemma FreeMoveUnderGravity(w: World, e: Eid, sqrt: real -> real)
    requires w.Valid() && e < w.Size() && Gravity(w, e) != 0.0
    ensures var w', g := FreeMove(w, e, sqrt), Gravity(w, e);
      && (!CanJump(w, e) ==> w'.velocity[e].y - w.velocity[e].y == g * w.delta)
      && (CanJump(w, e) ==> w'.velocity[e].y == JumpImpulse(w.physics[e].jumpHeight, g, sqrt) + g * w.delta)
      && w'.transform[e].y == w.transform[e].y + w'.velocity[e].y * w.delta
      && w'.velocity[e].x == w.controls[e].dir.x * w.speed[e]
  {
  }

  /** RowsKept composes. */
  lemma RowsKeptTrans(w1: World, w2: World, w3: World, d: Eid)
    requires MovementFrame(w1, w2) && MovementFrame(w2, w3)
    requires d < |w1.transform| && d < |w1.velocity| && d < |w1.tile|
    requires RowsKept(w1, w2, d) && RowsKept(w2, w3, d)
    ensures MovementFrame(w1, w3) && RowsKept(w1, w3, d)
  {
  }

  /** The pass ends at the first tile mover: no mover after it in the query
      is touched that frame. */
  lemma {:induction false} StopsAtFirstTileMover(w: World, ents: seq<Eid>, i: nat, k: nat, m: nat, sqrt: real -> real)
    requires w.Valid() && AllBelow(ents, w.Size()) && Distinct(ents)
    requires i <= k < m < |ents| && w.Has(ents[k], TileMovement)
    ensures RowsKept(w, MoveFrom(w, ents, i, sqrt), ents[m])
    decreases k - i
  {
    var e := ents[i];
    var w1 := Snapshot(w, e);
    assert ents[m] != e;
    if !w.Has(e, TileMovement) {
      var w2 := FreeMove(w1, e, sqrt);
      RowsKeptTrans(w, w1, w2, ents[m]);
      assert w2.comps == w.comps;
      StopsAtFirstTileMover(w2, ents, i + 1, k, m, sqrt);
      RowsKeptTrans(w, w2, MoveFrom(w2, ents, i + 1, sqrt), ents[m]);
    } else {
      RowsKeptTrans(w, w1, TileMove(w1, e), ents[m]);
    }
  }

  /** The rows of an entity not among the movers still to come are kept. */
  lemma {:induction false} MoveFromKeepsOthers(w: World, ents: seq<Eid>, i: nat, d: Eid, sqrt: real -> real)
    requires w.Valid() && i <= |ents| && AllBelow(ents, w.Size()) && d < w.Size()
    requires forall m :: i <= m < |ents| ==> ents[m] != d
    ensures RowsKept(w, MoveFrom(w, ents, i, sqrt), d)
    decreases |ents| - i
  {
    if i < |ents| {
      var e := ents[i];
      var w1 := Snapshot(w, e);
      if !w.Has(e, TileMovement) {
        var w2 := FreeMove(w1, e, sqrt);
        RowsKeptTrans(w, w1, w2, d);
        MoveFromKeepsOthers(w2, ents, i + 1, d, sqrt);
        RowsKeptTrans(w, w2, MoveFrom(w2, ents, i + 1, sqrt), d);
      } else {
        RowsKeptTrans(w, w1, TileMove(w1, e), d);
      }
    }
  }

  /** Every mover the pass reaches (all movers up to and including the first
      tile mover) ends the pass with (ox, oy) equal to its position before
      the pass: the snapshot precedes every write of its position. */
  lemma {:induction false} SnapshotIsPrePassPosition(w: World, ents: seq<Eid>, i: nat, k: nat, sqrt: real -> real)
    requires w.Valid() && AllBelow(ents, w.Size()) && Distinct(ents)
    requires i <= k < |ents|
    requires forall m :: i <= m < k ==> !w.Has(ents[m], TileMovement)
    ensures var w', e := MoveFrom(w, ents, i, sqrt), ents[k];
      w'.transform[e].ox == w.transform[e].x && w'.transform[e].oy == w.transform[e].y
    decreases k - i
  {
    var e := ents[i];
    var w1 := Snapshot(w, e);
    if i < k {
      var w2 := FreeMove(w1, e, sqrt);
      assert ents[k] != e;
      RowsKeptTrans(w, w1, w2, ents[k]);
      assert w2.comps == w.comps;
      SnapshotIsPrePassPosition(w2, ents, i + 1, k, sqrt);
    } else {
      SnapshotOfFirst(w, ents, i, sqrt);
    }
  }

  /** The first mover of the pass ends it with (ox, oy) equal to its
      position before the pass. */
  lemma SnapshotOfFirst(w: World, ents: seq<Eid>, i: nat, sqrt: real -> real)
    requires w.Valid() && AllBelow(ents, w.Size()) && Distinct(ents) && i < |ents|
    ensures var w', e := MoveFrom(w, ents, i, sqrt), ents[i];
      w'.transform[e].ox == w.transform[e].x && w'.transform[e].oy == w.transform[e].y
  {
    var e := ents[i];
    var w1 := Snapshot(w, e);
    if w.Has(e, TileMovement) {
      TileStepWritesOnlyPosition(w1, e);
    } else {
      var w2 := FreeMove(w1, e, sqrt);
      MoveFromKeepsOthers(w2, ents, i + 1, e, sqrt);
    }
  }

  /** `tileMovement`, statement by statement, on the row of `eid`. */
  method TileMovementStep(w: World, eid: Eid) returns (w': World)
    requires w.Valid() && eid < w.Size()
    ensures w' == TileMove(w, eid)
  {
    var tileSize := w.tileSize;
    var pos := Vec(w.transform[eid].x, w.transform[eid].y);
    var startPos := w.tile[eid].start;
    var endPos := w.tile[eid].end;
    var vel := w.velocity[eid];
    var dir := w.controls[eid].dir;
    var speed := w.speed[eid];

    if pos.x == endPos.x && pos.y == endPos.y {
      vel := Vec(0.0, 0.0);
      startPos := pos;
      if dir.x != 0.0 && dir.y != 0.0 {
        return w;
      }
      vel := Vec(dir.x * speed, dir.y * speed);
      endPos := Vec(pos.x + dir.x * tileSize, pos.y + dir.y * tileSize);
    }
    assert vel == StepVelocity(w, eid);
    assert TileMovementData(startPos, endPos) == StepWaypoints(w, eid);

    var x := Clamp(pos.x + vel.x * w.delta, Min(startPos.x, endPos.x), Max(startPos.x, endPos.x));
    var y := Clamp(pos.y + vel.y * w.delta, Min(startPos.y, endPos.y), Max(startPos.y, endPos.y));
    StepPositionFrom(w, eid, pos, vel, TileMovementData(startPos, endPos));

    w' := w.(velocity := w.velocity[eid := vel],
             transform := w.transform[eid := w.transform[eid].(x := x, y := y)],
             tile := w.tile[eid := TileMovementData(startPos, endPos)]);
  }

  /** The free-movement branch of the loop body for `eid`, after the
      ox/oy snapshot, statement by statement. */
  method FreeMovementStep(w: World, eid: Eid, sqrt: real -> real) returns (w': World)
    requires w.Valid() && eid < w.Size()
    ensures w' == FreeMove(w, eid, sqrt)
  {
    var pos := w.Pos(eid);
    var vel := w.velocity[eid];
    var hasPhysics := w.Has(eid, Physics2D);
    var gravity := if hasPhysics then w.physics[eid].gravity else 0.0;
    var grounded := hasPhysics && w.physics[eid].grounded == 1;
    w' := w;

    vel := vel.(x := w.controls[eid].dir.x * w.speed[eid]);

    if gravity != 0.0 {
      var g := gravity;
      w' := w'.(transform := w'.transform[eid := w'.transform[eid].(y := pos.y + gravity * w.delta)]);
      if grounded && w.controls[eid].action1 != 0 {
        var jumpHeight := w.physics[eid].jumpHeight;
        vel := vel.(y := JumpImpulse(jumpHeight, g, sqrt));
      }
      if vel.y > 0.0 {
        g := g * 1.5;
      }
      vel := vel.(y := vel.y + gravity * w.delta);
    } else {
      vel := vel.(y := w.controls[eid].dir.y * w.speed[eid]);
    }
    assert vel == FreeVelocity(w, eid, sqrt);
    w' := w'.(velocity := w'.velocity[eid := vel]);

    w' := w'.(transform := w'.transform[eid := w'.transform[eid].(x := pos.x + vel.x * w.delta)]);
    w' := w'.(transform := w'.transform[eid := w'.transform[eid].(y := pos.y + vel.y * w.delta)]);
    assert w'.transform[eid] == Advance(w.transform[eid], vel, w.delta);
    assert w' == w.(velocity := w.velocity[eid := vel],
                    transform := w.transform[eid := Advance(w.transform[eid], vel, w.delta)]);

    w' := UpdateGameObject(w', eid);
  }

  /** `movementSystem`: `sqrt` is the square root used for the jump impulse. */
  method MovementSystem(w: World, sqrt: real -> real) returns (w': World)
    requires w.Valid()
    ensures w'.Valid() && MovementFrame(w, w')
    ensures w' == Movement(w, sqrt)
  {
    var entities := MoverQuery(w);
    w' := w;
    for i := 0 to |entities|
      invariant w'.Valid() && MovementFrame(w, w')
      invariant MoveFrom(w', entities, i, sqrt) == MoveFrom(w, entities, 0, sqrt)
    {
      var eid := entities[i];
      var pos := w'.Pos(eid);
      var hasTileMovement := w'.Has(eid, TileMovement);
      w' := w'.(transform := w'.transform[eid := w'.transform[eid].(ox := pos.x, oy := pos.y)]);

      if hasTileMovement {
        w' := TileMovementStep(w', eid);
        return;
      }

      w' := FreeMovementStep(w', eid, sqrt);
    }
  }
}
