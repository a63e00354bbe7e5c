/** The earlier systems module: bounds anchored from the far edge, a side
    test without memory, a collision pass over unordered pairs that pushes
    the first entity whatever its partner's collider type, plain
    `pos += dir * speed * delta` movement and the axis-rule input.
    Position (x, y, ox, oy) and Size (w, h) are the fields of a transform
    row; the game objects are the actors. */
module LegacySystems {
  import opened Ecs
  import Input
  import IS = InputSystem
  import CS = CollisionSystem

  /** The box of a collider: the anchor names the fraction of the size
      that lies BEFORE the position when measured from the far edge, so the
      left edge is `x - floor(w * (1 - anchor.x)) + offset.x`. The box is the
      collider's size, its previous-frame box is the same box moved back by
      the frame's travel, and its corner lies within one unit of
      `position + offset - size * (1 - anchor)`. */
  function LegacyBounds(tr: TransformData, bc: BoxColliderData): (bd: CS.Bounds)
    ensures bd.r == bd.l + bc.w && bd.b == bd.t + bc.h
    ensures bd.or == bd.ol + bc.w && bd.ob == bd.ot + bc.h
    ensures bd.l - bd.ol == tr.x - tr.ox && bd.t - bd.ot == tr.y - tr.oy
    ensures tr.x + bc.offset.x - bc.w * (1.0 - bc.anchor.x) <= bd.l < tr.x + bc.offset.x - bc.w * (1.0 - bc.anchor.x) + 1.0
    ensures tr.y + bc.offset.y - bc.h * (1.0 - bc.anchor.y) <= bd.t < tr.y + bc.offset.y - bc.h * (1.0 - bc.anchor.y) + 1.0
  {
    var fx := FloorPart(bc.w, 1.0 - bc.anchor.x);
    var fy := FloorPart(bc.h, 1.0 - bc.anchor.y);
    var l := tr.x - fx + bc.offset.x;
    var t := tr.y - fy + bc.offset.y;
    var ol := tr.ox - fx + bc.offset.x;
    var ot := tr.oy - fy + bc.offset.y;
    CS.Bounds(l, l + bc.w, t, t + bc.h, ol, ol + bc.w, ot, ot + bc.h)
  }

  /** The earlier bounds are the current bounds with the anchor flipped. */
  lemma LegacyBoundsFlipAnchor(tr: TransformData, bc: BoxColliderData)
    ensures LegacyBounds(tr, bc)
         == CS.GetColliderBounds(tr, bc.(anchor := Vec(1.0 - bc.anchor.x, 1.0 - bc.anchor.y)))
  {
  }

  /** The earlier side test: the same four ordered side rules as the
      current one, but "overlapping with no side" is reported like
      "separate", and nothing is remembered. */
  function LegacyRectCollide(a: CS.Bounds, b: CS.Bounds): (r: Option<Side>)
    ensures r.Some? ==> CS.Overlaps(a, b)
    ensures r.None? <==>
      !CS.Overlaps(a, b) || (a.ot <= b.ob && a.or >= b.ol && a.ol <= b.or && a.ob >= b.ob)
  {
    if a.t > b.b || a.b < b.t || a.r < b.l || a.l > b.r then None
    else if a.t <= b.b && a.ot > b.ob then Some(Top)
    else if a.r >= b.l && a.or < b.ol then Some(Right)
    else if a.l <= b.r && a.ol > b.or then Some(Left)
    else if a.b >= b.t && a.ob < b.ob then Some(Bottom)
    else None
  }

  /** The earlier test names a side exactly when the current test does,
      and the same one. */
  lemma LegacyRectCollideAgrees(a: CS.Bounds, b: CS.Bounds)
    ensures LegacyRectCollide(a, b) == (match CS.RectCollide(a, b) case Named(side) => Some(side) case _ => None)
  {
  }

  /** A game object after `updateGameObject`: it takes the position and
      the size, and nothing else. */
  function Placed(go: Actor, tr: TransformData): (r: Actor)
    ensures r.x == tr.x && r.y == tr.y && r.width == tr.w && r.height == tr.h
    ensures r.scaleX == go.scaleX && r.animation == go.animation && r.finished == go.finished
  {
    go.(x := tr.x, y := tr.y, width := tr.w, height := tr.h)
  }

  /** `updateGameObject` for entity `e`: nothing without a game object. */
  function Sync(w: World, e: Eid): (w': World)
    requires w.Valid() && e < w.Size()
    ensures w'.Valid() && w' == w.(actors := w'.actors) && w'.actors.Keys == w.actors.Keys
  {
    if e in w.actors then w.(actors := w.actors[e := Placed(w.actors[e], w.transform[e])]) else w
  }

  /** Only `e`'s game object changes, and it is placed at `e`'s transform. */
  lemma SyncPlaces(w: World, e: Eid, d: Eid)
    requires w.Valid() && e < w.Size() && d in w.actors
    ensures Sync(w, e).actors[d] == if d == e then Placed(w.actors[d], w.transform[d]) else w.actors[d]
  {
  }

  function BoundsOf(w: World, e: Eid): CS.Bounds
    requires w.Valid() && e < w.Size()
  {
    LegacyBounds(w.transform[e], w.box[e])
  }

  /** A row with its position erased: what the collision pass must keep. */
  function Shape(tr: TransformData): (r: TransformData)
    ensures r.ox == tr.ox && r.oy == tr.oy && r.w == tr.w && r.h == tr.h
    ensures r.x == 0.0 && r.y == 0.0
  {
    tr.(x := 0.0, y := 0.0)
  }

  /** The world with every position erased and no game objects. */
  function Erased(w: World): World
  {
    w.(transform := seq(|w.transform|, k requires 0 <= k < |w.transform| => Shape(w.transform[k])), actors := map[])
  }

  /** The pass writes only positions (x, y) and the game objects of
      entities that already had one. */
  ghost predicate PositionsOnly(w: World, w': World)
  {
    Erased(w') == Erased(w) && w'.actors.Keys == w.actors.Keys
  }

  /** Of the transform rows, only `ea`'s may differ. */
  ghost predicate OnlyMoves(w: World, w': World, ea: Eid)
    requires |w'.transform| == |w.transform|
  {
    forall e :: 0 <= e < |w.transform| && e != ea ==> w'.transform[e] == w.transform[e]
  }

  /** One iteration of the inner loop: A (box `a`, computed once before the
      loop) against B's current box. A colliding pair pushes A out through
      the side and syncs both game objects. */
  function PairStep(w: World, ea: Eid, a: CS.Bounds, eb: Eid): (w': World)
    requires w.Valid() && ea < w.Size() && eb < w.Size()
    ensures w'.Valid() && w'.comps == w.comps && PositionsOnly(w, w')
  {
    var b := BoundsOf(w, eb);
    var side := LegacyRectCollide(a, b);
    if side.None? then w
    else
      var w1 := w.(transform := w.transform[ea := CS.Shift(w.transform[ea], CS.PushOut(side.value, a, b))]);
      Sync(Sync(w1, ea), eb)
  }

  /** A pair writes only A's position and the game objects. */
  lemma PairStepFrame(w: World, ea: Eid, a: CS.Bounds, eb: Eid)
    requires w.Valid() && ea < w.Size() && eb < w.Size()
    ensures OnlyMoves(w, PairStep(w, ea, a, eb), ea)
  {
  }

  /** What one pair does: nothing without a named side; otherwise A's
      position moves by the push-out through that side, whatever B's
      collider type, and leaves A 0.1 clear of B along that axis. */
  lemma PairStepMeaning(w: World, ea: Eid, a: CS.Bounds, eb: Eid)
    requires w.Valid() && ea < w.Size() && eb < w.Size()
    ensures var b := BoundsOf(w, eb);
      var side := LegacyRectCollide(a, b);
      var w' := PairStep(w, ea, a, eb);
      && (side.None? ==> w' == w)
      && (side.Some? ==>
            && w'.transform[ea] == CS.Shift(w.transform[ea], CS.PushOut(side.value, a, b))
            && (side.value == Bottom ==> a.b + (w'.transform[ea].y - w.transform[ea].y) == b.t - 0.1)
            && (side.value == Top ==> a.t + (w'.transform[ea].y - w.transform[ea].y) == b.b + 0.1)
            && (side.value == Right ==> a.r + (w'.transform[ea].x - w.transform[ea].x) == b.l - 0.1)
            && (side.value == Left ==> a.l + (w'.transform[ea].x - w.transform[ea].x) == b.r + 0.1))
  {
  }

  /** The collider type plays no part: a trigger or kinematic partner
      pushes A exactly as a solid one does. */
  lemma KindIgnored(w: World, ea: Eid, a: CS.Bounds, eb: Eid, kind: ColliderType)
    requires w.Valid() && ea < w.Size() && eb < w.Size()
    ensures var w2 := w.(box := w.box[eb := w.box[eb].(kind := kind)]);
      PairStep(w2, ea, a, eb).transform == PairStep(w, ea, a, eb).transform
  {
    var w2 := w.(box := w.box[eb := w.box[eb].(kind := kind)]);
    assert BoundsOf(w2, eb) == BoundsOf(w, eb);
  }

  /** The inner loop after its first `j` partners. */
  function InnerFold(w: World, ea: Eid, a: CS.Bounds, ents: seq<Eid>, j: nat): (w': World)
    requires w.Valid() && ea < w.Size() && j <= |ents| && AllBelow(ents, w.Size())
    ensures w'.Valid() && w'.comps == w.comps && PositionsOnly(w, w')
    decreases j
  {
    if j == 0 then w
    else PairStep(InnerFold(w, ea, a, ents, j - 1), ea, a, ents[j - 1])
  }

  /** The inner loop for A moves no entity but A. */
  lemma {:induction false} InnerOnlyMovesA(w: World, ea: Eid, a: CS.Bounds, ents: seq<Eid>, j: nat, e: Eid)
    requires w.Valid() && ea < w.Size() && j <= |ents| && AllBelow(ents, w.Size())
    requires e < w.Size() && e != ea
    ensures InnerFold(w, ea, a, ents, j).transform[e] == w.transform[e]
  {
    if j > 0 {
      InnerOnlyMovesA(w, ea, a, ents, j - 1, e);
      PairStepFrame(InnerFold(w, ea, a, ents, j - 1), ea, a, ents[j - 1]);
    }
  }

  /** Every suffix of a sequence of ids below `n` is below `n`. */
  lemma SuffixBelow(ents: seq<Eid>, i: nat, n: nat)
    requires AllBelow(ents, n) && i <= |ents|
    ensures AllBelow(ents[i..], n)
  {
  }

  /** The outer loop after its first `i` entities: entity `ents[i-1]`
      against every later entity of the query. */
  function CollisionFold(w: World, ents: seq<Eid>, i: nat): (w': World)
    requires w.Valid() && i <= |ents| && AllBelow(ents, w.Size())
    ensures w'.Valid() && w'.comps == w.comps && PositionsOnly(w, w')
    decreases i
  {
    if i == 0 then w
    else
      var w1 := CollisionFold(w, ents, i - 1);
      var ea := ents[i - 1];
      SuffixBelow(ents, i, w.Size());
      InnerFold(w1, ea, BoundsOf(w1, ea), ents[i..], |ents| - i)
  }

  function ColliderQuery(w: World): (q: seq<Eid>)
    requires w.Valid()
    ensures Distinct(q) && AllBelow(q, w.Size())
  {
    var q := w.Query({BoxCollider, Position});
    assert forall k :: 0 <= k < |q| ==> q[k] in q;
    q
  }

  /** A pass of `ea` over partners `s` leaves every other row where it is,
      and with no partners it leaves `ea` too. */
  lemma PassKeepsOther(w: World, ea: Eid, a: CS.Bounds, s: seq<Eid>, e: Eid)
    requires w.Valid() && ea < w.Size() && AllBelow(s, w.Size()) && e < w.Size()
    requires e != ea || s == []
    ensures InnerFold(w, ea, a, s, |s|).transform[e] == w.transform[e]
  {
    if e != ea {
      InnerOnlyMovesA(w, ea, a, s, |s|, e);
    }
  }

  /** The pass of `ents[i - 1]` leaves the last collider's row alone. */
  lemma PassKeepsLast(w: World, ents: seq<Eid>, i: nat)
    requires w.Valid() && 0 < i <= |ents| && AllBelow(ents, w.Size())
    requires i < |ents| ==> ents[i - 1] != ents[|ents| - 1]
    ensures CollisionFold(w, ents, i).transform[ents[|ents| - 1]]
         == CollisionFold(w, ents, i - 1).transform[ents[|ents| - 1]]
  {
    var last := ents[|ents| - 1];
    var w1 := CollisionFold(w, ents, i - 1);
    var ea := ents[i - 1];
    var later := ents[i..];
    SuffixBelow(ents, i, w.Size());
    assert |later| == |ents| - i;
    assert CollisionFold(w, ents, i) == InnerFold(w1, ea, BoundsOf(w1, ea), later, |later|);
    PassKeepsOther(w1, ea, BoundsOf(w1, ea), later, last);
  }

  /** Walking back from pass `i` to the start, no pass moves the last
      collider. */
  lemma LastKept(w: World, ents: seq<Eid>, i: nat)
    requires w.Valid() && i <= |ents| && AllBelow(ents, w.Size()) && |ents| > 0
    requires forall k :: 0 <= k < |ents| - 1 ==> ents[k] != ents[|ents| - 1]
    ensures CollisionFold(w, ents, i).transform[ents[|ents| - 1]] == w.transform[ents[|ents| - 1]]
  {
    var k := i;
    while k > 0
      invariant 0 <= k <= i
      invariant CollisionFold(w, ents, i).transform[ents[|ents| - 1]]
             == CollisionFold(w, ents, k).transform[ents[|ents| - 1]]
    {
      PassKeepsLast(w, ents, k);
      k := k - 1;
    }
  }

  /** The last collider of the query is never entity A of a pair (j > i
      leaves it no partner), and every other pass moves only its own A: the
      pass leaves its position where it was. */
  lemma LastNeverMoves(w: World, ents: seq<Eid>)
    requires w.Valid() && AllBelow(ents, w.Size()) && Distinct(ents) && |ents| > 0
    ensures CollisionFold(w, ents, |ents|).transform[ents[|ents| - 1]] == w.transform[ents[|ents| - 1]]
  {
    LastKept(w, ents, |ents|);
  }

  /** One pair: push A out of B through the side, then sync both game
      objects; nothing when no side is named. */
  method CollidePair(w: World, eidA: Eid, a: CS.Bounds, eidB: Eid) returns (w': World)
    requires w.Valid() && eidA < w.Size() && eidB < w.Size()
    ensures w' == PairStep(w, eidA, a, eidB)
  {
    var b := BoundsOf(w, eidB);
    var collisionSide := LegacyRectCollide(a, b);
    if collisionSide.None? {
      return w;
    }
    var tr := w.transform[eidA];
    match collisionSide.value {
      case Bottom => tr := tr.(y := tr.y - (Abs(b.t - a.b) + 0.1));
      case Top => tr := tr.(y := tr.y + (Abs(a.t - b.b) + 0.1));
      case Right => tr := tr.(x := tr.x - (Abs(a.r - b.l) + 0.1));
      case Left => tr := tr.(x := tr.x + (Abs(a.l - b.r) + 0.1));
    }
    assert tr == CS.Shift(w.transform[eidA], CS.PushOut(collisionSide.value, a, b));
    w' := w.(transform := w.transform[eidA := tr]);
    w' := Sync(w', eidA);
    w' := Sync(w', eidB);
  }

  /** The inner loop over `entities` for A. */
  method CollideWithLater(w: World, eidA: Eid, a: CS.Bounds, entities: seq<Eid>) returns (w': World)
    requires w.Valid() && eidA < w.Size() && AllBelow(entities, w.Size())
    ensures w' == InnerFold(w, eidA, a, entities, |entities|)
  {
    w' := w;
    for j := 0 to |entities|
      invariant w' == InnerFold(w, eidA, a, entities, j)
    {
      w' := CollidePair(w', eidA, a, entities[j]);
    }
  }

  /** One pass of the outer loop: entity `entities[i]` against every later one. */
  method CollideFrom(w0: World, entities: seq<Eid>, i: nat, w: World) returns (w': World)
    requires w0.Valid() && i < |entities| && AllBelow(entities, w0.Size())
    requires w == CollisionFold(w0, entities, i)
    ensures w' == CollisionFold(w0, entities, i + 1)
  {
    var eidA := entities[i];
    var a := BoundsOf(w, eidA);
    SuffixBelow(entities, i + 1, w0.Size());
    var later := entities[i + 1..];
    assert |later| == |entities| - (i + 1);
    w' := CollideWithLater(w, eidA, a, later);
  }

  /** The naive collision system: each collider against every later one. */
  method CollisionSystem(w: World) returns (w': World)
    requires w.Valid()
    ensures w' == CollisionFold(w, ColliderQuery(w), |ColliderQuery(w)|)
  {
    var entities := ColliderQuery(w);
    w' := w;
    for i := 0 to |entities|
      invariant w' == CollisionFold(w, entities, i)
    {
      w' := CollideFrom(w, entities, i, w');
    }
  }

  /** A mover's row after one step: the old position is snapshotted and
      the position advances by direction times speed times delta. */
  function Moved(tr: TransformData, dir: Vec, speed: real, delta: real): (r: TransformData)
    ensures r.ox == tr.x && r.oy == tr.y
    ensures r.x - r.ox == dir.x * speed * delta && r.y - r.oy == dir.y * speed * delta
    ensures r.w == tr.w && r.h == tr.h
  {
    tr.(ox := tr.x, oy := tr.y, x := tr.x + dir.x * speed * delta, y := tr.y + dir.y * speed * delta)
  }

  /** A mover with no direction (or no speed) stays put, and its snapshot
      then equals its position. */
  lemma StillMoverStays(tr: TransformData, dir: Vec, speed: real, delta: real)
    requires dir == Vec(0.0, 0.0) || speed == 0.0
    ensures var r := Moved(tr, dir, speed, delta);
      r.x == tr.x && r.y == tr.y && r.ox == r.x && r.oy == r.y
  {
  }

  /** Moving twice advances by twice the step, and the snapshot holds the
      position after the first step. */
  lemma MovedTwice(tr: TransformData, dir: Vec, speed: real, delta: real)
    ensures var r := Moved(Moved(tr, dir, speed, delta), dir, speed, delta);
      && r.x == tr.x + 2.0 * (dir.x * speed * delta) && r.y == tr.y + 2.0 * (dir.y * speed * delta)
      && r.ox == Moved(tr, dir, speed, delta).x && r.oy == Moved(tr, dir, speed, delta).y
  {
  }

  /** One mover's step: move the row, then sync its game object. */
  function MoveStep(w: World, e: Eid): (w': World)
    requires w.Valid() && e < w.Size()
    ensures w'.Valid() && w' == w.(transform := w'.transform, actors := w'.actors)
    ensures |w'.transform| == |w.transform| && w'.actors.Keys == w.actors.Keys
  {
    Sync(w.(transform := w.transform[e := Moved(w.transform[e], w.controls[e].dir, w.speed[e], w.delta)]), e)
  }

  /** The movement loop after its first `i` movers. */
  function MoveFold(w: World, ents: seq<Eid>, i: nat): (w': World)
    requires w.Valid() && i <= |ents| && AllBelow(ents, w.Size())
    ensures w'.Valid() && w' == w.(transform := w'.transform, actors := w'.actors)
    ensures |w'.transform| == |w.transform| && w'.actors.Keys == w.actors.Keys
    decreases i
  {
    if i == 0 then w else MoveStep(MoveFold(w, ents, i - 1), ents[i - 1])
  }

  function MoverQuery(w: World): (q: seq<Eid>)
    requires w.Valid()
    ensures Distinct(q) && AllBelow(q, w.Size())
  {
    var q := w.Query({Position, Speed, Controls});
    assert forall k :: 0 <= k < |q| ==> q[k] in q;
    q
  }

  /** After the first `i` movers, a listed entity has taken exactly one
      step from its original row and every other row is untouched. */
  lemma {:induction false} MoveFoldRow(w: World, ents: seq<Eid>, i: nat, e: Eid)
    requires w.Valid() && i <= |ents| && AllBelow(ents, w.Size()) && Distinct(ents) && e < w.Size()
    ensures MoveFold(w, ents, i).transform[e]
         == if Listed(ents, i, e) then Moved(w.transform[e], w.controls[e].dir, w.speed[e], w.delta)
            else w.transform[e]
  {
    if i > 0 {
      if e == ents[i - 1] {
        DistinctNotListedBefore(ents, i - 1);
        MoveFoldUntouched(w, ents, i - 1, e);
      } else {
        MoveFoldRow(w, ents, i - 1, e);
      }
    }
  }

  /** One step places only the mover's game object, at its moved row. */
  lemma MoveStepActor(w: World, d: Eid, e: Eid)
    requires w.Valid() && d < w.Size() && e in w.actors
    ensures MoveStep(w, d).actors[e]
         == if e == d then Placed(w.actors[e], Moved(w.transform[e], w.controls[e].dir, w.speed[e], w.delta))
            else w.actors[e]
  {
    var moved := w.(transform := w.transform[d := Moved(w.transform[d], w.controls[d].dir, w.speed[d], w.delta)]);
    SyncPlaces(moved, d, e);
  }

  /** An entity not among the first `i` movers keeps its row and its game
      object. */
  lemma {:induction false} MoveFoldUntouched(w: World, ents: seq<Eid>, i: nat, e: Eid)
    requires w.Valid() && i <= |ents| && AllBelow(ents, w.Size()) && e < w.Size() && !Listed(ents, i, e)
    ensures MoveFold(w, ents, i).transform[e] == w.transform[e]
    ensures e in w.actors ==> MoveFold(w, ents, i).actors[e] == w.actors[e]
  {
    if i > 0 {
      MoveFoldUntouched(w, ents, i - 1, e);
      var prev := MoveFold(w, ents, i - 1);
      assert MoveFold(w, ents, i) == MoveStep(prev, ents[i - 1]);
      if e in w.actors {
        MoveStepActor(prev, ents[i - 1], e);
      }
    }
  }

  /** After the first `i` movers, a listed entity's game object sits at its
      moved row and every other game object is untouched. */
  lemma {:induction false} MoveFoldActor(w: World, ents: seq<Eid>, i: nat, e: Eid)
    requires w.Valid() && i <= |ents| && AllBelow(ents, w.Size()) && Distinct(ents) && e in w.actors
    ensures MoveFold(w, ents, i).actors[e]
         == if Listed(ents, i, e) then Placed(w.actors[e], Moved(w.transform[e], w.controls[e].dir, w.speed[e], w.delta))
            else w.actors[e]
  {
    if i > 0 {
      var prev := MoveFold(w, ents, i - 1);
      var d := ents[i - 1];
      assert MoveFold(w, ents, i) == MoveStep(prev, d);
      MoveStepActor(prev, d, e);
      if e == d {
        DistinctNotListedBefore(ents, i - 1);
        MoveFoldUntouched(w, ents, i - 1, e);
      } else {
        MoveFoldActor(w, ents, i - 1, e);
      }
    }
  }

  /** Every movable entity takes one step from where it was and its game
      object follows; every other row and game object stays, and no other
      column changes. */
  lemma MovementMeaning(w: World)
    requires w.Valid()
    ensures var w' := MoveFold(w, MoverQuery(w), |MoverQuery(w)|);
      var q := w.Query({Position, Speed, Controls});
      && w' == w.(transform := w'.transform, actors := w'.actors)
      && (forall e :: 0 <= e < |w.transform| ==>
            w'.transform[e] == if e in q then Moved(w.transform[e], w.controls[e].dir, w.speed[e], w.delta)
                               else w.transform[e])
      && (forall e :: e in w.actors ==>
            w'.actors[e] == if e in q then Placed(w.actors[e], Moved(w.transform[e], w.controls[e].dir, w.speed[e], w.delta))
                            else w.actors[e])
  {
    var q := MoverQuery(w);
    assert q[..|q|] == q;
    var w' := MoveFold(w, q, |q|);
    forall e | 0 <= e < |w.transform|
      ensures w'.transform[e] == if e in q then Moved(w.transform[e], w.controls[e].dir, w.speed[e], w.delta)
                                 else w.transform[e]
    {
      MoveFoldRow(w, q, |q|, e);
      ListedIsIn(q, |q|, e);
    }
    forall e | e in w.actors
      ensures w'.actors[e] == if e in q then Placed(w.actors[e], Moved(w.transform[e], w.controls[e].dir, w.speed[e], w.delta))
                              else w.actors[e]
    {
      MoveFoldActor(w, q, |q|, e);
      ListedIsIn(q, |q|, e);
    }
  }

  /** The loop body of `movementSystem` for mover `eid`. */
  method MoveOne(w: World, eid: Eid) returns (w': World)
    requires w.Valid() && eid < w.Size()
    ensures w' == MoveStep(w, eid)
  {
    var delta := w.delta;
    var pos := Vec(w.transform[eid].x, w.transform[eid].y);
    var tr := w.transform[eid];
    tr := tr.(ox := pos.x, oy := pos.y);
    tr := tr.(x := pos.x + w.controls[eid].dir.x * w.speed[eid] * delta);
    tr := tr.(y := pos.y + w.controls[eid].dir.y * w.speed[eid] * delta);
    assert tr == Moved(w.transform[eid], w.controls[eid].dir, w.speed[eid], w.delta);
    w' := w.(transform := w.transform[eid := tr]);
    w' := Sync(w', eid);
  }

  /** `movementSystem` of the earlier module. */
  method MovementSystem(w: World) returns (w': World)
    requires w.Valid()
    ensures w' == MoveFold(w, MoverQuery(w), |MoverQuery(w)|)
  {
    var entities := MoverQuery(w);
    w' := w;
    for i := 0 to |entities|
      invariant w' == MoveFold(w, entities, i)
    {
      w' := MoveOne(w', entities[i]);
    }
  }

  /** The direction the earlier input system stores: the same axis rules
      as the current one, with every component in {-1, 0, 1}. */
  function LegacyDir(kb: Input.Keyboard): (d: Vec)
    ensures d.x == -1.0 || d.x == 0.0 || d.x == 1.0
    ensures d.y == -1.0 || d.y == 0.0 || d.y == 1.0
    ensures forall c :: d == IS.Steered(c, kb).dir
  {
    Vec(IS.AxisDirection(kb, Input.Action.Left, Input.Action.Right), IS.AxisDirection(kb, Input.Up, Input.Down))
  }

  /** Every listener stores the axis directions; its action flags and
      every other entity's controls stay as they were. */
  method InputSystem(w: World, kb: Input.Keyboard) returns (w': World)
    requires w.Valid()
    ensures w' == w.(controls := w'.controls) && |w'.controls| == |w.controls|
    ensures forall e :: 0 <= e < |w.controls| ==>
      w'.controls[e] == if e in w.Query({InputListener, Controls})
                        then w.controls[e].(dir := LegacyDir(kb))
                        else w.controls[e]
  {
    var entities := w.Query({InputListener, Controls});
    w' := w;
    for i := 0 to |entities|
      invariant w' == w.(controls := w'.controls) && |w'.controls| == |w.controls|
      invariant forall e :: 0 <= e < |w.controls| ==>
        w'.controls[e] == if e in entities[..i] then w.controls[e].(dir := LegacyDir(kb)) else w.controls[e]
    {
      var eid := entities[i];
      assert eid in w.entities;
      assert entities[..i + 1] == entities[..i] + [eid];
      w' := SteerOne(w', eid, kb);
    }
    assert entities[..|entities|] == entities;
  }

  /** The loop body for one listener `eid`: only its direction is written. */
  method SteerOne(w: World, eid: Eid, kb: Input.Keyboard) returns (w': World)
    requires eid < |w.controls|
    ensures w' == w.(controls := w.controls[eid := w.controls[eid].(dir := LegacyDir(kb))])
  {
    var dy := IS.ReadAxis(kb, Input.Up, Input.Down);
    var dx := IS.ReadAxis(kb, Input.Action.Left, Input.Action.Right);
    w' := w.(controls := w.controls[eid := w.controls[eid].(dir := Vec(dx, dy))]);
  }
}
