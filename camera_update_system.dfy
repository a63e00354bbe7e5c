/** The camera system: the tile engine's scroll follows a player who moves
    out through the outer quarters of the canvas, by the distance the
    player covered this frame, each axis on its own. */
module CameraUpdateSystem {
  import opened Ecs

  /** The player is in the first quarter of the axis moving back faster
      than 0.1, or past three quarters moving forward faster than 0.1. */
  predicate PastDeadZone(p: real, v: real, extent: real)
  {
    (p < extent / 4.0 && v < -0.1) || (p > extent * 0.75 && v > 0.1)
  }

  /** The scroll change along one axis: the distance covered this frame
      when past the dead zone, nothing otherwise. */
  function AxisScroll(p: real, op: real, v: real, extent: real): (d: real)
    ensures PastDeadZone(p, v, extent) ==> d == p - op
    ensures !PastDeadZone(p, v, extent) ==> d == 0.0
  {
    if PastDeadZone(p, v, extent) then p - op else 0.0
  }

  /** A player inside the middle half of an axis, or moving along it no
      faster than 0.1, never scrolls that axis. */
  lemma DeadZoneHolds(p: real, op: real, v: real, extent: real)
    requires extent / 4.0 <= p <= extent * 0.75 || (-0.1 <= v <= 0.1)
    ensures AxisScroll(p, op, v, extent) == 0.0
  {
  }

  /** The scroll change caused by player `e`. */
  function PlayerScroll(w: World, e: Eid, width: real, height: real): Vec
    requires w.Valid() && e < w.Size()
  {
    var tr, v := w.transform[e], w.velocity[e];
    Vec(AxisScroll(tr.x, tr.ox, v.x, width), AxisScroll(tr.y, tr.oy, v.y, height))
  }

  /** The scroll after the first `i` players. */
  function ScrollAfter(w: World, ents: seq<Eid>, i: nat, width: real, height: real): Vec
    requires w.Valid() && i <= |ents| && AllBelow(ents, w.Size())
  {
    if i == 0 then w.scroll
    else
      var s, d := ScrollAfter(w, ents, i - 1, width, height), PlayerScroll(w, ents[i - 1], width, height);
      Vec(s.x + d.x, s.y + d.y)
  }

  /** The two worlds agree on everything that decides the horizontal scroll. */
  ghost predicate SameHorizontal(w1: World, w2: World, ents: seq<Eid>)
    requires w1.Valid() && w2.Valid() && AllBelow(ents, w1.Size()) && AllBelow(ents, w2.Size())
  {
    && w1.scroll.x == w2.scroll.x
    && forall k :: 0 <= k < |ents| ==>
         var e := ents[k];
         w1.transform[e].x == w2.transform[e].x && w1.transform[e].ox == w2.transform[e].ox
         && w1.velocity[e].x == w2.velocity[e].x
  }

  /** The horizontal scroll does not depend on anything vertical: not on
      the players' y, oy or vertical velocity, and not on the canvas height. */
  lemma {:induction false} AxesIndependent(w1: World, w2: World, ents: seq<Eid>, i: nat,
                                           width: real, h1: real, h2: real)
    requires w1.Valid() && w2.Valid() && i <= |ents| && AllBelow(ents, w1.Size()) && AllBelow(ents, w2.Size())
    requires SameHorizontal(w1, w2, ents)
    ensures ScrollAfter(w1, ents, i, width, h1).x == ScrollAfter(w2, ents, i, width, h2).x
  {
    if i > 0 {
      AxesIndependent(w1, w2, ents, i - 1, width, h1, h2);
      var k := i - 1;
      assert w1.transform[ents[k]].x == w2.transform[ents[k]].x;
    }
  }

  /** With every player in the middle half of the canvas width, the
      horizontal scroll stays where it was. */
  lemma {:induction false} MiddleBandKeepsScroll(w: World, ents: seq<Eid>, i: nat, width: real, height: real)
    requires w.Valid() && i <= |ents| && AllBelow(ents, w.Size())
    requires forall k :: 0 <= k < |ents| ==> width / 4.0 <= w.transform[ents[k]].x <= width * 0.75
    ensures ScrollAfter(w, ents, i, width, height).x == w.scroll.x
  {
    if i > 0 {
      MiddleBandKeepsScroll(w, ents, i - 1, width, height);
      var e := ents[i - 1];
      DeadZoneHolds(w.transform[e].x, w.transform[e].ox, w.velocity[e].x, width);
    }
  }

  function PlayerQuery(w: World): (q: seq<Eid>)
    requires w.Valid()
    ensures AllBelow(q, w.Size())
  {
    var q := w.Query({Player});
    assert forall k :: 0 <= k < |q| ==> q[k] in q;
    q
  }

  /** `cameraUpdateSystem`; `width` and `height` are the canvas size. Only
      the scroll changes. */
  method CameraUpdateSystem(w: World, width: real, height: real) returns (w': World)
    requires w.Valid()
    ensures w' == w.(scroll := ScrollAfter(w, PlayerQuery(w), |PlayerQuery(w)|, width, height))
  {
    var entities := PlayerQuery(w);
    w' := w;
    for i := 0 to |entities|
      invariant w' == w.(scroll := ScrollAfter(w, entities, i, width, height))
    {
      var eid := entities[i];
      var tr, vel := w'.transform[eid], w'.velocity[eid];
      if (tr.x < width / 4.0 && vel.x < -0.1) || (tr.x > width * 0.75 && vel.x > 0.1) {
        w' := w'.(scroll := w'.scroll.(x := w'.scroll.x + (tr.x - tr.ox)));
      }
      if (tr.y < height / 4.0 && vel.y < -0.1) || (tr.y > height * 0.75 && vel.y > 0.1) {
        w' := w'.(scroll := w'.scroll.(y := w'.scroll.y + (tr.y - tr.oy)));
      }
    }
  }
}
