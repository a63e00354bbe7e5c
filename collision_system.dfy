/** The collision system: every box collider that is not a tile mover is
    paired with every box collider (itself included), the colliding side
    is inferred from the previous frame's bounds, remembered per ordered pair
    for ambiguous contacts, and SOLID partners push the entity out. */
module CollisionSystem {
  import opened Ecs

  /** Current (l, r, t, b) and previous-frame (ol, or, ot, ob) edges of a box. */
  datatype Bounds = Bounds(l: real, r: real, t: real, b: real, ol: real, or: real, ot: real, ob: real)

  /** What `rectCollide` returns: `false` (Separate), `true` (overlapping
      with no side inferred) or a named side. */
  datatype Contact = Separate | Ambiguous | Named(side: Side)

  /** The box of a collider at its current and at its previous position. */
  function GetColliderBounds(tr: TransformData, bc: BoxColliderData): (bd: Bounds)
    ensures bd.r == bd.l + bc.w && bd.b == bd.t + bc.h
    ensures bd.or == bd.ol + bc.w && bd.ob == bd.ot + bc.h
    ensures bd.l - bd.ol == tr.x - tr.ox && bd.t - bd.ot == tr.y - tr.oy
    ensures tr.x + bc.offset.x - bc.w * bc.anchor.x <= bd.l < tr.x + bc.offset.x - bc.w * bc.anchor.x + 1.0
    ensures tr.y + bc.offset.y - bc.h * bc.anchor.y <= bd.t < tr.y + bc.offset.y - bc.h * bc.anchor.y + 1.0
  {
    var fx := FloorPart(bc.w, bc.anchor.x);
    var fy := FloorPart(bc.h, bc.anchor.y);
    var l := tr.x - fx + bc.offset.x;
    var t := tr.y - fy + bc.offset.y;
    var ol := tr.ox - fx + bc.offset.x;
    var ot := tr.oy - fy + bc.offset.y;
    Bounds(l, l + bc.w, t, t + bc.h, ol, ol + bc.w, ot, ot + bc.h)
  }

  function BoundsOf(w: World, e: Eid): Bounds
    requires w.Valid() && e < w.Size()
  {
    GetColliderBounds(w.transform[e], w.box[e])
  }

  /** The two boxes have the same previous-frame edges. */
  predicate SameOldBox(a: Bounds, b: Bounds)
  {
    a.ol == b.ol && a.or == b.or && a.ot == b.ot && a.ob == b.ob
  }

  /** The previous-frame box depends only on (ox, oy) and the collider. */
  lemma OldBoxOnlyFromOldPosition(tr1: TransformData, tr2: TransformData, bc: BoxColliderData)
    requires tr1.ox == tr2.ox && tr1.oy == tr2.oy
    ensures SameOldBox(GetColliderBounds(tr1, bc), GetColliderBounds(tr2, bc))
  {
  }

  /** The current boxes intersect or touch. */
  predicate Overlaps(a: Bounds, b: Bounds)
  {
    a.t <= b.b && a.b >= b.t && a.r >= b.l && a.l <= b.r
  }

  /** The side of `a` that hit `b`. Once the boxes overlap, the side is
      decided by the previous-frame edges alone, in the order top, right,
      left, bottom. */
  function RectCollide(a: Bounds, b: Bounds): (c: Contact)
    ensures c.Separate? <==> !Overlaps(a, b)
    ensures c == Named(Top) <==> Overlaps(a, b) && a.ot > b.ob
    ensures c == Named(Right) <==> Overlaps(a, b) && a.ot <= b.ob && a.or < b.ol
    ensures c == Named(Left) <==> Overlaps(a, b) && a.ot <= b.ob && a.or >= b.ol && a.ol > b.or
    ensures c == Named(Bottom) <==>
      Overlaps(a, b) && a.ot <= b.ob && a.or >= b.ol && a.ol <= b.or && a.ob < b.ob
    ensures c.Ambiguous? <==>
      Overlaps(a, b) && a.ot <= b.ob && a.or >= b.ol && a.ol <= b.or && a.ob >= b.ob
  {
    if a.t > b.b || a.b < b.t || a.r < b.l || a.l > b.r then Separate
    else if a.t <= b.b && a.ot > b.ob then Named(Top)
    else if a.r >= b.l && a.or < b.ol then Named(Right)
    else if a.l <= b.r && a.ol > b.or then Named(Left)
    else if a.b >= b.t && a.ob < b.ob then Named(Bottom)
    else Ambiguous
  }

  /** A box never names a side against a box with the same previous-frame
      edges when its width and height are not negative. */
  lemma NoSideAgainstOwnOldBox(a: Bounds, b: Bounds)
    requires SameOldBox(a, b) && a.ol <= a.or && a.ot <= a.ob
    ensures !RectCollide(a, b).Named?
  {
  }

  /** The side the pair is resolved on: the named side, or for an ambiguous
      contact the side remembered for the pair, if any. */
  function ResolvedSide(mem: map<(Eid, Eid), Side>, key: (Eid, Eid), c: Contact): (s: Option<Side>)
    ensures c.Separate? ==> s.None?
    ensures c.Named? ==> s == Some(c.side)
    ensures c.Ambiguous? ==> (s.Some? <==> key in mem) && (key in mem ==> s == Some(mem[key]))
  {
    match c
    case Separate => None
    case Named(side) => Some(side)
    case Ambiguous => if key in mem then Some(mem[key]) else None
  }

  /** The collision memory after a contact: forgotten on separation,
      overwritten by a named side, kept on an ambiguous contact. */
  function Memorize(mem: map<(Eid, Eid), Side>, key: (Eid, Eid), c: Contact): (m: map<(Eid, Eid), Side>)
    ensures c.Separate? ==> key !in m && m == mem - {key}
    ensures c.Named? ==> m == mem[key := c.side]
    ensures c.Ambiguous? ==> m == mem
  {
    match c
    case Separate => mem - {key}
    case Named(side) => mem[key := side]
    case Ambiguous => mem
  }

  /** The displacement pushing `a` out of `b` through `side`: the
      penetration plus 0.1, along the side's axis only. Applied to an
      overlapping `a`, it leaves `a` exactly 0.1 clear of `b` on that axis. */
  function PushOut(side: Side, a: Bounds, b: Bounds): (d: Vec)
    ensures side == Top || side == Bottom ==> d.x == 0.0
    ensures side == Left || side == Right ==> d.y == 0.0
    ensures side == Bottom ==> d.y < 0.0
    ensures side == Top ==> d.y > 0.0
    ensures side == Right ==> d.x < 0.0
    ensures side == Left ==> d.x > 0.0
    ensures Overlaps(a, b) ==>
      && (side == Bottom ==> a.b + d.y == b.t - 0.1)
      && (side == Top ==> a.t + d.y == b.b + 0.1)
      && (side == Right ==> a.r + d.x == b.l - 0.1)
      && (side == Left ==> a.l + d.x == b.r + 0.1)
  {
    match side
    case Bottom => Vec(0.0, -(Abs(b.t - a.b) + 0.1))
    case Top => Vec(0.0, Abs(a.t - b.b) + 0.1)
    case Right => Vec(-(Abs(a.r - b.l) + 0.1), 0.0)
    case Left => Vec(Abs(a.l - b.r) + 0.1, 0.0)
  }

  function Shift(tr: TransformData, d: Vec): TransformData
  {
    tr.(x := tr.x + d.x, y := tr.y + d.y)
  }

  /** The collision pass writes only positions, velocities, grounded flags
      and the collision memory; (ox, oy), sizes and everything else stay. */
  ghost predicate CollisionFrame(w: World, w': World)
  {
    && w' == w.(transform := w'.transform, velocity := w'.velocity, physics := w'.physics,
                collisions := w'.collisions)
    && |w'.transform| == |w.transform| && |w'.velocity| == |w.velocity| && |w'.physics| == |w.physics|
    && (forall e :: 0 <= e < |w.transform| ==>
          w'.transform[e] == w.transform[e].(x := w'.transform[e].x, y := w'.transform[e].y))
    && (forall e :: 0 <= e < |w.physics| ==>
          w'.physics[e] == w.physics[e].(grounded := w'.physics[e].grounded))
  }

  /** Only the rows and memory entries of entity `ea` may differ. */
  ghost predicate OnlyEntityChanged(w: World, w': World, ea: Eid)
    requires |w'.transform| == |w.transform| && |w'.velocity| == |w.velocity| && |w'.physics| == |w.physics|
  {
    && (forall e :: 0 <= e < |w.transform| && e != ea ==> w'.transform[e] == w.transform[e])
    && (forall e :: 0 <= e < |w.velocity| && e != ea ==> w'.velocity[e] == w.velocity[e])
    && (forall e :: 0 <= e < |w.physics| && e != ea ==> w'.physics[e] == w.physics[e])
    && (forall k: (Eid, Eid) :: k.0 != ea ==> (k in w'.collisions <==> k in w.collisions))
    && (forall k: (Eid, Eid) :: k.0 != ea && k in w.collisions ==> w'.collisions[k] == w.collisions[k])
  }

  /** The side entity `ea` (box `a`) is resolved on against `eb` in state `w`. */
  function SideOf(w: World, ea: Eid, a: Bounds, eb: Eid): Option<Side>
    requires w.Valid() && eb < w.Size()
  {
    ResolvedSide(w.collisions, (ea, eb), RectCollide(a, BoundsOf(w, eb)))
  }

  /** One iteration of the inner loop: A (box `a`, computed before the loop)
      against B with B's current box; `grounded` is the loop's flag. */
  function PairStep(w: World, ea: Eid, a: Bounds, eb: Eid, grounded: bool): (r: (World, bool))
    requires w.Valid() && ea < w.Size() && eb < w.Size()
    ensures r.0.Valid() && r.0.comps == w.comps && r.0.box == w.box
    ensures r.1 <==> grounded || (w.box[eb].kind == Solid && SideOf(w, ea, a, eb) == Some(Bottom))
  {
    var b := BoundsOf(w, eb);
    var key := (ea, eb);
    var c := RectCollide(a, b);
    var side := ResolvedSide(w.collisions, key, c);
    var w1 := w.(collisions := Memorize(w.collisions, key, c));
    if w.box[eb].kind == Solid && side.Some? then
      var w2 := w1.(transform := w1.transform[ea := Shift(w1.transform[ea], PushOut(side.value, a, b))]);
      if side.value == Top then
        (w2.(velocity := w2.velocity[ea := w2.velocity[ea].(y := 0.0)]), grounded)
      else
        (w2, grounded || side.value == Bottom)
    else
      (w1, grounded)
  }

  /** What one pair does: the memory follows the contact; a separated pair
      or one with no resolved side, or a partner that is not SOLID, moves
      nothing; otherwise A is pushed out through the resolved side, and a
      top contact also stops A's vertical velocity. */
  lemma PairStepMeaning(w: World, ea: Eid, a: Bounds, eb: Eid, grounded: bool)
    requires w.Valid() && ea < w.Size() && eb < w.Size()
    ensures var r := PairStep(w, ea, a, eb, grounded);
      var c := RectCollide(a, BoundsOf(w, eb));
      var side := SideOf(w, ea, a, eb);
      && (forall k :: k != (ea, eb) ==> (k in r.0.collisions <==> k in w.collisions))
      && (forall k :: k != (ea, eb) && k in w.collisions ==> r.0.collisions[k] == w.collisions[k])
      && r.0.collisions == Memorize(w.collisions, (ea, eb), c)
      && (c.Separate? ==> r == (w.(collisions := w.collisions - {(ea, eb)}), grounded))
      && (side.None? ==> r == (w.(collisions := r.0.collisions), grounded))
      && (w.box[eb].kind != Solid ==> r == (w.(collisions := r.0.collisions), grounded))
      && (w.box[eb].kind == Solid && side.Some? ==>
            && r.0.transform[ea] == Shift(w.transform[ea], PushOut(side.value, a, BoundsOf(w, eb)))
            && r.0.velocity[ea] == (if side.value == Top then w.velocity[ea].(y := 0.0) else w.velocity[ea]))
  {
  }

  /** The inner loop after its first `j` partners, starting from `w` with
      the grounded flag false. */
  function InnerFold(w: World, ea: Eid, a: Bounds, ents: seq<Eid>, j: nat): (r: (World, bool))
    requires w.Valid() && ea < w.Size() && j <= |ents| && AllBelow(ents, w.Size())
    ensures r.0.Valid() && r.0.comps == w.comps && r.0.box == w.box
    decreases j
  {
    if j == 0 then (w, false)
    else
      var (w1, g1) := InnerFold(w, ea, a, ents, j - 1);
      PairStep(w1, ea, a, ents[j - 1], g1)
  }

  /** The inner loop writes only positions, velocities and the memory. */
  lemma PairStepFrame(w: World, ea: Eid, a: Bounds, eb: Eid, grounded: bool)
    requires w.Valid() && ea < w.Size() && eb < w.Size()
    ensures var r := PairStep(w, ea, a, eb, grounded);
      CollisionFrame(w, r.0) && r.0.physics == w.physics && OnlyEntityChanged(w, r.0, ea)
  {
  }

  lemma {:induction false} InnerFrame(w: World, ea: Eid, a: Bounds, ents: seq<Eid>, j: nat)
    requires w.Valid() && ea < w.Size() && j <= |ents| && AllBelow(ents, w.Size())
    ensures CollisionFrame(w, InnerFold(w, ea, a, ents, j).0)
    ensures InnerFold(w, ea, a, ents, j).0.physics == w.physics
  {
    if j > 0 {
      InnerFrame(w, ea, a, ents, j - 1);
      var r := InnerFold(w, ea, a, ents, j - 1);
      PairStepFrame(r.0, ea, a, ents[j - 1], r.1);
    }
  }

  /** The inner loop for A writes only A's rows and A's memory entries. */
  lemma {:induction false} InnerOnlyEntity(w: World, ea: Eid, a: Bounds, ents: seq<Eid>, j: nat)
    requires w.Valid() && ea < w.Size() && j <= |ents| && AllBelow(ents, w.Size())
    ensures OnlyEntityChanged(w, InnerFold(w, ea, a, ents, j).0, ea)
  {
    if j > 0 {
      InnerOnlyEntity(w, ea, a, ents, j - 1);
      var r := InnerFold(w, ea, a, ents, j - 1);
      PairStepFrame(r.0, ea, a, ents[j - 1], r.1);
    }
  }

  /** Grounded flag and the downward bias of 2 after the inner loop. */
  function SetGrounded(w: World, ea: Eid, grounded: bool): World
    requires w.Valid() && ea < w.Size()
  {
    w.(physics := w.physics[ea := w.physics[ea].(grounded := if grounded then 1 else 0)],
       velocity := if grounded then w.velocity[ea := w.velocity[ea].(y := 2.0)] else w.velocity)
  }

  /** One iteration of the outer loop, for entity `ea`. */
  function EntityPass(w: World, ents: seq<Eid>, ea: Eid): (w': World)
    requires w.Valid() && ea < w.Size() && AllBelow(ents, w.Size())
    ensures w'.Valid() && CollisionFrame(w, w')
    ensures OnlyEntityChanged(w, w', ea)
    ensures w.Has(ea, TileMovement) ==> w' == w
  {
    if w.Has(ea, TileMovement) then w
    else
      InnerFrame(w, ea, BoundsOf(w, ea), ents, |ents|);
      InnerOnlyEntity(w, ea, BoundsOf(w, ea), ents, |ents|);
      var (w1, g) := InnerFold(w, ea, BoundsOf(w, ea), ents, |ents|);
      if w.Has(ea, Physics2D) then SetGrounded(w1, ea, g) else w1
  }

  /** The outer loop after its first `i` entities. */
  function CollisionFold(w: World, ents: seq<Eid>, i: nat): (w': World)
    requires w.Valid() && i <= |ents| && AllBelow(ents, w.Size())
    ensures w'.Valid() && CollisionFrame(w, w')
    ensures NonNegativeBoxes(w) && NoSelfKeys(w) ==> NoSelfKeys(w')
    decreases i
  {
    if i == 0 then w
    else
      var prev := CollisionFold(w, ents, i - 1);
      assert prev.box == w.box;
      EntityPassNoSelfKeys(prev, ents, ents[i - 1]);
      EntityPass(prev, ents, ents[i - 1])
  }

  function ColliderQuery(w: World): (q: seq<Eid>)
    requires w.Valid()
    ensures AllBelow(q, w.Size())
  {
    var q := w.Query({BoxCollider, Transform});
    assert forall k :: 0 <= k < |q| ==> q[k] in q;
    q
  }

  /** The whole collision pass. */
  function Collide(w: World): World
    requires w.Valid()
  {
    var q := ColliderQuery(w);
    CollisionFold(w, q, |q|)
  }

  /** Rows and memory entries of entity `e` are the same in both worlds. */
  ghost predicate SameEntity(w: World, w': World, e: Eid)
    requires e < |w.transform| == |w'.transform| && e < |w.velocity| == |w'.velocity|
    requires e < |w.physics| == |w'.physics|
  {
    && w'.transform[e] == w.transform[e] && w'.velocity[e] == w.velocity[e]
    && w'.physics[e] == w.physics[e]
    && (forall k: (Eid, Eid) :: k.0 == e ==> (k in w'.collisions <==> k in w.collisions))
    && (forall k: (Eid, Eid) :: k.0 == e && k in w.collisions ==> w'.collisions[k] == w.collisions[k])
  }

  /** A tile mover is skipped as A and never written as B: its position,
      velocity, grounded flag and its own memory entries survive the pass. */
  lemma {:induction false} TileMoverUntouched(w: World, ents: seq<Eid>, i: nat, e: Eid)
    requires w.Valid() && i <= |ents| && AllBelow(ents, w.Size())
    requires e < w.Size() && w.Has(e, TileMovement)
    ensures SameEntity(w, CollisionFold(w, ents, i), e)
  {
    if i > 0 {
      TileMoverUntouched(w, ents, i - 1, e);
      var prev := CollisionFold(w, ents, i - 1);
      if ents[i - 1] == e {
        assert prev.Has(e, TileMovement);
      }
    }
  }

  lemma TileMoverUntouchedByPass(w: World, e: Eid)
    requires w.Valid() && e < w.Size() && w.Has(e, TileMovement)
    ensures SameEntity(w, Collide(w), e)
  {
    TileMoverUntouched(w, ColliderQuery(w), |ColliderQuery(w)|, e);
  }

  /** No entity has a memory entry against itself. */
  ghost predicate NoSelfKeys(w: World)
  {
    forall e: Eid :: (e, e) !in w.collisions
  }

  /** Every collider has a non-negative width and height. */
  ghost predicate NonNegativeBoxes(w: World)
  {
    forall e :: 0 <= e < |w.box| ==> w.box[e].w >= 0.0 && w.box[e].h >= 0.0
  }

  /** Testing A against itself, with A's box from an earlier state of the
      same pass (the previous-frame edges agree), changes nothing. */
  lemma SelfPairInert(w: World, ea: Eid, a: Bounds, g: bool)
    requires w.Valid() && ea < w.Size() && NonNegativeBoxes(w) && (ea, ea) !in w.collisions
    requires SameOldBox(a, BoundsOf(w, ea))
    ensures PairStep(w, ea, a, ea, g) == (w, g)
  {
    var b := BoundsOf(w, ea);
    NoSideAgainstOwnOldBox(a, b);
    assert w.(collisions := w.collisions - {(ea, ea)}) == w;
  }

  /** A pair of two different entities writes only its own memory entry. */
  lemma OtherPairNoSelfKeys(w: World, ea: Eid, a: Bounds, eb: Eid, g: bool)
    requires w.Valid() && ea < w.Size() && eb < w.Size() && ea != eb && NoSelfKeys(w)
    ensures NoSelfKeys(PairStep(w, ea, a, eb, g).0)
  {
    PairStepMeaning(w, ea, a, eb, g);
    var m := PairStep(w, ea, a, eb, g).0.collisions;
    forall e: Eid ensures (e, e) !in m {
      assert (e, e) != (ea, eb);
    }
  }

  /** One more pair step keeps the memory free of self entries: a partner
      other than A writes only its own pair, and A itself is paired with
      the same previous-frame edges, so it names no side and changes nothing. */
  lemma InnerStepNoSelfKeys(w: World, ea: Eid, ents: seq<Eid>, j: nat)
    requires w.Valid() && ea < w.Size() && 0 < j <= |ents| && AllBelow(ents, w.Size())
    requires NonNegativeBoxes(w) && NoSelfKeys(InnerFold(w, ea, BoundsOf(w, ea), ents, j - 1).0)
    ensures NoSelfKeys(InnerFold(w, ea, BoundsOf(w, ea), ents, j).0)
  {
    var a := BoundsOf(w, ea);
    var (w1, g1) := InnerFold(w, ea, a, ents, j - 1);
    var eb := ents[j - 1];
    if eb == ea {
      InnerFrame(w, ea, a, ents, j - 1);
      OldBoxOnlyFromOldPosition(w.transform[ea], w1.transform[ea], w.box[ea]);
      SelfPairInert(w1, ea, a, g1);
    } else {
      OtherPairNoSelfKeys(w1, ea, a, eb, g1);
    }
  }

  /** The inner loop never writes a self entry. */
  lemma InnerNoSelfKeys(w: World, ea: Eid, ents: seq<Eid>, j: nat)
    requires w.Valid() && ea < w.Size() && j <= |ents| && AllBelow(ents, w.Size())
    requires NonNegativeBoxes(w) && NoSelfKeys(w)
    ensures NoSelfKeys(InnerFold(w, ea, BoundsOf(w, ea), ents, j).0)
  {
    var a, k := BoundsOf(w, ea), 0;
    while k < j
      invariant k <= j && NoSelfKeys(InnerFold(w, ea, a, ents, k).0)
    {
      InnerStepNoSelfKeys(w, ea, ents, k + 1);
      k := k + 1;
    }
  }

  /** One entity's pass creates no self entry. */
  lemma EntityPassNoSelfKeys(w: World, ents: seq<Eid>, ea: Eid)
    requires w.Valid() && ea < w.Size() && AllBelow(ents, w.Size())
    ensures NonNegativeBoxes(w) && NoSelfKeys(w) ==> NoSelfKeys(EntityPass(w, ents, ea))
  {
    if NonNegativeBoxes(w) && NoSelfKeys(w) && !w.Has(ea, TileMovement) {
      InnerNoSelfKeys(w, ea, ents, |ents|);
      var w1 := InnerFold(w, ea, BoundsOf(w, ea), ents, |ents|).0;
      assert EntityPass(w, ents, ea).collisions == w1.collisions;
    }
  }

  /** Starting from a memory without self entries, the pass never creates one. */
  lemma PassNoSelfKeys(w: World)
    requires w.Valid() && NonNegativeBoxes(w) && NoSelfKeys(w)
    ensures NoSelfKeys(Collide(w))
  {
  }

  /** The `k`-th partner is SOLID and resolves as A's bottom. */
  ghost predicate LandsOn(w: World, ea: Eid, a: Bounds, ents: seq<Eid>, k: nat)
    requires w.Valid() && ea < w.Size() && k < |ents| && AllBelow(ents, w.Size())
  {
    w.box[ents[k]].kind == Solid && SideOf(InnerFold(w, ea, a, ents, k).0, ea, a, ents[k]) == Some(Bottom)
  }

  /** Some SOLID partner among the first `j` resolved as A's bottom. */
  ghost predicate LandedWithin(w: World, ea: Eid, a: Bounds, ents: seq<Eid>, j: nat)
    requires w.Valid() && ea < w.Size() && j <= |ents| && AllBelow(ents, w.Size())
    decreases j
  {
    j > 0 && (LandedWithin(w, ea, a, ents, j - 1) || LandsOn(w, ea, a, ents, j - 1))
  }

  /** Each pair step sets the flag exactly when its partner lands A. */
  lemma InnerStepGrounded(w: World, ea: Eid, a: Bounds, ents: seq<Eid>, j: nat)
    requires w.Valid() && ea < w.Size() && 0 < j <= |ents| && AllBelow(ents, w.Size())
    ensures InnerFold(w, ea, a, ents, j).1 <==>
      InnerFold(w, ea, a, ents, j - 1).1 || LandsOn(w, ea, a, ents, j - 1)
  {
    assert InnerFold(w, ea, a, ents, j - 1).0.box == w.box;
  }

  lemma {:induction false} InnerGrounded(w: World, ea: Eid, a: Bounds, ents: seq<Eid>, j: nat)
    requires w.Valid() && ea < w.Size() && j <= |ents| && AllBelow(ents, w.Size())
    ensures InnerFold(w, ea, a, ents, j).1 <==> LandedWithin(w, ea, a, ents, j)
  {
    if j > 0 {
      InnerStepGrounded(w, ea, a, ents, j);
      InnerGrounded(w, ea, a, ents, j - 1);
    }
  }

  /** Some partner landed A exactly when one of the partners lands it. */
  lemma {:induction false} LandedSomewhere(w: World, ea: Eid, a: Bounds, ents: seq<Eid>, j: nat, k: nat)
    requires w.Valid() && ea < w.Size() && j <= |ents| && AllBelow(ents, w.Size())
    requires k < j && LandsOn(w, ea, a, ents, k)
    ensures LandedWithin(w, ea, a, ents, j)
  {
    if k < j - 1 {
      LandedSomewhere(w, ea, a, ents, j - 1, k);
    }
  }

  /** After A's pass, a Physics2D entity is grounded (1) exactly when some
      SOLID partner resolved as its bottom, and grounded forces Velocity.y
      to 2; otherwise grounded is 0. */
  lemma GroundedIffLanded(w: World, ents: seq<Eid>, ea: Eid)
    requires w.Valid() && ea < w.Size() && AllBelow(ents, w.Size())
    requires w.Has(ea, Physics2D) && !w.Has(ea, TileMovement)
    ensures var w' := EntityPass(w, ents, ea);
      var landed := LandedWithin(w, ea, BoundsOf(w, ea), ents, |ents|);
      && (w'.physics[ea].grounded == 1 <==> landed)
      && (w'.physics[ea].grounded == 0 <==> !landed)
      && (landed ==> w'.velocity[ea].y == 2.0)
  {
    InnerGrounded(w, ea, BoundsOf(w, ea), ents, |ents|);
  }

  /** A box falling onto a SOLID floor from above resolves as bottom and is
      lifted to 0.1 above the floor's top. */
  lemma LandingScenario()
    ensures var a := Bounds(0.0, 10.0, 45.0, 55.0, 0.0, 10.0, 38.0, 48.0);
      var b := Bounds(0.0, 100.0, 50.0, 60.0, 0.0, 100.0, 50.0, 60.0);
      RectCollide(a, b) == Named(Bottom) && a.b + PushOut(Bottom, a, b).y == 49.9
  {
  }

  /** The body of the inner loop: entity `eidA` (box `a`) against `eidB`. */
  method CollidePair(w: World, eidA: Eid, a: Bounds, eidB: Eid, grounded: bool)
    returns (w': World, grounded': bool)
    requires w.Valid() && eidA < w.Size() && eidB < w.Size()
    ensures (w', grounded') == PairStep(w, eidA, a, eidB, grounded)
  {
    w', grounded' := w, grounded;
    var b := BoundsOf(w', eidB);
    var collisionSide := RectCollide(a, b);
    var key := (eidA, eidB);

    if collisionSide.Separate? {
      w' := w'.(collisions := w'.collisions - {key});
      return;
    }

    var side: Option<Side>;
    if collisionSide.Named? {
      w' := w'.(collisions := w'.collisions[key := collisionSide.side]);
      side := Some(collisionSide.side);
    } else {
      side := if key in w'.collisions then Some(w'.collisions[key]) else None;
    }

    if w'.box[eidB].kind == Solid && side.Some? {
      var tr := w'.transform[eidA];
      match side.value
      case Bottom =>
        w' := w'.(transform := w'.transform[eidA := tr.(y := tr.y - (Abs(b.t - a.b) + 0.1))]);
        grounded' := true;
      case Top =>
        w' := w'.(transform := w'.transform[eidA := tr.(y := tr.y + (Abs(a.t - b.b) + 0.1))]);
        w' := w'.(velocity := w'.velocity[eidA := w'.velocity[eidA].(y := 0.0)]);
      case Right =>
        w' := w'.(transform := w'.transform[eidA := tr.(x := tr.x - (Abs(a.r - b.l) + 0.1))]);
      case Left =>
        w' := w'.(transform := w'.transform[eidA := tr.(x := tr.x + (Abs(a.l - b.r) + 0.1))]);
    }
  }

  /** The inner loop: entity `eidA` (box `a`) against every collider. */
  method CollideWithAll(w: World, eidA: Eid, a: Bounds, entities: seq<Eid>)
    returns (w': World, grounded: bool)
    requires w.Valid() && eidA < w.Size() && AllBelow(entities, w.Size())
    ensures (w', grounded) == InnerFold(w, eidA, a, entities, |entities|)
  {
    w', grounded := w, false;
    for j := 0 to |entities|
      invariant (w', grounded) == InnerFold(w, eidA, a, entities, j)
    {
      w', grounded := CollidePair(w', eidA, a, entities[j], grounded);
    }
  }

  method CollisionSystem(w: World) returns (w': World)
    requires w.Valid()
    ensures w'.Valid() && CollisionFrame(w, w')
    ensures w' == Collide(w)
  {
    var entities := ColliderQuery(w);
    w' := w;
    for i := 0 to |entities|
      invariant w' == CollisionFold(w, entities, i)
    {
      var eidA := entities[i];
      var a := BoundsOf(w', eidA);
      var hasPhysics := w'.Has(eidA, Physics2D);
      var hasTileMovement := w'.Has(eidA, TileMovement);

      if hasTileMovement {
        continue;
      }

      var grounded;
      w', grounded := CollideWithAll(w', eidA, a, entities);

      if hasPhysics {
        w' := w'.(physics := w'.physics[eidA := w'.physics[eidA].(grounded := if grounded then 1 else 0)]);
        if grounded {
          w' := w'.(velocity := w'.velocity[eidA := w'.velocity[eidA].(y := 2.0)]);
        }
      }
    }
  }
}
