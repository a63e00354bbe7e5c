/** The input system: every input listener's Controls receive the direction
    read from the arrow/WASD actions and the four action flags. */
module InputSystem {
  import opened Ecs
  import opened Input

  /** Reference reading of one axis from the press/down state of its two
      keys, `neg` pulling towards -1 and `pos` towards +1: a fresh press
      wins, the later rule (`pos`) winning when both are fresh; a single held
      key gives its sign; both held and neither fresh, or neither held,
      give 0. A press is always also a key down. */
  function AxisRule(negPress: bool, negDown: bool, posPress: bool, posDown: bool): (d: real)
    requires negPress ==> negDown
    requires posPress ==> posDown
    ensures d == -1.0 || d == 0.0 || d == 1.0
    ensures !negDown && !posDown ==> d == 0.0
    ensures negDown && !posDown ==> d == -1.0
    ensures posDown && !negDown ==> d == 1.0
    ensures negPress && posPress ==> d == 1.0
    ensures negDown && posDown && !negPress && !posPress ==> d == 0.0
  {
    if !negDown && !posDown then 0.0
    else if posPress then 1.0
    else if negPress then -1.0
    else if negDown && posDown then 0.0
    else if posDown then 1.0
    else -1.0
  }

  /** The direction of the axis spanned by the actions `neg` and `pos`. */
  function AxisDirection(kb: Keyboard, neg: Action, pos: Action): real
  {
    KeyPressIsKeyDown(kb, neg);
    KeyPressIsKeyDown(kb, pos);
    AxisRule(KeyPress(kb, neg), KeyDown(kb, neg), KeyPress(kb, pos), KeyDown(kb, pos))
  }

  /** The three rules the system applies to one axis, in order, on the
      press/down state of its two keys. */
  method ApplyAxisRules(negPress: bool, negDown: bool, posPress: bool, posDown: bool) returns (d: real)
    requires negPress ==> negDown
    requires posPress ==> posDown
    ensures d == AxisRule(negPress, negDown, posPress, posDown)
  {
    d := 0.0;
    if negPress || (!posDown && negDown) {
      d := -1.0;
    }
    if posPress || (!negDown && posDown) {
      d := 1.0;
    }
    if !negDown && !posDown {
      d := 0.0;
    }
  }

  /** One axis read from the keyboard. */
  method ReadAxis(kb: Keyboard, neg: Action, pos: Action) returns (d: real)
    ensures d == AxisDirection(kb, neg, pos)
  {
    KeyPressIsKeyDown(kb, neg);
    KeyPressIsKeyDown(kb, pos);
    d := ApplyAxisRules(KeyPress(kb, neg), KeyDown(kb, neg), KeyPress(kb, pos), KeyDown(kb, pos));
  }

  /** `Number(keyPress(a))` */
  function PressFlag(kb: Keyboard, a: Action): (f: int)
    ensures f == 1 <==> KeyPress(kb, a)
    ensures f == 0 || f == 1
  {
    if KeyPress(kb, a) then 1 else 0
  }

  /** The Controls row a listener receives: the raw (unnormalised) axis
      directions, and every action flag taken from the ACTION1 press. */
  function Steered(c: ControlData, kb: Keyboard): ControlData
  {
    var flag := PressFlag(kb, Action1);
    c.(dir := Vec(AxisDirection(kb, Action.Left, Action.Right), AxisDirection(kb, Up, Down)),
       action1 := flag, action2 := flag, action3 := flag, action4 := flag)
  }

  method InputSystem(w: World, kb: Keyboard) returns (w': World)
    requires w.Valid()
    ensures w' == w.(controls := w'.controls) && |w'.controls| == |w.controls|
    ensures forall e :: 0 <= e < |w.controls| ==>
      w'.controls[e] == if e in w.Query({InputListener, Controls}) then Steered(w.controls[e], kb) else w.controls[e]
  {
    var entities := w.Query({InputListener, Controls});
    w' := w;
    for i := 0 to |entities|
      invariant w' == w.(controls := w'.controls) && |w'.controls| == |w.controls|
      invariant forall e :: 0 <= e < |w.controls| ==>
        w'.controls[e] == if e in entities[..i] then Steered(w.controls[e], kb) else w.controls[e]
    {
      var eid := entities[i];
      assert eid in w.entities;
      assert entities[..i + 1] == entities[..i] + [eid];
      w' := SteerOne(w', eid, kb);
    }
    assert entities[..|entities|] == entities;
  }

  /** The loop body for one listener `eid`: its Controls row is steered. */
  method SteerOne(w: World, eid: Eid, kb: Keyboard) returns (w': World)
    requires eid < |w.controls|
    ensures w' == w.(controls := w.controls[eid := Steered(w.controls[eid], kb)])
  {
    var dy := ReadAxis(kb, Up, Down);
    var dx := ReadAxis(kb, Action.Left, Action.Right);
    var flag := PressFlag(kb, Action1);
    var c := w.controls[eid];
    w' := w.(controls := w.controls[eid := c.(dir := Vec(dx, dy), action1 := flag,
                                                 action2 := flag, action3 := flag, action4 := flag)]);
  }

  /** The stored direction is not normalised: holding DOWN and RIGHT from
      an empty previous frame stores (1, 1). */
  lemma DiagonalIsNotNormalised()
    ensures var kb := Keyboard(map["d" := true, "s" := true], map[]);
      Steered(ControlData(Vec(0.0, 0.0), 0, 0, 0, 0, 0), kb).dir == Vec(1.0, 1.0)
  {
    var kb := Keyboard(map["d" := true, "s" := true], map[]);
    assert IsDown(kb.now, Bindings(Action.Right)[0]);
    assert IsDown(kb.now, Bindings(Down)[0]);
    assert !KeyDown(kb, Action.Left) by {
      assert forall k :: k in Bindings(Action.Left) ==> !IsDown(kb.now, k);
    }
    assert !KeyDown(kb, Up) by {
      assert forall k :: k in Bindings(Up) ==> !IsDown(kb.now, k);
    }
  }
}
