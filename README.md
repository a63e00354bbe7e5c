# A verified model of the kontra-ecs-template frame pipeline

This project models the per-frame simulation of a small entity-component-system platformer. The game is written in TypeScript on bitecs (the ECS store) and kontra (sprites and the tile engine). The model covers every system a frame runs:

- **Input.** Deriving a direction and action flags from the current and previous keymaps.
- **Movement.** Free movement with gravity and jumping, and tile-by-tile stepping between waypoints.
- **Collision.** Axis-aligned boxes, side inference from the previous frame's edges, a per-pair memory of the last named side, push-out against SOLID colliders and the grounded flag.
- **Interaction.** The door's open/close animation machine.
- **Actor sync.** Copying the transform to the sprite, choosing its facing and animation.
- **Camera.** Dead-zone scrolling.
- **Helpers.** The small pure helpers of the utility file.
- **The earlier systems module.** Its own bounds formula, its naive pair loop, its movement and its input.

## How the model is organised

The component columns that bitecs keeps as typed arrays indexed by entity id are rows of a `World` datatype in `Ecs`:

- one `seq` per component (`transform`, `velocity`, `controls`, `box`, `physics`, `tile`, `speed`, `range`);
- `comps`, the component membership of each id;
- the sprites bound to entities (`actors`);
- the collision memory (`collisions`, keyed by the ordered pair that the source spells `"A-B"`);
- the frame's `delta`, the tile size and the tile engine's scroll.

A query is the order-preserving filter of the live entities by a required component set (`World.Query`).

Each system that loops in the source is a `method` whose loop mirrors the source statement by statement. The collision, movement and camera loops are proved equal to recursive specification functions that fold the same step over the query: `CollisionFold`, `InnerFold`, `MoveFrom`, `MoveFold` and `ScrollAfter`. Their properties are proved about those functions as lemmas, and the method's `ensures` is the connection. The input, actor-sync and interaction loops are specified differently. Their `ensures` give the new column or actor map in closed form, entity by entity, in terms of the per-entity step (`Steered`, `Synced`, `DoorOf`). Pure helpers are functions with contracts.

Square roots and distances are function parameters. The canvas size is a parameter.

The earlier module stores Position (x, y, ox, oy) and Size (w, h). They are mapped onto the fields of the transform row, and its game objects onto the actors.

In these places the code does something other than what its names or comments suggest, and the model follows the code:

- The input system's `dir.normalize()` result is discarded, so stored directions are not normalised (`InputSystem.DiagonalIsNotNormalised`).
- The 1.5 gravity multiplier never reaches the velocity.
- The first `Transform.y` write under gravity is overwritten.
- The bottom test compares the previous bottoms (`a.ob < b.ob`).
- The current collision loop tests every entity against itself too.
- The movement system returns after the first tile mover.
- All four action flags come from ACTION1.
- The interaction loop's `for..in` visits positions 0..n-1 rather than entity ids. See Findings.
- With no player entity, the interaction system's player position is built from undefined coordinates, which kontra's `Vector` turns into (0, 0). Doors near the origin then react as if the player stood there (`InteractionSystem.MissingPlayerAtOrigin`).

## Model

| member | source | states |
|---|---|---|
| Ecs.FloorPart | src/systems/collisionSystem.ts:29-37 | `Math.floor(size * frac)` is a whole number f with f <= size*frac < f+1 |
| Utils.Clamp | src/utils.ts:74-75 | the result lies in [min, max] when min <= max, equals num when num is already inside, and is max when min > max |
| Utils.ClampIdempotent | src/utils.ts:74-75 | clamping twice gives the same value as clamping once |
| Utils.Scale | src/utils.ts:60-68 | there is no finite result exactly when inMin == inMax (the division by zero) |
| Utils.ScaleMapsEndpoints | src/utils.ts:60-68 | with inMin != inMax, inMin maps to outMin and inMax maps to outMax |
| Utils.GetDirKey | src/utils.ts:100-111 | N, E, S, W exactly for (0,-1), (1,0), (0,1), (-1,0); NE, NW, SE, SW exactly for the sign quadrants with both components non-zero; "default" exactly for the remaining vectors on an axis that are not unit vectors |
| Utils.DirKeyDefaults | src/utils.ts:106-110 | an illustration of `Utils.GetDirKey`'s default case: (0,0), (2,0) and (0,-0.5) all give "default" |
| Utils.IndexChars | src/utils.ts:91-98 | the key set is exactly the set of characters of the string, and each character maps to the index of its last occurrence |
| Utils.NormalizeVector | src/utils.ts:37-44 | the zero vector is returned unchanged; any other vector is divided by its (positive) magnitude, so the result times the magnitude is the input |
| Input.AnyKey | src/input.ts:16-17 | `some`: true exactly when some key satisfies the test |
| Input.EveryKey | src/input.ts:18-20 | `every`: true exactly when all keys satisfy the test |
| Input.KeyDown | src/input.ts:16-17 | keyDown holds exactly when some key bound to the action is truthy in the current keymap; an unseen key counts as up |
| Input.KeyPress | src/input.ts:18-20 | keyPress holds exactly when some bound key is down now and no bound key was down in the previous keymap |
| Input.KeyUp | src/input.ts:21-23 | keyUp holds exactly when some bound key is up now and every bound key was down in the previous keymap |
| Input.KeyPressIsKeyDown | src/input.ts:16-20 | a press is always a key down |
| Input.HeldKeyDoesNotRefire | src/input.ts:18-20 | when the two keymaps agree on an action's keys, that action is not pressed |
| InputSystem.AxisRule | src/systems/inputSystem.ts:12-18 | an axis is -1, 0 or 1; it is 0 when neither key is down, the held key's sign when exactly one is down, the positive key when both are freshly pressed, and 0 when both are held with neither fresh |
| InputSystem.ApplyAxisRules | src/systems/inputSystem.ts:12-14 | the three overriding rules applied in order give `AxisRule` |
| InputSystem.ReadAxis | src/systems/inputSystem.ts:12-18 | one axis read from the keyboard is the axis rule on the keys' press and down states |
| InputSystem.PressFlag | src/systems/inputSystem.ts:24-27 | `Number(keyPress(a))` is 1 exactly when the action is pressed, else 0 |
| InputSystem.SteerOne | src/systems/inputSystem.ts:10-27 | one listener's Controls row gets the raw axis directions and all four action flags from the ACTION1 press; nothing else changes |
| InputSystem.InputSystem | src/systems/inputSystem.ts:7-31 | only the Controls column changes; each input listener's row is steered as above and every other row stays |
| InputSystem.DiagonalIsNotNormalised | src/systems/inputSystem.ts:20-22 | holding DOWN and RIGHT stores the direction (1, 1), not a unit vector |
| ActorUpdateSystem.Facing | src/systems/actorUpdateSystem.ts:19-22 | scaleX becomes 1 for a positive x velocity and -1 for a negative one, and is unchanged at 0 |
| ActorUpdateSystem.MotionAnimation | src/systems/actorUpdateSystem.ts:24-32 | "air" when airborne with physics, else "idle" when abs(xVel) < 0.1, else "walk" |
| ActorUpdateSystem.UpdateGameObject | src/systems/actorUpdateSystem.ts:6-34 | with no actor nothing changes; otherwise only that actor changes: it takes x, y, w, h from the transform, faces by velocity only with Velocity, and changes animation only with Velocity and Animations |
| ActorUpdateSystem.UpdateGameObjectIdempotent | src/systems/actorUpdateSystem.ts:6-34 | syncing an actor twice is syncing it once |
| ActorUpdateSystem.UpdateActors | src/systems/actorUpdateSystem.ts:36-45 | only actors change and none appears or disappears; each actor of a game-object entity is synced once and every other actor is unchanged |
| CameraUpdateSystem.AxisScroll | src/systems/cameraUpdateSystem.ts:9-14 | an axis scrolls by the distance covered (p - op) exactly when the player is in the outer quarter moving outwards faster than 0.1, and by 0 otherwise |
| CameraUpdateSystem.DeadZoneHolds | src/systems/cameraUpdateSystem.ts:9-14 | a player in the middle half of an axis, or moving along it no faster than 0.1, does not scroll it |
| CameraUpdateSystem.AxesIndependent | src/systems/cameraUpdateSystem.ts:8-15 | the horizontal scroll does not depend on any player's y, oy, vertical velocity or the canvas height |
| CameraUpdateSystem.MiddleBandKeepsScroll | src/systems/cameraUpdateSystem.ts:8-15 | with every player inside the middle half of the width, the horizontal scroll stays |
| CameraUpdateSystem.CameraUpdateSystem | src/systems/cameraUpdateSystem.ts:5-17 | only the scroll changes (no Transform or Velocity is written), by the sum over the player-query entities of each player's per-axis scroll |
| InteractionSystem.DoorNext | src/systems/interactionSystem.ts:19-31 | in range, closed or close goes to open, open goes to opened, and opened stays; out of range, opened or open goes to close, close goes to closed, and closed stays; any other animation (a non-door actor) stays; any change is to one of the four door animations |
| InteractionSystem.DoorSettles | src/systems/interactionSystem.ts:19-31 | from any door animation, two finished steps in range (or out of range) reach opened (or closed), which then stays |
| InteractionSystem.DoorUpdate | src/systems/interactionSystem.ts:17-31 | an unfinished animation is left as it is; a finished one moves to the next door animation |
| InteractionSystem.PlayerPos | src/systems/interactionSystem.ts:10-11 | the position of the first entity of the player query (which has the Player component), and (0, 0) when the query is empty, as kontra's `Vector` defaults undefined coordinates |
| InteractionSystem.RangeIsStrict | src/systems/interactionSystem.ts:16 | a player exactly at the range is out of range |
| InteractionSystem.MissingPlayerAtOrigin | src/systems/interactionSystem.ts:10-16 | with no player entity, each interactable door is updated as if the player stood at (0, 0) |
| InteractionSystem.VisitDoor | src/systems/interactionSystem.ts:13-31 | the loop body: an id without an actor is skipped; otherwise its actor becomes the door update for the range test from the player's position, and no other actor changes |
| InteractionSystem.ByPosition | src/systems/interactionSystem.ts:12-32 | the frame as written changes only actors, and keeps the set of entities with an actor |
| InteractionSystem.ById | src/systems/interactionSystem.ts:12-32 | the intended frame changes only actors, and keeps the set of entities with an actor |
| InteractionSystem.InteractionByPosition | src/systems/interactionSystem.ts:8-34 | the loop as written updates the door of every id below the query's length that has an actor, and leaves every other actor unchanged |
| InteractionSystem.InteractionSystem | src/systems/interactionSystem.ts:8-34 | the loop over the query's entity ids updates the door of every queried entity with an actor and leaves every other actor unchanged |
| InteractionSystem.PositionLoopMissesDoor | src/systems/interactionSystem.ts:12-14 | with a player (id 0) standing on a finished closed door (id 1), the loop as written leaves the door closed while the loop over ids starts opening it |
| CollisionSystem.GetColliderBounds | src/systems/collisionSystem.ts:20-40 | r = l + w and b = t + h on both the current and the previous box; the two boxes differ exactly by (x - ox, y - oy); the left and top edges lie within one unit of position + offset - size * anchor |
| CollisionSystem.OldBoxOnlyFromOldPosition | src/systems/collisionSystem.ts:34-37 | the previous-frame box depends only on (ox, oy) and the collider |
| CollisionSystem.RectCollide | src/systems/collisionSystem.ts:9-18 | separate exactly when an edge test fails (touching counts as overlap); once overlapping, top, right, left, bottom are named in that priority from the previous-frame edges, and ambiguous exactly when none matches |
| CollisionSystem.NoSideAgainstOwnOldBox | src/systems/collisionSystem.ts:12-17 | a box with non-negative size names no side against a box with the same previous-frame edges |
| CollisionSystem.ResolvedSide | src/systems/collisionSystem.ts:66-70 | a named side is used as it is; an ambiguous contact uses the remembered side when the pair has one and resolves nothing otherwise; a separate pair resolves nothing |
| CollisionSystem.Memorize | src/systems/collisionSystem.ts:61-67 | separation deletes the pair's entry, a named side overwrites it, an ambiguous contact keeps the memory |
| CollisionSystem.PushOut | src/systems/collisionSystem.ts:72-84 | bottom moves y up, top moves y down, right moves x left, left moves x right, along that axis only; an overlapping box ends exactly 0.1 clear of the other on that axis |
| CollisionSystem.PairStep | src/systems/collisionSystem.ts:56-84 | one pair step keeps the world valid and the components and colliders unchanged; the loop's running `grounded` becomes true exactly when it was true or the partner is SOLID and resolves as bottom |
| CollisionSystem.PairStepMeaning | src/systems/collisionSystem.ts:56-84 | the memory changes only at the pair's own key, as Memorize says; with no resolved side, or a partner that is not SOLID, nothing else changes; otherwise A is pushed out through the side, and a top contact also zeroes A's vertical velocity |
| CollisionSystem.PairStepFrame | src/systems/collisionSystem.ts:56-84 | a pair step writes only A's x, y, A's velocity and A's own memory entries; ox, oy, sizes and the grounded flags stay |
| CollisionSystem.InnerFold | src/systems/collisionSystem.ts:56-85 | the inner loop keeps the world valid and the components and colliders unchanged |
| CollisionSystem.InnerFrame | src/systems/collisionSystem.ts:56-85 | the inner loop writes only positions, velocities and the memory, and no grounded flag |
| CollisionSystem.InnerOnlyEntity | src/systems/collisionSystem.ts:56-85 | the inner loop for A writes only A's rows and the memory entries keyed by A |
| CollisionSystem.EntityPass | src/systems/collisionSystem.ts:46-91 | A's pass writes only A's rows and A's memory entries; a tile mover's pass changes nothing |
| CollisionSystem.CollisionFold | src/systems/collisionSystem.ts:42-94 | the pass writes only x, y, velocities, grounded flags and the memory; starting without self entries and with non-negative sizes, it creates no self entry |
| CollisionSystem.TileMoverUntouched | src/systems/collisionSystem.ts:51-54 | a tile mover is skipped as A and never written as B: its transform, velocity, grounded flag and its own memory entries survive every prefix of the pass |
| CollisionSystem.TileMoverUntouchedByPass | src/systems/collisionSystem.ts:42-94 | the same for the whole collision pass |
| CollisionSystem.SelfPairInert | src/systems/collisionSystem.ts:56-70 | testing A against itself, with A's box from earlier in the same pass, changes nothing |
| CollisionSystem.OtherPairNoSelfKeys | src/systems/collisionSystem.ts:61-67 | a pair of two different entities writes no self entry |
| CollisionSystem.InnerStepNoSelfKeys | src/systems/collisionSystem.ts:56-70 | one more step of the inner loop keeps the memory free of self entries |
| CollisionSystem.InnerNoSelfKeys | src/systems/collisionSystem.ts:56-85 | the whole inner loop keeps the memory free of self entries |
| CollisionSystem.EntityPassNoSelfKeys | src/systems/collisionSystem.ts:46-91 | one entity's pass keeps the memory free of self entries |
| CollisionSystem.PassNoSelfKeys | src/systems/collisionSystem.ts:42-94 | starting with no self entry and non-negative sizes, the whole collision pass never writes a key `A-A` |
| CollisionSystem.InnerStepGrounded | src/systems/collisionSystem.ts:72-75 | each pair sets the grounded flag exactly when its partner is SOLID and resolves as bottom |
| CollisionSystem.InnerGrounded | src/systems/collisionSystem.ts:52-85 | after the inner loop the flag is set exactly when some SOLID partner resolved as bottom |
| CollisionSystem.LandedSomewhere | src/systems/collisionSystem.ts:52-85 | one partner that lands A is enough for A to have landed |
| CollisionSystem.GroundedIffLanded | src/systems/collisionSystem.ts:87-90 | a Physics2D entity's grounded is 1 exactly when some SOLID partner resolved as bottom (with A's bounds taken once before its loop), 0 otherwise, and landing forces Velocity.y to 2 |
| CollisionSystem.LandingScenario | src/systems/collisionSystem.ts:73-75 | a box falling onto a SOLID floor from above resolves as bottom and is lifted to 0.1 above the floor |
| CollisionSystem.CollidePair | src/systems/collisionSystem.ts:56-84 | the inner loop's body, statement by statement, is the pair step |
| CollisionSystem.CollideWithAll | src/systems/collisionSystem.ts:56-85 | the inner loop is the inner fold over every collider |
| CollisionSystem.CollisionSystem | src/systems/collisionSystem.ts:42-94 | the system writes only x, y, velocities, grounded flags and the memory, and equals the collision pass |
| LegacySystems.LegacyBounds | src/systems.ts:36-56 | r = l + w and b = t + h on both boxes; the boxes differ by the frame's travel; the left and top edges lie within one unit of position + offset - size * (1 - anchor) |
| LegacySystems.LegacyBoundsFlipAnchor | src/systems.ts:45-53 | the earlier bounds are the current bounds with the anchor replaced by 1 - anchor |
| LegacySystems.LegacyRectCollide | src/systems.ts:25-34 | a side is named only for overlapping boxes; null exactly when the boxes are separate or overlap with none of the four side rules matching |
| LegacySystems.LegacyRectCollideAgrees | src/systems.ts:25-34 | the earlier side test names the same side as the current test exactly when that one names a side; "separate" and "ambiguous" both give null |
| LegacySystems.Placed | src/systems.ts:58-66 | a game object takes position and size from the row and keeps its facing, animation and playback state |
| LegacySystems.Sync | src/systems.ts:58-66 | `updateGameObject` changes only actors and keeps the set of entities with an actor |
| LegacySystems.SyncPlaces | src/systems.ts:58-66 | only the entity's own game object changes, and it is placed at the entity's row |
| LegacySystems.PairStep | src/systems.ts:113-131 | one pair writes only positions and game objects; components, colliders, velocities and snapshots stay |
| LegacySystems.PairStepFrame | src/systems.ts:113-131 | of the transform rows only A's may change |
| LegacySystems.PairStepMeaning | src/systems.ts:113-131 | without a named side nothing changes; otherwise A's position moves by the push-out through that side and A ends 0.1 clear of B along that axis |
| LegacySystems.KindIgnored | src/systems.ts:121-129 | the partner's collider type plays no part: any type pushes A exactly like SOLID |
| LegacySystems.InnerFold | src/systems.ts:113-132 | the inner loop writes only positions and game objects |
| LegacySystems.InnerOnlyMovesA | src/systems.ts:113-132 | the inner loop for A moves no entity but A |
| LegacySystems.CollisionFold | src/systems.ts:104-136 | the outer loop writes only positions and game objects |
| LegacySystems.PassKeepsOther | src/systems.ts:113-132 | a pass of A leaves every other row, and with no partners A's own row, where it is |
| LegacySystems.PassKeepsLast | src/systems.ts:108-113 | the pass of an entity other than the last collider, or of the last one with an empty slice, leaves the last collider's row |
| LegacySystems.LastKept | src/systems.ts:108-133 | no prefix of the outer loop moves the last collider |
| LegacySystems.LastNeverMoves | src/systems.ts:104-136 | pairs are taken with j > i only, so the last collider of the query is never pushed |
| LegacySystems.CollidePair | src/systems.ts:113-131 | the inner loop's body, statement by statement, is the pair step |
| LegacySystems.CollideWithLater | src/systems.ts:113-132 | the inner loop is the inner fold over the later colliders |
| LegacySystems.CollideFrom | src/systems.ts:108-133 | one outer iteration advances the outer fold by one entity |
| LegacySystems.CollisionSystem | src/systems.ts:104-136 | the naive collision system equals the fold over every entity against the later ones |
| LegacySystems.Moved | src/systems.ts:73-77 | ox, oy become the old position; the position advances by dir * speed * delta on each axis; the size stays |
| LegacySystems.StillMoverStays | src/systems.ts:73-77 | a mover with zero direction or zero speed stays put, and its snapshot equals its position |
| LegacySystems.MovedTwice | src/systems.ts:73-77 | an illustration of `LegacySystems.Moved`: two steps advance by twice the step, and the snapshot holds the position after the first one |
| LegacySystems.MoveStep | src/systems.ts:72-79 | one mover's step changes only transforms and game objects |
| LegacySystems.MoveFold | src/systems.ts:69-81 | the movement loop changes only transforms and game objects |
| LegacySystems.MoveFoldRow | src/systems.ts:69-81 | after a prefix of the movers, each listed entity has taken exactly one step from its original row and every other row is untouched |
| LegacySystems.MoveStepActor | src/systems.ts:72-79 | one step places only the mover's game object, at its moved row |
| LegacySystems.MoveFoldUntouched | src/systems.ts:69-81 | an entity that is not among the movers processed so far keeps its row and its game object |
| LegacySystems.MoveFoldActor | src/systems.ts:69-81 | after a prefix of the movers, each listed entity's game object sits at its moved row and every other one is untouched |
| LegacySystems.MovementMeaning | src/systems.ts:69-81 | every movable entity takes one step from where it was and its game object follows; every other row and game object stays; no other column changes |
| LegacySystems.MoveOne | src/systems.ts:72-79 | the loop body, statement by statement, is one mover's step |
| LegacySystems.MovementSystem | src/systems.ts:69-81 | the movement system equals the movement fold over the query |
| LegacySystems.LegacyDir | src/systems.ts:86-98 | each stored component is -1, 0 or 1, and the direction is the one the current input system stores |
| LegacySystems.SteerOne | src/systems.ts:86-98 | one listener's direction is written and nothing else |
| LegacySystems.InputSystem | src/systems.ts:83-101 | only the Controls column changes; each listener's direction is set by the axis rules, its action flags stay, and every other row stays |
| MovementSystem.TileMove | src/systems/movementSystem.ts:9-44 | a tile step writes only the entity's transform, velocity and waypoints, and no other entity's rows or any actor |
| MovementSystem.DiagonalAtEndIsInert | src/systems/movementSystem.ts:20-26 | on its waypoint with both direction components non-zero, the entity returns before writing anything |
| MovementSystem.NewStepAtEnd | src/systems/movementSystem.ts:20-31 | on its waypoint with a cardinal or zero direction, start becomes the position, end becomes pos + dir * tileSize and velocity becomes dir * speed |
| MovementSystem.StepContinues | src/systems/movementSystem.ts:20-31 | between waypoints, the waypoints and the velocity carry on unchanged |
| MovementSystem.TileStepNeverOvershoots | src/systems/movementSystem.ts:33-39 | each coordinate ends between the step's start and end, and equals position + velocity * delta whenever that is in range; only x and y of the transform move |
| MovementSystem.TileStepWritesOnlyPosition | src/systems/movementSystem.ts:33-39 | a tile step writes only x and y of the transform |
| MovementSystem.Snapshot | src/systems/movementSystem.ts:54-55 | the entity's ox, oy take its current position and the rest of its transform stays; no other entity's rows or actor change |
| MovementSystem.FreeMove | src/systems/movementSystem.ts:62-87 | a free move changes no other entity's rows or actor, and no column besides transforms, velocities, waypoints and actors |
| MovementSystem.MoveFrom | src/systems/movementSystem.ts:49-88 | the pass writes only transforms, velocities, waypoints and actors |
| MovementSystem.FreeMoveWithoutGravity | src/systems/movementSystem.ts:77-84 | without gravity, the velocity is dir * speed on both axes and the position advances by it over delta, so a zero direction leaves the position unchanged |
| MovementSystem.FreeMoveUnderGravity | src/systems/movementSystem.ts:67-84 | under gravity, a jump impulse replaces vy only when grounded with ACTION1 set; vy then gains exactly gravity * delta (never 1.5 times that); y ends at old y + new vy * delta |
| MovementSystem.StopsAtFirstTileMover | src/systems/movementSystem.ts:57-60 | no mover after the first tile mover in the query is touched that frame |
| MovementSystem.MoveFromKeepsOthers | src/systems/movementSystem.ts:49-88 | an entity not among the movers still to come keeps its rows and actor |
| MovementSystem.SnapshotIsPrePassPosition | src/systems/movementSystem.ts:54-60 | every mover the pass reaches ends it with (ox, oy) equal to its position before the pass |
| MovementSystem.SnapshotOfFirst | src/systems/movementSystem.ts:54-60 | the first mover of the pass ends it with (ox, oy) equal to its position before the pass |
| MovementSystem.TileMovementStep | src/systems/movementSystem.ts:9-44 | `tileMovement`, statement by statement, is the tile step |
| MovementSystem.FreeMovementStep | src/systems/movementSystem.ts:62-87 | the free branch of the loop body, statement by statement (including the dead 1.5 factor and the overwritten y write), is the free move |
| MovementSystem.MovementSystem | src/systems/movementSystem.ts:46-90 | the system writes only transforms, velocities, waypoints and actors, and equals the movement pass, which ends at the first tile mover |

## Left out

- `src/main.ts` (canvas, audio and window bootstrap, the game loop and its inline systems), `src/rendering.ts` and the audio manager: browser I/O that is not part of this model.
- The I/O, randomness and reflection helpers of `src/utils.ts` (`loadImage`, `loadAudioClips`, `scaleImage`, `setCanvasScale`, `randomInt`, `rotateVector`, `toRadians`, `getDistance`, `clone`): DOM, asynchronous loading, randomness and trigonometry.
- The entity factories and the sprite class are not part of this model. A sprite is the `Actor` value with the fields the systems write. `animationFinished()` is the stored `finished` flag, answered by playback outside the model.
- The bitecs store itself. A query is an order-preserving filter of the live ids. bitecs's own iteration order is not modelled beyond "some fixed sequence of distinct ids".
- Number representation: every coordinate is a `real`. The f32 rounding of the typed-array columns and IEEE NaN or infinity are not modelled, except that `Utils.Scale` returns `None` where JavaScript would produce a non-finite value.
- In-place updates: the typed arrays that the systems mutate in place are modelled by threading a `World` value through methods. Aliasing between columns, or between two ids bound to the same sprite, is not modelled.
- The square root of the jump impulse and kontra's `Vector.distance` are function parameters. The canvas width and height are parameters. kontra's `Vector` and `TileEngine` objects are replaced by their fields.
- ActorUpdateSystem.UpdateActors: the sprite's own `update()` (frame advance) is not modelled. Playback lives outside the model.
- InteractionSystem.DoorUpdate: the rewind of a finished animation (`currentAnimation.reset()`) is not modelled. `finished` is an input of the frame, and `playAnimation` is modelled as a change of the animation name.
- CameraUpdateSystem.CameraUpdateSystem: the tile engine's own clamping of its scroll is not modelled. Nor is the system's missing `return world`. The model returns the world with the new scroll.
- LegacySystems.CollidePair: the `console.log` of the side is left out (I/O).
- Utils.NormalizeVector: only the zero case is stated exactly. For other vectors the magnitude is whatever the given square root returns, and the contract only says that the result scaled back by it is the input.

## Findings

| source | as written | input that shows it | evidently intended | confidence | as-written member | corrected member |
|---|---|---|---|---|---|---|
| src/systems/interactionSystem.ts:12 | `for (let eid in entities)` walks the array's positions "0".."n-1" and uses each as an entity id | entity 0 is the player and entity 1 a finished, closed door at range 200 with the player on it: the query is [1], so only id 0 is visited and the door never opens | visit the entity ids of the interactable query (`for..of`), so door 1 starts opening | not executed | InteractionSystem.InteractionByPosition | InteractionSystem.InteractionSystem |
