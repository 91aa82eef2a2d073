# World scene of the rehack MMORPG client, in Dafny

This project models the client-side world scene of a small browser multiplayer RPG. The
original is written for the Phaser engine and talks to a socket.io server. The modelled
state is:

- the local player's body velocity, attack flag, animation, horizontal flip, and the
  position triple saved for delta suppression;
- the collection of remote players' sprites (`otherPlayers`);
- the group of enemy sprites (`spawns`).

The modelled behaviour is:

- the per-frame `update`: input to velocity, animation and flip, the attack flag, and the
  `playerMovement` message that is sent only when the triple changed;
- the four inbound socket handlers: `currentPlayers`, `newPlayer`, `disconnect`,
  `playerMoved`;
- enemy creation, the search for a free spot, the sprite pick, the patrol step and its
  delayed stop, and the relocation of an enemy that the attacking weapon touches.

Modules:

- `Motion` (`motion.dfy`) states the rules of one tick as pure functions. `Tick` is one
  frame and `Trace` is a run of frames. The lemmas cover attack toggling and delta
  suppression.
- `Remotes` (`remotes.dfy`) gives what each socket message does to the remote-sprite
  collection, as functions over sequences. It also holds the `disconnect` handler as
  written (see Findings).
- `Enemies` (`enemies.dfy`) covers bounds, free-spot search, sprite pick, patrol rule and
  population, with the spread invariant.
- `WorldScene` (`world_scene.dfy`) holds the class `Scene`. Its fields are the scene's
  mutable state, and its methods perform the original's steps in place. Each method's
  `ensures` ties the new state to the functions above, and its `modifies` clause names the
  only fields it may change.
- `Wrappers` (`wrappers.dfy`) holds `Option`.

Randomness, time and input are parameters:

- A draw of `Math.random` is a real in [0, 1).
- The points `Phaser.Math.RND.between` would produce are a given sequence of candidate
  points inside the world bounds.
- Key and joystick states arrive as a `Controls` value per frame, with the space key's
  "just pressed" edge as a boolean.
- Socket messages are method arguments, and a sent `playerMovement` is a method result.

## Model

| member | source | states |
|---|---|---|
| Motion.HorizontalVelocity | public/assets/js/game.js:368-373 | the x velocity is -80, 0 or 80; it is negative exactly when left is held on any of the three sources, and positive exactly when right is held and left is not (left wins) |
| Motion.VerticalVelocity | public/assets/js/game.js:375-380 | the y velocity is -80, 0 or 80; negative exactly when up is held, positive exactly when down is held and up is not |
| Motion.ChooseFacing | public/assets/js/game.js:382-395 | the animation chain agrees with the velocity rules: walk left/right exactly when moving sideways that way, walk up/down only with no sideways motion, stop exactly when both velocities are zero; the flip is set by sideways motion and kept otherwise |
| Motion.NextAttacking | public/assets/js/game.js:351-356 | the attack flag is raised only on a fresh space press while not already attacking, and always then; it is never raised on two ticks in a row |
| Motion.Emission | public/assets/js/game.js:397-403 | a message is sent exactly when a triple was saved and differs from the current one, and it carries the current triple |
| Motion.Tick | public/assets/js/game.js:347-409 | one tick leaves the position alone, always saves the current triple, sends only the saved triple, sends nothing when nothing was saved before, and when silent the saved triple was already the current one |
| Motion.Trace | public/assets/js/game.js:347-417 | a run of ticks, the physics engine placing the container before each one, yields one result per frame, starting with the tick from the first frame's position |
| Motion.AttackNeverTwice | public/assets/js/game.js:351-356 | along any run of ticks, the attack flag is never up both before and after a tick |
| Motion.HeldSpaceAttacksOnce | public/assets/js/game.js:351-356 | with space held down (pressed edge on the first frame only), the player attacks on the first tick and on no later tick |
| Motion.SendsExactlyOnChange | public/assets/js/game.js:397-409 | from the second tick of a run on, a tick sends exactly when the engine moved the container since the previous tick or the flip changed, and the message carries the new position and flip |
| Motion.SilentWhileStill | public/assets/js/game.js:397-409 | once the saved triple matches the player, ticks without sideways input send nothing while the engine leaves the container where it is |
| Motion.FirstTickSilent | public/assets/js/game.js:401-409 | a newly created player sends nothing on its first tick; on the next it sends exactly when the engine moved it or the flip changed |
| Motion.LeftWinsOverRight | public/assets/js/game.js:369-388 | with left and right both held, the player moves left, plays the left walk and is flipped |
| Motion.DiagonalMotion | public/assets/js/game.js:368-387 | right and down held give velocity (80, 80) with the right walk: the two axes are independent |
| Remotes.Joined | public/assets/js/game.js:91-99 | a snapshot adds at most one sprite per entry |
| Remotes.JoinedExact | public/assets/js/game.js:91-99 | the sprites a snapshot adds are exactly those of the entries that do not name this client; none carries this client's id, none is flipped; with no self entry there is one per entry |
| Remotes.LastSelf | public/assets/js/game.js:91-94 | the chosen index is a snapshot entry naming this client |
| Remotes.LastSelfIsLast | public/assets/js/game.js:91-94 | no entry after the chosen one names this client, and with none chosen no entry does |
| Remotes.Without | public/assets/js/game.js:105-111 | leaving never makes the collection longer |
| Remotes.WithoutExact | public/assets/js/game.js:105-111 | after a leave, exactly the sprites with another id remain; nothing is removed exactly when no sprite has the id |
| Remotes.LeaveIsIdempotent | public/assets/js/game.js:105-111 | a second leave for the same id changes nothing |
| Remotes.LeaveUnknownIsNoOp | public/assets/js/game.js:105-111 | a leave for an id no sprite has changes nothing |
| Remotes.ApplyMove | public/assets/js/game.js:113-120 | a move keeps the length and the ids; sprites with the record's id take its position and flip, all others are unchanged |
| Remotes.MoveUnknownIsNoOp | public/assets/js/game.js:113-120 | a move for an id no sprite has changes nothing |
| Remotes.JoinThenLeave | public/assets/js/game.js:101-111 | a join followed by a leave of that player leaves the collection as a leave alone would |
| Remotes.LeaveAfterMove | public/assets/js/game.js:105-120 | moving a player and then removing it is the same as removing it |
| Remotes.RemoveDuringForEach | public/assets/js/game.js:105-111 | the leave handler as written never makes the collection longer |
| Remotes.AsWrittenKeepsOthers | public/assets/js/game.js:105-111 | the handler as written keeps every sprite with another id and adds none |
| Remotes.AsWrittenAgreesWithoutAdjacentMatches | public/assets/js/game.js:105-111 | from any index, the handler as written agrees with full removal when no two neighbouring sprites carry the id |
| Remotes.AsWrittenCorrectWithoutNeighbours | public/assets/js/game.js:105-111 | the handler as written removes every sprite of the player when no two of them are neighbours |
| Remotes.AsWrittenLeavesDuplicate | public/assets/js/game.js:105-111 | two neighbouring sprites with the same id: the handler as written leaves one, full removal leaves none |
| Enemies.ContainsOnPixels | public/assets/js/game.js:330 | an enemy's bounds (its texture's rectangle, centred, edges included) contain a whole-pixel point exactly when the texture has area and the point is within half the texture size, rounded down, of the enemy on both axes |
| Enemies.OddTextureCoversHalfRoundedDown | public/assets/js/game.js:330 | a 15-pixel enemy at x = 100 covers columns 93 to 107, not 92 or 108 |
| Enemies.FirstFree | public/assets/js/game.js:324-335 | the count of rejected draws: every earlier candidate lies in some enemy's bounds, the accepted one in none |
| Enemies.Place | public/assets/js/game.js:321-337 | a returned point is one of the candidates and lies in no enemy's bounds; nothing is returned exactly when every candidate is occupied |
| Enemies.PlaceIsValid | public/assets/js/game.js:321-337 | a point found from in-world candidates is inside the world and outside every enemy's bounds |
| Enemies.EnemySprite | public/assets/js/game.js:316-319 | the picked texture is always one of golem, ent, demon, worm, wolf |
| Enemies.PatrolRoll | public/assets/js/game.js:290 | for an exact real draw in [0, 1), the patrol die is always 1, 2, 3 or 4, so the default branch is never taken |
| Enemies.Patrol | public/assets/js/game.js:292-307 | a patrol step writes one velocity axis only (x to 50 or -50, or y to 50), never an upward velocity, and rolls 3 and 4 both send the enemy down |
| Enemies.Populate | public/assets/js/game.js:267-278 | populating adds one enemy per candidate stream after the ones present |
| Enemies.PopulateSpread | public/assets/js/game.js:267-278 | from spread enemies and in-world candidates, the whole population is spread (every enemy in the world, none at a point inside an earlier enemy's bounds), and every new enemy is at rest with one of the five textures |
| WorldScene.Scene.constructor | public/assets/js/game.js:56-58 | a new scene has no local player, no remote sprite and no enemy |
| WorldScene.Scene.CreatePlayer | public/assets/js/game.js:212-228 | the local player exists at the record's position, at rest, unflipped, not attacking, with nothing saved |
| WorldScene.Scene.AddOtherPlayers | public/assets/js/game.js:253-258 | one unflipped sprite for the record is appended; nothing else changes |
| WorldScene.Scene.OnCurrentPlayers | public/assets/js/game.js:91-99 | the collection gains exactly the snapshot's other players in order; the local player is created from the last entry naming this client, or is untouched when none does |
| WorldScene.Scene.OnSnapshotEntry | public/assets/js/game.js:93-97 | one snapshot entry creates the local player when it names this client and appends a remote sprite otherwise |
| WorldScene.Scene.OnNewPlayer | public/assets/js/game.js:101-103 | a `newPlayer` appends one sprite for the record |
| WorldScene.Scene.OnDisconnect | public/assets/js/game.js:105-111 | after a `disconnect` the collection is the old one without any sprite of that id (the corrected removal) |
| WorldScene.Scene.OnPlayerMoved | public/assets/js/game.js:113-120 | after a `playerMoved` the collection is the old one with that player's sprites moved and re-flipped |
| WorldScene.Scene.GetValidLocation | public/assets/js/game.js:321-337 | the loop returns the first candidate outside every enemy's bounds, which lies in the world, or nothing when the candidates run out |
| WorldScene.Scene.CreateEnemies | public/assets/js/game.js:267-278 | the group is rebuilt with 20 enemies exactly as the population function says, spread out, at rest and with one of the five textures; `ok` is false exactly when a stream runs dry |
| WorldScene.Scene.MoveEnemies | public/assets/js/game.js:288-308 | every enemy gets the patrol step of its own die roll; nothing else changes |
| WorldScene.Scene.StopEnemies | public/assets/js/game.js:310-313 | every enemy's velocity is zero and its position, texture and size are kept |
| WorldScene.Scene.OnMeetEnemy | public/assets/js/game.js:339-345 | while attacking, the touched enemy moves to a free in-world point outside every enemy's bounds and the others stay; otherwise nothing changes |
| WorldScene.Scene.PhysicsStep | public/assets/js/game.js:216-236 | between frames the engine moves the enabled container body; only the local player's position changes |
| WorldScene.Scene.Update | public/assets/js/game.js:347-417 | without a player a tick does nothing; with one, the new player state and the message sent are exactly those of `Tick` |
| WorldScene.Scene.SetVelocity | public/assets/js/game.js:349-380 | the velocity is reset and then set to the two axis rules |
| WorldScene.Scene.UpdateAttacking | public/assets/js/game.js:351-356 | the attack flag follows `NextAttacking` |
| WorldScene.Scene.PlayAnimation | public/assets/js/game.js:382-395 | the animation and flip follow `ChooseFacing` |
| WorldScene.Scene.EmitMovement | public/assets/js/game.js:397-409 | the message sent follows `Emission`, and the current triple is saved |

## Left out

- `BootScene`, `createMap`, `createAnimations`, `updateCamera`, the game configuration and
  the vision mask (lines 240-249 and 411-415 of game.js): asset loading and rendering only.
- The physics engine's arithmetic: how velocities, collisions and world-bounds clamping move
  a body between frames. The container's new position is an argument of
  `Scene.PhysicsStep`, and of each frame of `Motion.Trace`, and the model does not say
  how the engine computes it. Enemy bodies are not moved by the engine in the model. The
  weapon's overlap with an enemy becomes a call to `OnMeetEnemy` with the enemy's index.
- The socket transport, the 3000 ms repeating timer and the 500 ms delayed stop. `MoveEnemies`
  and `StopEnemies` are separate calls, and the caller decides when each fires.
- The random tint of a remote sprite and the virtual-joystick plugin. The joystick is
  reduced to its four direction flags.
- Positions are whole pixels. Fractional positions are not modelled. An enemy's bounds are
  computed in exact reals, as the texture's rectangle centred on its position.
  `textureSize` stands for the sizes of the loaded textures.
- Enemies.Place, WorldScene.Scene.GetValidLocation: the original draws points until one is
  free, so it never returns when the world is full. The model draws from a finite candidate
  sequence and returns `None` when it runs out. `CreateEnemies` then stops with `ok` false,
  and `OnMeetEnemy` leaves the enemy where it is.
- The order of `Object.keys` over the snapshot object is taken to be the order of the given
  sequence.
- A second `createPlayer` in the original leaves the earlier container on screen. The model
  keeps a single local player, overwritten by the last entry that names this client.
- `addOtherPlayers` creates the sprite unflipped. The record's `flipX` is applied only by a
  later `playerMoved`, as in the code.
- Enemies.PatrolRoll: random draws are exact reals. In IEEE doubles a draw of 1 - 2^-53
  gives `floor(u * 4 + 1)` = 5, which reaches the default branch. That branch does what
  roll 1 does, and `Enemies.Patrol` models it in its default case.
- Patrol rolls 3 and 4 both set the vertical velocity to +50, as in the code; no roll moves
  an enemy up. This is kept as written.

## Findings

| source | as written | input that shows it | evidently intended | confidence | as-written member | corrected member |
|---|---|---|---|---|---|---|
| public/assets/js/game.js:105-111 | the `disconnect` handler destroys sprites while `forEach` walks the group's live child array; each destroy splices the array, so the sprite that slides into the freed slot is never visited | two neighbouring sprites with the id "A" (a snapshot entry and a `newPlayer` for the same id), then `disconnect("A")`: one sprite of "A" remains | every sprite of the departed player is removed | medium, not executed (relies on the engine removing a destroyed child from the array being iterated) | Remotes.RemoveDuringForEach, Remotes.AsWrittenLeavesDuplicate | Remotes.Without, WorldScene.Scene.OnDisconnect |
