/**
 * The per-tick rules of the world scene's `update`: how the direction inputs become a
 * velocity, which walk animation is played and where the sprite faces, how the attack
 * flag follows the space key, and when the local position is sent to the server.
 *
 * The rules are stated here as functions over plain values; `WorldScene.Scene.Update`
 * performs them step by step on the scene's fields and is proved to agree with `Tick`.
 */
module Motion {
  import opened Wrappers

  /** One input device's four logical direction signals. */
  datatype Pad = Pad(left: bool, right: bool, up: bool, down: bool)

  /**
   * What one tick reads: the cursor keys, the W/A/S/D keys, the virtual joystick, and
   * whether the space key went down since the previous tick (the engine's JustDown).
   */
  datatype Controls = Controls(cursors: Pad, wasd: Pad, joystick: Pad, spaceJustDown: bool)

  /** The animation the player sprite plays after a tick. */
  datatype Anim = WalkLeft | WalkRight | WalkUp | WalkDown | Stopped

  /** The `playerMovement` payload, also the shape of the saved `oldPosition`. */
  datatype Movement = Movement(x: int, y: int, flipX: bool)

  /** The local player's state as far as `update` reads or writes it. */
  datatype Local = Local(
    x: int, y: int,              // the container's position, moved only by the physics engine
    vx: int, vy: int,            // the container body's velocity
    attacking: bool,
    flipX: bool,                 // the player sprite's horizontal flip
    anim: Anim,
    oldPosition: Option<Movement>)

  /** Walking speed in pixels per second on each axis. */
  const SPEED: int := 80

  // The three input sources are ORed, direction by direction.
  predicate HeldLeft(c: Controls) { c.cursors.left || c.wasd.left || c.joystick.left }
  predicate HeldRight(c: Controls) { c.cursors.right || c.wasd.right || c.joystick.right }
  predicate HeldUp(c: Controls) { c.cursors.up || c.wasd.up || c.joystick.up }
  predicate HeldDown(c: Controls) { c.cursors.down || c.wasd.down || c.joystick.down }

  /** The horizontal velocity after a tick: left beats right, nothing held means standing still. */
  function HorizontalVelocity(c: Controls): (vx: int)
    ensures vx == -SPEED || vx == 0 || vx == SPEED
    ensures vx < 0 <==> HeldLeft(c)
    ensures vx > 0 <==> !HeldLeft(c) && HeldRight(c)
  {
    if HeldLeft(c) then -SPEED else if HeldRight(c) then SPEED else 0
  }

  /** The vertical velocity after a tick: up beats down. */
  function VerticalVelocity(c: Controls): (vy: int)
    ensures vy == -SPEED || vy == 0 || vy == SPEED
    ensures vy < 0 <==> HeldUp(c)
    ensures vy > 0 <==> !HeldUp(c) && HeldDown(c)
  {
    if HeldUp(c) then -SPEED else if HeldDown(c) then SPEED else 0
  }

  /** The animation played and the flip after a tick. */
  datatype Facing = Facing(anim: Anim, flipX: bool)

  /**
   * The animation is chosen by its own precedence chain (left, right, up, down, stop),
   * written independently of the velocity rules; its contract shows the two agree: the
   * sprite walks sideways exactly when it moves sideways, and walks up or down only when
   * it has no sideways motion. The flip follows the horizontal direction and is kept
   * when there is none.
   */
  function ChooseFacing(c: Controls, flipX: bool): (f: Facing)
    ensures f.anim == WalkLeft <==> HorizontalVelocity(c) < 0
    ensures f.anim == WalkRight <==> HorizontalVelocity(c) > 0
    ensures f.anim == WalkUp <==> HorizontalVelocity(c) == 0 && VerticalVelocity(c) < 0
    ensures f.anim == WalkDown <==> HorizontalVelocity(c) == 0 && VerticalVelocity(c) > 0
    ensures f.anim == Stopped <==> HorizontalVelocity(c) == 0 && VerticalVelocity(c) == 0
    ensures f.flipX == if HorizontalVelocity(c) == 0 then flipX else HorizontalVelocity(c) < 0
  {
    if HeldLeft(c) then Facing(WalkLeft, true)
    else if HeldRight(c) then Facing(WalkRight, false)
    else if HeldUp(c) then Facing(WalkUp, flipX)
    else if HeldDown(c) then Facing(WalkDown, flipX)
    else Facing(Stopped, flipX)
  }

  /**
   * The attack flag after a tick. It is raised only by a fresh press of the space key
   * while it is down, so it is never up on two ticks in a row.
   */
  function NextAttacking(attacking: bool, spaceJustDown: bool): (r: bool)
    ensures r ==> !attacking
    ensures r ==> spaceJustDown
    ensures !attacking && spaceJustDown ==> r
  {
    if spaceJustDown && !attacking then true else false
  }

  /**
   * The `playerMovement` message a tick sends: one carrying the current triple, and only
   * when a previous triple was saved and differs from it.
   */
  function Emission(saved: Option<Movement>, now: Movement): (m: Option<Movement>)
    ensures m.Some? ==> m.value == now
    ensures m.Some? <==> saved.Some? && saved.value != now
  {
    if saved.Some? && (now.x != saved.value.x || now.y != saved.value.y || now.flipX != saved.value.flipX)
    then Some(now)
    else None
  }

  /**
   * One run of `update` on a scene whose player exists: the new local state and the
   * message sent, if any. The position is left as the physics engine set it, and the
   * saved triple is overwritten whether or not a message went out.
   */
  function Tick(s: Local, c: Controls): (r: (Local, Option<Movement>))
    ensures r.0.x == s.x && r.0.y == s.y
    ensures r.0.oldPosition == Some(Movement(s.x, s.y, r.0.flipX))
    ensures r.1.Some? ==> r.1 == r.0.oldPosition
    ensures s.oldPosition.None? ==> r.1.None?
    ensures r.1.None? && s.oldPosition.Some? ==> s.oldPosition == r.0.oldPosition
  {
    var f := ChooseFacing(c, s.flipX);
    var now := Movement(s.x, s.y, f.flipX);
    (Local(s.x, s.y, HorizontalVelocity(c), VerticalVelocity(c),
           NextAttacking(s.attacking, c.spaceJustDown), f.flipX, f.anim, Some(now)),
     Emission(s.oldPosition, now))
  }

  /** The state `s` with the container where the physics engine put it. */
  function At(s: Local, p: (int, int)): Local
  {
    s.(x := p.0, y := p.1)
  }

  /**
   * The states and messages of successive ticks starting from `s`, one per entry of `cs`.
   * Between two runs of `update` the physics engine moves the container: `ps[k]` is its
   * position when tick `k` starts.
   */
  function Trace(s: Local, cs: seq<Controls>, ps: seq<(int, int)>): (t: seq<(Local, Option<Movement>)>)
    requires |ps| == |cs|
    ensures |t| == |cs|
    ensures |cs| > 0 ==> t[0] == Tick(At(s, ps[0]), cs[0])
    decreases |cs|
  {
    if cs == [] then [] else
    var r := Tick(At(s, ps[0]), cs[0]);
    [r] + Trace(r.0, cs[1..], ps[1..])
  }

  /** The state tick `k` of a trace leaves behind for the engine: `s` itself before the first tick. */
  function Before(s: Local, cs: seq<Controls>, ps: seq<(int, int)>, k: nat): Local
    requires |ps| == |cs| && k < |cs|
  {
    if k == 0 then s else Trace(s, cs, ps)[k - 1].0
  }

  /** Every entry of a trace is one tick from the state before it, moved to that frame's position. */
  lemma {:induction false} TraceStep(s: Local, cs: seq<Controls>, ps: seq<(int, int)>, k: nat)
    requires |ps| == |cs| && k < |cs|
    ensures Trace(s, cs, ps)[k] == Tick(At(Before(s, cs, ps, k), ps[k]), cs[k])
    decreases k
  {
    if k > 0 {
      var r := Tick(At(s, ps[0]), cs[0]);
      TraceStep(r.0, cs[1..], ps[1..], k - 1);
      assert Trace(s, cs, ps) == [r] + Trace(r.0, cs[1..], ps[1..]);
    }
  }

  /** Along any run of ticks, the attack flag is never up in two consecutive states. */
  lemma AttackNeverTwice(s: Local, cs: seq<Controls>, ps: seq<(int, int)>)
    requires |ps| == |cs|
    ensures forall k :: 0 <= k < |cs| ==> !(Before(s, cs, ps, k).attacking && Trace(s, cs, ps)[k].0.attacking)
  {
    forall k | 0 <= k < |cs|
      ensures !(Before(s, cs, ps, k).attacking && Trace(s, cs, ps)[k].0.attacking)
    {
      TraceStep(s, cs, ps, k);
    }
  }

  /**
   * Holding the space key down: the engine reports the press on the first tick only, so
   * the player attacks on that tick and on none of the following ones.
   */
  lemma HeldSpaceAttacksOnce(s: Local, cs: seq<Controls>, ps: seq<(int, int)>)
    requires |ps| == |cs|
    requires |cs| > 0 && !s.attacking
    requires cs[0].spaceJustDown
    requires forall k :: 1 <= k < |cs| ==> !cs[k].spaceJustDown
    ensures Trace(s, cs, ps)[0].0.attacking
    ensures forall k :: 1 <= k < |cs| ==> !Trace(s, cs, ps)[k].0.attacking
  {
    forall k | 1 <= k < |cs|
      ensures !Trace(s, cs, ps)[k].0.attacking
    {
      TraceStep(s, cs, ps, k);
    }
  }

  /**
   * Delta suppression, from the second tick of a run on: a tick sends a message exactly
   * when the engine moved the container since the previous tick or the flip changed, and
   * the message carries the new position and flip.
   */
  lemma SendsExactlyOnChange(s: Local, cs: seq<Controls>, ps: seq<(int, int)>, k: nat)
    requires |ps| == |cs| && 1 <= k < |cs|
    ensures Trace(s, cs, ps)[k].1.Some? <==>
              ps[k] != ps[k - 1] || Trace(s, cs, ps)[k].0.flipX != Trace(s, cs, ps)[k - 1].0.flipX
    ensures Trace(s, cs, ps)[k].1.Some? ==>
              Trace(s, cs, ps)[k].1.value == Movement(ps[k].0, ps[k].1, Trace(s, cs, ps)[k].0.flipX)
  {
    TraceStep(s, cs, ps, k);
    TraceStep(s, cs, ps, k - 1);
  }

  /**
   * Once the saved triple matches the player, ticks with no sideways input (so no change
   * of flip) send nothing as long as the engine leaves the container where it is.
   */
  lemma {:induction false} SilentWhileStill(s: Local, cs: seq<Controls>, ps: seq<(int, int)>, p: (int, int))
    requires |ps| == |cs|
    requires s.oldPosition == Some(Movement(p.0, p.1, s.flipX))
    requires forall k :: 0 <= k < |cs| ==> ps[k] == p
    requires forall k :: 0 <= k < |cs| ==> !HeldLeft(cs[k]) && !HeldRight(cs[k])
    ensures forall k :: 0 <= k < |cs| ==> Trace(s, cs, ps)[k].1.None?
    decreases |cs|
  {
    if cs != [] {
      var r := Tick(At(s, ps[0]), cs[0]);
      SilentWhileStill(r.0, cs[1..], ps[1..], p);
      assert Trace(s, cs, ps) == [r] + Trace(r.0, cs[1..], ps[1..]);
    }
  }

  /**
   * A newly created player (nothing saved yet) never sends on its first tick; on the next
   * one it sends exactly when the engine has moved it or the flip changed.
   */
  lemma FirstTickSilent(s: Local, c: Controls, c2: Controls, p: (int, int), q: (int, int))
    requires s.oldPosition.None?
    ensures Tick(At(s, p), c).1.None?
    ensures var next := Tick(At(Tick(At(s, p), c).0, q), c2);
            next.1.Some? <==> q != p || next.0.flipX != Tick(At(s, p), c).0.flipX
  {
  }

  /** Left and right held together: the player moves left, plays the left walk and faces left. */
  lemma LeftWinsOverRight(s: Local, c: Controls)
    requires HeldLeft(c) && HeldRight(c)
    ensures Tick(s, c).0.vx == -SPEED
    ensures Tick(s, c).0.anim == WalkLeft && Tick(s, c).0.flipX
  {
  }

  /** The two axes are decided independently, so both can be non-zero (diagonal motion). */
  lemma DiagonalMotion(s: Local, c: Controls)
    requires HeldRight(c) && HeldDown(c) && !HeldLeft(c) && !HeldUp(c)
    ensures Tick(s, c).0.vx == SPEED && Tick(s, c).0.vy == SPEED
    ensures Tick(s, c).0.anim == WalkRight
  {
  }
}
