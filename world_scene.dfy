/**
 * The world scene: the local player, the remote players' sprites and the enemies, with
 * the handlers that change them. Each method performs the original's steps in place and
 * states its new state through the functions of `Motion`, `Remotes` and `Enemies`.
 *
 * Socket messages, timer firings and key states arrive as method parameters; a sent
 * `playerMovement` message is returned.
 */
module WorldScene {
  import opened Wrappers
  import opened Motion
  import opened Remotes
  import opened Enemies

  /** How many enemies the scene creates. */
  const ENEMY_COUNT: nat := 20

  /** The local player right after `createPlayer`: at the record's position, at rest, not attacking, nothing saved. */
  function Arrival(info: PlayerInfo): Local
  {
    Local(info.x, info.y, 0, 0, false, false, Stopped, None)
  }

  class Scene {
    /** This client's socket id. */
    const socketId: string
    /** The physics world's bounds, taken from the tile map. */
    const worldWidth: nat
    const worldHeight: nat
    /** The size of each loaded texture. */
    const textureSize: string -> Size

    /** Whether `createPlayer` has run (the original tests `this.container`). */
    var hasPlayer: bool
    var x: int
    var y: int
    var vx: int
    var vy: int
    var attacking: bool
    var flipX: bool
    var anim: Anim
    var oldPosition: Option<Movement>

    /** The `otherPlayers` group, in its order. */
    var others: seq<Remote>
    /** The `spawns` group, in its order. */
    var enemies: seq<Enemy>

    /** The local player's state as one value. */
    function Player(): Local
      reads this
    {
      Local(x, y, vx, vy, attacking, flipX, anim, oldPosition)
    }

    constructor (socketId: string, worldWidth: nat, worldHeight: nat, textureSize: string -> Size)
      ensures this.socketId == socketId && this.worldWidth == worldWidth && this.worldHeight == worldHeight
      ensures this.textureSize == textureSize
      ensures !hasPlayer && others == [] && enemies == []
    {
      this.socketId := socketId;
      this.worldWidth := worldWidth;
      this.worldHeight := worldHeight;
      this.textureSize := textureSize;
      hasPlayer := false;
      x, y, vx, vy := 0, 0, 0, 0;
      attacking, flipX, anim, oldPosition := false, false, Stopped, None;
      others, enemies := [], [];
    }

    /** `createPlayer`: a new container and sprite at the record's position. */
    method CreatePlayer(info: PlayerInfo)
      modifies this`hasPlayer, this`x, this`y, this`vx, this`vy, this`attacking, this`flipX, this`anim, this`oldPosition
      ensures hasPlayer && Player() == Arrival(info)
    {
      hasPlayer := true;
      x, y := info.x, info.y;
      vx, vy := 0, 0;
      attacking := false;
      flipX := false;
      anim := Stopped;
      oldPosition := None;
    }

    /** `addOtherPlayers`: one more remote sprite, appended whatever ids are already present. */
    method AddOtherPlayers(info: PlayerInfo)
      modifies this`others
      ensures others == old(others) + [Spawn(info)]
    {
      others := others + [Spawn(info)];
    }

    /**
     * The `currentPlayers` handler: the entries naming this client create the local
     * player (the last such entry wins), every other entry adds one remote sprite.
     */
    method OnCurrentPlayers(players: seq<PlayerInfo>)
      modifies this`others, this`hasPlayer, this`x, this`y, this`vx, this`vy, this`attacking, this`flipX, this`anim, this`oldPosition
      ensures others == old(others) + Joined(players, socketId)
      ensures LastSelf(players, socketId).None? ==> hasPlayer == old(hasPlayer) && Player() == old(Player())
      ensures LastSelf(players, socketId).Some? ==>
                hasPlayer && Player() == Arrival(players[LastSelf(players, socketId).value])
    {
      var i := 0;
      ghost var last: Option<nat> := None;
      while i < |players|
        invariant 0 <= i <= |players|
        invariant others == old(others) + Joined(players[..i], socketId)
        invariant last == LastSelf(players[..i], socketId)
        invariant last.Some? ==> last.value < |players|
        invariant hasPlayer == (old(hasPlayer) || last.Some?)
        invariant Player() == if last.Some? then Arrival(players[last.value]) else old(Player())
      {
        JoinedSnoc(players[..i], players[i], socketId);
        assert players[..i + 1] == players[..i] + [players[i]];
        OnSnapshotEntry(players[i]);
        if players[i].playerId == socketId {
          last := Some(i);
        }
        i := i + 1;
      }
      assert players[..i] == players;
    }

    /** One snapshot entry: the local player when it names this client, a remote sprite otherwise. */
    method OnSnapshotEntry(info: PlayerInfo)
      modifies this`others, this`hasPlayer, this`x, this`y, this`vx, this`vy, this`attacking, this`flipX, this`anim, this`oldPosition
      ensures others == old(others) + (if info.playerId == socketId then [] else [Spawn(info)])
      ensures info.playerId == socketId ==> hasPlayer && Player() == Arrival(info)
      ensures info.playerId != socketId ==> hasPlayer == old(hasPlayer) && Player() == old(Player())
    {
      if info.playerId == socketId {
        CreatePlayer(info);
      } else {
        AddOtherPlayers(info);
      }
    }

    /** The `newPlayer` handler. */
    method OnNewPlayer(info: PlayerInfo)
      modifies this`others
      ensures others == old(others) + [Spawn(info)]
    {
      AddOtherPlayers(info);
    }

    /**
     * The `disconnect` handler: destroys every remote sprite with the given id. A sprite
     * is looked at in the slot the previous one was removed from, so none is skipped.
     */
    method OnDisconnect(playerId: string)
      modifies this`others
      ensures others == Without(old(others), playerId)
    {
      var i := 0;
      while i < |others|
        invariant 0 <= i <= |others|
        invariant Without(old(others), playerId) == others[..i] + Without(others[i..], playerId)
        decreases |others| - i
      {
        RemoveInPlaceStep(others, i, playerId);
        if others[i].playerId == playerId {
          others := others[..i] + others[i + 1..];
        } else {
          i := i + 1;
        }
      }
      assert others[i..] == [];
    }

    /** The `playerMoved` handler: every remote sprite with the record's id takes its position and flip. */
    method OnPlayerMoved(info: PlayerInfo)
      modifies this`others
      ensures others == ApplyMove(old(others), info)
    {
      var i := 0;
      while i < |others|
        invariant 0 <= i <= |others| && |others| == |old(others)|
        invariant forall k :: 0 <= k < i ==> others[k] == Moved(old(others)[k], info)
        invariant forall k :: i <= k < |others| ==> others[k] == old(others)[k]
      {
        if info.playerId == others[i].playerId {
          others := others[i := others[i].(x := info.x, y := info.y, flipX := info.flipX)];
        }
        i := i + 1;
      }
    }

    /**
     * `getValidLocation`, drawing its points from `candidates`: the first candidate that no
     * enemy's bounds contain, or `None` when every candidate is taken.
     */
    method GetValidLocation(candidates: seq<Point>) returns (location: Option<Point>)
      requires forall c :: c in candidates ==> InWorld(c, worldWidth, worldHeight)
      ensures location == Place(enemies, candidates)
      ensures location.Some? ==> InWorld(location.value, worldWidth, worldHeight)
      ensures location.Some? ==> forall e :: e in enemies ==> !Contains(Bounds(e), location.value)
    {
      var validLocation := false;
      var i := 0;
      var p := Point(0, 0);
      while !validLocation && i < |candidates|
        invariant 0 <= i <= |candidates|
        invariant validLocation ==> 0 < i && p == candidates[i - 1] && !Occupied(enemies, p)
        invariant forall j :: 0 <= j < i && !(validLocation && j == i - 1) ==> Occupied(enemies, candidates[j])
      {
        p := candidates[i];
        i := i + 1;
        var occupied := false;
        var n := 0;
        while n < |enemies|
          invariant 0 <= n <= |enemies|
          invariant occupied <==> exists m :: 0 <= m < n && Contains(Bounds(enemies[m]), p)
        {
          if Contains(Bounds(enemies[n]), p) {
            occupied := true;
          }
          n := n + 1;
        }
        if !occupied {
          validLocation := true;
        }
      }
      var k := FirstFree(enemies, candidates);
      if validLocation {
        assert k == i - 1;
        location := Some(p);
      } else {
        assert k == |candidates|;
        location := None;
      }
      if location.Some? {
        PlaceIsValid(enemies, candidates, worldWidth, worldHeight);
      }
    }

    /**
     * `createEnemies`: a new, empty enemy group filled with 20 enemies, each placed against
     * the ones before it. `ok` is false when a candidate stream runs dry, where the
     * original would keep drawing forever.
     */
    method CreateEnemies(placements: seq<seq<Point>>, rolls: seq<real>) returns (ok: bool)
      requires |placements| == ENEMY_COUNT && |rolls| == ENEMY_COUNT
      requires forall k :: 0 <= k < |rolls| ==> 0.0 <= rolls[k] < 1.0
      requires forall k, c :: 0 <= k < |placements| && c in placements[k] ==> InWorld(c, worldWidth, worldHeight)
      modifies this`enemies
      ensures ok <==> Populate([], placements, rolls, textureSize).Some?
      ensures ok ==> enemies == Populate([], placements, rolls, textureSize).value && |enemies| == ENEMY_COUNT
      ensures Spread(enemies, worldWidth, worldHeight)
      ensures forall e :: e in enemies ==> e.sprite in SPRITES && e.vx == 0 && e.vy == 0
    {
      enemies := [];
      var i := 0;
      while i < ENEMY_COUNT
        invariant 0 <= i <= ENEMY_COUNT && |enemies| == i
        invariant Populate(enemies, placements[i..], rolls[i..], textureSize) == Populate([], placements, rolls, textureSize)
        invariant Spread(enemies, worldWidth, worldHeight)
        invariant forall e :: e in enemies ==> e.sprite in SPRITES && e.vx == 0 && e.vy == 0
      {
        var location := GetValidLocation(placements[i]);
        PopulateFrom(enemies, placements, rolls, textureSize, i);
        if location.None? {
          return false;
        }
        var sprite := EnemySprite(rolls[i]);
        var enemy := NewEnemy(location.value, sprite, textureSize(sprite));
        SpreadSnoc(enemies, enemy, worldWidth, worldHeight);
        enemies := enemies + [enemy];
        i := i + 1;
      }
      assert placements[i..] == [] && rolls[i..] == [];
      ok := true;
    }

    /** `moveEnemies`: every enemy's velocity set by its own patrol die. */
    method MoveEnemies(draws: seq<real>)
      requires |draws| == |enemies|
      requires forall k :: 0 <= k < |draws| ==> 0.0 <= draws[k] < 1.0
      modifies this`enemies
      ensures |enemies| == |old(enemies)|
      ensures forall k :: 0 <= k < |enemies| ==> enemies[k] == Patrol(old(enemies)[k], PatrolRoll(draws[k]))
    {
      var i := 0;
      while i < |enemies|
        invariant 0 <= i <= |enemies| && |enemies| == |old(enemies)|
        invariant forall k :: 0 <= k < i ==> enemies[k] == Patrol(old(enemies)[k], PatrolRoll(draws[k]))
        invariant forall k :: i <= k < |enemies| ==> enemies[k] == old(enemies)[k]
      {
        var randNumber := PatrolRoll(draws[i]);
        var e := enemies[i];
        if randNumber == 1 {
          e := e.(vx := PATROL_SPEED);
        } else if randNumber == 2 {
          e := e.(vx := -PATROL_SPEED);
        } else if randNumber == 3 {
          e := e.(vy := PATROL_SPEED);
        } else if randNumber == 4 {
          e := e.(vy := PATROL_SPEED);
        } else {
          e := e.(vx := PATROL_SPEED);
        }
        enemies := enemies[i := e];
        i := i + 1;
      }
    }

    /** The delayed stop after a patrol step: every enemy comes to rest where it is. */
    method StopEnemies()
      modifies this`enemies
      ensures |enemies| == |old(enemies)|
      ensures forall k :: 0 <= k < |enemies| ==> enemies[k] == old(enemies)[k].(vx := 0, vy := 0)
    {
      var i := 0;
      while i < |enemies|
        invariant 0 <= i <= |enemies| && |enemies| == |old(enemies)|
        invariant forall k :: 0 <= k < i ==> enemies[k] == old(enemies)[k].(vx := 0, vy := 0)
        invariant forall k :: i <= k < |enemies| ==> enemies[k] == old(enemies)[k]
      {
        enemies := enemies[i := enemies[i].(vx := 0, vy := 0)];
        i := i + 1;
      }
    }

    /**
     * `onMeetEnemy` for the enemy at index `k`, the weapon overlapping it: while attacking,
     * the enemy moves to a free point found against all enemies (itself included);
     * otherwise nothing changes.
     */
    method OnMeetEnemy(k: nat, candidates: seq<Point>)
      requires k < |enemies|
      requires forall c :: c in candidates ==> InWorld(c, worldWidth, worldHeight)
      modifies this`enemies
      ensures !old(attacking) || Place(old(enemies), candidates).None? ==> enemies == old(enemies)
      ensures old(attacking) && Place(old(enemies), candidates).Some? ==>
                var p := Place(old(enemies), candidates).value;
                enemies == old(enemies)[k := old(enemies)[k].(x := p.x, y := p.y)]
                && InWorld(p, worldWidth, worldHeight)
                && forall e :: e in old(enemies) ==> !Contains(Bounds(e), p)
    {
      if attacking {
        var location := GetValidLocation(candidates);
        if location.Some? {
          enemies := enemies[k := enemies[k].(x := location.value.x, y := location.value.y)];
        }
      }
    }

    /**
     * `update`: one tick. Without a player nothing happens. Otherwise the velocity is reset
     * and set from the held directions, the attack flag follows the space key, the
     * animation and flip are chosen, a `playerMovement` message is sent when the triple
     * changed since the last tick, and the triple is saved.
     */
    method Update(c: Controls) returns (sent: Option<Movement>)
      modifies this`vx, this`vy, this`attacking, this`anim, this`flipX, this`oldPosition
      ensures !old(hasPlayer) ==> sent.None? && Player() == old(Player())
      ensures old(hasPlayer) ==> (Player(), sent) == Tick(old(Player()), c)
    {
      if !hasPlayer {
        return None;
      }
      SetVelocity(c);
      UpdateAttacking(c.spaceJustDown);
      PlayAnimation(c);
      sent := EmitMovement();
    }

    /**
     * The physics step between two frames: the engine moves the container's body to where
     * its velocity, the colliders and the world bounds take it. Only the position changes.
     */
    method PhysicsStep(nx: int, ny: int)
      modifies this`x, this`y
      ensures Player() == At(old(Player()), (nx, ny))
    {
      x, y := nx, ny;
    }

    /** The first steps of a tick: velocity reset to zero, then set axis by axis. */
    method SetVelocity(c: Controls)
      modifies this`vx, this`vy
      ensures vx == HorizontalVelocity(c) && vy == VerticalVelocity(c)
    {
      vx, vy := 0, 0;
      if HeldLeft(c) {
        vx := -SPEED;
      } else if HeldRight(c) {
        vx := SPEED;
      }
      if HeldUp(c) {
        vy := -SPEED;
      } else if HeldDown(c) {
        vy := SPEED;
      }
    }

    /** The attack step of a tick. */
    method UpdateAttacking(spaceJustDown: bool)
      modifies this`attacking
      ensures attacking == NextAttacking(old(attacking), spaceJustDown)
    {
      if spaceJustDown && !attacking {
        attacking := true;
      } else {
        attacking := false;
      }
    }

    /** The animation step of a tick: horizontal walks take precedence over vertical ones. */
    method PlayAnimation(c: Controls)
      modifies this`anim, this`flipX
      ensures Facing(anim, flipX) == ChooseFacing(c, old(flipX))
    {
      if HeldLeft(c) {
        anim, flipX := WalkLeft, true;
      } else if HeldRight(c) {
        anim, flipX := WalkRight, false;
      } else if HeldUp(c) {
        anim := WalkUp;
      } else if HeldDown(c) {
        anim := WalkDown;
      } else {
        anim := Stopped;
      }
    }

    /** The last step of a tick: send the triple if it changed, then save it. */
    method EmitMovement() returns (sent: Option<Movement>)
      modifies this`oldPosition
      ensures sent == Emission(old(oldPosition), Movement(x, y, flipX))
      ensures oldPosition == Some(Movement(x, y, flipX))
    {
      sent := None;
      if oldPosition.Some? && (x != oldPosition.value.x || y != oldPosition.value.y || flipX != oldPosition.value.flipX) {
        sent := Some(Movement(x, y, flipX));
      }
      oldPosition := Some(Movement(x, y, flipX));
    }
  }

  /** A peer joins and leaves: the collection gains its sprite and then loses it. */
  method JoinAndLeaveScenario()
  {
    var scene := new Scene("P1", 640, 480, _ => Size(16, 16));
    scene.OnNewPlayer(PlayerInfo("P2", 50, 50, true));
    assert scene.others == [Remote("P2", 50, 50, false)];
    scene.OnDisconnect("P2");
    assert scene.others == [];
    scene.OnDisconnect("P2");
    assert scene.others == [];
  }

  /**
   * A snapshot naming only this client creates the local player and no remote sprite; its
   * first tick is silent, and after the engine moves it the next tick sends the new position.
   */
  method SnapshotScenario()
  {
    var scene := new Scene("P1", 640, 480, _ => Size(16, 16));
    var players := [PlayerInfo("P1", 100, 100, false)];
    assert LastSelf(players, "P1") == Some(0);
    scene.OnCurrentPlayers(players);
    assert scene.hasPlayer && scene.x == 100 && scene.y == 100;
    assert scene.others == [];
    var first := scene.Update(Controls(Pad(false, true, false, false), Pad(false, false, false, false),
                                       Pad(false, false, false, false), false));
    assert first.None?;
    scene.PhysicsStep(180, 100);
    var second := scene.Update(Controls(Pad(false, true, false, false), Pad(false, false, false, false),
                                        Pad(false, false, false, false), false));
    assert second == Some(Movement(180, 100, false));
  }
}
