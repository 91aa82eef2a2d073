/**
 * The enemies of the world scene: their bounding rectangles, the search for a free spot
 * (`getValidLocation`), the pick of a sprite, the patrol rule and the initial population.
 * `WorldScene.Scene` runs these step by step on its `enemies` field.
 *
 * The random source is passed in: a draw of `Math.random` is a real in [0, 1), and the
 * points `RND.between` would produce are given as a sequence of candidates.
 */
module Enemies {
  import opened Wrappers

  datatype Point = Point(x: int, y: int)

  /** A texture's size in pixels. */
  datatype Size = Size(width: nat, height: nat)

  /** An axis-aligned rectangle in the engine's real coordinates: its top-left corner and its size. */
  datatype Rect = Rect(left: real, top: real, width: real, height: real)

  /**
   * Point-in-rectangle as the engine's rectangle test defines it: all four edges belong to
   * the rectangle, and a rectangle without area contains nothing.
   */
  predicate Contains(r: Rect, p: Point)
  {
    r.width > 0.0 && r.height > 0.0 &&
    r.left <= p.x as real <= r.left + r.width && r.top <= p.y as real <= r.top + r.height
  }

  /** An enemy sprite: position, body velocity, texture key and texture size. */
  datatype Enemy = Enemy(x: int, y: int, vx: int, vy: int, sprite: string, size: Size)

  function Position(e: Enemy): Point
  {
    Point(e.x, e.y)
  }

  /** The sprite's bounds: the texture's rectangle centred on the sprite's position (origin 0.5). */
  function Bounds(e: Enemy): Rect
  {
    Rect(e.x as real - e.size.width as real / 2.0, e.y as real - e.size.height as real / 2.0,
         e.size.width as real, e.size.height as real)
  }

  /**
   * On whole-pixel points the bounds test is a centred box that reaches half the texture
   * size, rounded down, on each side of the sprite; a texture without area covers nothing.
   */
  lemma ContainsOnPixels(e: Enemy, p: Point)
    ensures Contains(Bounds(e), p) <==>
              e.size.width > 0 && e.size.height > 0 &&
              e.x - e.size.width / 2 <= p.x <= e.x + e.size.width / 2 &&
              e.y - e.size.height / 2 <= p.y <= e.y + e.size.height / 2
  {
    HalfOnPixels(e.x, e.size.width, p.x);
    HalfOnPixels(e.y, e.size.height, p.y);
  }

  /** One axis of `ContainsOnPixels`: `c - w/2 <= q <= c + w/2` in reals is the same test with `w/2` rounded down. */
  lemma HalfOnPixels(c: int, w: nat, q: int)
    ensures (c as real - w as real / 2.0 <= q as real <= c as real - w as real / 2.0 + w as real)
            <==> c - w / 2 <= q <= c + w / 2
  {
    var h := w / 2;
    assert w == 2 * h || w == 2 * h + 1;
    if w == 2 * h {
      assert w as real / 2.0 == h as real;
    } else {
      assert w as real / 2.0 == h as real + 0.5;
    }
  }

  /** An odd texture: a 15-pixel enemy at x = 100 covers columns 93 to 107 and no more. */
  lemma OddTextureCoversHalfRoundedDown()
    ensures var e := Enemy(100, 100, 0, 0, "golem", Size(15, 15));
            Contains(Bounds(e), Point(107, 100)) && Contains(Bounds(e), Point(93, 100))
            && !Contains(Bounds(e), Point(108, 100)) && !Contains(Bounds(e), Point(92, 100))
  {
    var e := Enemy(100, 100, 0, 0, "golem", Size(15, 15));
    ContainsOnPixels(e, Point(107, 100));
    ContainsOnPixels(e, Point(93, 100));
    ContainsOnPixels(e, Point(108, 100));
    ContainsOnPixels(e, Point(92, 100));
  }

  /** Inside the physics world's bounds, edges included. */
  predicate InWorld(p: Point, width: nat, height: nat)
  {
    0 <= p.x <= width && 0 <= p.y <= height
  }

  /** Some enemy's bounds contain the point. */
  predicate Occupied(spawns: seq<Enemy>, p: Point)
  {
    exists m :: 0 <= m < |spawns| && Contains(Bounds(spawns[m]), p)
  }

  /** The number of candidates `getValidLocation` rejects before it accepts one. */
  function FirstFree(spawns: seq<Enemy>, candidates: seq<Point>): (k: nat)
    ensures k <= |candidates|
    ensures forall j :: 0 <= j < k ==> Occupied(spawns, candidates[j])
    ensures k < |candidates| ==> !Occupied(spawns, candidates[k])
    decreases |candidates|
  {
    if candidates == [] || !Occupied(spawns, candidates[0]) then 0
    else 1 + FirstFree(spawns, candidates[1..])
  }

  /**
   * The point `getValidLocation` returns when the random source yields `candidates`: the
   * first one no enemy's bounds contain. `None` stands for a source that runs dry before
   * a free point comes up, where the unbounded loop of the original would keep drawing.
   */
  function Place(spawns: seq<Enemy>, candidates: seq<Point>): (r: Option<Point>)
    ensures r.Some? ==> r.value in candidates && !Occupied(spawns, r.value)
    ensures r.None? <==> forall c :: c in candidates ==> Occupied(spawns, c)
  {
    var k := FirstFree(spawns, candidates);
    if k < |candidates| then Some(candidates[k]) else None
  }

  /** A point found from in-world candidates lies in the world and outside every enemy. */
  lemma PlaceIsValid(spawns: seq<Enemy>, candidates: seq<Point>, width: nat, height: nat)
    requires forall c :: c in candidates ==> InWorld(c, width, height)
    requires Place(spawns, candidates).Some?
    ensures InWorld(Place(spawns, candidates).value, width, height)
    ensures forall e :: e in spawns ==> !Contains(Bounds(e), Place(spawns, candidates).value)
  {
  }

  /** The texture keys an enemy can be given. */
  const SPRITES: seq<string> := ["golem", "ent", "demon", "worm", "wolf"]

  /** `getEnemySprite` for the draw `u` of `Math.random`: always one of the five textures. */
  function EnemySprite(u: real): (s: string)
    requires 0.0 <= u < 1.0
    ensures s in SPRITES
  {
    SPRITES[(u * |SPRITES| as real).Floor]
  }

  /** The speed of a patrol step in pixels per second. */
  const PATROL_SPEED: int := 50

  /** The patrol die `floor(random * 4 + 1)`: always 1, 2, 3 or 4, so the default case is dead. */
  function PatrolRoll(u: real): (n: int)
    requires 0.0 <= u < 1.0
    ensures 1 <= n <= 4
  {
    (u * 4.0 + 1.0).Floor
  }

  /**
   * One enemy after the patrol step for roll `n`. Only one axis of the velocity is
   * written; the position, texture and size are untouched; and no roll ever sets an
   * upward (negative) vertical velocity, because rolls 3 and 4 both send it down.
   */
  function Patrol(e: Enemy, n: int): (r: Enemy)
    ensures r.(vx := e.vx, vy := e.vy) == e
    ensures (r.vx == PATROL_SPEED && r.vy == e.vy) || (r.vx == -PATROL_SPEED && r.vy == e.vy)
         || (r.vx == e.vx && r.vy == PATROL_SPEED)
    ensures n == 3 || n == 4 ==> r.vx == e.vx && r.vy == PATROL_SPEED
  {
    match n
    case 1 => e.(vx := PATROL_SPEED)
    case 2 => e.(vx := -PATROL_SPEED)
    case 3 => e.(vy := PATROL_SPEED)
    case 4 => e.(vy := PATROL_SPEED)
    case _ => e.(vx := PATROL_SPEED)
  }

  /** A freshly created enemy: at rest at the found point. */
  function NewEnemy(p: Point, sprite: string, size: Size): Enemy
  {
    Enemy(p.x, p.y, 0, 0, sprite, size)
  }

  /**
   * Every enemy lies in the world, and no enemy's position is inside the bounds of an
   * enemy placed before it.
   */
  predicate Spread(s: seq<Enemy>, width: nat, height: nat)
  {
    && (forall j :: 0 <= j < |s| ==> InWorld(Position(s[j]), width, height))
    && (forall i, j :: 0 <= i < j < |s| ==> !Contains(Bounds(s[i]), Position(s[j])))
  }

  /**
   * `createEnemies` from the enemies already present: one enemy per candidate stream, each
   * placed against the enemies before it, with the texture picked by the matching draw.
   */
  function Populate(spawns: seq<Enemy>, placements: seq<seq<Point>>, rolls: seq<real>,
                    textureSize: string -> Size): (r: Option<seq<Enemy>>)
    requires |rolls| == |placements|
    requires forall k :: 0 <= k < |rolls| ==> 0.0 <= rolls[k] < 1.0
    ensures r.Some? ==> |r.value| == |spawns| + |placements| && r.value[..|spawns|] == spawns
    decreases |placements|
  {
    if placements == [] then Some(spawns)
    else
      match Place(spawns, placements[0])
      case None => None
      case Some(p) =>
        var sprite := EnemySprite(rolls[0]);
        Populate(spawns + [NewEnemy(p, sprite, textureSize(sprite))], placements[1..], rolls[1..], textureSize)
  }

  /** `Populate` on the streams from index `i` on: one placement, then the rest. */
  lemma PopulateFrom(spawns: seq<Enemy>, placements: seq<seq<Point>>, rolls: seq<real>,
                     textureSize: string -> Size, i: nat)
    requires |rolls| == |placements| && i < |placements|
    requires forall k :: 0 <= k < |rolls| ==> 0.0 <= rolls[k] < 1.0
    ensures Place(spawns, placements[i]).None? ==> Populate(spawns, placements[i..], rolls[i..], textureSize).None?
    ensures Place(spawns, placements[i]).Some? ==>
              var sprite := EnemySprite(rolls[i]);
              Populate(spawns, placements[i..], rolls[i..], textureSize)
              == Populate(spawns + [NewEnemy(Place(spawns, placements[i]).value, sprite, textureSize(sprite))],
                          placements[i + 1..], rolls[i + 1..], textureSize)
  {
    assert placements[i..][0] == placements[i] && placements[i..][1..] == placements[i + 1..];
    assert rolls[i..][0] == rolls[i] && rolls[i..][1..] == rolls[i + 1..];
  }

  /** Appending an enemy in the world and outside the bounds of all before it keeps the spread. */
  lemma SpreadSnoc(s: seq<Enemy>, e: Enemy, width: nat, height: nat)
    requires Spread(s, width, height)
    requires InWorld(Position(e), width, height)
    requires forall i :: 0 <= i < |s| ==> !Contains(Bounds(s[i]), Position(e))
    ensures Spread(s + [e], width, height)
  {
  }

  /**
   * Population keeps the enemies spread out: if the enemies present are spread and every
   * candidate lies in the world, so is the whole population, and every new enemy is at
   * rest with one of the five textures.
   */
  lemma {:induction false} PopulateSpread(spawns: seq<Enemy>, placements: seq<seq<Point>>, rolls: seq<real>,
                                          textureSize: string -> Size, width: nat, height: nat)
    requires |rolls| == |placements|
    requires forall k :: 0 <= k < |rolls| ==> 0.0 <= rolls[k] < 1.0
    requires forall k, c :: 0 <= k < |placements| && c in placements[k] ==> InWorld(c, width, height)
    requires Spread(spawns, width, height)
    requires Populate(spawns, placements, rolls, textureSize).Some?
    ensures Spread(Populate(spawns, placements, rolls, textureSize).value, width, height)
    ensures forall j :: |spawns| <= j < |spawns| + |placements| ==>
              var e := Populate(spawns, placements, rolls, textureSize).value[j];
              e.sprite in SPRITES && e.vx == 0 && e.vy == 0
    decreases |placements|
  {
    if placements != [] {
      var p := Place(spawns, placements[0]).value;
      var sprite := EnemySprite(rolls[0]);
      var next := spawns + [NewEnemy(p, sprite, textureSize(sprite))];
      assert InWorld(p, width, height);
      forall i | 0 <= i < |spawns| ensures !Contains(Bounds(spawns[i]), p) {
      }
      assert Spread(next, width, height);
      forall k, c | 0 <= k < |placements[1..]| && c in placements[1..][k] ensures InWorld(c, width, height) {
        assert placements[1..][k] == placements[k + 1];
      }
      PopulateSpread(next, placements[1..], rolls[1..], textureSize, width, height);
      var r := Populate(spawns, placements, rolls, textureSize).value;
      assert r == Populate(next, placements[1..], rolls[1..], textureSize).value;
      assert r[..|next|] == next;
      assert r[|spawns|] == next[|spawns|];
    }
  }
}
