/** The game side of class Asteriods: which screen is active, name entry and
    score submission, and the hit, split, removal and new-wave rules applied
    each frame of play. */
module Game {
  import opened Numeric
  import opened MenuSystem
  import opened HighScores

  datatype GameState =
    | MainMenu
    | GameRunning
    | GamePaused
    | ControlsMenu
    | VolumeMenu
    | HighscoreMenu
    | GameOver
    | HighscoreRecording

  /** An asteroid or a bullet; the outline of an asteroid is not part of
      this model. */
  datatype SpaceObject = SpaceObject(x: real, y: real, dx: real, dy: real, nSize: int, angle: real, alive: bool)

  const SCREEN_WIDTH: real := 800.0
  const SCREEN_HEIGHT: real := 800.0

  /** Asteroids of this size or less are destroyed without splitting. */
  const SPLIT_LIMIT: int := 16
  /** The size of the asteroids of a new wave. */
  const WAVE_SIZE: int := 64
  const WAVE_COUNT: nat := 3
  const SPLIT_BONUS: int := 100
  const WAVE_BONUS: int := 1000
  /** Speed of split pieces and of wave asteroids, and of the opening ones. */
  const PIECE_SPEED: real := 2.5
  const RESET_SPEED: real := 3.0

  /** What the frame draws from randomness and from getSafeSpawn: the heading
      of the k-th asteroid created, and the k-th safe spawn position. */
  datatype Chance = Chance(heading: nat -> real, spot: nat -> (real, real))

  /** The collision test, as Collide(a.x, a.y, a.nSize, b.x, b.y). */
  type Collider = (real, real, int, real, real) -> bool

  predicate Hits(collide: Collider, a: SpaceObject, b: SpaceObject)
  {
    collide(a.x, a.y, a.nSize, b.x, b.y)
  }

  // ---------------------------------------------------------------------
  // The hit pass: every bullet against every asteroid

  /** Some bullet of shots hits a. */
  predicate HitByAny(collide: Collider, a: SpaceObject, shots: seq<SpaceObject>)
  {
    shots != [] && (HitByAny(collide, a, shots[..|shots| - 1]) || Hits(collide, a, shots[|shots| - 1]))
  }

  /** b hits some asteroid of rocks. */
  predicate HitsAny(collide: Collider, rocks: seq<SpaceObject>, b: SpaceObject)
  {
    rocks != [] && (HitsAny(collide, rocks[..|rocks| - 1], b) || Hits(collide, rocks[|rocks| - 1], b))
  }

  lemma {:induction false} HitByAnyIff(collide: Collider, a: SpaceObject, shots: seq<SpaceObject>)
    ensures HitByAny(collide, a, shots) <==> exists i :: 0 <= i < |shots| && Hits(collide, a, shots[i])
  {
    if shots != [] {
      var init := shots[..|shots| - 1];
      HitByAnyIff(collide, a, init);
      if exists i :: 0 <= i < |shots| && Hits(collide, a, shots[i]) {
        var i :| 0 <= i < |shots| && Hits(collide, a, shots[i]);
        if i < |shots| - 1 {
          assert init[i] == shots[i];
        }
      }
      if exists i :: 0 <= i < |init| && Hits(collide, a, init[i]) {
        var i :| 0 <= i < |init| && Hits(collide, a, init[i]);
        assert shots[i] == init[i];
      }
    }
  }

  lemma {:induction false} HitsAnyIff(collide: Collider, rocks: seq<SpaceObject>, b: SpaceObject)
    ensures HitsAny(collide, rocks, b) <==> exists j :: 0 <= j < |rocks| && Hits(collide, rocks[j], b)
  {
    if rocks != [] {
      var init := rocks[..|rocks| - 1];
      HitsAnyIff(collide, init, b);
      if exists j :: 0 <= j < |rocks| && Hits(collide, rocks[j], b) {
        var j :| 0 <= j < |rocks| && Hits(collide, rocks[j], b);
        if j < |rocks| - 1 {
          assert init[j] == rocks[j];
        }
      }
      if exists j :: 0 <= j < |init| && Hits(collide, init[j], b) {
        var j :| 0 <= j < |init| && Hits(collide, init[j], b);
        assert rocks[j] == init[j];
      }
    }
  }

  /** One more bullet in the pass kills the asteroid exactly when it hits. */
  lemma MarkAsteroidStep(collide: Collider, a: SpaceObject, shots: seq<SpaceObject>, i: nat)
    requires i < |shots|
    ensures MarkedAsteroid(collide, a, shots[..i + 1])
         == if Hits(collide, a, shots[i]) then a.(alive := false) else MarkedAsteroid(collide, a, shots[..i])
  {
    assert shots[..i + 1][..i] == shots[..i];
  }

  /** One more asteroid in the pass kills the bullet exactly when it is hit. */
  lemma MarkBulletStep(collide: Collider, rocks: seq<SpaceObject>, b: SpaceObject, j: nat)
    requires j < |rocks|
    ensures MarkedBullet(collide, rocks[..j + 1], b)
         == if Hits(collide, rocks[j], b) then b.(alive := false) else MarkedBullet(collide, rocks[..j], b)
  {
    assert rocks[..j + 1][..j] == rocks[..j];
  }

  /** One more asteroid adds it to the splits when it is hit and large. */
  lemma SplitsByStep(collide: Collider, rocks: seq<SpaceObject>, b: SpaceObject, j: nat)
    requires j < |rocks|
    ensures SplitsBy(collide, rocks[..j + 1], b)
         == SplitsBy(collide, rocks[..j], b) + if Hits(collide, rocks[j], b) && rocks[j].nSize > SPLIT_LIMIT then [rocks[j]] else []
  {
    assert rocks[..j + 1][..j] == rocks[..j];
  }

  /** An object after the hit pass: dead if it was, or if anything hit it. */
  function MarkedAsteroid(collide: Collider, a: SpaceObject, shots: seq<SpaceObject>): (marked: SpaceObject)
  {
    a.(alive := a.alive && !HitByAny(collide, a, shots))
  }

  function MarkedBullet(collide: Collider, rocks: seq<SpaceObject>, b: SpaceObject): (marked: SpaceObject)
  {
    b.(alive := b.alive && !HitsAny(collide, rocks, b))
  }

  /** The hit pass part way through bullet i: asteroids before j have met
      it, the others have not. */
  ghost predicate PairsResolved(asts: seq<SpaceObject>, bls: seq<SpaceObject>, collide: Collider,
                                rocks0: seq<SpaceObject>, shots0: seq<SpaceObject>, i: nat, j: nat)
  {
    && i < |shots0| && j <= |rocks0| && |asts| == |rocks0| && |bls| == |shots0|
    && (forall k :: 0 <= k < j ==> asts[k] == MarkedAsteroid(collide, rocks0[k], shots0[..i + 1]))
    && (forall k :: j <= k < |rocks0| ==> asts[k] == MarkedAsteroid(collide, rocks0[k], shots0[..i]))
    && (forall k :: 0 <= k < i ==> bls[k] == MarkedBullet(collide, rocks0, shots0[k]))
    && (forall k :: i < k < |shots0| ==> bls[k] == shots0[k])
    && bls[i] == MarkedBullet(collide, rocks0[..j], shots0[i])
  }

  /** Bullet i against asteroid j: the test sees the original positions, and
      marking both dead on a hit moves the pass on by one asteroid. */
  lemma PairStep(asts: seq<SpaceObject>, bls: seq<SpaceObject>, collide: Collider,
                 rocks0: seq<SpaceObject>, shots0: seq<SpaceObject>, i: nat, j: nat)
    requires j < |rocks0| && PairsResolved(asts, bls, collide, rocks0, shots0, i, j)
    ensures Hits(collide, asts[j], bls[i]) == Hits(collide, rocks0[j], shots0[i])
    ensures asts[j].nSize == rocks0[j].nSize
    ensures var hit := Hits(collide, asts[j], bls[i]);
      PairsResolved(if hit then asts[j := asts[j].(alive := false)] else asts,
                    if hit then bls[i := bls[i].(alive := false)] else bls,
                    collide, rocks0, shots0, i, j + 1)
  {
    MarkAsteroidStep(collide, rocks0[j], shots0, i);
    MarkBulletStep(collide, rocks0, shots0[i], j);
  }

  /** The asteroids of rocks that bullet b hits while they are big enough to
      split, in asteroid order.  Whether they are still alive does not
      matter. */
  function SplitsBy(collide: Collider, rocks: seq<SpaceObject>, b: SpaceObject): (r: seq<SpaceObject>)
    ensures |r| <= |rocks|
  {
    if rocks == [] then []
    else
      var a := rocks[|rocks| - 1];
      SplitsBy(collide, rocks[..|rocks| - 1], b) + (if Hits(collide, a, b) && a.nSize > SPLIT_LIMIT then [a] else [])
  }

  /** Every splitting hit of the pass, bullet by bullet. */
  function SplitParents(collide: Collider, shots: seq<SpaceObject>, rocks: seq<SpaceObject>): (parents: seq<SpaceObject>)
  {
    if shots == [] then []
    else SplitParents(collide, shots[..|shots| - 1], rocks) + SplitsBy(collide, rocks, shots[|shots| - 1])
  }

  /** A split piece: at its parent's place, half its size, moving along the
      given heading. */
  function Piece(m: Math, parent: SpaceObject, heading: real): (c: SpaceObject)
  {
    SpaceObject(parent.x, parent.y, PIECE_SPEED * m.sin(heading), PIECE_SPEED * m.cos(heading),
                parent.nSize / 2, 0.0, true)
  }

  /** Two pieces per splitting hit; the k-th piece created takes heading k. */
  function Pieces(m: Math, chance: Chance, parents: seq<SpaceObject>): (r: seq<SpaceObject>)
    ensures |r| == 2 * |parents|
  {
    seq(2 * |parents|, k requires 0 <= k < 2 * |parents| => Piece(m, parents[k / 2], chance.heading(k)))
  }

  /** A splitting hit adds the two pieces of its asteroid, whatever the
      asteroid's alive flag. */
  lemma SplitPieces(m: Math, chance: Chance, prefix: seq<SpaceObject>, splits: seq<SpaceObject>,
                    r: SpaceObject, a: SpaceObject)
    requires a == r.(alive := a.alive)
    ensures |Pieces(m, chance, prefix + splits)| == 2 * |prefix + splits|
    ensures Pieces(m, chance, prefix + (splits + [r]))
         == Pieces(m, chance, prefix + splits) + [Piece(m, a, chance.heading(2 * |prefix + splits|)),
                                                  Piece(m, a, chance.heading(2 * |prefix + splits| + 1))]
  {
    PiecesSnoc(m, chance, prefix + splits, r);
    assert (prefix + splits) + [r] == prefix + (splits + [r]);
  }

  lemma PiecesSnoc(m: Math, chance: Chance, parents: seq<SpaceObject>, a: SpaceObject)
    ensures Pieces(m, chance, parents + [a])
         == Pieces(m, chance, parents) + [Piece(m, a, chance.heading(2 * |parents|)),
                                          Piece(m, a, chance.heading(2 * |parents| + 1))]
  {
    var ps := parents + [a];
    var l := Pieces(m, chance, ps);
    var r := Pieces(m, chance, parents) + [Piece(m, a, chance.heading(2 * |parents|)),
                                           Piece(m, a, chance.heading(2 * |parents| + 1))];
    forall k | 0 <= k < |l|
      ensures l[k] == r[k]
    {
      if k < 2 * |parents| {
        assert ps[k / 2] == parents[k / 2];
      } else {
        assert k / 2 == |parents|;
      }
    }
  }

  /** A piece of a splitting asteroid is half its size and alive. */
  lemma PiecesHalve(m: Math, chance: Chance, parents: seq<SpaceObject>)
    requires forall p :: p in parents ==> p.nSize > SPLIT_LIMIT
    ensures forall k :: 0 <= k < 2 * |parents| ==>
      Pieces(m, chance, parents)[k].nSize == parents[k / 2].nSize / 2 &&
      Pieces(m, chance, parents)[k].nSize >= SPLIT_LIMIT / 2 &&
      Pieces(m, chance, parents)[k].alive
  {
    forall k | 0 <= k < 2 * |parents|
      ensures Pieces(m, chance, parents)[k].nSize == parents[k / 2].nSize / 2
      ensures Pieces(m, chance, parents)[k].nSize >= SPLIT_LIMIT / 2
      ensures Pieces(m, chance, parents)[k].alive
    {
      assert parents[k / 2] in parents;
      assert Pieces(m, chance, parents)[k] == Piece(m, parents[k / 2], chance.heading(k));
    }
  }

  lemma PiecesAreAlive(m: Math, chance: Chance, parents: seq<SpaceObject>)
    ensures forall k :: 0 <= k < |Pieces(m, chance, parents)| ==> Pieces(m, chance, parents)[k].alive
  {
    forall k | 0 <= k < |Pieces(m, chance, parents)|
      ensures Pieces(m, chance, parents)[k].alive
    {
      assert Pieces(m, chance, parents)[k] == Piece(m, parents[k / 2], chance.heading(k));
    }
  }

  /** Every parent of a split was big enough to split. */
  lemma {:induction false} SplitParentsAreLarge(collide: Collider, shots: seq<SpaceObject>, rocks: seq<SpaceObject>)
    ensures forall p :: p in SplitParents(collide, shots, rocks) ==> p.nSize > SPLIT_LIMIT && p in rocks
  {
    if shots != [] {
      SplitParentsAreLarge(collide, shots[..|shots| - 1], rocks);
      SplitsByAreLarge(collide, rocks, shots[|shots| - 1]);
    }
  }

  lemma {:induction false} SplitsByAreLarge(collide: Collider, rocks: seq<SpaceObject>, b: SpaceObject)
    ensures forall p :: p in SplitsBy(collide, rocks, b) ==> p.nSize > SPLIT_LIMIT && p in rocks && Hits(collide, p, b)
  {
    if rocks != [] {
      SplitsByAreLarge(collide, rocks[..|rocks| - 1], b);
      assert forall p :: p in rocks[..|rocks| - 1] ==> p in rocks;
    }
  }

  // ---------------------------------------------------------------------
  // Removal

  /** The elements p keeps, in order, as erase(remove_if(...)) leaves them. */
  function Keep(s: seq<SpaceObject>, p: SpaceObject -> bool): (r: seq<SpaceObject>)
    ensures |r| <= |s|
    ensures forall x :: x in r <==> x in s && p(x)
  {
    if s == [] then []
    else
      var init := Keep(s[..|s| - 1], p);
      assert s == s[..|s| - 1] + [s[|s| - 1]];
      init + (if p(s[|s| - 1]) then [s[|s| - 1]] else [])
  }

  /** A bullet stays while alive and on screen. */
  predicate BulletStays(b: SpaceObject)
  {
    b.alive && !(b.x < 0.0 || b.x > SCREEN_WIDTH || b.y < 0.0 || b.y > SCREEN_HEIGHT)
  }

  predicate IsAlive(a: SpaceObject)
  {
    a.alive
  }

  /** The three asteroids of a wave: at the safe spots, size WAVE_SIZE, the
      k-th taking heading first + k. */
  function Wave(m: Math, chance: Chance, first: nat, speed: real): (w: seq<SpaceObject>)
    ensures |w| == WAVE_COUNT
  {
    seq(WAVE_COUNT, k requires 0 <= k < WAVE_COUNT =>
      SpaceObject(chance.spot(k).0, chance.spot(k).1,
                  speed * m.sin(chance.heading(first + k)), speed * m.cos(chance.heading(first + k)),
                  WAVE_SIZE, 0.0, true))
  }

  /** The asteroids a frame of renderGameplay ends with: the survivors of the
      hit pass and the pieces, or a new wave when none are left. */
  function FrameAsteroids(m: Math, collide: Collider, chance: Chance,
                          rocks: seq<SpaceObject>, shots: seq<SpaceObject>): (field: seq<SpaceObject>)
  {
    var marked := seq(|rocks|, j requires 0 <= j < |rocks| => MarkedAsteroid(collide, rocks[j], shots));
    var parents := SplitParents(collide, shots, rocks);
    var rest := Keep(marked + Pieces(m, chance, parents), IsAlive);
    if rest == [] then Wave(m, chance, 2 * |parents|, PIECE_SPEED) else rest
  }

  /** The score a frame ends with. */
  function FrameScore(m: Math, collide: Collider, chance: Chance,
                      rocks: seq<SpaceObject>, shots: seq<SpaceObject>, score: int): (newScore: int)
  {
    var marked := seq(|rocks|, j requires 0 <= j < |rocks| => MarkedAsteroid(collide, rocks[j], shots));
    var parents := SplitParents(collide, shots, rocks);
    var afterSplits := score + SPLIT_BONUS * |parents|;
    if Keep(marked + Pieces(m, chance, parents), IsAlive) == [] then afterSplits + WAVE_BONUS else afterSplits
  }

  function FrameBullets(collide: Collider, rocks: seq<SpaceObject>, shots: seq<SpaceObject>): (kept: seq<SpaceObject>)
  {
    Keep(seq(|shots| , i requires 0 <= i < |shots| => MarkedBullet(collide, rocks, shots[i])), BulletStays)
  }

  /** The asteroid sizes play itself creates: the opening and refill waves
      and their pieces.  The menu background spawns other sizes. */
  predicate StandardSize(n: int)
  {
    n == 16 || n == 32 || n == 64
  }

  /** After a frame the field is never empty, nothing in it is dead, and
      every size is still a standard one. */
  lemma FrameLeavesLiveField(m: Math, collide: Collider, chance: Chance,
                             rocks: seq<SpaceObject>, shots: seq<SpaceObject>)
    requires forall a :: a in rocks ==> StandardSize(a.nSize)
    ensures var after := FrameAsteroids(m, collide, chance, rocks, shots);
      && |after| >= 1
      && (forall a :: a in after ==> a.alive && StandardSize(a.nSize))
  {
    var marked := seq(|rocks|, j requires 0 <= j < |rocks| => MarkedAsteroid(collide, rocks[j], shots));
    var parents := SplitParents(collide, shots, rocks);
    var pieces := Pieces(m, chance, parents);
    SplitParentsAreLarge(collide, shots, rocks);
    PiecesHalve(m, chance, parents);
    forall a: SpaceObject | a in marked + pieces
      ensures StandardSize(a.nSize)
    {
      if a in marked {
        var j :| 0 <= j < |marked| && marked[j] == a;
        assert rocks[j] in rocks;
      } else {
        var k :| 0 <= k < |pieces| && pieces[k] == a;
        assert parents[k / 2] in parents;
      }
    }
    var wave := Wave(m, chance, 2 * |parents|, PIECE_SPEED);
    assert forall a :: a in wave ==> a.alive && a.nSize == WAVE_SIZE;
  }

  /** The score rises by SPLIT_BONUS per split.  WAVE_BONUS is paid exactly
      when the frame clears the field: nothing split and every asteroid was
      dead already or hit.  The field is then the new wave. */
  lemma FrameScoreRises(m: Math, collide: Collider, chance: Chance,
                        rocks: seq<SpaceObject>, shots: seq<SpaceObject>, score: int)
    ensures var parents := SplitParents(collide, shots, rocks);
      var s := FrameScore(m, collide, chance, rocks, shots, score);
      var cleared := parents == [] && forall a :: a in rocks ==> !a.alive || HitByAny(collide, a, shots);
      && (cleared ==> s == score + WAVE_BONUS && FrameAsteroids(m, collide, chance, rocks, shots) == Wave(m, chance, 0, PIECE_SPEED))
      && (!cleared ==> s == score + SPLIT_BONUS * |parents|)
      && s >= score
  {
    var marked := seq(|rocks|, j requires 0 <= j < |rocks| => MarkedAsteroid(collide, rocks[j], shots));
    var parents := SplitParents(collide, shots, rocks);
    var pieces := Pieces(m, chance, parents);
    var rest := Keep(marked + pieces, IsAlive);
    var cleared := parents == [] && forall a :: a in rocks ==> !a.alive || HitByAny(collide, a, shots);
    if rest == [] {
      PiecesAreAlive(m, chance, parents);
      forall a | a in rocks
        ensures !a.alive || HitByAny(collide, a, shots)
      {
        var j :| 0 <= j < |rocks| && rocks[j] == a;
        assert marked[j] in marked + pieces;
      }
      assert cleared;
    } else {
      assert rest[0] in marked + pieces && rest[0].alive;
      if cleared {
        assert pieces == [];
        var j :| 0 <= j < |marked| && marked[j] == rest[0];
      }
    }
  }

  /** The bullets a frame keeps are exactly the live, on-screen bullets that
      touch no asteroid. */
  lemma FrameBulletsAreSurvivors(collide: Collider, rocks: seq<SpaceObject>, shots: seq<SpaceObject>)
    ensures forall b :: b in FrameBullets(collide, rocks, shots) <==>
      b in shots && BulletStays(b) && !HitsAny(collide, rocks, b)
  {
    var marked := seq(|shots| , i requires 0 <= i < |shots| => MarkedBullet(collide, rocks, shots[i]));
    forall b
      ensures b in Keep(marked, BulletStays) <==> b in shots && BulletStays(b) && !HitsAny(collide, rocks, b)
    {
      if b in shots && BulletStays(b) && !HitsAny(collide, rocks, b) {
        var i :| 0 <= i < |shots| && shots[i] == b;
        assert marked[i] == b;
      }
    }
  }

  /** When the field is not cleared, the asteroids after a frame are exactly
      the pieces and the live asteroids no bullet touched. */
  lemma FrameAsteroidsAreSurvivors(m: Math, collide: Collider, chance: Chance,
                                   rocks: seq<SpaceObject>, shots: seq<SpaceObject>)
    ensures var marked := seq(|rocks|, j requires 0 <= j < |rocks| => MarkedAsteroid(collide, rocks[j], shots));
      var pieces := Pieces(m, chance, SplitParents(collide, shots, rocks));
      Keep(marked + pieces, IsAlive) != [] ==>
        forall a :: a in FrameAsteroids(m, collide, chance, rocks, shots) <==>
          a in pieces || (a in rocks && a.alive && !HitByAny(collide, a, shots))
  {
    var marked := seq(|rocks|, j requires 0 <= j < |rocks| => MarkedAsteroid(collide, rocks[j], shots));
    var pieces := Pieces(m, chance, SplitParents(collide, shots, rocks));
    forall a
      ensures a in Keep(marked + pieces, IsAlive) <==> a in pieces || (a in rocks && a.alive && !HitByAny(collide, a, shots))
    {
      if a in pieces {
        PiecesAreAlive(m, chance, SplitParents(collide, shots, rocks));
      }
      if a in rocks && a.alive && !HitByAny(collide, a, shots) {
        var j :| 0 <= j < |rocks| && rocks[j] == a;
        assert marked[j] == a;
      }
    }
  }

  /** The hit pass does not skip asteroids already marked dead: a large
      asteroid that two bullets touch in the same frame splits twice, giving
      four pieces and twice the bonus. */
  lemma DoubleHitSplitsTwice(m: Math, collide: Collider, chance: Chance, a: SpaceObject,
                             b1: SpaceObject, b2: SpaceObject, score: int)
    requires a.nSize > SPLIT_LIMIT && Hits(collide, a, b1) && Hits(collide, a, b2)
    ensures SplitParents(collide, [b1, b2], [a]) == [a, a]
    ensures |FrameAsteroids(m, collide, chance, [a], [b1, b2])| == 4
    ensures FrameScore(m, collide, chance, [a], [b1, b2], score) == score + 2 * SPLIT_BONUS
  {
    TwoSplits(collide, a, b1, b2);
    var marked := seq(1, j requires 0 <= j < 1 => MarkedAsteroid(collide, [a][j], [b1, b2]));
    assert [b1, b2][..1] == [b1];
    assert HitByAny(collide, a, [b1, b2]);
    assert !marked[0].alive;
    var pieces := Pieces(m, chance, [a, a]);
    PiecesAreAlive(m, chance, [a, a]);
    KeepAllAlive(marked, pieces);
  }

  lemma TwoSplits(collide: Collider, a: SpaceObject, b1: SpaceObject, b2: SpaceObject)
    requires a.nSize > SPLIT_LIMIT && Hits(collide, a, b1) && Hits(collide, a, b2)
    ensures SplitParents(collide, [b1, b2], [a]) == [a, a]
  {
    assert [a][..0] == [];
    assert SplitsBy(collide, [a], b1) == [a];
    assert SplitsBy(collide, [a], b2) == [a];
    assert [b1][..0] == [];
    assert SplitParents(collide, [b1], [a]) == [a];
    assert [b1, b2][..1] == [b1];
    assert SplitParents(collide, [b1, b2], [a]) == SplitParents(collide, [b1], [a]) + SplitsBy(collide, [a], b2);
  }

  /** Filtering dead objects from dead ones followed by live ones leaves the
      live ones. */
  lemma {:induction false} KeepAllAlive(dead: seq<SpaceObject>, live: seq<SpaceObject>)
    requires forall k :: 0 <= k < |dead| ==> !dead[k].alive
    requires forall k :: 0 <= k < |live| ==> live[k].alive
    ensures Keep(dead + live, IsAlive) == live
    decreases |live|
  {
    if live == [] {
      assert dead + live == dead;
      KeepNone(dead);
    } else {
      var init := live[..|live| - 1];
      assert (dead + live)[..|dead + live| - 1] == dead + init;
      KeepAllAlive(dead, init);
      assert init + [live[|live| - 1]] == live;
    }
  }

  lemma {:induction false} KeepNone(dead: seq<SpaceObject>)
    requires forall k :: 0 <= k < |dead| ==> !dead[k].alive
    ensures Keep(dead, IsAlive) == []
  {
    if dead != [] {
      KeepNone(dead[..|dead| - 1]);
    }
  }

  /** A hit pass with no hit changes nothing: no piece, no bonus, nobody
      dies, and a field with a live asteroid is not refilled. */
  lemma {:induction false} NoHitNoSplit(collide: Collider, shots: seq<SpaceObject>, rocks: seq<SpaceObject>)
    requires forall i, j :: 0 <= i < |shots| && 0 <= j < |rocks| ==> !Hits(collide, rocks[j], shots[i])
    ensures SplitParents(collide, shots, rocks) == []
  {
    if shots != [] {
      var init := shots[..|shots| - 1];
      assert forall i, j :: 0 <= i < |init| && 0 <= j < |rocks| ==> !Hits(collide, rocks[j], init[i]) by {
        assert forall i :: 0 <= i < |init| ==> init[i] == shots[i];
      }
      NoHitNoSplit(collide, init, rocks);
      NoHitBy(collide, rocks, shots[|shots| - 1]);
    }
  }

  lemma {:induction false} NoHitBy(collide: Collider, rocks: seq<SpaceObject>, b: SpaceObject)
    requires forall j :: 0 <= j < |rocks| ==> !Hits(collide, rocks[j], b)
    ensures SplitsBy(collide, rocks, b) == []
  {
    if rocks != [] {
      var init := rocks[..|rocks| - 1];
      assert forall j :: 0 <= j < |init| ==> init[j] == rocks[j];
      NoHitBy(collide, init, b);
    }
  }

  // ---------------------------------------------------------------------
  // Name entry

  /** isalnum in the C locale. */
  predicate IsAlnum(c: char)
  {
    ('a' <= c <= 'z') || ('A' <= c <= 'Z') || ('0' <= c <= '9')
  }

  /** The keys handleNameInput passes on: Backspace, Space, and a single
      letter or digit; Return and everything else is dropped. */
  predicate Forwarded(k: string)
  {
    k != "Return" && (k == "Backspace" || k == "Space" || (|k| == 1 && IsAlnum(k[0])))
  }

  function ForwardedKeys(keys: seq<string>): (r: seq<string>)
    ensures |r| <= |keys|
    ensures forall i :: 0 <= i < |r| ==> Forwarded(r[i])
  {
    if keys == [] then []
    else ForwardedKeys(keys[..|keys| - 1]) + (if Forwarded(keys[|keys| - 1]) then [keys[|keys| - 1]] else [])
  }

  lemma ForwardedSnoc(keys: seq<string>, k: string)
    ensures ForwardedKeys(keys + [k]) == ForwardedKeys(keys) + if Forwarded(k) then [k] else []
  {
    assert (keys + [k])[..|keys|] == keys;
  }

  /** Names built from the forwarded keys hold only letters, digits and
      blanks. */
  predicate CleanName(name: string)
  {
    forall i :: 0 <= i < |name| ==> IsAlnum(name[i]) || name[i] == ' '
  }

  lemma EditKeepsClean(name: string, key: string)
    requires CleanName(name) && Forwarded(key)
    ensures CleanName(EditName(name, key))
  {
    var r := EditName(name, key);
    if key == "Backspace" && name != [] {
      assert forall i :: 0 <= i < |r| ==> r[i] == name[i];
    }
  }

  lemma {:induction false} TypedNameIsClean(name: string, keys: seq<string>)
    requires CleanName(name)
    requires forall i :: 0 <= i < |keys| ==> Forwarded(keys[i])
    ensures CleanName(EditAll(name, keys))
  {
    if keys != [] {
      TypedNameIsClean(name, keys[..|keys| - 1]);
      EditKeepsClean(EditAll(name, keys[..|keys| - 1]), keys[|keys| - 1]);
    }
  }

  /** A clean name survives the trip through the high-score file. */
  lemma CleanNameRoundTrip(content: string, name: string, score: int)
    requires CleanName(name) && IsInt32(score)
    requires content == [] || content[|content| - 1] == '\n'
    ensures ParsedEntries(Lines(content + SaveLine(name, score)))
         == ParsedEntries(Lines(content)) + [Entry(score, SavedName(name))]
  {
    assert '"' !in name && '\n' !in name by {
      forall i | 0 <= i < |name|
        ensures name[i] != '"' && name[i] != '\n'
      {
        assert IsAlnum(name[i]) || name[i] == ' ';
      }
    }
    SaveThenRead(content, name, score);
  }

  /** Which menu flag shows a state, if any. */
  function MenuFlag(s: GameState): (flag: string)
    ensures s != GameRunning ==> flag in InitialMenuFlags()
  {
    match s
    case MainMenu => "mainMenu"
    case GamePaused => "pauseMenu"
    case ControlsMenu => "controls"
    case VolumeMenu => "volume"
    case HighscoreMenu => "highScore"
    case GameOver => "gameOver"
    case HighscoreRecording => "highscoreRecording"
    case GameRunning => ""
  }

  /** Where a submenu opened from the pause menu or the main menu goes back. */
  function MenuOrigin(fromPause: bool): (s: GameState)
    ensures s == GamePaused || s == MainMenu
    ensures fromPause <==> s == GamePaused
  {
    if fromPause then GamePaused else MainMenu
  }

  /** The game's Back handlers and the menus' Back lambdas agree: the flag
      switched on is the one of the state the game returns to, and the flag
      of the menu left is off. */
  lemma BackAgreesWithMenus(flags: map<string, bool>, own: GameState, fromPause: bool)
    requires own == ControlsMenu || own == VolumeMenu
    ensures var after := ReturnFlags(flags, MenuFlag(own), fromPause);
      after[MenuFlag(MenuOrigin(fromPause))] && !after[MenuFlag(own)]
  {
  }

  class Asteriods {
    var currentState: GameState
    var previousState: GameState
    var score: int
    var asteroids: seq<SpaceObject>
    var bullets: seq<SpaceObject>
    /** The contents of the high-score file. */
    var highScoreFile: string
    var menus: Menus

    /** The game opens on the main menu with a score of 0 and three opening
        asteroids; previousState, which the source leaves unset, starts as
        MainMenu here. */
    constructor(m: Math, chance: Chance, file: string)
      ensures currentState == MainMenu && previousState == MainMenu && score == 0
      ensures asteroids == Wave(m, chance, 0, RESET_SPEED) && bullets == []
      ensures fresh(menus) && menus.gameStates == InitialMenuFlags() && menus.currentNameInput == ""
      ensures highScoreFile == file
    {
      currentState := MainMenu;
      previousState := MainMenu;
      menus := new Menus();
      asteroids := Wave(m, chance, 0, RESET_SPEED);
      bullets := [];
      score := 0;
      highScoreFile := file;
    }

    /** resetGame followed by the switch to play: an empty score, no bullets
        and three asteroids of the opening size at the safe spots. */
    method StartGame(m: Math, chance: Chance)
      modifies this
      ensures currentState == GameRunning && score == 0 && bullets == []
      ensures asteroids == Wave(m, chance, 0, RESET_SPEED)
      ensures previousState == old(previousState) && menus == old(menus) && highScoreFile == old(highScoreFile)
    {
      asteroids := SpawnWave(m, chance, 0, RESET_SPEED);
      bullets := [];
      score := 0;
      currentState := GameRunning;
    }

    method ResumeGame()
      modifies this
      ensures currentState == GameRunning
      ensures previousState == old(previousState) && score == old(score) && menus == old(menus)
      ensures asteroids == old(asteroids) && bullets == old(bullets) && highScoreFile == old(highScoreFile)
    {
      currentState := GameRunning;
    }

    method ShowGameOverScreen()
      modifies this
      ensures currentState == GameOver
      ensures previousState == old(previousState) && score == old(score) && menus == old(menus)
      ensures asteroids == old(asteroids) && bullets == old(bullets) && highScoreFile == old(highScoreFile)
    {
      currentState := GameOver;
    }

    /** Opens name entry with an empty name, remembering the game-over screen. */
    method ShowHighscoreRecordingScreen()
      modifies this, menus
      ensures previousState == GameOver && currentState == HighscoreRecording
      ensures menus == old(menus) && menus.currentNameInput == "" && menus.gameStates == old(menus.gameStates)
      ensures score == old(score) && highScoreFile == old(highScoreFile)
      ensures asteroids == old(asteroids) && bullets == old(bullets)
    {
      previousState := GameOver;
      currentState := HighscoreRecording;
      menus.ClearCurrentNameInput();
    }

    method ShowControls(fromPause: bool)
      modifies this
      ensures previousState == MenuOrigin(fromPause) && currentState == ControlsMenu
      ensures score == old(score) && menus == old(menus) && highScoreFile == old(highScoreFile)
      ensures asteroids == old(asteroids) && bullets == old(bullets)
    {
      previousState := if fromPause then GamePaused else MainMenu;
      currentState := ControlsMenu;
    }

    method ShowVolume(fromPause: bool)
      modifies this
      ensures previousState == MenuOrigin(fromPause) && currentState == VolumeMenu
      ensures score == old(score) && menus == old(menus) && highScoreFile == old(highScoreFile)
      ensures asteroids == old(asteroids) && bullets == old(bullets)
    {
      previousState := if fromPause then GamePaused else MainMenu;
      currentState := VolumeMenu;
    }

    method ShowHighScores()
      modifies this
      ensures previousState == MainMenu && currentState == HighscoreMenu
      ensures score == old(score) && menus == old(menus) && highScoreFile == old(highScoreFile)
      ensures asteroids == old(asteroids) && bullets == old(bullets)
    {
      previousState := MainMenu;
      currentState := HighscoreMenu;
    }

    method ReturnToMainMenu()
      modifies this
      ensures currentState == MainMenu
      ensures previousState == old(previousState) && score == old(score)
      ensures menus == old(menus) && highScoreFile == old(highScoreFile)
      ensures asteroids == old(asteroids) && bullets == old(bullets)
    {
      currentState := MainMenu;
    }

    /** The controls menu's Back button: the menu's lambda, then the game's
        handler.  The game returns to where showControls came from. */
    method BackFromControls(fromPauseMenu: bool)
      modifies this, menus
      ensures currentState == MenuOrigin(fromPauseMenu)
      ensures menus == old(menus)
      ensures menus.gameStates == ReturnFlags(old(menus.gameStates), "controls", fromPauseMenu)
      ensures menus.currentNameInput == old(menus.currentNameInput)
      ensures previousState == old(previousState) && score == old(score)
      ensures asteroids == old(asteroids) && bullets == old(bullets) && highScoreFile == old(highScoreFile)
    {
      menus.BackFromControls(fromPauseMenu);
      if fromPauseMenu {
        currentState := GamePaused;
      } else {
        currentState := MainMenu;
      }
    }

    /** The volume menu's Back button. */
    method BackFromVolume(fromPauseMenu: bool)
      modifies this, menus
      ensures currentState == MenuOrigin(fromPauseMenu)
      ensures menus == old(menus)
      ensures menus.gameStates == ReturnFlags(old(menus.gameStates), "volume", fromPauseMenu)
      ensures menus.currentNameInput == old(menus.currentNameInput)
      ensures previousState == old(previousState) && score == old(score)
      ensures asteroids == old(asteroids) && bullets == old(bullets) && highScoreFile == old(highScoreFile)
    {
      menus.BackFromVolume(fromPauseMenu);
      if fromPauseMenu {
        currentState := GamePaused;
      } else {
        currentState := MainMenu;
      }
    }

    /** The high-score menu's Back button. */
    method BackFromHighScore()
      modifies this, menus
      ensures currentState == MainMenu
      ensures menus == old(menus)
      ensures menus.gameStates == old(menus.gameStates)["highScore" := false]["mainMenu" := true]
      ensures menus.currentNameInput == old(menus.currentNameInput)
      ensures previousState == old(previousState) && score == old(score)
      ensures asteroids == old(asteroids) && bullets == old(bullets) && highScoreFile == old(highScoreFile)
    {
      menus.BackFromHighScore();
      currentState := MainMenu;
    }

    /** handleNameInput: on the recording screen, pass this frame's pressed
        keys to the name buffer, keeping only Backspace, Space and single
        letters or digits. */
    method HandleNameInput(keysDown: seq<string>)
      modifies menus
      ensures currentState == HighscoreRecording ==>
        menus.currentNameInput == EditAll(old(menus.currentNameInput), ForwardedKeys(keysDown))
      ensures currentState != HighscoreRecording ==> menus.currentNameInput == old(menus.currentNameInput)
      ensures menus.gameStates == old(menus.gameStates)
    {
      if currentState == HighscoreRecording {
        ghost var start := menus.currentNameInput;
        var i := 0;
        while i < |keysDown|
          invariant 0 <= i <= |keysDown|
          invariant menus.currentNameInput == EditAll(start, ForwardedKeys(keysDown[..i]))
          invariant menus.gameStates == old(menus.gameStates)
        {
          var k := keysDown[i];
          assert keysDown[..i + 1] == keysDown[..i] + [k];
          ForwardedSnoc(keysDown[..i], k);
          if Forwarded(k) {
            EditAllSnoc(start, ForwardedKeys(keysDown[..i]), k);
          } else {
            assert ForwardedKeys(keysDown[..i + 1]) == ForwardedKeys(keysDown[..i]);
          }
          if k == "Return" {
          } else if k == "Backspace" {
            menus.HandleTextInput("Backspace");
          } else if k == "Space" {
            menus.HandleTextInput("Space");
          } else if |k| == 1 {
            if IsAlnum(k[0]) {
              menus.HandleTextInput(k);
            }
          }
          i := i + 1;
        }
        assert keysDown[..i] == keysDown;
      }
    }

    /** The recording menu's submit action: saveHighScore appends the line,
        then the game goes back to the main menu. */
    method SubmitName(playerName: string)
      modifies this
      ensures highScoreFile == old(highScoreFile) + SaveLine(playerName, score)
      ensures currentState == MainMenu && score == old(score) && menus == old(menus)
      ensures previousState == old(previousState) && asteroids == old(asteroids) && bullets == old(bullets)
    {
      highScoreFile := highScoreFile + SaveLine(playerName, score);
      currentState := MainMenu;
    }

    // -------------------------------------------------------------------
    // One frame of renderGameplay

    /** The asteroids and bullets as the hit pass leaves them after i bullets. */
    ghost predicate ResolvedUpTo(collide: Collider, rocks0: seq<SpaceObject>, shots0: seq<SpaceObject>, i: nat)
      requires i <= |shots0|
      reads this
    {
      && |asteroids| == |rocks0| && |bullets| == |shots0|
      && (forall k :: 0 <= k < |rocks0| ==> asteroids[k] == MarkedAsteroid(collide, rocks0[k], shots0[..i]))
      && (forall k :: 0 <= k < i ==> bullets[k] == MarkedBullet(collide, rocks0, shots0[k]))
      && (forall k :: i <= k < |shots0| ==> bullets[k] == shots0[k])
    }

    /** The nested loop of renderGameplay: every bullet against every
        asteroid, marking both dead on a hit and splitting asteroids larger
        than SPLIT_LIMIT into two pieces worth SPLIT_BONUS. */
    method ResolveHits(m: Math, collide: Collider, chance: Chance) returns (newAsteroids: seq<SpaceObject>)
      modifies this
      ensures asteroids == seq(|old(asteroids)|, j requires 0 <= j < |old(asteroids)| =>
                               MarkedAsteroid(collide, old(asteroids)[j], old(bullets)))
      ensures bullets == seq(|old(bullets)|, i requires 0 <= i < |old(bullets)| =>
                             MarkedBullet(collide, old(asteroids), old(bullets)[i]))
      ensures newAsteroids == Pieces(m, chance, SplitParents(collide, old(bullets), old(asteroids)))
      ensures score == old(score) + SPLIT_BONUS * |SplitParents(collide, old(bullets), old(asteroids))|
      ensures currentState == old(currentState) && previousState == old(previousState)
      ensures menus == old(menus) && highScoreFile == old(highScoreFile)
    {
      ghost var rocks0, shots0 := asteroids, bullets;
      newAsteroids := [];
      var i := 0;
      assert ResolvedUpTo(collide, rocks0, shots0, 0);
      while i < |bullets|
        invariant 0 <= i <= |shots0| && |bullets| == |shots0|
        invariant ResolvedUpTo(collide, rocks0, shots0, i)
        invariant newAsteroids == Pieces(m, chance, SplitParents(collide, shots0[..i], rocks0))
        invariant score == old(score) + SPLIT_BONUS * |SplitParents(collide, shots0[..i], rocks0)|
        invariant currentState == old(currentState) && previousState == old(previousState)
        invariant menus == old(menus) && highScoreFile == old(highScoreFile)
      {
        assert shots0[..i + 1][..i] == shots0[..i];
        newAsteroids := ResolveBullet(m, collide, chance, i, rocks0, shots0, newAsteroids);
        i := i + 1;
      }
      assert shots0[..i] == shots0;
    }

    /** The inner loop for bullet i. */
    method ResolveBullet(m: Math, collide: Collider, chance: Chance, i: nat,
                         ghost rocks0: seq<SpaceObject>, ghost shots0: seq<SpaceObject>,
                         piecesIn: seq<SpaceObject>)
      returns (piecesOut: seq<SpaceObject>)
      requires i < |shots0| && ResolvedUpTo(collide, rocks0, shots0, i)
      requires piecesIn == Pieces(m, chance, SplitParents(collide, shots0[..i], rocks0))
      modifies this
      ensures ResolvedUpTo(collide, rocks0, shots0, i + 1)
      ensures piecesOut == Pieces(m, chance, SplitParents(collide, shots0[..i + 1], rocks0))
      ensures score == old(score) + SPLIT_BONUS * |SplitsBy(collide, rocks0, shots0[i])|
      ensures currentState == old(currentState) && previousState == old(previousState)
      ensures menus == old(menus) && highScoreFile == old(highScoreFile)
    {
      ghost var prefix := SplitParents(collide, shots0[..i], rocks0);
      assert shots0[..i + 1][..i] == shots0[..i];
      piecesOut := piecesIn;
      var j := 0;
      assert rocks0[..0] == [];
      while j < |asteroids|
        invariant 0 <= j <= |rocks0| && PairsResolved(asteroids, bullets, collide, rocks0, shots0, i, j)
        invariant piecesOut == Pieces(m, chance, prefix + SplitsBy(collide, rocks0[..j], shots0[i]))
        invariant score == old(score) + SPLIT_BONUS * |SplitsBy(collide, rocks0[..j], shots0[i])|
        invariant currentState == old(currentState) && previousState == old(previousState)
        invariant menus == old(menus) && highScoreFile == old(highScoreFile)
      {
        piecesOut := ResolvePair(m, collide, chance, i, j, rocks0, shots0, prefix, piecesOut);
        j := j + 1;
      }
      assert rocks0[..j] == rocks0;
    }

    /** The body of the inner loop: bullet i against asteroid j. */
    method ResolvePair(m: Math, collide: Collider, chance: Chance, i: nat, j: nat,
                       ghost rocks0: seq<SpaceObject>, ghost shots0: seq<SpaceObject>,
                       ghost prefix: seq<SpaceObject>, piecesIn: seq<SpaceObject>)
      returns (piecesOut: seq<SpaceObject>)
      requires j < |rocks0| && PairsResolved(asteroids, bullets, collide, rocks0, shots0, i, j)
      requires piecesIn == Pieces(m, chance, prefix + SplitsBy(collide, rocks0[..j], shots0[i]))
      modifies this
      ensures PairsResolved(asteroids, bullets, collide, rocks0, shots0, i, j + 1)
      ensures piecesOut == Pieces(m, chance, prefix + SplitsBy(collide, rocks0[..j + 1], shots0[i]))
      ensures score == old(score) + SPLIT_BONUS * (|SplitsBy(collide, rocks0[..j + 1], shots0[i])|
                                                 - |SplitsBy(collide, rocks0[..j], shots0[i])|)
      ensures currentState == old(currentState) && previousState == old(previousState)
      ensures menus == old(menus) && highScoreFile == old(highScoreFile)
    {
      ghost var splits := SplitsBy(collide, rocks0[..j], shots0[i]);
      SplitsByStep(collide, rocks0, shots0[i], j);
      piecesOut := piecesIn;
      var a := asteroids[j];
      var hit := MarkPair(collide, i, j, rocks0, shots0);
      if hit && a.nSize > SPLIT_LIMIT {
        SplitPieces(m, chance, prefix, splits, rocks0[j], a);
        assert SplitsBy(collide, rocks0[..j + 1], shots0[i]) == splits + [rocks0[j]];
        var heading1 := chance.heading(|piecesOut|);
        var heading2 := chance.heading(|piecesOut| + 1);
        piecesOut := piecesOut + [Piece(m, a, heading1), Piece(m, a, heading2)];
        score := score + SPLIT_BONUS;
      } else {
        assert SplitsBy(collide, rocks0[..j + 1], shots0[i]) == splits + [];
      }
    }

    /** The collision test of bullet i against asteroid j, marking both dead
        on a hit. */
    method MarkPair(collide: Collider, i: nat, j: nat,
                    ghost rocks0: seq<SpaceObject>, ghost shots0: seq<SpaceObject>)
      returns (hit: bool)
      requires j < |rocks0| && PairsResolved(asteroids, bullets, collide, rocks0, shots0, i, j)
      modifies this
      ensures hit == Hits(collide, rocks0[j], shots0[i])
      ensures PairsResolved(asteroids, bullets, collide, rocks0, shots0, i, j + 1)
      ensures score == old(score)
      ensures currentState == old(currentState) && previousState == old(previousState)
      ensures menus == old(menus) && highScoreFile == old(highScoreFile)
    {
      PairStep(asteroids, bullets, collide, rocks0, shots0, i, j);
      var a := asteroids[j];
      var b := bullets[i];
      hit := collide(a.x, a.y, a.nSize, b.x, b.y);
      if hit {
        asteroids := asteroids[j := a.(alive := false)];
        bullets := bullets[i := b.(alive := false)];
      }
    }

    /** Appends the pieces, as the merge loop does. */
    method MergePieces(pieces: seq<SpaceObject>)
      modifies this
      ensures asteroids == old(asteroids) + pieces
      ensures bullets == old(bullets) && score == old(score)
      ensures currentState == old(currentState) && previousState == old(previousState)
      ensures menus == old(menus) && highScoreFile == old(highScoreFile)
    {
      var i := 0;
      while i < |pieces|
        invariant 0 <= i <= |pieces|
        invariant asteroids == old(asteroids) + pieces[..i]
        invariant bullets == old(bullets) && score == old(score)
        invariant currentState == old(currentState) && previousState == old(previousState)
        invariant menus == old(menus) && highScoreFile == old(highScoreFile)
      {
        assert pieces[..i + 1] == pieces[..i] + [pieces[i]];
        asteroids := asteroids + [pieces[i]];
        i := i + 1;
      }
    }

    /** The new wave when the field is empty: WAVE_BONUS and three asteroids. */
    method RefillIfEmpty(m: Math, chance: Chance, first: nat)
      modifies this
      ensures old(asteroids) == [] ==> asteroids == Wave(m, chance, first, PIECE_SPEED) && score == old(score) + WAVE_BONUS
      ensures old(asteroids) != [] ==> asteroids == old(asteroids) && score == old(score)
      ensures bullets == old(bullets)
      ensures currentState == old(currentState) && previousState == old(previousState)
      ensures menus == old(menus) && highScoreFile == old(highScoreFile)
    {
      if asteroids == [] {
        score := score + WAVE_BONUS;
        asteroids := SpawnWave(m, chance, first, PIECE_SPEED);
      }
    }

    /** The rules part of renderGameplay: hit pass, merge, removal of dead
        bullets and asteroids and of bullets off screen, then a new wave if
        nothing is left. */
    method RenderGameplay(m: Math, collide: Collider, chance: Chance)
      modifies this
      ensures asteroids == FrameAsteroids(m, collide, chance, old(asteroids), old(bullets))
      ensures bullets == FrameBullets(collide, old(asteroids), old(bullets))
      ensures score == FrameScore(m, collide, chance, old(asteroids), old(bullets), old(score))
      ensures currentState == old(currentState) && previousState == old(previousState)
      ensures menus == old(menus) && highScoreFile == old(highScoreFile)
    {
      ghost var parents := SplitParents(collide, bullets, asteroids);
      var pieces := ResolveHits(m, collide, chance);
      MergePieces(pieces);
      bullets := RemoveIf(bullets, BulletStays);
      asteroids := RemoveIf(asteroids, IsAlive);
      RefillIfEmpty(m, chance, |pieces|);
    }
  }

  /** The spawning loop of a wave: WAVE_COUNT asteroids pushed in order. */
  method SpawnWave(m: Math, chance: Chance, first: nat, speed: real) returns (wave: seq<SpaceObject>)
    ensures wave == Wave(m, chance, first, speed)
  {
    wave := [];
    var i := 0;
    while i < WAVE_COUNT
      invariant 0 <= i <= WAVE_COUNT
      invariant wave == Wave(m, chance, first, speed)[..i]
    {
      var (sx, sy) := chance.spot(i);
      var ang := chance.heading(first + i);
      var rock := SpaceObject(sx, sy, speed * m.sin(ang), speed * m.cos(ang), WAVE_SIZE, 0.0, true);
      assert rock == Wave(m, chance, first, speed)[i];
      assert Wave(m, chance, first, speed)[..i + 1] == Wave(m, chance, first, speed)[..i] + [rock];
      wave := wave + [rock];
      i := i + 1;
    }
  }

  /** erase(remove_if(...)): the elements that stay, in their order. */
  method RemoveIf(s: seq<SpaceObject>, stays: SpaceObject -> bool) returns (r: seq<SpaceObject>)
    ensures r == Keep(s, stays)
  {
    r := [];
    var i := 0;
    while i < |s|
      invariant 0 <= i <= |s|
      invariant r == Keep(s[..i], stays)
    {
      assert s[..i + 1][..i] == s[..i];
      if stays(s[i]) {
        r := r + [s[i]];
      }
      i := i + 1;
    }
    assert s[..i] == s;
  }
}
