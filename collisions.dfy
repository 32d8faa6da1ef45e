/** Properties of the collision loop: the score is paid once per enemy death,
    one player bullet can damage every enemy it overlaps, and enemy bullets keep
    costing health after the hit that ended the game. */
module Collisions {
  import opened GameTypes
  import opened Rules
  import opened Frame

  /** How many enemies are alive in `before` and dead in `after`. */
  function Kills(before: seq<Enemy>, after: seq<Enemy>): (n: nat)
    requires |before| == |after|
    ensures n <= |before|
  {
    if before == [] then 0
    else (if Alive(before[0]) && !Alive(after[0]) then 1 else 0) + Kills(before[1..], after[1..])
  }

  /** No dead enemy changed between the two rosters. */
  predicate DeadUntouched(before: seq<Enemy>, after: seq<Enemy>)
  {
    |before| == |after| &&
    forall j :: 0 <= j < |before| && !Alive(before[j]) ==> after[j] == before[j]
  }

  /** From `a` to `b` the dead stayed as they were and the score rose by exactly
      100 for each enemy that died. */
  predicate PaidPerKill(a: State, b: State)
  {
    DeadUntouched(a.enemies, b.enemies) &&
    b.player.score == a.player.score + KillScore * Kills(a.enemies, b.enemies)
  }

  lemma {:induction false} KillsNone(a: seq<Enemy>)
    ensures Kills(a, a) == 0
  {
    if a != [] {
      KillsNone(a[1..]);
    }
  }

  lemma {:induction false} KillsUpdate(a: seq<Enemy>, j: nat, x: Enemy)
    requires j < |a|
    ensures Kills(a, a[j := x]) == if Alive(a[j]) && !Alive(x) then 1 else 0
  {
    if j == 0 {
      assert a[j := x][1..] == a[1..];
      KillsNone(a[1..]);
    } else {
      assert a[j := x][1..] == a[1..][j - 1 := x];
      KillsUpdate(a[1..], j - 1, x);
    }
  }

  lemma {:induction false} KillsChain(a: seq<Enemy>, b: seq<Enemy>, c: seq<Enemy>)
    requires DeadUntouched(a, b) && DeadUntouched(b, c)
    ensures Kills(a, c) == Kills(a, b) + Kills(b, c)
  {
    if a != [] {
      KillsChain(a[1..], b[1..], c[1..]);
    }
  }

  lemma PaidPerKillChain(a: State, b: State, c: State)
    requires PaidPerKill(a, b) && PaidPerKill(b, c)
    ensures PaidPerKill(a, c)
  {
    KillsChain(a.enemies, b.enemies, c.enemies);
  }

  lemma PaidPerKillNone(a: State, b: State)
    requires a.enemies == b.enemies && a.player.score == b.player.score
    ensures PaidPerKill(a, b)
  {
    KillsNone(a.enemies);
  }

  lemma {:induction false} HitEnemiesUpToPays(st: State, i: nat, n: nat, inp: FrameInput)
    requires i < |st.bullets| && n <= |st.enemies|
    ensures PaidPerKill(st, HitEnemiesUpTo(st, i, n, inp))
  {
    if n == 0 {
      PaidPerKillNone(st, st);
    } else {
      HitEnemiesUpToPays(st, i, n - 1, inp);
      var s := HitEnemiesUpTo(st, i, n - 1, inp);
      var t := HitEnemy(s, i, n - 1, inp);
      HitEnemyAwardsOnce(s, i, n - 1, inp);
      if Alive(s.enemies[n - 1]) && (i, n - 1) in inp.enemyHits {
        KillsUpdate(s.enemies, n - 1, t.enemies[n - 1]);
        assert t.enemies == s.enemies[n - 1 := t.enemies[n - 1]];
      } else {
        PaidPerKillNone(s, t);
      }
      PaidPerKillChain(st, s, t);
    }
  }

  lemma {:induction false} CollideUpToPays(st: State, n: nat, inp: FrameInput)
    requires n <= |st.bullets|
    ensures PaidPerKill(st, CollideUpTo(st, n, inp))
  {
    if n == 0 {
      PaidPerKillNone(st, st);
    } else {
      CollideUpToPays(st, n - 1, inp);
      var s := CollideUpTo(st, n - 1, inp);
      var i := n - 1;
      if !s.bullets[i].active {
        PaidPerKillNone(s, s);
      } else {
        var s' := if s.bullets[i].kind == EnemyOwned && i in inp.playerHits then PlayerHit(s, i) else s;
        PaidPerKillNone(s, s');
        if s'.bullets[i].kind == PlayerOwned {
          HitEnemiesUpToPays(s', i, |s'.enemies|, inp);
          PaidPerKillChain(s, s', CollideUpTo(st, n, inp));
        }
      }
      PaidPerKillChain(st, s, CollideUpTo(st, n, inp));
    }
  }

  /** In a running frame the score rises by exactly 100 for each enemy that was
      alive when collisions started and is dead after them, so at most once per
      enemy and at most 100 times the roster size; enemies already dead are not
      touched by the collision loop. A frame after game over changes nothing. */
  lemma StepPaysOncePerKill(st: State, terrain: Terrain, inp: FrameInput)
    ensures st.player.gameOver ==> Step(st, terrain, inp) == st
    ensures !st.player.gameOver ==>
      var s := BeforeCollisions(st, terrain, inp);
      var r := Step(st, terrain, inp);
      && s.player.score == st.player.score
      && DeadUntouched(s.enemies, r.enemies)
      && r.player.score == st.player.score + KillScore * Kills(s.enemies, r.enemies)
      && st.player.score <= r.player.score <= st.player.score + KillScore * |st.enemies|
  {
    if !st.player.gameOver {
      var s := BeforeCollisions(st, terrain, inp);
      CollideUpToPays(s, |s.bullets|, inp);
    }
  }

  /** The score never decreases, whatever happens. */
  lemma {:induction false} ScoreNeverDecreases(st: State, terrain: Terrain, evs: seq<Event>)
    ensures Run(st, terrain, evs).player.score >= st.player.score
    decreases |evs|
  {
    if evs != [] {
      match evs[0] {
        case Tick(inp) => StepPaysOncePerKill(st, terrain, inp);
        case Click =>
        case ReloadKey =>
        case MouseMove(dx, dy) =>
      }
      ScoreNeverDecreases(Apply(st, terrain, evs[0]), terrain, evs[1..]);
    }
  }

  // ------------------------------------------------ the loop as written

  /** The inner loop neither stops at the first enemy hit nor re-checks whether
      the bullet is still active: after it, every enemy that was alive and inside
      the bullet's cylinder has lost 34 health, and every other enemy is unchanged. */
  lemma {:induction false} HitEnemiesUpToDamagesAll(st: State, i: nat, n: nat, inp: FrameInput)
    requires i < |st.bullets| && n <= |st.enemies|
    ensures forall j :: 0 <= j < |st.enemies| ==>
      HitEnemiesUpTo(st, i, n, inp).enemies[j].health ==
        if j < n && Alive(st.enemies[j]) && (i, j) in inp.enemyHits
        then st.enemies[j].health - EnemyHitDamage else st.enemies[j].health
    ensures forall j :: 0 <= j < |st.enemies| && !(j < n && Alive(st.enemies[j]) && (i, j) in inp.enemyHits) ==>
      HitEnemiesUpTo(st, i, n, inp).enemies[j] == st.enemies[j]
  {
    if n > 0 {
      HitEnemiesUpToDamagesAll(st, i, n - 1, inp);
      var s := HitEnemiesUpTo(st, i, n - 1, inp);
      HitEnemyAwardsOnce(s, i, n - 1, inp);
    }
  }

  /** So a single active player bullet overlapping two live enemies damages both
      in the same frame. */
  lemma OneBulletHitsTwoEnemies(st: State, i: nat, j1: nat, j2: nat, inp: FrameInput)
    requires i < |st.bullets| && j1 < j2 < |st.enemies|
    requires st.bullets[i].active && st.bullets[i].kind == PlayerOwned
    requires Alive(st.enemies[j1]) && Alive(st.enemies[j2])
    requires (i, j1) in inp.enemyHits && (i, j2) in inp.enemyHits
    ensures CollideBullet(st, i, inp).enemies[j1].health == st.enemies[j1].health - EnemyHitDamage
    ensures CollideBullet(st, i, inp).enemies[j2].health == st.enemies[j2].health - EnemyHitDamage
  {
    HitEnemiesUpToDamagesAll(st, i, |st.enemies|, inp);
  }

  /** The game-over check sits inside the collision loop but the freeze only takes
      effect next frame: a player on 25 health hit by two enemy bullets in one
      frame ends it on -25 health, below the 0 that the first hit set. */
  lemma SecondHitAfterGameOver(st: State, inp: FrameInput)
    requires |st.bullets| >= 2 && !st.player.gameOver && st.player.health == PlayerHitDamage
    requires st.bullets[0].active && st.bullets[0].kind == EnemyOwned
    requires st.bullets[1].active && st.bullets[1].kind == EnemyOwned
    requires 0 in inp.playerHits && 1 in inp.playerHits
    ensures CollideUpTo(st, 2, inp).player.gameOver
    ensures CollideUpTo(st, 2, inp).player.health == -PlayerHitDamage
  {
    var s1 := CollideUpTo(st, 1, inp);
    assert CollideUpTo(st, 0, inp) == st;
    assert s1 == PlayerHit(st, 0);
    assert s1.bullets[1] == st.bullets[1];
  }
}
