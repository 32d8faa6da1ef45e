/** The simulation half of one frame, as the composition of its loops, and the
    properties that hold across any sequence of frames and input events. */
module Frame {
  import opened GameTypes
  import opened Pools
  import opened Rules

  // ------------------------------------------------------------ the loops

  /** The AI loop over enemies `0 .. n-1`. */
  function ThinkUpTo(st: State, n: nat, terrain: Terrain, inp: FrameInput): (r: State)
    requires n <= |st.enemies|
    ensures |r.bullets| == |st.bullets| && |r.particles| == |st.particles|
    ensures |r.enemies| == |st.enemies| && r.player == st.player
  {
    if n == 0 then st else Think(ThinkUpTo(st, n - 1, terrain, inp), n - 1, terrain, inp)
  }

  /** The death-and-respawn loop. */
  function RespawnAll(es: seq<Enemy>, terrain: Terrain, inp: FrameInput): (r: seq<Enemy>)
    ensures |r| == |es|
    ensures forall j :: 0 <= j < |es| && Alive(es[j]) ==> r[j] == es[j]
    ensures forall j :: 0 <= j < |es| && es[j].deathTimer > 0.0 ==>
              r[j].deathTimer == es[j].deathTimer - inp.dt
  {
    var r := seq(|es|, j requires 0 <= j < |es| => Respawn(es[j], inp.dt, inp.roll(j).respawn, terrain));
    assert forall j :: 0 <= j < |es| ==> r[j] == Respawn(es[j], inp.dt, inp.roll(j).respawn, terrain);
    r
  }

  /** The inner collision loop of player bullet `i` over enemies `0 .. n-1`. */
  function HitEnemiesUpTo(st: State, i: nat, n: nat, inp: FrameInput): (r: State)
    requires i < |st.bullets| && n <= |st.enemies|
    ensures |r.bullets| == |st.bullets| && |r.particles| == |st.particles|
    ensures |r.enemies| == |st.enemies|
    ensures r.player == st.player.(score := r.player.score)
    ensures r.player.score >= st.player.score
  {
    if n == 0 then st else HitEnemy(HitEnemiesUpTo(st, i, n - 1, inp), i, n - 1, inp)
  }

  /** One turn of the outer collision loop: bullet `i` against the player if an
      enemy fired it, against every enemy if the player did. */
  function CollideBullet(st: State, i: nat, inp: FrameInput): (r: State)
    requires i < |st.bullets|
    ensures |r.bullets| == |st.bullets| && |r.particles| == |st.particles|
    ensures |r.enemies| == |st.enemies|
  {
    if !st.bullets[i].active then st
    else
      var s := if st.bullets[i].kind == EnemyOwned && i in inp.playerHits then PlayerHit(st, i) else st;
      if s.bullets[i].kind == PlayerOwned then HitEnemiesUpTo(s, i, |s.enemies|, inp) else s
  }

  /** The outer collision loop over bullets `0 .. n-1`. */
  function CollideUpTo(st: State, n: nat, inp: FrameInput): (r: State)
    requires n <= |st.bullets|
    ensures |r.bullets| == |st.bullets| && |r.particles| == |st.particles|
    ensures |r.enemies| == |st.enemies|
    ensures r.player == st.player.(health := r.player.health, gameOver := r.player.gameOver,
                                   score := r.player.score)
    ensures r.player.score >= st.player.score
  {
    if n == 0 then st else CollideBullet(CollideUpTo(st, n - 1, inp), n - 1, inp)
  }

  /** Everything a running frame does before the collision loop: player movement,
      the reload countdown, pool ageing, the AI loop and the respawn loop. */
  function BeforeCollisions(st: State, terrain: Terrain, inp: FrameInput): (r: State)
    ensures |r.bullets| == |st.bullets| && |r.particles| == |st.particles|
    ensures |r.enemies| == |st.enemies|
    ensures r.player == ReloadTick(Move(st.player, terrain, inp), inp.dt)
  {
    var moved := st.(player := ReloadTick(Move(st.player, terrain, inp), inp.dt),
                     bullets := Age(st.bullets, inp.dt),
                     particles := Age(st.particles, inp.dt));
    var thought := ThinkUpTo(moved, |moved.enemies|, terrain, inp);
    thought.(enemies := RespawnAll(thought.enemies, terrain, inp))
  }

  /** The simulation half of `display`: nothing at all once the game is over. */
  function Step(st: State, terrain: Terrain, inp: FrameInput): (r: State)
    ensures |r.bullets| == |st.bullets| && |r.particles| == |st.particles|
    ensures |r.enemies| == |st.enemies|
    ensures st.player.gameOver ==> r == st
  {
    if st.player.gameOver then st
    else
      var s := BeforeCollisions(st, terrain, inp);
      CollideUpTo(s, |s.bullets|, inp)
  }

  // ------------------------------------------------------------ start-up

  /** The globals as the program starts: camera at (0, 1.6, 3) looking down -z,
      a full magazine, full health, and every pool slot zeroed (inactive). */
  function StartPlayer(): (p: Player)
    ensures PlayerOk(p) && CanFire(p) && !CanReload(p)
    ensures p.score == 0 && p.pos.y == EyeHeight
  {
    Player(Vec3(0.0, EyeHeight, 3.0), 0.0, true, -90.0, 0.0, 0, MagazineSize, FullHealth,
           false, 0.0, false)
  }

  /** A zero-initialised enemy, before `initEnemies` runs. */
  function ZeroEnemy(): (e: Enemy)
    ensures !Alive(e) && e.health == 0
  {
    Enemy(Vec3(0.0, 0.0, 0.0), 0, false, 0.0, 0.0, false, 0.0)
  }

  /** Every global as declared: the starting player, every pool slot free and
      every enemy not yet spawned. */
  function ZeroState(): (st: State)
    ensures st.player == StartPlayer()
    ensures |st.bullets| == MaxBullets && |st.particles| == MaxParticles
    ensures |st.enemies| == MaxEnemies
    ensures forall j :: 0 <= j < MaxBullets ==> !st.bullets[j].active
    ensures forall j :: 0 <= j < MaxParticles ==> !st.particles[j].active
    ensures forall j :: 0 <= j < MaxEnemies ==> !Alive(st.enemies[j])
  {
    State(StartPlayer(),
          seq(MaxBullets, _ => Slot(false, 0.0, PlayerOwned)),
          seq(MaxParticles, _ => Slot(false, 0.0, ())),
          seq(MaxEnemies, _ => ZeroEnemy()))
  }

  /** The roster after `initEnemies`. */
  function InitialRoster(roll: nat -> SpawnRoll, terrain: Terrain): (es: seq<Enemy>)
    ensures |es| == MaxEnemies
    ensures forall j :: 0 <= j < MaxEnemies ==> Alive(es[j]) && es[j].health == FullHealth
  {
    var es := seq(MaxEnemies, j requires 0 <= j => Spawned(roll(j), terrain));
    assert forall j :: 0 <= j < MaxEnemies ==> es[j] == Spawned(roll(j), terrain);
    es
  }

  /** The state in which the first frame starts. */
  function Start(roll: nat -> SpawnRoll, terrain: Terrain): (st: State)
    ensures st.player == StartPlayer() && |st.enemies| == MaxEnemies
    ensures |st.bullets| == MaxBullets && |st.particles| == MaxParticles
  {
    ZeroState().(enemies := InitialRoster(roll, terrain))
  }

  // ------------------------------------------------------------ events

  /** What reaches the simulation: a frame, a left click, the reload key, or a
      mouse movement relative to the window centre. */
  datatype Event = Tick(inp: FrameInput) | Click | ReloadKey | MouseMove(dx: int, dy: int)

  /** One event reaches its handler: a frame runs the simulation, a click fires,
      the reload key requests a reload and a mouse move turns the camera. */
  function Apply(st: State, terrain: Terrain, ev: Event): (r: State)
    ensures |r.bullets| == |st.bullets| && |r.particles| == |st.particles|
    ensures |r.enemies| == |st.enemies|
    ensures ev.ReloadKey? || ev.MouseMove? ==>
              r.bullets == st.bullets && r.particles == st.particles && r.enemies == st.enemies
    ensures st.player.gameOver ==> r == st
  {
    match ev
    case Tick(inp) => Step(st, terrain, inp)
    case Click => Fire(st)
    case ReloadKey => st.(player := RequestReload(st.player))
    case MouseMove(dx, dy) => st.(player := Look(st.player, dx, dy))
  }

  /** The events in order, each handled in the state the previous one left. */
  function Run(st: State, terrain: Terrain, evs: seq<Event>): (r: State)
    ensures |r.bullets| == |st.bullets| && |r.particles| == |st.particles|
    ensures |r.enemies| == |st.enemies|
    decreases |evs|
  {
    if evs == [] then st else Run(Apply(st, terrain, evs[0]), terrain, evs[1..])
  }

  /** Handling two batches of events one after the other is handling them as one
      sequence: a run can be split at any point. */
  lemma {:induction false} RunAppend(st: State, terrain: Terrain, a: seq<Event>, b: seq<Event>)
    ensures Run(st, terrain, a + b) == Run(Run(st, terrain, a), terrain, b)
    decreases |a|
  {
    if a != [] {
      assert (a + b)[0] == a[0];
      assert (a + b)[1..] == a[1..] + b;
      RunAppend(Apply(st, terrain, a[0]), terrain, a[1..], b);
    } else {
      assert a + b == b;
    }
  }

  /** Once the game is over no event changes anything: the latch is never cleared
      and the whole simulation is frozen. */
  lemma {:induction false} GameOverFreezes(st: State, terrain: Terrain, evs: seq<Event>)
    requires st.player.gameOver
    ensures Run(st, terrain, evs) == st
    decreases |evs|
  {
    if evs != [] {
      assert Apply(st, terrain, evs[0]) == st;
      GameOverFreezes(st, terrain, evs[1..]);
    }
  }

  /** Hence a game that is over at any point of a run is over at its end: a run
      that ends with the game still going never passed through game over. */
  lemma GameOverSticks(st: State, terrain: Terrain, evs: seq<Event>)
    ensures st.player.gameOver ==> Run(st, terrain, evs).player.gameOver
    ensures forall k :: 0 <= k <= |evs| && Run(st, terrain, evs[..k]).player.gameOver ==>
              Run(st, terrain, evs).player.gameOver
  {
    if st.player.gameOver {
      GameOverFreezes(st, terrain, evs);
    }
    forall k | 0 <= k <= |evs| && Run(st, terrain, evs[..k]).player.gameOver
      ensures Run(st, terrain, evs).player.gameOver
    {
      assert evs == evs[..k] + evs[k..];
      RunAppend(st, terrain, evs[..k], evs[k..]);
      GameOverFreezes(Run(st, terrain, evs[..k]), terrain, evs[k..]);
    }
  }

  /** In particular a reload that is running when the game ends never completes. */
  lemma GameOverStopsReload(st: State, terrain: Terrain, evs: seq<Event>)
    requires st.player.gameOver && st.player.reloading
    ensures Run(st, terrain, evs).player.reloading
    ensures Run(st, terrain, evs).player.bulletsLeft == st.player.bulletsLeft
  {
    GameOverFreezes(st, terrain, evs);
  }

  // ------------------------------------------------------------ the invariant

  /** What holds of the player between events. Health moves in steps of 25 and
      the game is over exactly when none is left; health is NOT bounded below by
      zero (see `SecondHitAfterGameOver`). */
  predicate PlayerOk(p: Player)
  {
    && 0 <= p.bulletsLeft <= MagazineSize
    && (p.reloading ==> p.bulletsLeft < MagazineSize && p.reloadTimer > 0.0)
    && 0 <= p.score && p.score % KillScore == 0
    && p.health <= FullHealth && p.health % PlayerHitDamage == 0
    && (p.gameOver <==> p.health <= 0)
    && -PitchLimit <= p.pitch <= PitchLimit
  }

  /** A live enemy has 100, 66 or 32 health; a dead one has exactly -2, the only
      value three hits leave; every enemy stays active. */
  predicate EnemyOk(e: Enemy)
  {
    && e.active
    && if e.deathTimer > 0.0 then e.health == FullHealth - 3 * EnemyHitDamage
       else e.health == FullHealth || e.health == FullHealth - EnemyHitDamage
            || e.health == FullHealth - 2 * EnemyHitDamage
  }

  predicate EnemiesOk(es: seq<Enemy>)
  {
    forall j :: 0 <= j < |es| ==> EnemyOk(es[j])
  }

  /** Every enemy stands on the terrain, at eye height above the ground. */
  predicate Grounded(es: seq<Enemy>, terrain: Terrain)
  {
    forall j :: 0 <= j < |es| ==> es[j].pos.y == terrain(es[j].pos.x, es[j].pos.z) + EyeHeight
  }

  predicate Inv(st: State, terrain: Terrain)
  {
    && |st.bullets| == MaxBullets && |st.particles| == MaxParticles && |st.enemies| == MaxEnemies
    && PlayerOk(st.player) && EnemiesOk(st.enemies) && Grounded(st.enemies, terrain)
  }

  /** Two rosters agree on every enemy's health, death timer and active flag. */
  predicate SameVitals(a: seq<Enemy>, b: seq<Enemy>)
  {
    |a| == |b| &&
    forall j :: 0 <= j < |a| ==>
      a[j].health == b[j].health && a[j].deathTimer == b[j].deathTimer && a[j].active == b[j].active
  }

  lemma ThinkKeepsVitals(st: State, i: nat, terrain: Terrain, inp: FrameInput)
    requires i < |st.enemies|
    ensures SameVitals(st.enemies, Think(st, i, terrain, inp).enemies)
    ensures Grounded(st.enemies, terrain) ==> Grounded(Think(st, i, terrain, inp).enemies, terrain)
  {
  }

  /** The AI loop leaves every enemy's health, death timer and active flag alone,
      and an enemy only ever steps onto the terrain. */
  lemma {:induction false} ThinkUpToKeepsVitals(st: State, n: nat, terrain: Terrain, inp: FrameInput)
    requires n <= |st.enemies|
    ensures SameVitals(st.enemies, ThinkUpTo(st, n, terrain, inp).enemies)
    ensures Grounded(st.enemies, terrain) ==> Grounded(ThinkUpTo(st, n, terrain, inp).enemies, terrain)
  {
    if n > 0 {
      ThinkUpToKeepsVitals(st, n - 1, terrain, inp);
      ThinkKeepsVitals(ThinkUpTo(st, n - 1, terrain, inp), n - 1, terrain, inp);
    }
  }

  /** From `a` to `b` only damage was dealt: the player's health, game-over latch
      and score are all that may have changed of the player, and no enemy moved. */
  predicate OnlyDamage(a: State, b: State)
  {
    && b.player == a.player.(health := b.player.health, gameOver := b.player.gameOver,
                             score := b.player.score)
    && |b.enemies| == |a.enemies|
    && forall j :: 0 <= j < |a.enemies| ==> b.enemies[j].pos == a.enemies[j].pos
  }

  lemma {:induction false} HitEnemiesUpToOnlyDamage(st: State, i: nat, n: nat, inp: FrameInput)
    requires i < |st.bullets| && n <= |st.enemies|
    ensures OnlyDamage(st, HitEnemiesUpTo(st, i, n, inp))
    ensures HitEnemiesUpTo(st, i, n, inp).player
            == st.player.(score := HitEnemiesUpTo(st, i, n, inp).player.score)
  {
    if n > 0 {
      HitEnemiesUpToOnlyDamage(st, i, n - 1, inp);
    }
  }

  /** The collision loop changes nothing of the player but health, the game-over
      latch and the score; in particular it leaves the magazine and the reload
      countdown alone and moves neither the player nor any enemy. */
  lemma {:induction false} CollideUpToOnlyDamage(st: State, n: nat, inp: FrameInput)
    requires n <= |st.bullets|
    ensures OnlyDamage(st, CollideUpTo(st, n, inp))
  {
    if n > 0 {
      CollideUpToOnlyDamage(st, n - 1, inp);
      var s := CollideUpTo(st, n - 1, inp);
      if s.bullets[n - 1].active {
        var s' := if s.bullets[n - 1].kind == EnemyOwned && n - 1 in inp.playerHits
                  then PlayerHit(s, n - 1) else s;
        HitEnemiesUpToOnlyDamage(s', n - 1, |s'.enemies|, inp);
      }
    }
  }

  lemma PlayerHitKeepsOk(st: State, i: nat)
    requires i < |st.bullets| && PlayerOk(st.player)
    ensures PlayerOk(PlayerHit(st, i).player)
  {
  }

  lemma HitEnemyKeepsOk(st: State, i: nat, j: nat, inp: FrameInput)
    requires i < |st.bullets| && j < |st.enemies|
    requires PlayerOk(st.player) && EnemiesOk(st.enemies)
    ensures PlayerOk(HitEnemy(st, i, j, inp).player) && EnemiesOk(HitEnemy(st, i, j, inp).enemies)
  {
    HitEnemyAwardsOnce(st, i, j, inp);
  }

  lemma {:induction false} HitEnemiesUpToKeepsOk(st: State, i: nat, n: nat, inp: FrameInput)
    requires i < |st.bullets| && n <= |st.enemies|
    requires PlayerOk(st.player) && EnemiesOk(st.enemies)
    ensures PlayerOk(HitEnemiesUpTo(st, i, n, inp).player)
    ensures EnemiesOk(HitEnemiesUpTo(st, i, n, inp).enemies)
  {
    if n > 0 {
      HitEnemiesUpToKeepsOk(st, i, n - 1, inp);
      HitEnemyKeepsOk(HitEnemiesUpTo(st, i, n - 1, inp), i, n - 1, inp);
    }
  }

  lemma {:induction false} CollideUpToKeepsOk(st: State, n: nat, inp: FrameInput)
    requires n <= |st.bullets|
    requires PlayerOk(st.player) && EnemiesOk(st.enemies)
    ensures PlayerOk(CollideUpTo(st, n, inp).player) && EnemiesOk(CollideUpTo(st, n, inp).enemies)
  {
    if n > 0 {
      CollideUpToKeepsOk(st, n - 1, inp);
      var s := CollideUpTo(st, n - 1, inp);
      if s.bullets[n - 1].active {
        var s' := if s.bullets[n - 1].kind == EnemyOwned && n - 1 in inp.playerHits
                  then PlayerHit(s, n - 1) else s;
        if s.bullets[n - 1].kind == EnemyOwned && n - 1 in inp.playerHits {
          PlayerHitKeepsOk(s, n - 1);
        }
        HitEnemiesUpToKeepsOk(s', n - 1, |s'.enemies|, inp);
      }
    }
  }

  /** A frame keeps the invariant. */
  lemma StepKeepsInv(st: State, terrain: Terrain, inp: FrameInput)
    requires Inv(st, terrain)
    ensures Inv(Step(st, terrain, inp), terrain)
  {
    if !st.player.gameOver {
      var moved := st.(player := ReloadTick(Move(st.player, terrain, inp), inp.dt),
                       bullets := Age(st.bullets, inp.dt),
                       particles := Age(st.particles, inp.dt));
      assert PlayerOk(moved.player);
      ThinkUpToKeepsVitals(moved, |moved.enemies|, terrain, inp);
      var thought := ThinkUpTo(moved, |moved.enemies|, terrain, inp);
      assert EnemiesOk(thought.enemies) by {
        forall j | 0 <= j < |thought.enemies| ensures EnemyOk(thought.enemies[j]) {
          assert EnemyOk(moved.enemies[j]);
        }
      }
      var s := BeforeCollisions(st, terrain, inp);
      assert EnemiesOk(s.enemies) && Grounded(s.enemies, terrain) by {
        forall j | 0 <= j < |s.enemies|
          ensures EnemyOk(s.enemies[j])
          ensures s.enemies[j].pos.y == terrain(s.enemies[j].pos.x, s.enemies[j].pos.z) + EyeHeight
        {
          assert EnemyOk(thought.enemies[j]);
          RespawnRestores(thought.enemies[j], inp.dt, inp.roll(j).respawn, terrain);
        }
      }
      CollideUpToKeepsOk(s, |s.bullets|, inp);
      CollideUpToOnlyDamage(s, |s.bullets|, inp);
    }
  }

  /** The program starts in a state that satisfies the invariant, with no
      bullet or particle active. */
  lemma StartOk(roll: nat -> SpawnRoll, terrain: Terrain)
    ensures Inv(Start(roll, terrain), terrain)
    ensures InUse(Start(roll, terrain).bullets) == 0
    ensures InUse(Start(roll, terrain).particles) == 0
  {
    var st := Start(roll, terrain);
    forall j | 0 <= j < MaxEnemies
      ensures EnemyOk(st.enemies[j])
      ensures st.enemies[j].pos.y == terrain(st.enemies[j].pos.x, st.enemies[j].pos.z) + EyeHeight
    {
      assert st.enemies[j] == Spawned(roll(j), terrain);
    }
    assert Flags(st.bullets) == seq(MaxBullets, _ => false);
    assert Flags(st.particles) == seq(MaxParticles, _ => false);
    NoneActive(MaxBullets);
    NoneActive(MaxParticles);
  }

  lemma {:induction false} NoneActive(n: nat)
    ensures ActiveCount(seq(n, _ => false)) == 0
  {
    if n > 0 {
      assert seq(n, _ => false)[1..] == seq(n - 1, _ => false);
      NoneActive(n - 1);
    }
  }

  /** A single event keeps the invariant. */
  lemma ApplyKeepsInv(st: State, terrain: Terrain, ev: Event)
    requires Inv(st, terrain)
    ensures Inv(Apply(st, terrain, ev), terrain)
  {
    match ev
    case Tick(inp) => StepKeepsInv(st, terrain, inp);
    case Click => FireClaimsOneSlot(st);
    case ReloadKey =>
    case MouseMove(dx, dy) =>
  }

  /** Every sequence of events keeps the invariant: the magazine stays within
      0 ..= 30, the score is a non-negative multiple of 100, game over coincides
      with health having run out, the pitch stays within +-89 degrees, every
      enemy is either alive with 100, 66 or 32 health or dead with -2, and every
      enemy stands on the terrain. */
  lemma {:induction false} InvAlwaysHolds(st: State, terrain: Terrain, evs: seq<Event>)
    requires Inv(st, terrain)
    ensures Inv(Run(st, terrain, evs), terrain)
    decreases |evs|
  {
    if evs != [] {
      ApplyKeepsInv(st, terrain, evs[0]);
      InvAlwaysHolds(Apply(st, terrain, evs[0]), terrain, evs[1..]);
    }
  }

  // ------------------------------------------------------------ frames and the player

  /** After a running frame the player's eye is never below the terrain: the
      ground clamp of the movement step, which nothing later in the frame undoes. */
  lemma StepKeepsPlayerAboveGround(st: State, terrain: Terrain, inp: FrameInput)
    requires !st.player.gameOver
    ensures var p := Step(st, terrain, inp).player;
            p.pos.y >= terrain(p.pos.x, p.pos.z) + EyeHeight
  {
    var s := BeforeCollisions(st, terrain, inp);
    CollideUpToOnlyDamage(s, |s.bullets|, inp);
  }

  /** The fields the reload countdown works on. */
  function ReloadState(p: Player): (bool, real, int)
  {
    (p.reloading, p.reloadTimer, p.bulletsLeft)
  }

  /** In a running frame the magazine and the reload countdown change exactly as
      the countdown alone changes them: movement, the enemies and the collisions
      leave them alone. */
  lemma StepCountsDownReload(st: State, terrain: Terrain, inp: FrameInput)
    requires !st.player.gameOver
    ensures ReloadState(Step(st, terrain, inp).player) == ReloadState(ReloadTick(st.player, inp.dt))
  {
    var s := BeforeCollisions(st, terrain, inp);
    CollideUpToOnlyDamage(s, |s.bullets|, inp);
  }

  /** The countdown over several frames depends only on the countdown's own fields. */
  lemma {:induction false} ReloadTicksLocal(p: Player, q: Player, dts: seq<real>)
    requires ReloadState(p) == ReloadState(q)
    ensures ReloadState(ReloadTicks(p, dts)) == ReloadState(ReloadTicks(q, dts))
    decreases |dts|
  {
    if dts != [] {
      ReloadTicksLocal(ReloadTick(p, dts[0]), ReloadTick(q, dts[0]), dts[1..]);
    }
  }

  predicate FramesOnly(evs: seq<Event>)
  {
    forall k :: 0 <= k < |evs| ==> evs[k].Tick?
  }

  /** The elapsed time of each frame of a frames-only event sequence. */
  function FrameTimes(evs: seq<Event>): (dts: seq<real>)
    requires FramesOnly(evs)
    ensures |dts| == |evs|
  {
    seq(|evs|, k requires 0 <= k < |evs| && FramesOnly(evs) => evs[k].inp.dt)
  }

  /** Over a run of frames during which the game keeps going, the magazine and
      the reload countdown follow the countdown alone over the frames' times. */
  lemma {:induction false} FramesCountDownReload(st: State, terrain: Terrain, evs: seq<Event>)
    requires FramesOnly(evs) && !Run(st, terrain, evs).player.gameOver
    ensures ReloadState(Run(st, terrain, evs).player)
         == ReloadState(ReloadTicks(st.player, FrameTimes(evs)))
    decreases |evs|
  {
    if evs != [] {
      GameOverSticks(st, terrain, evs);
      var next := Apply(st, terrain, evs[0]);
      StepCountsDownReload(st, terrain, evs[0].inp);
      assert FrameTimes(evs)[1..] == FrameTimes(evs[1..]);
      FramesCountDownReload(next, terrain, evs[1..]);
      ReloadTicksLocal(next.player, ReloadTick(st.player, evs[0].inp.dt), FrameTimes(evs[1..]));
    }
  }

  /** A reload in progress, followed by frames during which the game keeps going:
      once the frames' times add up to the countdown the reload is over and the
      magazine holds 30 rounds; while they add up to less, the reload is still
      running, its timer has dropped by exactly the elapsed time, and the magazine
      is as it was. */
  lemma ReloadAcrossFrames(st: State, terrain: Terrain, evs: seq<Event>)
    requires st.player.reloading && st.player.reloadTimer > 0.0
    requires FramesOnly(evs) && !Run(st, terrain, evs).player.gameOver
    ensures Sum(FrameTimes(evs)) >= st.player.reloadTimer ==>
      !Run(st, terrain, evs).player.reloading &&
      Run(st, terrain, evs).player.bulletsLeft == MagazineSize
    ensures (forall n :: 0 < n <= |evs| ==> Sum(FrameTimes(evs)[..n]) < st.player.reloadTimer) ==>
      && Run(st, terrain, evs).player.reloading
      && Run(st, terrain, evs).player.reloadTimer == st.player.reloadTimer - Sum(FrameTimes(evs))
      && Run(st, terrain, evs).player.bulletsLeft == st.player.bulletsLeft
  {
    FramesCountDownReload(st, terrain, evs);
    if Sum(FrameTimes(evs)) >= st.player.reloadTimer {
      ReloadCompletes(st.player, FrameTimes(evs));
    }
    if forall n :: 0 < n <= |evs| ==> Sum(FrameTimes(evs)[..n]) < st.player.reloadTimer {
      ReloadStillRunning(st.player, FrameTimes(evs));
    }
  }

  /** Pressing the reload key with a magazine below 30, then letting at least
      1.5 s of frames pass with the game still running, leaves a full magazine. */
  lemma ReloadKeyThenWait(st: State, terrain: Terrain, evs: seq<Event>)
    requires CanReload(st.player) && FramesOnly(evs) && Sum(FrameTimes(evs)) >= ReloadTime
    requires !Run(st, terrain, [ReloadKey] + evs).player.gameOver
    ensures !Run(st, terrain, [ReloadKey] + evs).player.reloading
    ensures Run(st, terrain, [ReloadKey] + evs).player.bulletsLeft == MagazineSize
  {
    assert ([ReloadKey] + evs)[1..] == evs;
    var pressed := Apply(st, terrain, ReloadKey);
    ReloadAcrossFrames(pressed, terrain, evs);
  }
}
