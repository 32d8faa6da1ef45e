/** The program's global state as one object: the player's globals as fields,
    the bullet and particle pools and the enemy roster as fixed-size arrays,
    updated in place by the input handlers and by the simulation half of
    `display`. Each method is proved to do what the matching function of
    `Rules` or `Frame` describes. */
module Simulation {
  import opened GameTypes
  import opened Pools
  import opened Rules
  import opened Frame

  class World {
    var camPos: Vec3
    var verticalVelocity: real
    var onGround: bool
    var yaw: real
    var pitch: real
    var score: int
    var bulletsLeft: int
    var playerHealth: int
    var reloading: bool
    var reloadTimer: real
    var gameOver: bool

    const terrain: Terrain
    const bullets: array<Bullet>
    const particles: array<Particle>
    const enemies: array<Enemy>

    ghost predicate Valid()
      reads this
    {
      bullets.Length == MaxBullets && particles.Length == MaxParticles &&
      enemies.Length == MaxEnemies
    }

    ghost function PlayerState(): Player
      reads this
    {
      Player(camPos, verticalVelocity, onGround, yaw, pitch, score, bulletsLeft, playerHealth,
             reloading, reloadTimer, gameOver)
    }

    /** The abstract value of the whole world. */
    ghost function Snapshot(): State
      reads this, bullets, particles, enemies
    {
      State(PlayerState(), bullets[..], particles[..], enemies[..])
    }

    /** The globals' static initialisation, on the game's terrain. */
    constructor (terrain: Terrain)
      ensures Valid() && fresh(bullets) && fresh(particles) && fresh(enemies)
      ensures this.terrain == terrain && Snapshot() == ZeroState()
    {
      this.terrain := terrain;
      camPos := Vec3(0.0, EyeHeight, 3.0);
      verticalVelocity, onGround := 0.0, true;
      yaw, pitch := -90.0, 0.0;
      score, bulletsLeft, playerHealth := 0, MagazineSize, FullHealth;
      reloading, reloadTimer, gameOver := false, 0.0, false;
      bullets := new Bullet[MaxBullets](_ => Slot(false, 0.0, PlayerOwned));
      particles := new Particle[MaxParticles](_ => Slot(false, 0.0, ()));
      enemies := new Enemy[MaxEnemies](_ => ZeroEnemy());
      new;
      assert bullets[..] == seq(MaxBullets, _ => Slot(false, 0.0, PlayerOwned));
      assert particles[..] == seq(MaxParticles, _ => Slot(false, 0.0, ()));
      assert enemies[..] == seq(MaxEnemies, _ => ZeroEnemy());
    }

    /** `initEnemies`: every enemy alive at full health somewhere on the terrain. */
    method InitEnemies(roll: nat -> SpawnRoll)
      requires Valid()
      modifies enemies
      ensures Valid()
      ensures Snapshot() == old(Snapshot()).(enemies := InitialRoster(roll, terrain))
    {
      var i := 0;
      while i < enemies.Length
        invariant 0 <= i <= enemies.Length
        invariant forall j :: 0 <= j < i ==> enemies[j] == Spawned(roll(j), terrain)
      {
        var x := ((roll(i).x % 40) - 20) as real * 0.8;
        var z := ((roll(i).z % 40) - 20) as real * 0.8;
        enemies[i] := Enemy(Vec3(x, terrain(x, z) + EyeHeight, z), FullHealth, true, 0.0,
                            (roll(i).cooldown % 1000) as real / 500.0, false, 0.0);
        i := i + 1;
      }
      assert enemies[..] == InitialRoster(roll, terrain);
    }

    /** The scan for the first inactive bullet slot, shared by `fireBullet` and
        the enemy shot; `bullets.Length` when every slot is active. */
    method FreeBulletSlot() returns (k: nat)
      requires Valid()
      ensures k <= bullets.Length
      ensures k == FirstFree(Flags(bullets[..]))
    {
      k := 0;
      while k < bullets.Length && bullets[k].active
        invariant k <= bullets.Length
        invariant forall j :: 0 <= j < k ==> bullets[j].active
      {
        k := k + 1;
      }
      FirstFreeIs(Flags(bullets[..]), k);
    }

    /** `fireBullet`. */
    method FireBullet()
      requires Valid()
      modifies this, bullets
      ensures Valid()
      ensures Snapshot() == Fire(old(Snapshot()))
    {
      if reloading || bulletsLeft <= 0 || gameOver {
        return;
      }
      var k := FreeBulletSlot();
      if k < bullets.Length {
        bullets[k] := Slot(true, BulletLife, PlayerOwned);
        bulletsLeft := bulletsLeft - 1;
      }
    }

    /** `spawnParticle`: the first inactive slot becomes a spark; dropped when full. */
    method SpawnParticle(draw: nat)
      requires Valid()
      modifies particles
      ensures Valid()
      ensures particles[..] == Claim(old(particles[..]), Spark(draw))
    {
      var k := 0;
      while k < particles.Length
        invariant k <= particles.Length
        invariant forall j :: 0 <= j < k ==> particles[j].active
        invariant particles[..] == old(particles[..])
      {
        if !particles[k].active {
          FirstFreeIs(Flags(particles[..]), k);
          particles[k] := Slot(true, 0.8 + (draw % 100) as real / 200.0, ());
          return;
        }
        k := k + 1;
      }
      FirstFreeIs(Flags(particles[..]), k);
    }

    /** The reload key in `keyboardDown`. */
    method PressReload()
      requires Valid()
      modifies this
      ensures Valid()
      ensures Snapshot() == old(Snapshot()).(player := RequestReload(old(PlayerState())))
    {
      if !reloading && bulletsLeft < MagazineSize && !gameOver {
        reloading := true;
        reloadTimer := ReloadTime;
      }
    }

    /** The camera part of `passiveMouse`. */
    method MouseMoved(dx: int, dy: int)
      requires Valid()
      modifies this
      ensures Valid()
      ensures Snapshot() == old(Snapshot()).(player := Look(old(PlayerState()), dx, dy))
    {
      if gameOver {
        return;
      }
      yaw := yaw + dx as real * MouseSensitivity;
      pitch := pitch + dy as real * MouseSensitivity;
      if pitch > PitchLimit {
        pitch := PitchLimit;
      }
      if pitch < -PitchLimit {
        pitch := -PitchLimit;
      }
    }

    /** Walking, jump and gravity, then the ground clamp. */
    method MovePlayer(inp: FrameInput)
      requires Valid()
      modifies this
      ensures Valid()
      ensures Snapshot() == old(Snapshot()).(player := Move(old(PlayerState()), terrain, inp))
    {
      camPos := Vec3(camPos.x + inp.walk.x, camPos.y + inp.walk.y, camPos.z + inp.walk.z);
      if inp.jump && onGround {
        verticalVelocity := JumpSpeed;
        onGround := false;
      }
      verticalVelocity := verticalVelocity - Gravity * inp.dt;
      camPos := camPos.(y := camPos.y + verticalVelocity * inp.dt);
      var groundY := terrain(camPos.x, camPos.z) + EyeHeight;
      if camPos.y <= groundY {
        camPos := camPos.(y := groundY);
        verticalVelocity := 0.0;
        onGround := true;
      }
    }

    /** The reload countdown. */
    method TickReload(dt: real)
      requires Valid()
      modifies this
      ensures Valid()
      ensures Snapshot() == old(Snapshot()).(player := ReloadTick(old(PlayerState()), dt))
    {
      if reloading {
        reloadTimer := reloadTimer - dt;
        if reloadTimer <= 0.0 {
          reloading := false;
          bulletsLeft := MagazineSize;
        }
      }
    }

    /** One enemy's turn of the AI loop. The program works through a reference
        `Enemy& e` into the roster; here `e` is a copy written back at the end,
        which is the same because nothing in between reads the roster. */
    method EnemyTurn(i: nat, inp: FrameInput)
      requires Valid() && i < enemies.Length
      modifies bullets, particles, enemies
      ensures Valid()
      ensures Snapshot() == Think(old(Snapshot()), i, terrain, inp)
    {
      ghost var st := Snapshot();
      var e := enemies[i];
      if !e.active || e.deathTimer > 0.0 {
        return;
      }
      var r := inp.roll(i);
      if e.flashTimer > 0.0 {
        e := e.(flashTimer := e.flashTimer - inp.dt);
      }
      e := e.(canSeePlayer := r.sees);
      if r.strideDraw % 100 < 20 {
        var nx := e.pos.x + r.strideX;
        var nz := e.pos.z + r.strideZ;
        var ny := terrain(nx, nz) + EyeHeight;
        if Abs(ny - e.pos.y) < MaxClimb {
          e := e.(pos := Vec3(nx, ny, nz));
        }
      }
      assert e.pos == Stride(old(enemies[i]).pos, r, terrain);
      e := e.(shootCooldown := e.shootCooldown - inp.dt);
      ghost var moved := e;
      ghost var claimed := false;
      if e.canSeePlayer && e.shootCooldown <= 0.0 {
        var k := FreeBulletSlot();
        if k < bullets.Length {
          bullets[k] := Slot(true, BulletLife, EnemyOwned);
          e := e.(shootCooldown := ShotCooldown(r.cooldownDraw));
          SpawnParticle(r.muzzleDraw);
          claimed := true;
          assert bullets[..] == Claim(old(bullets[..]), Slot(true, BulletLife, EnemyOwned));
        }
      }
      assert claimed <==> r.sees && old(enemies[i]).shootCooldown - inp.dt <= 0.0 &&
                          FirstFree(Flags(old(bullets[..]))) < bullets.Length;
      assert !claimed ==> bullets[..] == old(bullets[..]) && particles[..] == old(particles[..]);
      assert e == if claimed then moved.(shootCooldown := ShotCooldown(r.cooldownDraw)) else moved;
      enemies[i] := e;
      ghost var want := Think(st, i, terrain, inp);
      assert want.enemies == st.enemies[i := e] == enemies[..];
      assert want.bullets == bullets[..] && want.particles == particles[..];
      assert want.player == st.player == PlayerState();
    }

    /** The AI loop of `display`. */
    method RunEnemies(inp: FrameInput)
      requires Valid()
      modifies bullets, particles, enemies
      ensures Valid()
      ensures Snapshot() == ThinkUpTo(old(Snapshot()), MaxEnemies, terrain, inp)
    {
      ghost var start := Snapshot();
      var i := 0;
      while i < enemies.Length
        invariant 0 <= i <= enemies.Length
        invariant Snapshot() == ThinkUpTo(start, i, terrain, inp)
      {
        EnemyTurn(i, inp);
        i := i + 1;
      }
    }

    /** The death-and-respawn loop of `display`. */
    method RunRespawns(inp: FrameInput)
      requires Valid()
      modifies enemies
      ensures Valid()
      ensures enemies[..] == RespawnAll(old(enemies[..]), terrain, inp)
    {
      var i := 0;
      while i < enemies.Length
        invariant 0 <= i <= enemies.Length
        invariant forall j :: 0 <= j < i ==>
          enemies[j] == Respawn(old(enemies[j]), inp.dt, inp.roll(j).respawn, terrain)
        invariant forall j :: i <= j < enemies.Length ==> enemies[j] == old(enemies[j])
      {
        if enemies[i].deathTimer > 0.0 {
          enemies[i] := enemies[i].(deathTimer := enemies[i].deathTimer - inp.dt);
          if enemies[i].deathTimer <= 0.0 {
            var r := inp.roll(i).respawn;
            var x := ((r.x % 40) - 20) as real * 0.8;
            var z := ((r.z % 40) - 20) as real * 0.8;
            enemies[i] := enemies[i].(pos := Vec3(x, terrain(x, z) + EyeHeight, z));
            enemies[i] := enemies[i].(health := FullHealth, active := true, flashTimer := 0.0);
            enemies[i] := enemies[i].(shootCooldown := (r.cooldown % 1000) as real / 500.0);
          }
        }
        i := i + 1;
      }
    }

    /** Player bullet `i` against enemy `j`. */
    method BulletVersusEnemy(i: nat, j: nat, inp: FrameInput)
      requires Valid() && i < bullets.Length && j < enemies.Length
      modifies this, bullets, particles, enemies
      ensures Valid()
      ensures Snapshot() == HitEnemy(old(Snapshot()), i, j, inp)
    {
      if !enemies[j].active || enemies[j].deathTimer > 0.0 || (i, j) !in inp.enemyHits {
        return;
      }
      ghost var st := Snapshot();
      bullets[i] := bullets[i].(active := false);
      enemies[j] := enemies[j].(flashTimer := HitFlashTime);
      SpawnParticle(inp.hitSparkDraw(i, j));
      enemies[j] := enemies[j].(health := enemies[j].health - EnemyHitDamage);
      assert enemies[j] == st.enemies[j].(flashTimer := HitFlashTime,
                                          health := st.enemies[j].health - EnemyHitDamage);
      assert bullets[..] == st.bullets[i := st.bullets[i].(active := false)];
      if enemies[j].health <= 0 && enemies[j].deathTimer <= 0.0 {
        enemies[j] := enemies[j].(deathTimer := DeathTime);
        score := score + KillScore;
      }
      ghost var want := HitEnemy(st, i, j, inp);
      assert want.enemies == enemies[..];
      assert want.bullets == bullets[..] && want.particles == particles[..];
      assert want.player == PlayerState();
    }

    /** Bullet `i` against the player, then against every enemy. */
    method CollideOne(i: nat, inp: FrameInput)
      requires Valid() && i < bullets.Length
      modifies this, bullets, particles, enemies
      ensures Valid()
      ensures Snapshot() == CollideBullet(old(Snapshot()), i, inp)
    {
      if !bullets[i].active {
        return;
      }
      if bullets[i].kind == EnemyOwned && i in inp.playerHits {
        bullets[i] := bullets[i].(active := false);
        playerHealth := playerHealth - PlayerHitDamage;
        if playerHealth <= 0 && !gameOver {
          playerHealth := 0;
          gameOver := true;
        }
      }
      assert Snapshot() == if old(bullets[i]).kind == EnemyOwned && i in inp.playerHits
                           then PlayerHit(old(Snapshot()), i) else old(Snapshot());
      if bullets[i].kind == PlayerOwned {
        ghost var start := Snapshot();
        var j := 0;
        while j < enemies.Length
          invariant 0 <= j <= enemies.Length
          invariant Snapshot() == HitEnemiesUpTo(start, i, j, inp)
        {
          BulletVersusEnemy(i, j, inp);
          j := j + 1;
        }
      }
    }

    /** The collision loop of `display`. */
    method ResolveCollisions(inp: FrameInput)
      requires Valid()
      modifies this, bullets, particles, enemies
      ensures Valid()
      ensures Snapshot() == CollideUpTo(old(Snapshot()), MaxBullets, inp)
    {
      ghost var start := Snapshot();
      var i := 0;
      while i < bullets.Length
        invariant 0 <= i <= bullets.Length
        invariant Snapshot() == CollideUpTo(start, i, inp)
      {
        CollideOne(i, inp);
        i := i + 1;
      }
    }

    /** The simulation half of `display`, skipped entirely once the game is over. */
    method Display(inp: FrameInput)
      requires Valid()
      modifies this, bullets, particles, enemies
      ensures Valid()
      ensures Snapshot() == Step(old(Snapshot()), terrain, inp)
    {
      if gameOver {
        return;
      }
      MovePlayer(inp);
      TickReload(inp.dt);
      AgePool(bullets, inp.dt);
      AgePool(particles, inp.dt);
      RunEnemies(inp);
      RunRespawns(inp);
      ResolveCollisions(inp);
    }
  }

  /** The bullet loop and the particle loop of `display`: every item in use
      loses `dt` of life and is released once its life is used up. */
  method AgePool<T>(a: array<Slot<T>>, dt: real)
    modifies a
    ensures a[..] == Age(old(a[..]), dt)
  {
    var i := 0;
    while i < a.Length
      invariant 0 <= i <= a.Length
      invariant forall j :: 0 <= j < i ==> a[j] == AgeSlot(old(a[j]), dt)
      invariant forall j :: i <= j < a.Length ==> a[j] == old(a[j])
    {
      if a[i].active {
        a[i] := a[i].(life := a[i].life - dt);
        if a[i].life <= 0.0 {
          a[i] := a[i].(active := false);
        }
      }
      i := i + 1;
    }
  }

  /** A short session driven as the program drives it: start-up, a click, a
      frame, the reload key and another frame. */
  method Session(terrain: Terrain, roll: nat -> SpawnRoll, f1: FrameInput, f2: FrameInput)
    returns (w: World)
    ensures w.Valid()
    ensures w.Snapshot() == Run(Start(roll, terrain), terrain, [Click, Tick(f1), ReloadKey, Tick(f2)])
  {
    w := new World(terrain);
    w.InitEnemies(roll);
    ghost var evs := [Click, Tick(f1), ReloadKey, Tick(f2)];
    ghost var s0 := Start(roll, terrain);
    assert w.Snapshot() == s0;
    w.FireBullet();
    ghost var s1 := w.Snapshot();
    assert Run(s0, terrain, evs) == Run(s1, terrain, evs[1..]);
    w.Display(f1);
    ghost var s2 := w.Snapshot();
    assert evs[1..][1..] == evs[2..];
    assert Run(s1, terrain, evs[1..]) == Run(s2, terrain, evs[2..]);
    w.PressReload();
    ghost var s3 := w.Snapshot();
    assert evs[2..][1..] == evs[3..];
    assert Run(s2, terrain, evs[2..]) == Run(s3, terrain, evs[3..]);
    w.Display(f2);
    assert evs[3..][1..] == [];
    assert Run(s3, terrain, evs[3..]) == w.Snapshot();
  }
}
