/** The player's and the enemies' per-event transitions: firing, reloading,
    looking, moving, being hit, thinking, dying and respawning. */
module Rules {
  import opened GameTypes
  import opened Pools

  function Abs(x: real): real { if x < 0.0 then -x else x }

  // ---------------------------------------------------------------- player

  /** The guard of `fireBullet`. */
  predicate CanFire(p: Player)
  {
    !p.reloading && p.bulletsLeft > 0 && !p.gameOver
  }

  /** The guard of the reload key. */
  predicate CanReload(p: Player)
  {
    !p.reloading && p.bulletsLeft < MagazineSize && !p.gameOver
  }

  /** A left click: place a player bullet in the first free slot and spend one round. */
  function Fire(st: State): (r: State)
    ensures |r.bullets| == |st.bullets| && r.particles == st.particles && r.enemies == st.enemies
    ensures r.player == st.player.(bulletsLeft := r.player.bulletsLeft)
  {
    if CanFire(st.player) && FirstFree(Flags(st.bullets)) < |st.bullets| then
      st.(bullets := Claim(st.bullets, Slot(true, BulletLife, PlayerOwned)),
          player := st.player.(bulletsLeft := st.player.bulletsLeft - 1))
    else st
  }

  /** Firing does nothing while reloading, with an empty magazine, after game over
      or with every bullet slot active; otherwise it activates the lowest-index
      inactive slot as a player bullet with full life, adds exactly one active
      bullet and spends exactly one round. */
  lemma FireClaimsOneSlot(st: State)
    ensures !CanFire(st.player) ==> Fire(st) == st
    ensures InUse(st.bullets) == |st.bullets| ==> Fire(st) == st
    ensures CanFire(st.player) && InUse(st.bullets) < |st.bullets| ==>
      && Fire(st).player == st.player.(bulletsLeft := st.player.bulletsLeft - 1)
      && Fire(st).particles == st.particles
      && Fire(st).enemies == st.enemies
      && InUse(Fire(st).bullets) == InUse(st.bullets) + 1
      && exists k :: 0 <= k < |st.bullets| && !st.bullets[k].active
                     && (forall j :: 0 <= j < k ==> st.bullets[j].active)
                     && Fire(st).bullets == st.bullets[k := Slot(true, BulletLife, PlayerOwned)]
  {
    var b := Slot(true, BulletLife, PlayerOwned);
    FullIffAllActive(Flags(st.bullets));
    ClaimTakesLowestFree(st.bullets, b);
  }

  /** The reload key. */
  function RequestReload(p: Player): (r: Player)
    ensures r == p.(reloading := r.reloading, reloadTimer := r.reloadTimer)
  {
    if CanReload(p) then p.(reloading := true, reloadTimer := ReloadTime) else p
  }

  /** A reload request is honoured exactly when no reload is running, the magazine
      is not full and the game is not over; it then starts a 1.5 s countdown and
      changes nothing else. A second request during a reload changes nothing, so
      requesting twice is the same as requesting once. */
  lemma ReloadRequestGuarded(p: Player)
    ensures CanReload(p) ==> RequestReload(p) == p.(reloading := true, reloadTimer := ReloadTime)
    ensures !CanReload(p) ==> RequestReload(p) == p
    ensures p.reloading ==> RequestReload(p).reloadTimer == p.reloadTimer
    ensures RequestReload(RequestReload(p)) == RequestReload(p)
  {
  }

  /** The reload countdown of one frame: when it runs out the magazine is full. */
  function ReloadTick(p: Player, dt: real): (r: Player)
    ensures r == p.(reloading := r.reloading, reloadTimer := r.reloadTimer, bulletsLeft := r.bulletsLeft)
    ensures !p.reloading ==> r == p
    ensures p.reloading ==> r.reloadTimer == p.reloadTimer - dt
    ensures r.bulletsLeft == p.bulletsLeft || r.bulletsLeft == MagazineSize
  {
    if p.reloading then
      var timer := p.reloadTimer - dt;
      if timer <= 0.0 then p.(reloadTimer := timer, reloading := false, bulletsLeft := MagazineSize)
      else p.(reloadTimer := timer)
    else p
  }

  /** Reload countdowns over consecutive frames with the given elapsed times. */
  function ReloadTicks(p: Player, dts: seq<real>): Player
    decreases |dts|
  {
    if dts == [] then p else ReloadTicks(ReloadTick(p, dts[0]), dts[1..])
  }

  function Sum(dts: seq<real>): real
  {
    if dts == [] then 0.0 else dts[0] + Sum(dts[1..])
  }

  /** Once at least the remaining countdown has elapsed, a reload has finished
      and the magazine holds 30 rounds. */
  lemma {:induction false} ReloadCompletes(p: Player, dts: seq<real>)
    requires p.reloading && p.reloadTimer > 0.0
    requires Sum(dts) >= p.reloadTimer
    ensures !ReloadTicks(p, dts).reloading
    ensures ReloadTicks(p, dts).bulletsLeft == MagazineSize
    decreases |dts|
  {
    if dts == [] {
      assert false;
    } else {
      var q := ReloadTick(p, dts[0]);
      if q.reloading {
        ReloadCompletes(q, dts[1..]);
      } else {
        ReloadIdle(q, dts[1..]);
      }
    }
  }

  /** Countdowns leave a player who is not reloading unchanged. */
  lemma {:induction false} ReloadIdle(p: Player, dts: seq<real>)
    requires !p.reloading
    ensures ReloadTicks(p, dts) == p
    decreases |dts|
  {
    if dts != [] {
      ReloadIdle(p, dts[1..]);
    }
  }

  /** While less time has elapsed than the countdown held, the reload is still
      running, the countdown has dropped by exactly the elapsed time and the
      magazine is untouched. */
  lemma {:induction false} ReloadStillRunning(p: Player, dts: seq<real>)
    requires p.reloading
    requires forall n :: 0 < n <= |dts| ==> Sum(dts[..n]) < p.reloadTimer
    ensures ReloadTicks(p, dts).reloading
    ensures ReloadTicks(p, dts).reloadTimer == p.reloadTimer - Sum(dts)
    ensures ReloadTicks(p, dts).bulletsLeft == p.bulletsLeft
    decreases |dts|
  {
    if dts != [] {
      assert dts[..1] == [dts[0]];
      assert Sum(dts[..1]) == dts[0] + Sum([]);
      var q := ReloadTick(p, dts[0]);
      var rest := dts[1..];
      forall n | 0 < n <= |rest|
        ensures Sum(rest[..n]) < q.reloadTimer
      {
        assert dts[..n + 1][1..] == rest[..n];
        assert Sum(dts[..n + 1]) == dts[0] + Sum(rest[..n]);
      }
      ReloadStillRunning(q, rest);
    }
  }

  /** The pitch clamp of the mouse handler. */
  function ClampPitch(pitch: real): (r: real)
    ensures -PitchLimit <= r <= PitchLimit
    ensures -PitchLimit <= pitch <= PitchLimit ==> r == pitch
    ensures pitch > PitchLimit ==> r == PitchLimit
    ensures pitch < -PitchLimit ==> r == -PitchLimit
  {
    var p := if pitch > PitchLimit then PitchLimit else pitch;
    if p < -PitchLimit then -PitchLimit else p
  }

  /** A mouse movement of `dx`, `dy` pixels from the window centre. */
  function Look(p: Player, dx: int, dy: int): (r: Player)
    ensures r == p.(yaw := r.yaw, pitch := r.pitch)
    ensures p.gameOver ==> r == p
    ensures !p.gameOver ==> -PitchLimit <= r.pitch <= PitchLimit
  {
    if p.gameOver then p
    else p.(yaw := p.yaw + dx as real * MouseSensitivity,
            pitch := ClampPitch(p.pitch + dy as real * MouseSensitivity))
  }

  /** Walking, jumping and gravity for one frame, ending with the ground clamp. */
  function Move(p: Player, terrain: Terrain, inp: FrameInput): (r: Player)
    ensures r.pos.x == p.pos.x + inp.walk.x && r.pos.z == p.pos.z + inp.walk.z
    ensures r.pos.y >= terrain(r.pos.x, r.pos.z) + EyeHeight
    ensures r.pos.y == terrain(r.pos.x, r.pos.z) + EyeHeight ==>
              r.onGround && r.verticalVelocity == 0.0
    ensures inp.jump && p.onGround && r.pos.y > terrain(r.pos.x, r.pos.z) + EyeHeight ==>
              !r.onGround
    ensures !p.onGround ==> (r.onGround <==> r.pos.y == terrain(r.pos.x, r.pos.z) + EyeHeight)
    ensures r.score == p.score && r.bulletsLeft == p.bulletsLeft && r.health == p.health
    ensures r.reloading == p.reloading && r.reloadTimer == p.reloadTimer && r.gameOver == p.gameOver
    ensures r.yaw == p.yaw && r.pitch == p.pitch
  {
    var x := p.pos.x + inp.walk.x;
    var z := p.pos.z + inp.walk.z;
    var jumped := inp.jump && p.onGround;
    var v := (if jumped then JumpSpeed else p.verticalVelocity) - Gravity * inp.dt;
    var y := p.pos.y + inp.walk.y + v * inp.dt;
    var groundY := terrain(x, z) + EyeHeight;
    if y <= groundY then
      p.(pos := Vec3(x, groundY, z), verticalVelocity := 0.0, onGround := true)
    else
      p.(pos := Vec3(x, y, z), verticalVelocity := v, onGround := p.onGround && !jumped)
  }

  /** An enemy bullet inside the player's hit cylinder: the bullet is spent and
      the player loses 25 health; the first hit that leaves no health while the
      game is running sets health to 0 and latches game over. */
  function PlayerHit(st: State, i: nat): (r: State)
    requires i < |st.bullets|
    ensures r.bullets == st.bullets[i := st.bullets[i].(active := false)]
    ensures r.particles == st.particles && r.enemies == st.enemies
    ensures r.player.gameOver <==> st.player.gameOver || st.player.health <= PlayerHitDamage
    ensures !st.player.gameOver && st.player.health <= PlayerHitDamage ==> r.player.health == 0
    ensures st.player.gameOver || st.player.health > PlayerHitDamage ==>
              r.player.health == st.player.health - PlayerHitDamage
    ensures r.player == st.player.(health := r.player.health, gameOver := r.player.gameOver)
  {
    var health := st.player.health - PlayerHitDamage;
    var p := if health <= 0 && !st.player.gameOver then st.player.(health := 0, gameOver := true)
             else st.player.(health := health);
    st.(bullets := st.bullets[i := st.bullets[i].(active := false)], player := p)
  }

  // ---------------------------------------------------------------- enemies

  /** Enemies that are inactive or counting down to respawn are skipped by the
      AI and cannot be hit. */
  predicate Alive(e: Enemy)
  {
    e.active && e.deathTimer <= 0.0
  }

  /** Cooldown after an enemy shot: 2.0 * (0.7 + (rand() % 60) / 100). */
  function ShotCooldown(draw: nat): (c: real)
    ensures 1.4 <= c <= 2.58
  {
    2.0 * (0.7 + (draw % 60) as real / 100.0)
  }

  /** Cooldown on (re)spawn: (rand() % 1000) / 500. */
  function SpawnCooldown(draw: nat): (c: real)
    ensures 0.0 <= c < 2.0
  {
    (draw % 1000) as real / 500.0
  }

  /** A spawn coordinate: ((rand() % 40) - 20) * 0.8. */
  function SpawnCoord(draw: nat): (c: real)
    ensures -16.0 <= c <= 15.2
  {
    ((draw % 40) - 20) as real * 0.8
  }

  /** A particle as `spawnParticle` sets it up: active, life 0.8 + (rand() % 100) / 200. */
  function Spark(draw: nat): (p: Particle)
    ensures p.active && 0.8 <= p.life <= 1.295
  {
    Slot(true, 0.8 + (draw % 100) as real / 200.0, ())
  }

  /** A spawn position on the terrain, eye height above the ground. */
  function SpawnPoint(r: SpawnRoll, terrain: Terrain): (q: Vec3)
    ensures -16.0 <= q.x <= 15.2 && -16.0 <= q.z <= 15.2
    ensures q.y == terrain(q.x, q.z) + EyeHeight
  {
    var x := SpawnCoord(r.x);
    var z := SpawnCoord(r.z);
    Vec3(x, terrain(x, z) + EyeHeight, z)
  }

  /** An enemy as `initEnemies` sets it up. */
  function Spawned(r: SpawnRoll, terrain: Terrain): (e: Enemy)
    ensures Alive(e) && e.health == FullHealth && e.deathTimer == 0.0
    ensures e.flashTimer == 0.0 && !e.canSeePlayer && 0.0 <= e.shootCooldown < 2.0
  {
    Enemy(SpawnPoint(r, terrain), FullHealth, true, 0.0, SpawnCooldown(r.cooldown), false, 0.0)
  }

  /** The stutter step: in 20% of frames the enemy tries its heading's step and
      takes it only if the terrain there differs by less than one unit. */
  function Stride(pos: Vec3, r: EnemyRoll, terrain: Terrain): (q: Vec3)
    ensures r.strideDraw % 100 >= 20 ==> q == pos
    ensures q == pos ||
      (q.x == pos.x + r.strideX && q.z == pos.z + r.strideZ &&
       q.y == terrain(q.x, q.z) + EyeHeight && Abs(q.y - pos.y) < MaxClimb)
    ensures r.strideDraw % 100 < 20 &&
            Abs(terrain(pos.x + r.strideX, pos.z + r.strideZ) + EyeHeight - pos.y) < MaxClimb ==>
              q == Vec3(pos.x + r.strideX, terrain(pos.x + r.strideX, pos.z + r.strideZ) + EyeHeight,
                        pos.z + r.strideZ)
  {
    if r.strideDraw % 100 < 20 then
      var nx := pos.x + r.strideX;
      var nz := pos.z + r.strideZ;
      var ny := terrain(nx, nz) + EyeHeight;
      if Abs(ny - pos.y) < MaxClimb then Vec3(nx, ny, nz) else pos
    else pos
  }

  /** One enemy's turn of the AI loop: flash decay, line of sight, stutter step,
      cooldown, and a shot at the player (bullet plus muzzle particle) when the
      player is seen and the cooldown has run out. */
  function Think(st: State, i: nat, terrain: Terrain, inp: FrameInput): (r: State)
    requires i < |st.enemies|
    ensures |r.bullets| == |st.bullets| && |r.particles| == |st.particles|
    ensures |r.enemies| == |st.enemies| && r.player == st.player
  {
    var e := st.enemies[i];
    if !Alive(e) then st
    else
      var r := inp.roll(i);
      var cooldown := e.shootCooldown - inp.dt;
      var moved := e.(flashTimer := if e.flashTimer > 0.0 then e.flashTimer - inp.dt else e.flashTimer,
                      canSeePlayer := r.sees,
                      pos := Stride(e.pos, r, terrain),
                      shootCooldown := cooldown);
      if r.sees && cooldown <= 0.0 && FirstFree(Flags(st.bullets)) < |st.bullets| then
        st.(bullets := Claim(st.bullets, Slot(true, BulletLife, EnemyOwned)),
            particles := Claim(st.particles, Spark(r.muzzleDraw)),
            enemies := st.enemies[i := moved.(shootCooldown := ShotCooldown(r.cooldownDraw))])
      else
        st.(enemies := st.enemies[i := moved])
  }

  /** A dead enemy is skipped by the AI. A live one keeps its health, death timer
      and active flag, and only its own record changes. It shoots exactly when it
      sees the player, its cooldown has run out and a bullet slot is free: then the
      lowest free slot becomes an enemy bullet, one more bullet is active, and its
      cooldown is redrawn; otherwise the bullet pool is untouched and the cooldown
      has just dropped by `dt`. */
  lemma ThinkShootsOnlyWithFreeSlot(st: State, i: nat, terrain: Terrain, inp: FrameInput)
    requires i < |st.enemies|
    ensures !Alive(st.enemies[i]) ==> Think(st, i, terrain, inp) == st
    ensures Alive(st.enemies[i]) ==>
      var e := st.enemies[i];
      var r := Think(st, i, terrain, inp);
      var shot := inp.roll(i).sees && e.shootCooldown - inp.dt <= 0.0 &&
                  InUse(st.bullets) < |st.bullets|;
      && (forall j :: 0 <= j < |st.enemies| && j != i ==> r.enemies[j] == st.enemies[j])
      && r.enemies[i].health == e.health && r.enemies[i].deathTimer == e.deathTimer
      && r.enemies[i].active == e.active && r.enemies[i].canSeePlayer == inp.roll(i).sees
      && (shot ==>
            && r.enemies[i].shootCooldown == ShotCooldown(inp.roll(i).cooldownDraw)
            && InUse(r.bullets) == InUse(st.bullets) + 1
            && r.bullets == Claim(st.bullets, Slot(true, BulletLife, EnemyOwned))
            && r.particles == Claim(st.particles, Spark(inp.roll(i).muzzleDraw)))
      && (!shot ==>
            && r.enemies[i].shootCooldown == e.shootCooldown - inp.dt
            && r.bullets == st.bullets && r.particles == st.particles)
  {
    FullIffAllActive(Flags(st.bullets));
    ClaimTakesLowestFree(st.bullets, Slot(true, BulletLife, EnemyOwned));
  }

  /** The death countdown of one frame; when it runs out the enemy respawns. */
  function Respawn(e: Enemy, dt: real, r: SpawnRoll, terrain: Terrain): (n: Enemy)
    ensures Alive(e) ==> n == e
    ensures e.deathTimer > 0.0 ==> n.deathTimer == e.deathTimer - dt
  {
    if e.deathTimer > 0.0 then
      var timer := e.deathTimer - dt;
      if timer <= 0.0 then
        e.(deathTimer := timer, pos := SpawnPoint(r, terrain), health := FullHealth,
           active := true, flashTimer := 0.0, shootCooldown := SpawnCooldown(r.cooldown))
      else e.(deathTimer := timer)
    else e
  }

  /** A live enemy is untouched by the countdown. A dead one loses `dt` from its
      timer; when the timer runs out it is alive again with full health, no hit
      flash and a fresh position on the terrain, and otherwise it stays dead. */
  lemma RespawnRestores(e: Enemy, dt: real, r: SpawnRoll, terrain: Terrain)
    ensures e.deathTimer <= 0.0 ==> Respawn(e, dt, r, terrain) == e
    ensures e.deathTimer > 0.0 ==> Respawn(e, dt, r, terrain).deathTimer == e.deathTimer - dt
    ensures e.deathTimer > 0.0 && e.deathTimer - dt <= 0.0 ==>
      var n := Respawn(e, dt, r, terrain);
      Alive(n) && n.health == FullHealth && n.flashTimer == 0.0 &&
      n.pos.y == terrain(n.pos.x, n.pos.z) + EyeHeight && 0.0 <= n.shootCooldown < 2.0
    ensures e.deathTimer > 0.0 && e.deathTimer - dt > 0.0 ==>
      !Alive(Respawn(e, dt, r, terrain)) && Respawn(e, dt, r, terrain).health == e.health
  {
  }

  /** Bullet `i` of the player against enemy `j`: a live enemy inside the hit
      cylinder spends the bullet, flashes, sheds a spark and loses 34 health;
      if that leaves no health it starts its 2 s death countdown and the player
      scores 100. The bullet's own `active` flag is not consulted. */
  function HitEnemy(st: State, i: nat, j: nat, inp: FrameInput): (r: State)
    requires i < |st.bullets| && j < |st.enemies|
    ensures |r.bullets| == |st.bullets| && |r.particles| == |st.particles|
    ensures |r.enemies| == |st.enemies|
  {
    var e := st.enemies[j];
    if !Alive(e) || (i, j) !in inp.enemyHits then st
    else
      var hurt := e.(flashTimer := HitFlashTime, health := e.health - EnemyHitDamage);
      var killed := hurt.health <= 0 && hurt.deathTimer <= 0.0;
      st.(bullets := st.bullets[i := st.bullets[i].(active := false)],
          particles := Claim(st.particles, Spark(inp.hitSparkDraw(i, j))),
          enemies := st.enemies[j := if killed then hurt.(deathTimer := DeathTime) else hurt],
          player := if killed then st.player.(score := st.player.score + KillScore) else st.player)
  }

  /** A hit on a live enemy costs it exactly 34 health, with no clamp, spends the
      bullet and changes no other enemy; the score rises by 100 exactly when the
      hit leaves the enemy without health, and then the enemy is dead for 2 s.
      A dead enemy, or one outside the cylinder, is not affected at all. */
  lemma HitEnemyAwardsOnce(st: State, i: nat, j: nat, inp: FrameInput)
    requires i < |st.bullets| && j < |st.enemies|
    ensures !Alive(st.enemies[j]) || (i, j) !in inp.enemyHits ==> HitEnemy(st, i, j, inp) == st
    ensures Alive(st.enemies[j]) && (i, j) in inp.enemyHits ==>
      var r := HitEnemy(st, i, j, inp);
      var e := st.enemies[j];
      && r.bullets == st.bullets[i := st.bullets[i].(active := false)]
      && r.particles == Claim(st.particles, Spark(inp.hitSparkDraw(i, j)))
      && r.enemies[j].health == e.health - EnemyHitDamage
      && r.enemies[j].flashTimer == HitFlashTime
      && (forall k :: 0 <= k < |st.enemies| && k != j ==> r.enemies[k] == st.enemies[k])
      && (e.health <= EnemyHitDamage ==>
            r.enemies[j].deathTimer == DeathTime && r.player.score == st.player.score + KillScore)
      && (e.health > EnemyHitDamage ==>
            Alive(r.enemies[j]) && r.player.score == st.player.score)
      && r.player.health == st.player.health && r.player.gameOver == st.player.gameOver
  {
  }
}
