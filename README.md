# Shooter simulation core in Dafny

A model of the game-state bookkeeping of a small first-person shooter
(`MyProject.cpp`, an OpenGL/GLUT demo). The program keeps its state in globals:
the player's ammunition, reload countdown, health, score and game-over latch,
a 60-slot bullet pool, a 100-slot particle pool and a roster of 4 enemies.
Input handlers and the simulation half of `display` update them in place once
per event or frame.

The project has two layers.

- **Specification** (pure functions over the `State` datatype):
  - `GameTypes` holds the constants and value types.
  - `Pools` covers first-free-slot allocation and per-frame ageing.
  - `Rules` covers the player's and the enemies' single transitions.
  - `Frame` composes one frame from left folds that follow the source's loops. It also covers event sequences and the state invariant.
  - `Collisions` covers scoring and the collision loop exactly as written.
- **Implementation** (module `Simulation`): the class `World` holds the
  globals as fields and the pools and roster as arrays. Each method mirrors one
  handler, one loop of `display` or one helper. Its `ensures` relates what it
  changes to the matching specification function:
  - Most methods state the whole new `Snapshot()` as a function of the old one.
  - `SpawnParticle` and `RunRespawns` state the one array they change.
  - `FreeBulletSlot` returns `FirstFree` of the bullet flags and changes nothing.
  - The ageing loop is the module-level method `AgePool`. It works on either
    pool array and leaves `Age` of the old contents.

Geometry and chance become inputs. The line-of-sight test, the hit cylinders
and the enemies' heading steps are outcomes in `FrameInput`. `terrainHeight`
is one function-typed parameter (`Terrain`), fixed for the whole game: the
world holds it as a constant and every frame of a run uses it. Every `rand()`
call is a raw draw (a `nat`), and the model applies the source's own `%` and
scaling to it.

Bullets and particles are both slots of a fixed-capacity pool (`Slot`): in
use or not, a remaining life, and a kind (who fired, for a bullet). The pool
operations (first-free claim, ageing) are defined once for both.

## Model

| member | source | states |
|---|---|---|
| Pools.FirstFree | MyProject.cpp:539-540 | the slot claimed is inactive, every slot before it is active, and it is the pool size when none is free |
| Pools.FirstFreeIs | MyProject.cpp:539-550 | an inactive slot preceded only by active slots is exactly the slot the scan claims |
| Pools.FullIffAllActive | MyProject.cpp:539-551 | the scan finds no slot exactly when every slot is active |
| Pools.ActiveCountUpdate | MyProject.cpp:541 | overwriting one slot changes the active count by that slot's own change only |
| Pools.ActiveCountMonotone | MyProject.cpp:684 | a pool in which no slot became active has no more active slots than before |
| Pools.Claim | MyProject.cpp:539-567 | the first-free claim shared by `fireBullet`, the enemy shot and `spawnParticle`; the pool keeps its capacity |
| Pools.ClaimTakesLowestFree | MyProject.cpp:539-567 | a request fills the lowest-index inactive slot and puts exactly one more slot in use; a full pool is left unchanged, so the request is dropped |
| Pools.Age | MyProject.cpp:680-696 | the bullet and particle loops: every slot aged, capacity kept |
| Pools.AgeSlot | MyProject.cpp:681-685 | one slot of either ageing loop: a free slot is untouched; a slot in use loses dt of life, keeps its kind and stays in use exactly while life > 0 |
| Pools.AgeNeverGrows | MyProject.cpp:680-696 | every item in use loses dt of life, keeps its kind and stays in use exactly while life > 0; free slots are untouched; the number in use never grows |
| Rules.Fire | MyProject.cpp:537-552 | a left click changes only the bullet pool and the magazine count, never the particles, the enemies or any other player field |
| Rules.FireClaimsOneSlot | MyProject.cpp:537-552 | firing is a no-op while reloading, with an empty magazine, after game over or with a full pool; otherwise the lowest free slot becomes a player bullet with life 3.0, the active count rises by one and bulletsLeft by exactly -1, and nothing else changes |
| Rules.RequestReload | MyProject.cpp:626-632 | the reload key changes only the reloading flag and the countdown |
| Rules.ReloadRequestGuarded | MyProject.cpp:626-632 | a reload request is honoured iff not reloading, magazine below 30 and game not over, and then sets the countdown to 1.5; a request during a reload leaves the timer alone; requesting twice equals requesting once |
| Rules.ReloadTick | MyProject.cpp:671-677 | one frame of the countdown changes only the reload fields and the magazine; it leaves a player who is not reloading alone, takes exactly dt off a running timer, and the magazine either stays or becomes 30 |
| Rules.ReloadCompletes | MyProject.cpp:671-677 | once the elapsed frame times add up to the remaining countdown, reloading is over and the magazine holds 30 |
| Rules.ReloadStillRunning | MyProject.cpp:671-677 | while the elapsed time stays below the countdown, the reload is still running, the timer has dropped by exactly the elapsed time, and the magazine is untouched |
| Rules.ReloadIdle | MyProject.cpp:671 | countdown frames leave a player who is not reloading unchanged |
| Rules.ClampPitch | MyProject.cpp:615 | the pitch ends within +-89, is unchanged when already within, and goes to the nearer bound otherwise |
| Rules.Look | MyProject.cpp:609-615 | a mouse move changes only yaw and pitch, changes nothing after game over, and otherwise leaves the pitch within +-89 |
| Rules.Move | MyProject.cpp:647-668 | after walking, jump and gravity, the eye is never below terrain + 1.6; on the ground it has zero vertical speed; a jump that leaves the ground clears onGround; only pose fields change |
| Rules.PlayerHit | MyProject.cpp:791-806 | an enemy bullet hit spends the bullet and costs 25 health; the hit leaving no health while the game runs sets health 0 and latches game over; after game over the 25 is still subtracted without a clamp |
| Rules.ShotCooldown | MyProject.cpp:756 | the cooldown after an enemy shot lies in [1.4, 2.58] |
| Rules.SpawnCooldown | MyProject.cpp:585 | a (re)spawned enemy's first cooldown lies in [0, 2) |
| Rules.SpawnCoord | MyProject.cpp:574-576 | spawn coordinates lie in [-16, 15.2] |
| Rules.Spark | MyProject.cpp:556-564 | a new particle is active with life in [0.8, 1.295] |
| Rules.SpawnPoint | MyProject.cpp:775-777 | a respawn position lies in the play square at eye height above the terrain |
| Rules.Spawned | MyProject.cpp:571-588 | an enemy after initEnemies is alive with 100 health, no flash, not seeing the player, death timer 0 and cooldown in [0, 2) |
| Rules.Stride | MyProject.cpp:733-742 | the enemy either stays put or takes exactly its heading step onto the terrain with a height change below 1; it stays in 80% of draws; an accepted slope is always taken |
| Rules.Think | MyProject.cpp:700-765 | one enemy's turn keeps the pools' capacities and the roster size and never touches the player |
| Rules.ThinkShootsOnlyWithFreeSlot | MyProject.cpp:699-766 | dead enemies are skipped; a live one keeps its health and death timer; it shoots iff it sees the player, its cooldown has run out and a slot is free, and only then is the cooldown redrawn, the lowest free slot an enemy bullet, one more bullet active and a muzzle spark claimed in the particle pool; otherwise the pools are untouched and the cooldown just dropped by dt |
| Rules.Respawn | MyProject.cpp:771-783 | a live enemy is left alone; a dead one loses exactly dt from its death timer |
| Rules.RespawnRestores | MyProject.cpp:769-784 | live enemies are untouched; a dead one loses dt from its timer, and when it runs out is alive again with 100 health, no flash, a cooldown in [0, 2) and a position on the terrain |
| Rules.HitEnemy | MyProject.cpp:812-825 | one player-bullet test against one enemy keeps the pools' capacities and the roster size |
| Rules.HitEnemyAwardsOnce | MyProject.cpp:812-825 | a hit on a live enemy spends that bullet and touches no other, claims a hit spark in the particle pool, sets its flash, costs exactly 34 health unclamped and touches no other enemy; the score rises by 100 exactly when the hit leaves no health, which starts the 2.0 s death timer; dead or missed enemies are unaffected |
| Frame.ThinkUpTo | MyProject.cpp:699-766 | the AI loop keeps the pools' capacities and the roster size and never touches the player |
| Frame.RespawnAll | MyProject.cpp:769-784 | the respawn loop keeps the roster size, leaves every live enemy as it is, and takes exactly dt off every dead enemy's death timer |
| Frame.HitEnemiesUpTo | MyProject.cpp:811-826 | one player bullet's pass over the enemies keeps capacities and roster size, changes nothing of the player but the score, and never lowers the score |
| Frame.CollideUpTo | MyProject.cpp:787-828 | the collision loop keeps capacities and roster size, changes nothing of the player but health, the game-over latch and the score, and never lowers the score |
| Frame.CollideBullet | MyProject.cpp:787-827 | one turn of the collision loop keeps the pools' capacities and the roster size |
| Frame.BeforeCollisions | MyProject.cpp:647-784 | the player after the frame's first half is the movement step followed by the reload countdown; capacities are kept |
| Frame.Step | MyProject.cpp:645-829 | the simulation half of a frame keeps the capacities and is the identity once the game is over |
| Frame.StartPlayer | MyProject.cpp:26-46 | the player as declared satisfies the player invariant, can fire at once, cannot reload (the magazine is full), has no score and stands at eye height |
| Frame.ZeroEnemy | MyProject.cpp:54-74 | a zero-initialised enemy record is not alive and has no health |
| Frame.ZeroState | MyProject.cpp:26-91 | the globals as declared: the starting player, 60 bullet and 100 particle slots all free, and 4 enemy records none of which is alive |
| Frame.InitialRoster | MyProject.cpp:570-590 | `initEnemies` leaves four enemies, all alive on 100 health |
| Frame.Start | MyProject.cpp:26-46 | the first frame starts from the declared globals (camera pose, magazine, health, score), 60 bullet and 100 particle slots and the four enemies of `initEnemies` (lines 570-590) |
| Frame.Apply | MyProject.cpp:609-637 | each event reaches its handler; every event keeps the capacities and roster size; the reload key and mouse moves change only the player; after game over no event changes anything |
| Frame.Run | MyProject.cpp:609-637 | the events are handled in order, each in the state the previous one left; capacities and roster size are kept |
| Frame.RunAppend | MyProject.cpp:609-637 | running two batches of events one after the other is the same as running them as one sequence |
| Frame.GameOverFreezes | MyProject.cpp:645-829 | once game over is set, no frame, click, reload key or mouse move changes anything, so the latch is never cleared |
| Frame.GameOverSticks | MyProject.cpp:645 | a run that reaches game over at the start or after any prefix of its events ends in game over, so a run that ends with the game still going never passed through game over |
| Frame.GameOverStopsReload | MyProject.cpp:645-677 | a reload that is running when the game ends never completes: the magazine stays as it was |
| Frame.ThinkKeepsVitals | MyProject.cpp:700-765 | one enemy's turn changes no enemy's health, death timer or active flag, and keeps every enemy on the terrain |
| Frame.ThinkUpToKeepsVitals | MyProject.cpp:699-766 | the AI loop never changes an enemy's health, death timer or active flag, and an enemy only ever steps onto the terrain |
| Frame.HitEnemiesUpToOnlyDamage | MyProject.cpp:811-826 | one player bullet's enemy loop changes nothing of the player but the score (health and the game-over latch included) and moves no enemy |
| Frame.CollideUpToOnlyDamage | MyProject.cpp:787-828 | the collision loop changes nothing of the player but health, the game-over latch and the score (magazine, countdown and pose are left alone) and moves no enemy |
| Frame.HitEnemiesUpToKeepsOk | MyProject.cpp:811-826 | the enemy loop of one bullet keeps the player and enemy invariants |
| Frame.CollideUpToKeepsOk | MyProject.cpp:787-828 | the collision loop keeps the player and enemy invariants |
| Frame.StepKeepsInv | MyProject.cpp:642-829 | a frame keeps the invariant: magazine in 0..30, reloading only below 30 with a positive timer, score a non-negative multiple of 100, health a multiple of 25 up to 100, game over iff health <= 0, pitch in +-89, enemies alive on 100/66/32 or dead on -2, every enemy standing on the terrain |
| Frame.StartOk | MyProject.cpp:26-46 | the starting globals plus the roster of `initEnemies` (lines 570-590) satisfy the invariant with no bullet or particle active |
| Frame.InvAlwaysHolds | MyProject.cpp:537-829 | every sequence of frames, clicks, reload keys and mouse moves on the one terrain keeps the invariant |
| Frame.StepKeepsPlayerAboveGround | MyProject.cpp:661-668 | after a running frame the player's eye is never below terrain + 1.6: nothing after the ground clamp moves the player |
| Frame.StepCountsDownReload | MyProject.cpp:645-829 | in a running frame the reload flag, timer and magazine change exactly as the countdown of lines 671-677 alone changes them |
| Frame.ReloadTicksLocal | MyProject.cpp:671-677 | the countdown over several frames depends only on the reload flag, timer and magazine |
| Frame.FramesCountDownReload | MyProject.cpp:645-829 | over a run of frames in which the game keeps going, the reload fields follow the countdown alone over the frames' times |
| Frame.ReloadAcrossFrames | MyProject.cpp:671-677 | a running reload followed by frames during which the game keeps going ends with 30 rounds once the frames' times reach the countdown, and is still running with the timer down by exactly the elapsed time while they fall short |
| Frame.ReloadKeyThenWait | MyProject.cpp:626-677 | an honoured R press (no reload running, below 30 rounds, game not over) and then letting at least 1.5 s of frames pass, with the game still running, leaves a full magazine |
| Collisions.StepPaysOncePerKill | MyProject.cpp:786-828 | in a running frame the score rises by exactly 100 per enemy alive before collisions and dead after them, at most 400, and dead enemies are left alone |
| Collisions.ScoreNeverDecreases | MyProject.cpp:823 | no sequence of events lowers the score |
| Collisions.HitEnemiesUpToDamagesAll | MyProject.cpp:811-826 | one player bullet costs 34 health to every live enemy whose cylinder it is in, not only the first; every other enemy is unchanged |
| Collisions.OneBulletHitsTwoEnemies | MyProject.cpp:811-826 | a single active player bullet overlapping two live enemies damages both in the same frame |
| Collisions.SecondHitAfterGameOver | MyProject.cpp:787-806 | a player on 25 health hit by two enemy bullets in one frame ends with game over and -25 health |
| Simulation.World.constructor | MyProject.cpp:26-46 | the globals start as declared, with every pool slot and enemy zeroed, in fresh arrays, on the given terrain |
| Simulation.World.InitEnemies | MyProject.cpp:570-590 | the roster becomes four freshly spawned enemies on the world's terrain |
| Simulation.World.FreeBulletSlot | MyProject.cpp:539-540 | the scan returns the first inactive bullet slot, or 60 when there is none |
| Simulation.World.FireBullet | MyProject.cpp:537-552 | the new world is the one the firing rule gives |
| Simulation.World.SpawnParticle | MyProject.cpp:554-568 | the particle array becomes the pool with the spark claimed |
| Simulation.World.PressReload | MyProject.cpp:626-632 | the new world is the one the reload-request rule gives |
| Simulation.World.MouseMoved | MyProject.cpp:609-615 | yaw and clamped pitch move unless the game is over |
| Simulation.World.MovePlayer | MyProject.cpp:647-668 | the player's pose follows the movement rule on the world's terrain |
| Simulation.World.TickReload | MyProject.cpp:671-677 | the player follows the reload countdown rule |
| Simulation.AgePool | MyProject.cpp:680-696 | the bullet array, and likewise the particle array, is aged in place |
| Simulation.World.EnemyTurn | MyProject.cpp:700-765 | one enemy's turn follows the AI rule, in place |
| Simulation.World.RunEnemies | MyProject.cpp:699-766 | the AI loop follows the AI fold |
| Simulation.World.RunRespawns | MyProject.cpp:769-784 | the roster follows the respawn rule per enemy |
| Simulation.World.BulletVersusEnemy | MyProject.cpp:812-825 | one bullet-enemy test follows the enemy-hit rule |
| Simulation.World.CollideOne | MyProject.cpp:787-827 | one bullet's collisions follow the per-bullet rule |
| Simulation.World.ResolveCollisions | MyProject.cpp:787-828 | the collision loop follows the collision fold |
| Simulation.World.Display | MyProject.cpp:641-829 | the simulation half of a frame follows Step on the world's terrain, and does nothing once the game is over |
| Simulation.Session | MyProject.cpp:906-937 | starting the program, clicking, a frame, the reload key and another frame, driven on one world object, leave exactly the state the event semantics gives for that sequence |

## Behaviour as written

The model keeps these behaviours of the code, although a reader might expect otherwise:

- The inner collision loop has no `break` and does not re-check
  `bullets[i].active`. One player bullet therefore damages every live enemy it
  overlaps in that frame (`Collisions.HitEnemiesUpToDamagesAll`).
- The game-over check and the `playerHealth = 0` clamp apply only to the hit
  that ends the game. A later enemy bullet in the same collision loop subtracts
  25 again, so health is not bounded below by 0 (`Collisions.SecondHitAfterGameOver`).
  From the next frame on, nothing changes any more.
- Enemy health is never clamped. Three hits leave an enemy on -2, the only
  value a dead enemy can have (`Frame.EnemyOk`).
- On respawn the death timer keeps the non-positive value it reached. It is
  not reset to 0.

## Left out

- Integer width: `score`, `bulletsLeft` and `playerHealth` are 32-bit C++
  `int`s; the model uses unbounded integers. `score += 100` would overflow,
  which is undefined behaviour in C++, after 21,474,836 kills; the model has no
  such limit.
- Collisions.ScoreNeverDecreases: holds for the model's unbounded score; for
  the 32-bit `score` of the source it holds only while fewer than 21,474,837
  kills have been made.
- Frame.InvAlwaysHolds: its "score is a non-negative multiple of 100" part
  likewise holds for the unbounded score only, i.e. below 21,474,837 kills in
  the source.
- Floating point: timers, positions and angles are exact `real`s, not 32-bit
  floats. Enemy health, a `float` in the source, is an `int`, because every
  value it takes (100, 66, 32, -2) is exact in `float`.
- The clock: `nowSeconds`, `lastTime` and the 0.016 s first-frame default are
  left out. Each frame's `dt` is an input.
- Rendering: the render half of `display` and all `draw*` functions,
  `makeSkyTexture`, `applyView`, the HUD and fog. The `damageFlash` and
  `justFired` cue variables are left out too, because the render code reads and
  resets them.
- Sound (`Beep`) and `printf` are external side effects.
- GLUT plumbing: `main`, `reshape`, `keyboardUp`, the `keyDown` table,
  `mouseClick` wiring (a left click is the `Click` event), the ESC cursor
  toggle, and the `cursorCaptured`/`ignoreWarp` early returns and cursor warp
  in `passiveMouse`.
- The camera basis (`updateCameraVectors`, `vecNormalize`, `vecCross`): the
  WASD displacement `camFront`/`camRight * moveSpeed * dt` is an input, and so
  is the shift key's choice of `moveSpeed`.
- `canSee` and the cylinder hit tests are floating-point geometry. Their
  outcomes are inputs (`sees`, `playerHits`, `enemyHits`).
- Enemy heading, pursuit and wander steering and `lastSeenTime`/`lastSeenPos`
  are trigonometric. The heading step they produce is an input (`strideX`,
  `strideZ`).
- Bullet and particle kinematics (position, direction, velocity, the enemy
  bullet's aim) are left out. Only the life countdown and the active flag are
  modelled.
- `rand()`: its raw results are inputs. The particle velocity draws are left
  out, since velocity is not modelled.
- `initEnvironment` and the rocks are static scenery with no gameplay effect.
- The formula of `terrainHeight` (sines and cosines): the model holds for any
  terrain function.
- Enemy `size`, `moveSpeed` and `dir` are used only by the geometry above.
