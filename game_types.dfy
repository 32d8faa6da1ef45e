/** Constants and value types of the shooter's simulation state. */
module GameTypes {

  const MaxBullets: nat := 60
  const MaxParticles: nat := 100
  const MaxEnemies: nat := 4

  const MagazineSize: int := 30
  const ReloadTime: real := 1.5
  const BulletLife: real := 3.0

  const FullHealth: int := 100
  const PlayerHitDamage: int := 25
  const EnemyHitDamage: int := 34
  const KillScore: int := 100
  const DeathTime: real := 2.0
  const HitFlashTime: real := 0.25

  const EyeHeight: real := 1.6
  const Gravity: real := 9.81
  const JumpSpeed: real := 5.0
  const MaxClimb: real := 1.0
  const PitchLimit: real := 89.0
  const MouseSensitivity: real := 0.12

  datatype Vec3 = Vec3(x: real, y: real, z: real)

  /** `terrainHeight`: the ground height at (x, z). One fixed function for the
      whole game. */
  type Terrain = (real, real) -> real

  /** Who fired a bullet; the program stores 0 for the player and 1 for an enemy. */
  datatype Owner = PlayerOwned | EnemyOwned

  /** A slot of a fixed-capacity pool: whether it is in use, its remaining
      lifetime in seconds, and what kind of item it holds. Positions, directions
      and velocities are not part of the model. */
  datatype Slot<T> = Slot(active: bool, life: real, kind: T)

  /** A bullet slot; its kind is who fired it. */
  type Bullet = Slot<Owner>

  /** A particle slot; particles come in one kind only. */
  type Particle = Slot<()>

  /** An enemy; `deathTimer > 0` means dead and counting down to respawn. */
  datatype Enemy = Enemy(
    pos: Vec3,
    health: int,
    active: bool,
    flashTimer: real,
    shootCooldown: real,
    canSeePlayer: bool,
    deathTimer: real)

  /** The player's globals: camera pose, jump state, HUD counters and the game-over latch. */
  datatype Player = Player(
    pos: Vec3,
    verticalVelocity: real,
    onGround: bool,
    yaw: real,
    pitch: real,
    score: int,
    bulletsLeft: int,
    health: int,
    reloading: bool,
    reloadTimer: real,
    gameOver: bool)

  /** Everything the simulation half of a frame reads and writes. */
  datatype State = State(
    player: Player,
    bullets: seq<Bullet>,
    particles: seq<Particle>,
    enemies: seq<Enemy>)

  /** Raw `rand()` draws for placing an enemy: x, z and its first shoot cooldown. */
  datatype SpawnRoll = SpawnRoll(x: nat, z: nat, cooldown: nat)

  /** What one enemy's turn of a frame depends on beyond the state: the line-of-sight
      test, the heading-based candidate step, and raw `rand()` draws. */
  datatype EnemyRoll = EnemyRoll(
    sees: bool,          // canSee(enemy position, camera position)
    strideDraw: nat,     // rand() deciding the 20% stutter step
    strideX: real,       // heading.x * moveSpeed * dt * 0.8
    strideZ: real,       // heading.z * moveSpeed * dt * 0.8
    cooldownDraw: nat,   // rand() for the cooldown after a shot
    muzzleDraw: nat,     // rand() for the muzzle particle's lifetime
    respawn: SpawnRoll)  // draws used if the enemy respawns this frame

  /** The inputs of one simulation step. Geometry that the program computes with
      square roots and trigonometry arrives as its outcome: `playerHits` holds the
      bullet indices inside the player's hit cylinder, `enemyHits` the
      (bullet, enemy) index pairs inside an enemy's hit cylinder. */
  datatype FrameInput = FrameInput(
    dt: real,
    walk: Vec3,                         // displacement from the held movement keys
    jump: bool,                         // space bar held
    roll: nat -> EnemyRoll,             // per enemy index
    playerHits: set<nat>,
    enemyHits: set<(nat, nat)>,
    hitSparkDraw: (nat, nat) -> nat)    // rand() for the spark of bullet i hitting enemy j
}
