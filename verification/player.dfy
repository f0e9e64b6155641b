/** The local player's state machine (`Player`): the pitch clamp of the
    mouse handler, the spectator toggle, and the vertical motion, grounding
    and respawn arithmetic of `update`. Horizontal motion, which goes
    through `Math.sin` and `Math.cos` of the yaw, enters as the two
    displacements `dx` and `dz`. */
module Players {
  import opened VoxelMap
  import opened Collision

  const Speed: real := 5.0
  const Gravity: real := 9.8
  /** The fastest fall: four times gravity, downwards. */
  const Terminal: real := -Gravity * 4.0
  const JumpVelocity: real := Gravity / 2.0
  /** `Math.PI` as a double. */
  const Pi: real := 3.141592653589793
  const RotSpeed: real := Pi / 800.0
  /** Half extents of the player's hitbox. */
  const HalfExtent: Vec3 := Vec3(0.25, 0.25, 0.25)
  /** Half of π: the pitch limit either way. */
  const Quarter: real := Pi / 2.0

  datatype Player = Player(x: real, y: real, z: real, pitch: real, yaw: real,
                           yVelocity: real, hasJump: bool, spectator: bool)

  /** The keys `update` reads besides movement. */
  datatype Keys = Keys(space: bool, shift: bool)

  /** Which version of `Map.collision` resolves the movement. */
  datatype Driver = AsWritten | Folding

  /** A new player: at the origin, level, spectating, with a jump ready. */
  function NewPlayer(): (p: Player)
    ensures p.spectator && p.hasJump && p.yVelocity == 0.0
    ensures p.x == 0.0 && p.y == 0.0 && p.z == 0.0 && p.pitch == 0.0 && p.yaw == 0.0
  {
    Player(0.0, 0.0, 0.0, 0.0, 0.0, 0.0, true, true)
  }

  /** The pitch limit: values outside `[-π/2, π/2]` snap to the nearer end. */
  function ClampPitch(v: real): (r: real)
    ensures -Quarter <= r <= Quarter
    ensures -Quarter <= v <= Quarter ==> r == v
    ensures r != v ==> (v < -Quarter && r == -Quarter) || (v > Quarter && r == Quarter)
  {
    if v < -Quarter then -Quarter
    else if v > Quarter then Quarter
    else v
  }

  /** The mouse-move handler: with focus, yaw and pitch turn against the
      mouse movement and the pitch is clamped; without focus nothing
      happens. */
  function MouseMove(p: Player, focus: bool, mx: real, my: real): (r: Player)
    ensures !focus ==> r == p
    ensures focus ==> r == p.(yaw := p.yaw - mx * RotSpeed, pitch := r.pitch)
    ensures focus ==> -Quarter <= r.pitch <= Quarter
    ensures focus && -Quarter <= p.pitch - my * RotSpeed <= Quarter ==> r.pitch == p.pitch - my * RotSpeed
  {
    if focus then p.(yaw := p.yaw - mx * RotSpeed, pitch := ClampPitch(p.pitch - my * RotSpeed))
    else p
  }

  /** Once the pitch is within bounds, every later mouse move keeps it
      there, whatever the movements. */
  lemma {:induction false} MouseMovesKeepPitch(p: Player, focus: seq<bool>, ms: seq<(real, real)>)
    requires -Quarter <= p.pitch <= Quarter
    requires |focus| == |ms|
    ensures -Quarter <= MouseMoves(p, focus, ms).pitch <= Quarter
    decreases |ms|
  {
    if ms != [] {
      MouseMovesKeepPitch(MouseMove(p, focus[0], ms[0].0, ms[0].1), focus[1..], ms[1..]);
    }
  }

  /** A sequence of mouse-move events, in order. */
  function MouseMoves(p: Player, focus: seq<bool>, ms: seq<(real, real)>): Player
    requires |focus| == |ms|
    decreases |ms|
  {
    if ms == [] then p
    else MouseMoves(MouseMove(p, focus[0], ms[0].0, ms[0].1), focus[1..], ms[1..])
  }

  /** The handler of key 189: on a key-down with focus, spectator mode flips
      and the vertical velocity is reset; anything else is ignored. */
  function ToggleSpectator(p: Player, down: bool, focus: bool): (r: Player)
    ensures !(down && focus) ==> r == p
    ensures down && focus ==> r.spectator != p.spectator && r.yVelocity == 0.0
    ensures r == p.(spectator := r.spectator, yVelocity := r.yVelocity)
  {
    if !down || !focus then p
    else p.(spectator := !p.spectator, yVelocity := 0.0)
  }

  /** Toggling twice returns to the original mode, with the velocity reset. */
  lemma ToggleTwice(p: Player)
    ensures ToggleSpectator(ToggleSpectator(p, true, true), true, true) == p.(yVelocity := 0.0)
  {
  }

  /** Spectator flight: space rises, shift sinks, space winning when both
      are held; no velocity is involved. */
  function SpectatorRise(keys: Keys, delta: real): (dy: real)
    ensures keys.space ==> dy == Speed * delta
    ensures !keys.space && keys.shift ==> dy == -Speed * delta
    ensures !keys.space && !keys.shift ==> dy == 0.0
  {
    if keys.space then Speed * delta
    else if keys.shift then -Speed * delta
    else 0.0
  }

  /** Walking: gravity lowers the velocity; a held space with a jump ready
      replaces it with the jump velocity and uses the jump; the velocity is
      then kept above the terminal velocity. */
  function Accelerate(p: Player, keys: Keys, delta: real): (r: Player)
    ensures r.yVelocity >= Terminal
    ensures keys.space && p.hasJump ==> r.yVelocity == JumpVelocity && !r.hasJump
    ensures !(keys.space && p.hasJump) ==> r.hasJump == p.hasJump
    ensures !(keys.space && p.hasJump) && p.yVelocity - Gravity * delta >= Terminal ==>
              r.yVelocity == p.yVelocity - Gravity * delta
    ensures !(keys.space && p.hasJump) && p.yVelocity - Gravity * delta < Terminal ==>
              r.yVelocity == Terminal
    ensures r == p.(yVelocity := r.yVelocity, hasJump := r.hasJump)
  {
    var fallen := p.(yVelocity := p.yVelocity - Gravity * delta);
    var jumped := if keys.space && p.hasJump then fallen.(yVelocity := JumpVelocity, hasJump := false) else fallen;
    if jumped.yVelocity < Terminal then jumped.(yVelocity := Terminal) else jumped
  }

  /** A jump takes a ready jump: without one, holding space cannot raise
      the velocity above what gravity leaves. */
  lemma JumpNeedsReady(p: Player, keys: Keys, delta: real)
    requires !p.hasJump
    ensures !Accelerate(p, keys, delta).hasJump
    ensures Accelerate(p, keys, delta).yVelocity <= if p.yVelocity - Gravity * delta < Terminal then Terminal else p.yVelocity - Gravity * delta
  {
  }

  /** The vertical part of `update` before collision: the player with its
      new velocity and jump flag, and the requested vertical movement. */
  function Vertical(p: Player, keys: Keys, delta: real): (r: (Player, real))
    ensures p.spectator ==> r.0 == p && r.1 == SpectatorRise(keys, delta)
    ensures !p.spectator ==> r.0 == Accelerate(p, keys, delta) && r.1 == r.0.yVelocity * delta
  {
    if p.spectator then (p, SpectatorRise(keys, delta))
    else
      var q := Accelerate(p, keys, delta);
      (q, q.yVelocity * delta)
  }

  /** Grounding after the move: an unchanged vertical movement means the
      player is airborne and loses its jump; a changed one stops the fall
      or the rise, and restores the jump when the collision pushed upwards. */
  function Ground(p: Player, dy: real, resolved: real): (r: Player)
    ensures resolved == dy ==> !r.hasJump && r.yVelocity == p.yVelocity
    ensures resolved != dy ==> r.yVelocity == 0.0
    ensures resolved != dy ==> (r.hasJump <==> resolved > dy || p.hasJump)
    ensures r == p.(yVelocity := r.yVelocity, hasJump := r.hasJump)
  {
    if resolved != dy then
      p.(yVelocity := 0.0, hasJump := if resolved > dy then true else p.hasJump)
    else p.(hasJump := false)
  }

  /** The respawn and wrap rules, tried in order with at most one firing:
      falling below -100 respawns at height 100 over the middle of the map;
      otherwise leaving the box `[-100, 100]` along x, then y, then z moves
      the player to the opposite side. */
  function Respawn(p: Player, width: int, depth: int): (r: Player)
    ensures p.y < -100.0 ==> r.y == 100.0 && r.x == width as real / 2.0 && r.z == depth as real / 2.0
    ensures p.y >= -100.0 ==> (r.x != p.x ==> r.y == p.y && r.z == p.z)
                              && (r.y != p.y ==> r.x == p.x && r.z == p.z)
                              && (r.z != p.z ==> r.x == p.x && r.y == p.y)
    ensures r == p.(x := r.x, y := r.y, z := r.z)
  {
    if p.y < -100.0 then
      p.(y := if p.y < 0.0 then 100.0 else -100.0, x := width as real / 2.0, z := depth as real / 2.0)
    else if p.x < -100.0 || p.x > 100.0 then p.(x := if p.x < 0.0 then 100.0 else -100.0)
    else if p.y > 100.0 then p.(y := -100.0)
    else if p.z < -100.0 || p.z > 100.0 then p.(z := if p.z < 0.0 then 100.0 else -100.0)
    else p
  }

  /** Inside the box the rules leave the player alone; outside it, with the
      respawn case aside, exactly the first offending coordinate moves to
      the opposite face of the box. */
  lemma RespawnBox(p: Player, width: int, depth: int)
    ensures var r := Respawn(p, width, depth);
            (-100.0 <= p.x <= 100.0 && -100.0 <= p.y <= 100.0 && -100.0 <= p.z <= 100.0) <==> r == p
    ensures var r := Respawn(p, width, depth);
            p.y >= -100.0 && r != p ==>
              (r.x != p.x && r.x * p.x < 0.0 && (r.x == 100.0 || r.x == -100.0))
              || (r.y != p.y && r.y == -100.0 && p.y > 100.0)
              || (r.z != p.z && r.z * p.z < 0.0 && (r.z == 100.0 || r.z == -100.0))
  {
    var r := Respawn(p, width, depth);
    if p.y < -100.0 {
      assert r.y != p.y;
    }
  }

  /** The movement `update` asks the map to resolve. */
  function Requested(p: Player, keys: Keys, dx: real, dz: real, delta: real): Vec3
  {
    Vec3(dx, Vertical(p, keys, delta).1, dz)
  }

  /** The movement the chosen driver hands back. */
  function Resolve(g: Grid, d: Driver, origin: Vec3, move: Vec3): (r: Vec3)
    ensures d == AsWritten ==> r == move
  {
    match d
    case AsWritten => MapCollisionAsWritten(g, HalfExtent, origin, move)
    case Folding => MapCollision(g, HalfExtent, origin, move)
  }

  /** One `update(delta)`, minus raycasting and the block intents: the
      vertical step, the resolved move, grounding, then respawn. */
  function Update(g: Grid, d: Driver, p: Player, keys: Keys, dx: real, dz: real, delta: real): (r: Player)
    ensures r.pitch == p.pitch && r.yaw == p.yaw && r.spectator == p.spectator
  {
    var (q, dy) := Vertical(p, keys, delta);
    var move := Vec3(dx, dy, dz);
    var res := Resolve(g, d, Vec3(p.x, p.y, p.z), move);
    var moved := q.(x := p.x + res.x, y := p.y + res.y, z := p.z + res.z);
    Respawn(Ground(moved, dy, res.y), g.width, g.depth)
  }

  /** Whatever the driver, a walker never ends an update falling faster
      than terminal velocity, and a spectator's velocity is either kept or
      zeroed by a collision. */
  lemma UpdateKeepsTerminal(g: Grid, d: Driver, p: Player, keys: Keys, dx: real, dz: real, delta: real)
    ensures var r := Update(g, d, p, keys, dx, dz, delta);
            && (!p.spectator ==> r.yVelocity >= Terminal)
            && (p.spectator ==> r.yVelocity == p.yVelocity || r.yVelocity == 0.0)
  {
    var (q, dy) := Vertical(p, keys, delta);
    var res := Resolve(g, d, Vec3(p.x, p.y, p.z), Vec3(dx, dy, dz));
    var moved := q.(x := p.x + res.x, y := p.y + res.y, z := p.z + res.z);
    assert Update(g, d, p, keys, dx, dz, delta) == Respawn(Ground(moved, dy, res.y), g.width, g.depth);
  }

  /** With the driver as written the player moves by exactly the requested
      displacement before the respawn rules, and it never keeps a jump:
      after any update `hasJump` is false. */
  lemma UpdateAsWritten(g: Grid, p: Player, keys: Keys, dx: real, dz: real, delta: real)
    ensures var (q, dy) := Vertical(p, keys, delta);
            Update(g, AsWritten, p, keys, dx, dz, delta)
              == Respawn(q.(x := p.x + dx, y := p.y + dy, z := p.z + dz, hasJump := false), g.width, g.depth)
    ensures !Update(g, AsWritten, p, keys, dx, dz, delta).hasJump
  {
  }

  /** A walking player with no jump left, falling 0.5 onto the single block
      of `OneBlockGrid` in a frame of 0.1 s. */
  const Faller: Player := Player(0.5, 1.5, 0.5, 0.0, 0.0, -4.02, false, false)

  /** As written, the fall goes through the top of the block and the jump
      stays lost; with the folding driver the player stands on the block,
      stops, and has its jump back. */
  lemma LandingRestoresJump()
    ensures var r := Update(OneBlockGrid(), AsWritten, Faller, Keys(false, false), 0.0, 0.0, 0.1);
            r.y == 1.0 && !r.hasJump
    ensures var r := Update(OneBlockGrid(), Folding, Faller, Keys(false, false), 0.0, 0.0, 0.1);
            r.y == 1.25 && r.hasJump && r.yVelocity == 0.0
  {
    var keys := Keys(false, false);
    assert Vertical(Faller, keys, 0.1).1 == -0.5;
    assert Vec3(Faller.x, Faller.y, Faller.z) == ExampleOrigin;
    DiscardedResolution();
  }
}
