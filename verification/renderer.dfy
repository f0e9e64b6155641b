/** The per-frame step of `Renderer.render`: the frame-skip rule, the
    dispatch of queued server packets over the remote players and the map,
    and the local player's update. The clock reading and the keyboard state
    are inputs of a frame. */
module Rendering {
  import opened Values
  import opened Faces
  import opened Blocks
  import opened VoxelMap
  import opened Culling
  import opened Mutation
  import opened Players

  /** What the client keeps of another player: its colour and pose. */
  datatype Remote = Remote(color: JsVal, x: real, y: real, z: real, pitch: real, yaw: real)

  /** A server packet, by its `action`. `Other` stands for an action the
      switch has no case for. Place and break coordinates are cells. */
  datatype Packet =
    | Join(id: int, color: JsVal, x: real, y: real, z: real, pitch: real, yaw: real)
    | Leave(id: int)
    | Move(id: int, x: real, y: real, z: real, pitch: real, yaw: real)
    | Recolor(id: int, color: JsVal)
    | Place(px: int, py: int, pz: int, color: JsVal)
    | Break(px: int, py: int, pz: int, color: JsVal)
    | Other

  /** The state `render` reads and writes. */
  datatype Client = Client(lastUpdate: int, frame: nat, packets: seq<Packet>,
                           others: map<int, Remote>, grid: Grid, player: Player, myId: int)

  /** The inputs of one frame: the clock in milliseconds, the held keys and
      the horizontal displacement the movement keys produce. */
  datatype Frame = Frame(now: int, keys: Keys, dx: real, dz: real)

  /** The longest frame, in seconds, that is simulated; a longer gap is
      taken for a stall and skipped. */
  const MaxDelta: real := 0.25

  /** One packet. Packets about our own id are ignored; `leave`, `move` and
      `color` act only on a known id; `place` and `break` both make the
      face-less call `setBlock(x, y, z, color)`. */
  function Dispatch(c: Client, pk: Packet): (r: Client)
    ensures r == c.(others := r.others, grid := r.grid)
    ensures !(pk.Place? || pk.Break?) ==> r.grid == c.grid
    ensures (pk.Place? || pk.Break?) ==> r.others == c.others
  {
    match pk
    case Join(id, color, x, y, z, pitch, yaw) =>
      if id == c.myId then c
      else c.(others := c.others[id := Remote(color, x, y, z, pitch, yaw)])
    case Leave(id) =>
      if id == c.myId then c
      else if id in c.others then c.(others := c.others - {id})
      else c
    case Move(id, x, y, z, pitch, yaw) =>
      if id == c.myId then c
      else if id in c.others then c.(others := c.others[id := c.others[id].(x := x, y := y, z := z, pitch := pitch, yaw := yaw)])
      else c
    case Recolor(id, color) =>
      if id == c.myId then c
      else if id in c.others then c.(others := c.others[id := c.others[id].(color := color)])
      else c
    case Place(x, y, z, color) => c.(grid := SetBlock(c.grid, Pos(x, y, z), color, Undefined))
    case Break(x, y, z, color) => c.(grid := SetBlock(c.grid, Pos(x, y, z), color, Undefined))
    case Other => c
  }

  /** The dispatch loop: packets in queue order. */
  function DispatchAll(c: Client, pks: seq<Packet>): (r: Client)
    ensures r == c.(others := r.others, grid := r.grid)
    ensures r.grid.width == c.grid.width && r.grid.depth == c.grid.depth && r.grid.height == c.grid.height
    ensures WellFormed(c.grid) ==> WellFormed(r.grid)
    decreases |pks|
  {
    if pks == [] then c else DispatchAll(Dispatch(c, pks[0]), pks[1..])
  }

  /** Packets are handled strictly in queue order: a queue split in two is
      the first part handled, then the second. */
  lemma {:induction false} DispatchAllAppend(c: Client, a: seq<Packet>, b: seq<Packet>)
    ensures DispatchAll(c, a + b) == DispatchAll(DispatchAll(c, a), b)
    decreases |a|
  {
    if a == [] {
      assert a + b == b;
    } else {
      assert (a + b)[1..] == a[1..] + b;
      DispatchAllAppend(Dispatch(c, a[0]), a[1..], b);
    }
  }

  /** A well-formed grid whose every block holds the culling rule keeps
      both properties through any queue of packets. */
  lemma {:induction false} DispatchAllConsistent(c: Client, pks: seq<Packet>)
    requires WellFormed(c.grid) && Consistent(c.grid)
    ensures Consistent(DispatchAll(c, pks).grid)
    decreases |pks|
  {
    if pks != [] {
      DispatchAllConsistent(Dispatch(c, pks[0]), pks[1..]);
    }
  }

  /** Packets that name our own id change nothing. */
  lemma OwnIdIgnored(c: Client, pk: Packet)
    requires (pk.Join? || pk.Leave? || pk.Move? || pk.Recolor?) && pk.id == c.myId
    ensures Dispatch(c, pk) == c
  {
  }

  /** `join` with another id inserts or overwrites exactly that entry. */
  lemma JoinInserts(c: Client, id: int, color: JsVal, x: real, y: real, z: real, pitch: real, yaw: real)
    requires id != c.myId
    ensures var r := Dispatch(c, Join(id, color, x, y, z, pitch, yaw));
            && r.others.Keys == c.others.Keys + {id}
            && r.others[id] == Remote(color, x, y, z, pitch, yaw)
            && (forall k :: k in c.others && k != id ==> r.others[k] == c.others[k])
  {
  }

  /** `leave` with another id removes that entry if there is one, and
      nothing else. */
  lemma LeaveRemoves(c: Client, id: int)
    requires id != c.myId
    ensures var r := Dispatch(c, Leave(id));
            && r.others.Keys == c.others.Keys - {id}
            && (forall k :: k in r.others ==> r.others[k] == c.others[k])
  {
  }

  /** `move` changes only the pose of a known other player; an unknown id
      changes nothing. */
  lemma MoveUpdates(c: Client, id: int, x: real, y: real, z: real, pitch: real, yaw: real)
    ensures var r := Dispatch(c, Move(id, x, y, z, pitch, yaw));
            && r.others.Keys == c.others.Keys
            && (forall k :: k in c.others && k != id ==> r.others[k] == c.others[k])
            && (id in c.others && id != c.myId ==>
                  r.others[id] == Remote(c.others[id].color, x, y, z, pitch, yaw))
            && (id !in c.others || id == c.myId ==> r == c)
  {
  }

  /** `color` changes only the colour of a known other player. */
  lemma RecolorUpdates(c: Client, id: int, color: JsVal)
    ensures var r := Dispatch(c, Recolor(id, color));
            && r.others.Keys == c.others.Keys
            && (forall k :: k in c.others && k != id ==> r.others[k] == c.others[k])
            && (id in c.others && id != c.myId ==> r.others[id] == c.others[id].(color := color))
            && (id !in c.others || id == c.myId ==> r == c)
  {
  }

  /** `break` carries no colour, so on an occupied cell it removes the
      block; the neighbours are re-culled and cells further away stay as
      they were. */
  lemma BreakRemoves(c: Client, x: int, y: int, z: int)
    requires WellFormed(c.grid) && Pos(x, y, z) in c.grid.cells
    ensures var r := Dispatch(c, Break(x, y, z, Undefined));
            && Pos(x, y, z) !in r.grid.cells
            && r.grid.cells.Keys == c.grid.cells.Keys - {Pos(x, y, z)}
            && (forall q :: q in r.grid.cells && Dist(Pos(x, y, z), q) != 1 ==> r.grid.cells[q] == c.grid.cells[q])
  {
    var p := Pos(x, y, z);
    FaceLessCall(c.grid, p, Undefined);
    SetBlockRemoves(c.grid, p, Undefined, Undefined);
  }

  /** `place` with a truthy colour puts a new block of that colour in an
      empty in-bounds cell, and recolours the block of an occupied one. */
  lemma PlacePlaces(c: Client, x: int, y: int, z: int, color: JsVal)
    requires WellFormed(c.grid) && Truthy(color)
    ensures var r := Dispatch(c, Place(x, y, z, color));
            var p := Pos(x, y, z);
            && (WithinBounds(c.grid, p) ==> p in r.grid.cells && r.grid.cells[p].color == color.n && r.grid.cells[p].pos == p)
            && (p !in c.grid.cells && WithinBounds(c.grid, p) ==> r.grid.cells[p].isOpaque && r.grid.cells[p].collides)
            && (p in c.grid.cells ==> r.grid.cells[p] == c.grid.cells[p].(color := color.n))
            && (!WithinBounds(c.grid, p) ==> r.grid == c.grid)
  {
    var p := Pos(x, y, z);
    FaceLessCall(c.grid, p, color);
    TruthyNotNullish(color);
    if p in c.grid.cells {
      SetBlockRecolors(c.grid, p, color, Undefined);
    } else if WithinBounds(c.grid, p) {
      SetBlockPlaces(c.grid, p, color, Undefined);
    } else {
      SetBlockIgnores(c.grid, p, color, Undefined);
    }
  }

  /** The frame's length in seconds, from the millisecond clock. */
  function Elapsed(c: Client, now: int): real
  {
    (now - c.lastUpdate) as real / 1000.0
  }

  /** The packet part of a simulated frame: with the clock recorded and the
      frame counted, every queued packet is handled and the queue emptied. */
  function Drain(c: Client, now: int): (r: Client)
    ensures r.lastUpdate == now && r.frame == c.frame + 1 && r.packets == []
    ensures r.player == c.player && r.myId == c.myId
    ensures r.grid == DispatchAll(c, c.packets).grid && r.others == DispatchAll(c, c.packets).others
  {
    DispatchIgnoresClock(c, c.packets, now, c.frame + 1);
    DispatchAll(c.(lastUpdate := now, frame := c.frame + 1), c.packets).(packets := [])
  }

  /** `render()`: record the clock; skip a frame longer than a quarter
      second; otherwise count it, dispatch and drain the queue, and update
      the local player against the updated map, its movement resolved by
      the collision driver `d`. */
  function Render(c: Client, f: Frame, d: Driver): (r: Client)
    ensures r.lastUpdate == f.now && r.myId == c.myId
    ensures Elapsed(c, f.now) > MaxDelta ==> r == c.(lastUpdate := f.now)
    ensures Elapsed(c, f.now) <= MaxDelta ==> r == Drain(c, f.now).(player := r.player)
    ensures Elapsed(c, f.now) <= MaxDelta ==>
              r.player == Update(r.grid, d, c.player, f.keys, f.dx, f.dz, Elapsed(c, f.now))
  {
    var delta := Elapsed(c, f.now);
    if delta > MaxDelta then c.(lastUpdate := f.now)
    else
      var drained := Drain(c, f.now);
      drained.(player := Update(drained.grid, d, drained.player, f.keys, f.dx, f.dz, delta))
  }

  /** A simulated frame counts itself, empties the queue, and leaves the map
      and the other players exactly as the queued packets, handled in order,
      make them; a skipped frame keeps the queue for the next one. */
  lemma RenderDispatches(c: Client, f: Frame, d: Driver)
    ensures var r := Render(c, f, d);
            Elapsed(c, f.now) <= MaxDelta ==>
              && r.frame == c.frame + 1 && r.packets == []
              && r.grid == DispatchAll(c, c.packets).grid && r.others == DispatchAll(c, c.packets).others
    ensures var r := Render(c, f, d);
            Elapsed(c, f.now) > MaxDelta ==>
              r.frame == c.frame && r.packets == c.packets && r.grid == c.grid && r.player == c.player
  {
  }

  /** The dispatch loop does not read the clock or the frame counter. */
  lemma {:induction false} DispatchIgnoresClock(c: Client, pks: seq<Packet>, now: int, frame: nat)
    ensures var r := DispatchAll(c.(lastUpdate := now, frame := frame), pks);
            r.grid == DispatchAll(c, pks).grid && r.others == DispatchAll(c, pks).others
    decreases |pks|
  {
    if pks != [] {
      DispatchIgnoresClock(Dispatch(c, pks[0]), pks[1..], now, frame);
      assert Dispatch(c.(lastUpdate := now, frame := frame), pks[0]) == Dispatch(c, pks[0]).(lastUpdate := now, frame := frame);
    }
  }

  /** Frames keep the map's two invariants: every block in its own cell and
      every block's visible faces given by the culling rule. */
  lemma RenderConsistent(c: Client, f: Frame, d: Driver)
    requires WellFormed(c.grid) && Consistent(c.grid)
    ensures WellFormed(Render(c, f, d).grid) && Consistent(Render(c, f, d).grid)
  {
    if Elapsed(c, f.now) <= MaxDelta {
      DispatchAllConsistent(c, c.packets);
    }
  }

  /** With the driver as written, a walking player never has a jump after
      a simulated frame. */
  lemma RenderNoJump(c: Client, f: Frame)
    requires Elapsed(c, f.now) <= MaxDelta
    ensures !Render(c, f, AsWritten).player.hasJump
  {
    var r := Render(c, f, AsWritten);
    UpdateAsWritten(r.grid, c.player, f.keys, f.dx, f.dz, Elapsed(c, f.now));
  }
}
