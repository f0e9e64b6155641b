# Voxel client core, modelled in Dafny

This project models the simulation core of a browser voxel game client. The
world is a grid of coloured unit blocks, indexed `[x][z][y]`. Each block keeps
only the faces that are not covered by an opaque neighbour ("face culling"). A
server sends whole maps and block edits. The local player flies or walks
through the grid and collides with blocks.

The model covers the parts of the client that are plain arithmetic over that
grid:

- **Faces** (`faces.dfy`). The six face codes and `translate`, the neighbour
  offset on which every grid lookup is built.
- **Blocks and the grid** (`values.dfy`, `blocks.dfy`, `voxel_map.dfy`). JS
  truthiness of colour and face arguments, and block records. The grid is its
  dimensions plus a map from occupied cells to blocks. `withinBounds` and
  `getBlock` are total lookups.
- **Culling** (`culling.dfy`). `Block.optimize` as a set of visible faces. The
  grid invariant is that every block's visible set equals the culling rule on
  the current grid.
- **Mutation** (`mutation.dfy`). `Map.setBlock` with its four outcomes: remove,
  recolour, place, or nothing. Remove and place are followed by the
  re-culling of the six neighbours; all four outcomes preserve both grid
  invariants.
- **Bulk fills** (`loading.dfy`). `Map.load` and the grid part of
  `Map.generate`.
- **Collision** (`collision.dfy`). The swept per-block `Block.collision`, and
  the grid driver `Map.collision` that gathers candidate blocks. The driver
  exists twice: as written, and with each block's result folded in (see
  Findings).
- **Player** (`player.dfy`). The pitch clamp, the spectator toggle, and the
  vertical velocity, jump, grounding and respawn rules of `Player.update`.
- **Frame** (`renderer.dfy`). `Renderer.render`: the frame-skip rule, the
  packet dispatch over the remote players and the map, and the player update.

Everything is a pure function over immutable datatypes. Positions and
movements are `real`. Cells, colours and packet ids are `int`.

The early return of `Block.collision` fires only when the leading corner is
outside the block on all three axes at once: the code joins the three tests
with `&&` (src/game/Block.js:164-169).

## Model

| member | source | states |
|---|---|---|
| Values.TruthyNotNullish | src/game/Map.js:129-142 | a truthy colour is never `== null`; the only non-null falsy colour is 0 |
| Faces.Code | src/game/BlockFaces.js:1-8 | the six face constants are 1..6 and all truthy |
| Faces.FromCode | src/game/BlockFaces.js:1-8 | a code names a face exactly when it lies in 1..6, and that face's constant is the code |
| Faces.Translate | src/game/BlockFaces.js:10-32 | any argument other than the six codes, `undefined` included, leaves the cell unchanged |
| Faces.Opposite | src/game/BlockFaces.js:2-7 | the opposite face differs and pairs codes 1-2, 3-4, 5-6 |
| Faces.UnitStep | src/game/BlockFaces.js:12-28 | each face moves exactly one coordinate by exactly one |
| Faces.TranslateSteps | src/game/BlockFaces.js:10-32 | a code in 1..6 moves one unit step; anything else is the identity |
| Faces.OppositeInverse | src/game/BlockFaces.js:12-28 | stepping through a face and then its opposite returns to the start |
| Faces.NeighboursDistinct | src/game/BlockFaces.js:12-28 | the six neighbours of a cell are pairwise distinct |
| Faces.NeighbourSymmetric | src/game/BlockFaces.js:12-28 | q is p's neighbour through f iff p is q's neighbour through the opposite face |
| Faces.AdjacentIsNeighbour | src/game/BlockFaces.js:12-28 | the cells at unit distance are exactly the six face neighbours |
| Faces.FaceOrderComplete | src/game/Map.js:127 | the face loop lists every face exactly once |
| Blocks.NewBlock | src/game/Block.js:6-19 | a new block sits in its cell with its colour, opaque, colliding, all faces grouped |
| Blocks.SetColor | src/game/Block.js:21-24 | only the colour changes |
| Blocks.SamePositionIsCellEquality | src/game/Block.js:48-50 | `samePosition` is equality of cells, hence an equivalence |
| VoxelMap.NewMap | src/game/Map.js:6-13 | the constructed map has no in-bounds cell and no block |
| VoxelMap.WithinBounds | src/game/Map.js:99-107 | a cell is in bounds iff its x, z and y index the outer, middle and inner arrays; `NewMap` and `SetSize` characterise it through their contracts and `GetBlock` returns nothing outside it |
| VoxelMap.SetSize | src/game/Map.js:15-27 | afterwards a cell is in bounds iff 0≤x<w, 0≤z<d, 0≤y<h, and every cell is empty |
| VoxelMap.TargetIsTranslate | src/game/Map.js:109-115 | the truthiness guard before `translate` never changes the addressed cell |
| VoxelMap.GetBlock | src/game/Map.js:99-118 | a block is returned iff the translated cell is in bounds and occupied; it is that cell's block and knows its cell |
| Culling.Optimize | src/game/Block.js:128-147 | the faces kept are exactly those whose neighbour cell is not solid |
| Culling.OptimizeExposed | src/game/Block.js:128-147 | face f is kept iff the neighbour through f is absent or not opaque |
| Culling.VisibleSetFromNeighbours | src/game/Block.js:130-134 | visibility depends only on the six neighbours' solidity |
| Culling.OptimizeIdempotent | src/game/Block.js:128-147 | storing the optimized set and optimizing again yields the same set |
| Culling.VisibleSetAwayFromChange | src/game/Map.js:133-138 | changing one cell cannot change the visible set of a cell that is not its neighbour |
| Mutation.ReoptimizeThrough | src/game/Map.js:133-138 | one loop step re-culls only the neighbour through that face, against the current grid |
| Mutation.ReoptimizeNeighbours | src/game/Map.js:133-138 | walking the faces one at a time changes only visible sets: every block keeps its cell, colour, opacity and solidity |
| Mutation.ReoptimizeNeighboursSpec | src/game/Map.js:133-138 | the sequential loop touches only cells around the centre and leaves each holding the culling rule |
| Mutation.ReoptimizeAllNeighbours | src/game/Map.js:156-161 | the full face walk re-culls all six neighbours and nothing at other distances |
| Mutation.SetBlock | src/game/Map.js:120-164 | dimensions are kept; well-formedness and the culling invariant are preserved |
| Mutation.RemovePreserves | src/game/Map.js:129-138 | removal then neighbour re-culling keeps both grid invariants |
| Mutation.RecolorPreserves | src/game/Map.js:139-141 | recolouring keeps both grid invariants |
| Mutation.RemoveBlock | src/game/Map.js:129-138 | exactly the removed block's cell empties; every other block keeps its cell, colour, opacity and solidity |
| Mutation.PlaceBlock | src/game/Map.js:148-161 | exactly the target cell gains a block, of the given colour; every other block keeps its cell, colour, opacity and solidity |
| Mutation.PlacePreserves | src/game/Map.js:142-163 | placing, culling the new block and re-culling its neighbours keeps both invariants |
| Mutation.FaceLessCall | src/game/Map.js:120-124 | the four-argument call acts on its own cell with the fourth argument as colour |
| Mutation.SetBlockRemoves | src/game/Map.js:129-138 | with a block present and a null/undefined colour the cell empties, non-neighbours are untouched, neighbours hold the culling rule |
| Mutation.SetBlockRecolors | src/game/Map.js:139-141 | with a block present and any other colour, only that block's colour changes |
| Mutation.SetBlockPlaces | src/game/Map.js:142-163 | an empty in-bounds cell with a truthy colour gets a new block of that colour holding the culling rule; only it and its neighbours change |
| Mutation.SetBlockIgnores | src/game/Map.js:142-148 | with no block there and a falsy colour or an out-of-bounds target, nothing changes |
| Loading.OptimizeAll | src/game/Map.js:81-94 | only visible sets change, and every block gets the culling rule of the populated grid |
| Loading.OptimizeAllConsistent | src/game/Map.js:81-94 | after the culling pass the grid satisfies the culling invariant |
| Loading.Populate | src/game/Map.js:69-79 | the grid takes the volume's dimensions, is well formed, and holds a fresh block of the entry's colour exactly in the in-range cells whose entry is truthy |
| Loading.Load | src/game/Map.js:64-70 | a volume with an empty first dimension leaves the map unchanged; otherwise the map takes the volume's dimensions |
| Loading.LoadCells | src/game/Map.js:69-79 | a cell holds a block iff it is in range and its entry is truthy; the block has that colour and is opaque and solid |
| Loading.LoadInvariants | src/game/Map.js:64-97 | a loaded map is well formed and satisfies the culling invariant |
| Loading.FloorCells | src/game/Map.js:34-37 | the floor cells are the in-bounds cells with y < 5 |
| Loading.CullFloors | src/game/Map.js:43-55 | only floor blocks are re-culled, each against the grid with all floors laid |
| Loading.GenerateCells | src/game/Map.js:32-41 | every floor cell holds a new solid block of its layer's colour; every other cell is as before |
| Loading.Generate | src/game/Map.js:29-55 | the map keeps its dimensions; `GenerateCells`, `GenerateWellFormed` and `GenerateConsistent` state what it does to the cells |
| Loading.GenerateWellFormed | src/game/Map.js:29-55 | `generate` keeps the map well formed |
| Loading.GenerateConsistent | src/game/Map.js:43-55 | `generate` keeps the culling invariant when every block on layer 5 rests on an opaque block |
| Collision.Steps | src/game/Block.js:191-215 | one entry per nonzero axis, in x, y, z order, keyed by the axis's step count |
| Collision.StepsCover | src/game/Block.js:193-215 | an axis has an entry iff its movement is nonzero |
| Collision.FirstMin | src/game/Block.js:217-219 | a stable ascending sort's first element: a least key, strictly below every earlier key |
| Collision.FirstMinOrderInvariant | src/game/Block.js:218 | the choice depends only on how the keys compare |
| Collision.SourceStepsScale | src/game/Block.js:183-219 | dividing by the positive magnitude selects the same axis as the unnormalised keys |
| Collision.BlockCollision | src/game/Block.js:149-260 | a non-colliding block, a missed block or a zero movement returns delta; at most one axis changes, it is a moving axis, and it lands on the approached face |
| Collision.CollisionChoosesFirstMin | src/game/Block.js:175-219 | a changed axis is the chosen one: least key, ties going to the earlier axis |
| Collision.CollisionDefers | src/game/Block.js:221-257 | if the chosen face is backed by a colliding block, delta is returned unchanged |
| Collision.CollisionClamps | src/game/Block.js:221-257 | otherwise a reached, colliding block clamps exactly the chosen axis |
| Collision.SweepOrdered | src/game/Map.js:171-178 | the nested loops visit cells in strictly increasing x-outer, z-middle, y-inner order |
| Collision.CellsSwept | src/game/Map.js:166-178 | the swept cells are those between the floors of the moved hitbox's edges on each axis, each visited once in loop order |
| Collision.Lookups | src/game/Map.js:171-178 | the face-less lookup addresses the swept cell itself: an entry is present exactly when that cell is in range and occupied, and is then the block stored there |
| Collision.Candidates | src/game/Map.js:166-195 | the swept lookups with absent and repeated cells filtered out; `CandidatesSpec` states what they are |
| Collision.DedupDistinct | src/game/Map.js:180-195 | the filter keeps no two blocks with the same coordinates |
| Collision.DedupCovers | src/game/Map.js:180-195 | every present lookup has a kept block with its coordinates |
| Collision.CandidatesSpec | src/game/Map.js:166-195 | the candidates are stored blocks of swept cells, every occupied swept cell is represented, no cell twice, and they come in the sweep's x-outer, z-middle, y-inner order, which fixes the folding order |
| Collision.DiscardAll | src/game/Map.js:197-199 | calling each block and dropping its fresh result leaves the movement as passed |
| Collision.MapCollisionAsWritten | src/game/Map.js:166-200 | the driver as written returns the requested movement for every grid and input |
| Collision.Fold | src/game/Map.js:197-199 | feeding each block's result to the next, an axis with no movement stays still, and blocks that do not collide leave the movement alone |
| Collision.MapCollision | src/game/Map.js:166-200 | the corrected driver keeps every still axis still |
| Collision.MapCollisionSolidFree | src/game/Map.js:166-200 | on a well-formed grid without solid blocks the corrected driver returns the requested movement |
| Collision.FoldLands | src/game/Block.js:228-255 | on every axis the folded movement is the requested one or puts the hitbox's edge on a face of a candidate |
| Collision.MapCollisionLands | src/game/Map.js:166-200 | with each result folded in, a still axis stays still and a changed axis ends with the hitbox's edge on a face of a candidate block |
| Collision.ExampleCandidates | src/game/Map.js:171-195 | falling 0.5 from height 1.5 over a one-block map has that block as its only candidate |
| Collision.ExampleBlockCollision | src/game/Block.js:235-245 | that block clamps the fall from -0.5 to -0.25 |
| Collision.DiscardedResolution | src/game/Map.js:197-199 | on that input the as-written driver sinks the hitbox to 0.75, inside the block; the folding driver stops it at 1.0 |
| Players.NewPlayer | src/game/Player.js:11-25 | a new player is at the origin, level, spectating, still, with a jump ready |
| Players.ClampPitch | src/game/Player.js:62-66 | the pitch ends in [-π/2, π/2], unchanged if already inside, else at the nearer limit |
| Players.MouseMove | src/game/Player.js:58-68 | without focus nothing changes; with focus yaw turns freely and pitch turns then clamps |
| Players.MouseMovesKeepPitch | src/game/Player.js:58-68 | once in range, the pitch stays in range through any sequence of mouse moves |
| Players.ToggleSpectator | src/game/Player.js:88-92 | a focused key-down flips spectator mode and zeroes the vertical velocity; anything else is ignored |
| Players.ToggleTwice | src/game/Player.js:88-92 | toggling twice restores the mode, with the velocity reset |
| Players.SpectatorRise | src/game/Player.js:121-126 | space rises at speed·delta and wins over shift; shift sinks; otherwise 0 |
| Players.Accelerate | src/game/Player.js:127-138 | the velocity ends at or above terminal; a jump needs space and a ready jump, sets gravity/2 and uses the jump |
| Players.JumpNeedsReady | src/game/Player.js:130-133 | without a ready jump, space cannot raise the velocity or restore the jump |
| Players.Vertical | src/game/Player.js:121-140 | spectators move by the key rule with velocity untouched; walkers move by velocity·delta after acceleration |
| Players.Ground | src/game/Player.js:159-166 | an unresolved vertical move loses the jump; a resolved one zeroes the velocity and restores the jump only if pushed upward |
| Players.Respawn | src/game/Player.js:168-178 | below -100 the player respawns at height 100 over the map's middle; otherwise at most one coordinate wraps |
| Players.RespawnBox | src/game/Player.js:168-178 | the player is unchanged iff inside the box [-100, 100]³; a wrap moves the offending coordinate to the opposite face |
| Players.Resolve | src/game/Player.js:142-145 | the as-written driver hands back the requested movement |
| Players.Update | src/game/Player.js:100-178 | an update never changes pitch, yaw or mode |
| Players.UpdateKeepsTerminal | src/game/Player.js:127-166 | with either driver a walker never ends an update below terminal velocity; a spectator's velocity is kept or zeroed |
| Players.UpdateAsWritten | src/game/Player.js:142-166 | with the driver as written the player moves by exactly the request before respawn, and never keeps a jump |
| Players.LandingRestoresJump | src/game/Player.js:142-166 | a walker falling onto a block keeps falling and stays jumpless as written; with the folding driver it stops on the block with its jump back |
| Rendering.Dispatch | src/graphics/Renderer.js:113-153 | player packets change only the remote-player map; place and break change only the grid |
| Rendering.DispatchAll | src/graphics/Renderer.js:113-154 | the loop changes only the remote players and the grid, keeps the grid's dimensions and well-formedness |
| Rendering.DispatchAllAppend | src/graphics/Renderer.js:113-154 | packets are handled in queue order: a split queue is its first part, then its second |
| Rendering.DispatchAllConsistent | src/graphics/Renderer.js:149-152 | any queue of packets keeps the culling invariant |
| Rendering.OwnIdIgnored | src/graphics/Renderer.js:115-147 | join, leave, move and colour packets with our own id change nothing |
| Rendering.JoinInserts | src/graphics/Renderer.js:115-119 | join inserts or overwrites exactly that entry |
| Rendering.LeaveRemoves | src/graphics/Renderer.js:121-127 | leave removes that entry if present and nothing else |
| Rendering.MoveUpdates | src/graphics/Renderer.js:129-139 | move updates only the pose of a known other player; unknown ids change nothing |
| Rendering.RecolorUpdates | src/graphics/Renderer.js:141-147 | colour changes only the colour of a known other player |
| Rendering.BreakRemoves | src/graphics/Renderer.js:149-152 | break, carrying no colour, empties an occupied cell and leaves non-neighbours alone |
| Rendering.PlacePlaces | src/graphics/Renderer.js:149-152 | place with a truthy colour creates a block in an empty in-bounds cell, recolours an occupied one, ignores out-of-bounds |
| Rendering.Drain | src/graphics/Renderer.js:108-156 | a simulated frame counts itself, handles the whole queue, and empties it |
| Rendering.Render | src/graphics/Renderer.js:95-162 | the clock is always recorded; a frame over 0.25 s is skipped with nothing else changed; otherwise the packets are drained and the player updated on the new grid |
| Rendering.RenderDispatches | src/graphics/Renderer.js:95-156 | a simulated frame leaves the grid and remote players as the queue makes them; a skipped frame keeps the queue, grid and player |
| Rendering.RenderConsistent | src/graphics/Renderer.js:95-162 | every frame keeps both grid invariants |
| Rendering.RenderNoJump | src/graphics/Renderer.js:162 | with the driver as written, no simulated frame leaves the player with a jump |

## Left out

- Rendering through three.js is not modelled. This covers meshes, groups and materials (`setupFaces`, `groupFaces`, `updateFaceColors`, `getFace`), `createPlane`, `createSprite` and `updateCameraPosition`. A block's group membership is its `visible` face set.
- `OtherPlayer` is not modelled beyond its stored colour and pose. Its per-frame `update` (src/graphics/Renderer.js:158-160) only drives its meshes.
- Raycasting, block selection, and the place/break/clone intents of `Player.update` (src/game/Player.js:180-249) are not modelled, because they depend on the three.js raycaster. The `move` message sent to the server (src/game/Player.js:150-157) is left out as network output.
- Horizontal movement is not computed. It uses `Math.sin` and `Math.cos` of the yaw, so `dx` and `dz` are inputs of the update and of each frame.
- Floating point is not modelled: all arithmetic is exact `real`. Rounding, `-0`, NaN and infinities do not arise in the model.
- Collision.SourceStepsScale: the magnitude `Math.sqrt(x² + y² + z²)` is any positive real `m`. The fact that it is positive exactly for a nonzero movement is assumed through the precondition, not proved.
- Loading.Load: requires a rectangular volume, sized by its first row and column. Ragged arrays are not modelled.
- Loading.GenerateConsistent: requires that every block on layer 5 rests on an opaque block. `generate` does not re-cull a layer-5 block after laying the top floor, so the invariant fails only for a layer-5 block whose cell below was not solid: its downward face stays visible although the new floor now covers it. Nothing in the client calls `generate`; src/Game.js:85 only calls `load`.
- `generate`'s placement of the player (src/game/Map.js:59-61) and the scene-graph calls of `load` and `generate` are not modelled.
- Colours are the integers passed in. three.js `Color` conversion and HSL highlighting are not modelled.
- Map entries and packet fields are `undefined`, `null` or integers. Other JavaScript values (strings, objects, fractional coordinates) are not modelled.
- Packet ids are integers compared for equality. The case where our own id is not yet known is not modelled.
- The clock (`Date.now`) is the frame's `now` input. `requestAnimationFrame` scheduling, the stats overlay and the WebGL draw call are left out.
- WebSocket and JSON handling (src/Game.js, src/app.js), keyboard and mouse plumbing (src/input/Keyboard.js, src/input/Mouse.js), debug text, and the webpack configuration are not part of this model.
- "No penetration" and "the resolved movement is no longer than the requested one" are not claimed. The clamp can move the hitbox further than requested, and the driver as written discards every result.

## Findings

| source | as written | input that shows it | evidently intended | confidence | as-written member | corrected member |
|---|---|---|---|---|---|---|
| src/game/Map.js:197-199 | `block.collision(player, origin, delta)` returns a fresh triple (src/game/Block.js:150-154, 259), and the loop discards it. `delta` is never changed, so the player moves through every block and, in walking mode, never regains its jump (src/game/Player.js:159-166). | A 1×1×1 map with one block, hitbox half extent 0.25, origin (0.5, 1.5, 0.5), movement (0, -0.5, 0). As written the movement stays -0.5 and the hitbox bottom ends at 0.75, inside the block. | Feed each block's result into the movement the next block sees, and return it. The fall is cut to -0.25, and the hitbox stops on the top face at 1.0. | not executed | Collision.MapCollisionAsWritten, Collision.DiscardedResolution | Collision.MapCollision, Collision.MapCollisionLands |

The player update and the frame take the driver as a parameter. `Players.UpdateAsWritten` and `Rendering.RenderNoJump` state what the code as written does. `Players.LandingRestoresJump` shows that the folding driver restores the landing behaviour.
