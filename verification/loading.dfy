/** The bulk fills of `Map`: `load`, which rebuilds the grid from a nested
    array sent by the server, and `generate`, which lays a five-layer floor.
    Both create their blocks first and cull them in a second pass. */
module Loading {
  import opened Values
  import opened Faces
  import opened Blocks
  import opened VoxelMap
  import opened Culling

  /** A map as the server sends it: `vol[x][z][y]` is a colour, or something
      falsy for an empty cell. */
  type Volume = seq<seq<seq<JsVal>>>

  /** The early return of `load`: no columns, no rows or no layers in the
      first row. */
  predicate EmptyVolume(vol: Volume)
  {
    |vol| == 0 || |vol[0]| == 0 || |vol[0][0]| == 0
  }

  /** Every row has `depth` columns and every column `height` entries. */
  predicate Rectangular(vol: Volume, depth: nat, height: nat)
  {
    forall x :: 0 <= x < |vol| ==>
      |vol[x]| == depth && forall z :: 0 <= z < |vol[x]| ==> |vol[x][z]| == height
  }

  /** The volumes the model covers: an empty one, or a rectangular one
      sized by its first row and column. */
  predicate Loadable(vol: Volume)
  {
    EmptyVolume(vol) || Rectangular(vol, |vol[0]|, |vol[0][0]|)
  }

  /** The entry for cell `p`. */
  function Entry(vol: Volume, p: Pos): JsVal
    requires 0 <= p.x < |vol| && 0 <= p.z < |vol[p.x]| && 0 <= p.y < |vol[p.x][p.z]|
  {
    vol[p.x][p.z][p.y]
  }

  /** The first loop of `load`: a block of the entry's colour in every cell
      whose entry is truthy, in the freshly sized grid. */
  function Populate(vol: Volume): (r: Grid)
    requires !EmptyVolume(vol) && Rectangular(vol, |vol[0]|, |vol[0][0]|)
    ensures r.width == |vol| && r.depth == |vol[0]| && r.height == |vol[0][0]|
    ensures WellFormed(r)
    ensures forall p :: p in r.cells <==> WithinBounds(r, p) && Truthy(Entry(vol, p))
    ensures forall p :: p in r.cells ==> Entry(vol, p).Num? && r.cells[p] == NewBlock(p, Entry(vol, p).n)
  {
    var g := SetSize(NewMap(), |vol|, |vol[0]|, |vol[0][0]|);
    g.(cells := map p | p in Box(g.width, g.depth, g.height) && Truthy(Entry(vol, p)) :: NewBlock(p, Entry(vol, p).n))
  }

  /** The second loop of `load`: every block is culled against the populated
      grid. Each `optimize` reads only which cells hold opaque blocks and
      writes only its own block's faces, so the order of the walk does not
      matter and one simultaneous pass gives the same grid. */
  function OptimizeAll(g: Grid): (r: Grid)
    ensures SameShape(g, r)
    ensures WellFormed(g) ==> forall p :: p in r.cells ==> r.cells[p].visible == VisibleSet(g, p)
  {
    g.(cells := map p | p in g.cells :: g.cells[p].(visible := Optimize(g, g.cells[p])))
  }

  /** After the culling pass every block holds the culling rule. */
  lemma OptimizeAllConsistent(g: Grid)
    requires WellFormed(g)
    ensures Consistent(OptimizeAll(g))
  {
    var r := OptimizeAll(g);
    forall p ensures CellConsistent(r, p) {
      SameShapeVisibleSet(g, r, p);
    }
  }

  /** `load(map)`: an empty volume leaves the map as it was; otherwise the
      grid is resized to the volume, populated, and culled. */
  function Load(g: Grid, vol: Volume): (r: Grid)
    requires Loadable(vol)
    ensures EmptyVolume(vol) ==> r == g
    ensures !EmptyVolume(vol) ==> r.width == |vol| && r.depth == |vol[0]| && r.height == |vol[0][0]|
  {
    if EmptyVolume(vol) then g
    else OptimizeAll(Populate(vol))
  }

  /** A loaded grid holds a block exactly where the volume has a truthy
      entry, of that entry's colour, opaque and solid. */
  lemma LoadCells(g: Grid, vol: Volume, p: Pos)
    requires Loadable(vol) && !EmptyVolume(vol)
    ensures var r := Load(g, vol);
            p in r.cells <==> (0 <= p.x < |vol| && 0 <= p.z < |vol[0]| && 0 <= p.y < |vol[0][0]| && Truthy(Entry(vol, p)))
    ensures var r := Load(g, vol);
            p in r.cells ==> r.cells[p].pos == p && r.cells[p].color == Entry(vol, p).n
                             && r.cells[p].isOpaque && r.cells[p].collides
  {
  }

  /** A loaded grid is well formed and every block holds the culling rule;
      nothing of the previous grid survives. */
  lemma LoadInvariants(g: Grid, vol: Volume)
    requires Loadable(vol)
    requires WellFormed(g) && Consistent(g)
    ensures WellFormed(Load(g, vol)) && Consistent(Load(g, vol))
  {
    if !EmptyVolume(vol) {
      var g1 := Populate(vol);
      assert WellFormed(g1);
      SameShapeWellFormed(g1, OptimizeAll(g1));
      OptimizeAllConsistent(g1);
    }
  }

  /** The floor colours of `generate`, bottom layer first. */
  const Floors: seq<int> := [0x280e02, 0x3a1301, 0x421602, 0x511a01, 0x329333]

  /** The cells `generate` fills: the bottom `min(height, 5)` layers. */
  function FloorCells(g: Grid): (s: set<Pos>)
    ensures forall p :: p in s <==> WithinBounds(g, p) && p.y < 5
  {
    Box(g.width, g.depth, if g.height < 5 then g.height else 5)
  }

  /** The first loop of `generate`: a new block of the layer's colour in
      every floor cell, replacing whatever was there; other cells keep their
      blocks. */
  function LayFloors(g: Grid): Grid
  {
    var fl := FloorCells(g);
    g.(cells := map p | p in g.cells.Keys + fl :: if p in fl then NewBlock(p, Floors[p.y]) else g.cells[p])
  }

  /** The second loop of `generate`: only the floor blocks are culled, against
      the grid with all floors laid. */
  function CullFloors(g: Grid): (r: Grid)
    ensures SameShape(g, r)
    ensures forall p :: p in r.cells && p !in FloorCells(g) ==> r.cells[p] == g.cells[p]
    ensures WellFormed(g) ==> forall p :: p in r.cells && p in FloorCells(g) ==> r.cells[p].visible == VisibleSet(g, p)
  {
    var fl := FloorCells(g);
    g.(cells := map p | p in g.cells :: if p in fl then g.cells[p].(visible := Optimize(g, g.cells[p])) else g.cells[p])
  }

  /** `generate()`: lay the floors and cull them. */
  function Generate(g: Grid): (r: Grid)
    ensures r.width == g.width && r.depth == g.depth && r.height == g.height
  {
    CullFloors(LayFloors(g))
  }

  /** Every floor cell holds a solid block of its layer's colour; every other
      cell is exactly as before. */
  lemma GenerateCells(g: Grid, p: Pos)
    ensures var r := Generate(g);
            p in r.cells <==> p in g.cells || (WithinBounds(g, p) && p.y < 5)
    ensures var r := Generate(g);
            WithinBounds(g, p) && p.y < 5 ==>
              p in r.cells && r.cells[p].pos == p && r.cells[p].color == Floors[p.y]
              && r.cells[p].isOpaque && r.cells[p].collides
    ensures var r := Generate(g);
            p in g.cells && !(WithinBounds(g, p) && p.y < 5) ==> p in r.cells && r.cells[p] == g.cells[p]
  {
    var g1 := LayFloors(g);
    assert FloorCells(g1) == FloorCells(g);
  }

  /** Laying floors does not move the bounds, so the floor cells stay put. */
  lemma LaidFloorCells(g: Grid)
    ensures FloorCells(LayFloors(g)) == FloorCells(g)
  {
  }

  /** `generate` keeps the grid well formed. */
  lemma GenerateWellFormed(g: Grid)
    requires WellFormed(g)
    ensures WellFormed(LayFloors(g)) && SameShape(LayFloors(g), Generate(g))
    ensures WellFormed(Generate(g))
  {
    var g1 := LayFloors(g);
    LaidFloorCells(g);
    assert WellFormed(g1);
    SameShapeWellFormed(g1, CullFloors(g1));
  }

  /** Every block on layer 5, directly above the floors, rests on an opaque
      block. */
  predicate Layer5Supported(g: Grid)
  {
    forall q :: q in g.cells && q.y == 5 ==> Solid(g, Pos(q.x, 4, q.z))
  }

  /** `generate` keeps the grid consistent provided every block on layer 5
      already rests on an opaque block: the second loop does not re-cull a
      layer-5 block, so its downward face is right only if the cell below was
      already solid. */
  lemma GenerateConsistent(g: Grid)
    requires WellFormed(g) && Consistent(g)
    requires Layer5Supported(g)
    ensures Consistent(Generate(g))
  {
    var g1 := LayFloors(g);
    var r := CullFloors(g1);
    GenerateWellFormed(g);
    LaidFloorCells(g);
    forall p ensures CellConsistent(r, p) {
      if p in r.cells { GeneratedCell(g, g1, r, p); }
    }
  }

  /** One cell after `generate`. */
  lemma GeneratedCell(g: Grid, g1: Grid, r: Grid, p: Pos)
    requires WellFormed(g) && Consistent(g) && Layer5Supported(g)
    requires g1 == LayFloors(g) && WellFormed(g1) && r == CullFloors(g1)
    requires FloorCells(g1) == FloorCells(g)
    requires p in r.cells
    ensures r.cells[p].visible == VisibleSet(r, p)
  {
    SameShapeVisibleSet(g1, r, p);
    if p !in FloorCells(g) {
      FloorUntouched(g, g1, p);
    }
  }

  /** A cell above the floors sees the same neighbourhood before and after
      the floors are laid: only a layer-5 block has a floor cell beside it,
      the one below, and that cell was solid already. */
  lemma FloorUntouched(g: Grid, g1: Grid, p: Pos)
    requires WellFormed(g) && Consistent(g) && Layer5Supported(g)
    requires g1 == LayFloors(g) && p in g.cells && p !in FloorCells(g)
    ensures g1.cells[p] == g.cells[p]
    ensures VisibleSet(g1, p) == VisibleSet(g, p)
    ensures g.cells[p].visible == VisibleSet(g, p)
  {
    assert CellConsistent(g, p);
    forall f ensures Solid(g, Neighbour(p, f)) <==> Solid(g1, Neighbour(p, f)) {
      var n := Neighbour(p, f);
      UnitStep(p, f);
      if n in FloorCells(g) {
        assert p.y == 5 && n == Pos(p.x, 4, p.z);
        assert Solid(g, n);
      }
    }
    VisibleSetFromNeighbours(g, g1, p);
  }
}
