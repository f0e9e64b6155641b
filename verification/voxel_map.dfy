/** The voxel grid of `Map`: a dense `[x][z][y]` volume of optional blocks,
    modelled as its three dimensions and a map from occupied cells to
    blocks. Lookups are total: anything out of range is simply absent. */
module VoxelMap {
  import opened Values
  import opened Faces
  import opened Blocks

  datatype Grid = Grid(width: nat, depth: nat, height: nat, cells: map<Pos, Block>)

  /** `withinBounds`: x indexes the outer array, z the middle one, y the inner one. */
  predicate WithinBounds(g: Grid, p: Pos)
  {
    0 <= p.x < g.width && 0 <= p.z < g.depth && 0 <= p.y < g.height
  }

  /** Every stored block lies inside the volume and knows its own cell. */
  predicate WellFormed(g: Grid)
  {
    forall p :: p in g.cells ==> WithinBounds(g, p) && g.cells[p].pos == p
  }

  /** The map as constructed: `blocks = [[[]]]` with height 0, so no cell is
      in bounds and the map is empty. */
  function NewMap(): (g: Grid)
    ensures forall p :: !WithinBounds(g, p)
    ensures g.cells == map[]
    ensures WellFormed(g)
  {
    Grid(1, 1, 0, map[])
  }

  /** `setSize`: fresh arrays of the given dimensions, every cell empty. */
  function SetSize(g: Grid, width: nat, depth: nat, height: nat): (r: Grid)
    ensures forall p :: WithinBounds(r, p) <==> 0 <= p.x < width && 0 <= p.z < depth && 0 <= p.y < height
    ensures r.cells == map[]
    ensures WellFormed(r)
  {
    Grid(width, depth, height, map[])
  }

  /** The cell a lookup addresses: `getBlock` translates only when `face`
      is truthy. */
  function Target(p: Pos, face: JsVal): Pos
  {
    if Truthy(face) then Translate(p, face) else p
  }

  /** The truthiness test in `getBlock` never matters: every face code is
      nonzero, and every falsy argument translates to the cell itself. */
  lemma TargetIsTranslate(p: Pos, face: JsVal)
    ensures Target(p, face) == Translate(p, face)
  {
  }

  /** `getBlock(x, y, z, face)`: the block in the (translated) cell, or
      absent when that cell is out of range or empty. It never fails. */
  function GetBlock(g: Grid, p: Pos, face: JsVal): (r: Option<Block>)
    ensures r.Some? <==> WithinBounds(g, Translate(p, face)) && Translate(p, face) in g.cells
    ensures r.Some? ==> r.value == g.cells[Translate(p, face)]
    ensures WellFormed(g) && r.Some? ==> r.value.pos == Translate(p, face)
  {
    TargetIsTranslate(p, face);
    var q := Target(p, face);
    if WithinBounds(g, q) && q in g.cells then Some(g.cells[q]) else None
  }

  /** The block (if any) through face `f` of cell `p`. */
  function NeighbourBlock(g: Grid, p: Pos, f: Face): Option<Block>
  {
    GetBlock(g, p, Num(Code(f)))
  }

  /** A cell is solid for culling when it is in range and holds an opaque block. */
  predicate Solid(g: Grid, q: Pos)
  {
    WithinBounds(g, q) && q in g.cells && g.cells[q].isOpaque
  }

  /** Two grids agree on everything but the blocks' visible-face sets. */
  predicate SameShape(g: Grid, h: Grid)
  {
    && g.width == h.width && g.depth == h.depth && g.height == h.height
    && g.cells.Keys == h.cells.Keys
    && forall p :: p in g.cells ==>
         var a := g.cells[p]; var b := h.cells[p];
         a.pos == b.pos && a.color == b.color && a.isOpaque == b.isOpaque && a.collides == b.collides
  }

  /** Updating a block's visible faces keeps the grid's shape. */
  lemma SameShapeUpdateVisible(g: Grid, q: Pos, s: set<Face>)
    requires q in g.cells
    ensures SameShape(g, g.(cells := g.cells[q := g.cells[q].(visible := s)]))
  {
  }

  lemma SameShapeTransitive(a: Grid, b: Grid, c: Grid)
    requires SameShape(a, b) && SameShape(b, c)
    ensures SameShape(a, c)
  {
  }

  lemma SameShapeSolid(g: Grid, h: Grid, q: Pos)
    requires SameShape(g, h)
    ensures Solid(g, q) <==> Solid(h, q)
  {
  }

  lemma SameShapeWellFormed(g: Grid, h: Grid)
    requires SameShape(g, h) && WellFormed(g)
    ensures WellFormed(h)
  {
  }

  /** The cells of the box `[0,w) x [0,h) x [0,d)`, in-bounds cells of a grid. */
  function Box(width: nat, depth: nat, height: nat): (s: set<Pos>)
    ensures forall p :: p in s <==> 0 <= p.x < width && 0 <= p.z < depth && 0 <= p.y < height
  {
    set x, y, z | 0 <= x < width && 0 <= y < height && 0 <= z < depth :: Pos(x, y, z)
  }
}
