/** Face culling (`Block.optimize`): a face of a block is kept in its render
    group exactly when the cell behind it holds no opaque block. */
module Culling {
  import opened Values
  import opened Faces
  import opened Blocks
  import opened VoxelMap

  /** Face `f` of cell `p` is exposed when the neighbouring cell is not solid. */
  predicate Exposed(g: Grid, p: Pos, f: Face)
  {
    !Solid(g, Neighbour(p, f))
  }

  /** The culling rule evaluated on the current grid: the faces of `p` that
      must be rendered. */
  function VisibleSet(g: Grid, p: Pos): set<Face>
  {
    set f | f in AllFaces && Exposed(g, p, f)
  }

  /** What a neighbour lookup must return for the face to be hidden. */
  predicate Hides(nb: Option<Block>)
  {
    nb.Some? && nb.value.isOpaque
  }

  /** `optimize`: walk the six faces, drop those whose `getBlock` neighbour
      is present and opaque, keep the others. The block's own coordinates
      are used for the lookups. */
  function Optimize(g: Grid, b: Block): (r: set<Face>)
    ensures r == VisibleSet(g, b.pos)
  {
    set f | f in AllFaces && !Hides(NeighbourBlock(g, b.pos, f))
  }

  /** A face is in the optimized set exactly when it is exposed. */
  lemma OptimizeExposed(g: Grid, b: Block, f: Face)
    ensures f in Optimize(g, b) <==> Exposed(g, b.pos, f)
  {
    FaceOrderComplete();
  }

  /** The invariant the grid keeps: every block's visible faces are the
      culling rule on the current grid. */
  ghost predicate Consistent(g: Grid)
  {
    forall p :: CellConsistent(g, p)
  }

  /** The invariant at one cell. */
  predicate CellConsistent(g: Grid, p: Pos)
  {
    p in g.cells ==> g.cells[p].visible == VisibleSet(g, p)
  }

  /** Visibility depends on the six neighbouring cells' solidity alone. */
  lemma VisibleSetFromNeighbours(g: Grid, h: Grid, p: Pos)
    requires forall f :: Solid(g, Neighbour(p, f)) <==> Solid(h, Neighbour(p, f))
    ensures VisibleSet(g, p) == VisibleSet(h, p)
  {
  }

  /** Grids of the same shape agree on every cell's visible set. */
  lemma SameShapeVisibleSet(g: Grid, h: Grid, p: Pos)
    requires SameShape(g, h)
    ensures VisibleSet(g, p) == VisibleSet(h, p)
  {
    forall f ensures Solid(g, Neighbour(p, f)) <==> Solid(h, Neighbour(p, f)) {
      SameShapeSolid(g, h, Neighbour(p, f));
    }
    VisibleSetFromNeighbours(g, h, p);
  }

  /** Optimizing is idempotent: storing the result in the block and
      optimizing again, with no other grid change, yields the same set. */
  lemma OptimizeIdempotent(g: Grid, b: Block)
    requires b.pos in g.cells
    ensures var h := g.(cells := g.cells[b.pos := b.(visible := Optimize(g, b))]);
            Optimize(h, b) == Optimize(g, b)
  {
    var h := g.(cells := g.cells[b.pos := b.(visible := Optimize(g, b))]);
    forall f ensures Solid(g, Neighbour(b.pos, f)) <==> Solid(h, Neighbour(b.pos, f)) {
      UnitStep(b.pos, f);
    }
    VisibleSetFromNeighbours(g, h, b.pos);
  }

  /** Changing one cell `c` leaves the visible set of every cell that is not
      a neighbour of `c` unchanged. */
  lemma VisibleSetAwayFromChange(g: Grid, h: Grid, c: Pos, p: Pos)
    requires forall q :: q != c ==> (Solid(g, q) <==> Solid(h, q))
    requires Dist(c, p) != 1
    ensures VisibleSet(g, p) == VisibleSet(h, p)
  {
    forall f ensures Solid(g, Neighbour(p, f)) <==> Solid(h, Neighbour(p, f)) {
      NeighbourSymmetric(c, p, f);
      AdjacentIsNeighbour(c, p);
    }
    VisibleSetFromNeighbours(g, h, p);
  }
}
