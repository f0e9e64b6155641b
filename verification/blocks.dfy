/** A single voxel: its cell, colour, opacity and collision flags, and the
    set of faces currently kept in its renderable group. */
module Blocks {
  import opened Faces

  /** `visible` stands for the faces that are members of the block's render
      group; `selected` is UI highlight state and carries no simulation
      meaning, so it is not part of the model. */
  datatype Block = Block(pos: Pos, color: int, isOpaque: bool, collides: bool, visible: set<Face>)

  /** `new Block(...)` followed by `setupFaces` and `groupFaces`: every block
      kind in the client is opaque and collides, and grouping adds all six
      faces to the group before the first `optimize`. */
  function NewBlock(p: Pos, color: int): (b: Block)
    ensures b.pos == p && b.color == color
    ensures b.isOpaque && b.collides
    ensures b.visible == AllFaces
  {
    Block(p, color, true, true, AllFaces)
  }

  /** `setColor`: only the colour changes. */
  function SetColor(b: Block, color: int): (r: Block)
    ensures r.color == color
    ensures r.pos == b.pos && r.isOpaque == b.isOpaque && r.collides == b.collides
    ensures r.visible == b.visible
  {
    b.(color := color)
  }

  /** `samePosition`: two blocks stand on the same cell. */
  predicate SamePosition(a: Block, b: Block)
  {
    a.pos.x == b.pos.x && a.pos.y == b.pos.y && a.pos.z == b.pos.z
  }

  /** Position equality coordinate by coordinate is equality of cells, so
      `samePosition` is an equivalence relation on blocks. */
  lemma SamePositionIsCellEquality(a: Block, b: Block, c: Block)
    ensures SamePosition(a, b) <==> a.pos == b.pos
    ensures SamePosition(a, a)
    ensures SamePosition(a, b) ==> SamePosition(b, a)
    ensures SamePosition(a, b) && SamePosition(b, c) ==> SamePosition(a, c)
  {
  }
}
