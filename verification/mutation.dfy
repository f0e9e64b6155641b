/** Grid mutation: `Map.setBlock` (remove, recolour, place or nothing),
    each followed by re-culling of the cells whose neighbourhood changed. */
module Mutation {
  import opened Values
  import opened Faces
  import opened Blocks
  import opened VoxelMap
  import opened Culling

  /** The cells around `c` reached through `faces`. */
  function Around(c: Pos, faces: seq<Face>): set<Pos>
  {
    set f | f in faces :: Neighbour(c, f)
  }

  /** One iteration of the neighbour loop: look up the block across face
      `f` of `c` and, when there is one, re-cull it against the grid as it
      stands. */
  function ReoptimizeThrough(g: Grid, c: Pos, f: Face): (r: Grid)
    ensures SameShape(g, r)
    ensures forall q :: q in r.cells && q != Neighbour(c, f) ==> r.cells[q] == g.cells[q]
    ensures WellFormed(g) && Neighbour(c, f) in r.cells ==>
              r.cells[Neighbour(c, f)].visible == VisibleSet(g, Neighbour(c, f))
  {
    var nb := NeighbourBlock(g, c, f);
    if nb.Some? then
      var q := Neighbour(c, f);
      SameShapeUpdateVisible(g, q, Optimize(g, nb.value));
      g.(cells := g.cells[q := nb.value.(visible := Optimize(g, nb.value))])
    else g
  }

  /** The loop `for (face of faceArray) { ... }`, one face at a time, each
      optimize seeing the grid as the previous ones left it. */
  function ReoptimizeNeighbours(g: Grid, c: Pos, faces: seq<Face>): (r: Grid)
    ensures SameShape(g, r)
    decreases |faces|
  {
    if faces == [] then g
    else
      var g1 := ReoptimizeThrough(g, c, faces[0]);
      var r := ReoptimizeNeighbours(g1, c, faces[1..]);
      SameShapeTransitive(g, g1, r);
      r
  }

  /** The loop changes nothing but visible sets, touches only the cells
      around `c`, and leaves each of those holding the culling rule. */
  lemma {:induction false} ReoptimizeNeighboursSpec(g: Grid, c: Pos, faces: seq<Face>)
    ensures var r := ReoptimizeNeighbours(g, c, faces);
            && SameShape(g, r)
            && (forall q :: q in r.cells && q !in Around(c, faces) ==> r.cells[q] == g.cells[q])
            && (WellFormed(g) ==> forall f :: f in faces && Neighbour(c, f) in r.cells ==>
                  r.cells[Neighbour(c, f)].visible == VisibleSet(g, Neighbour(c, f)))
    decreases |faces|
  {
    if faces != [] {
      var g1 := ReoptimizeThrough(g, c, faces[0]);
      var r := ReoptimizeNeighbours(g1, c, faces[1..]);
      ReoptimizeNeighboursSpec(g1, c, faces[1..]);
      SameShapeTransitive(g, g1, r);
      if WellFormed(g) { SameShapeWellFormed(g, g1); }
      forall p ensures VisibleSet(g1, p) == VisibleSet(g, p) {
        SameShapeVisibleSet(g, g1, p);
      }
      assert forall f :: f in faces <==> f == faces[0] || f in faces[1..];
    }
  }

  /** Every face neighbour of `c` is re-culled by the full `faceArray` walk. */
  lemma ReoptimizeAllNeighbours(g: Grid, c: Pos)
    requires WellFormed(g)
    ensures var r := ReoptimizeNeighbours(g, c, FaceOrder);
            && SameShape(g, r)
            && (forall f :: Neighbour(c, f) in r.cells ==> r.cells[Neighbour(c, f)].visible == VisibleSet(g, Neighbour(c, f)))
            && (forall q :: q in r.cells && Dist(c, q) != 1 ==> r.cells[q] == g.cells[q])
  {
    ReoptimizeNeighboursSpec(g, c, FaceOrder);
    FaceOrderComplete();
    forall q | Dist(c, q) != 1 ensures q !in Around(c, FaceOrder) {
      AdjacentIsNeighbour(c, q);
    }
  }

  /** With four arguments `setBlock(x, y, z, c)` binds `c` to `face` and
      leaves `color` undefined; the first lines of `setBlock` then move it
      into `color`. These two functions give the face and colour it acts on. */
  function EffectiveFace(face: JsVal, color: JsVal): JsVal
  {
    if color == Undefined then Undefined else face
  }

  function EffectiveColor(face: JsVal, color: JsVal): JsVal
  {
    if color == Undefined then face else color
  }

  /** The cell `setBlock` acts on. */
  function Dest(p: Pos, face: JsVal, color: JsVal): Pos
  {
    Translate(p, EffectiveFace(face, color))
  }

  /** Removal: empty the block's own cell, then re-cull its neighbours.
      Exactly that cell loses its block; every other block keeps its cell,
      colour, opacity and solidity. */
  function RemoveBlock(g: Grid, b: Block): (r: Grid)
    ensures r.cells.Keys == g.cells.Keys - {b.pos}
    ensures SameShape(g.(cells := g.cells - {b.pos}), r)
  {
    ReoptimizeNeighbours(g.(cells := g.cells - {b.pos}), b.pos, FaceOrder)
  }

  /** Placement: a new block in `q`, culled against the grid that now holds
      it, then its neighbours re-culled. Exactly `q` gains a block, of the
      given colour; every other block keeps its cell, colour, opacity and
      solidity. */
  function PlaceBlock(g: Grid, q: Pos, color: int): (r: Grid)
    ensures r.cells.Keys == g.cells.Keys + {q}
    ensures SameShape(g.(cells := g.cells[q := NewBlock(q, color)]), r)
  {
    var nb := NewBlock(q, color);
    var g1 := g.(cells := g.cells[q := nb]);
    var g2 := g1.(cells := g1.cells[q := nb.(visible := Optimize(g1, nb))]);
    SameShapeUpdateVisible(g1, q, Optimize(g1, nb));
    var r := ReoptimizeNeighbours(g2, q, FaceOrder);
    SameShapeTransitive(g1, g2, r);
    r
  }

  /** `setBlock(x, y, z, face, color)`: remove when a block is there and the
      colour is null or undefined, recolour when a block is there and the
      colour is anything else, place when the cell is empty, in range and
      the colour truthy, and otherwise do nothing. */
  function SetBlock(g: Grid, p: Pos, face: JsVal, color: JsVal): (r: Grid)
    ensures r.width == g.width && r.depth == g.depth && r.height == g.height
    ensures WellFormed(g) ==> WellFormed(r)
    ensures WellFormed(g) && Consistent(g) ==> Consistent(r)
  {
    var f := EffectiveFace(face, color);
    var c := EffectiveColor(face, color);
    var found := GetBlock(g, p, f);
    if found.Some? then
      if Nullish(c) then
        RemovePreserves(g, found.value.pos);
        RemoveBlock(g, found.value)
      else
        RecolorPreserves(g, Translate(p, f), c.n);
        g.(cells := g.cells[Translate(p, f) := SetColor(found.value, c.n)])
    else if Truthy(c) then
      var q := Translate(p, f);
      if WithinBounds(g, q) then
        PlacePreserves(g, q, c.n);
        PlaceBlock(g, q, c.n)
      else g
    else g
  }

  lemma RemovePreserves(g: Grid, c: Pos)
    ensures var r := ReoptimizeNeighbours(g.(cells := g.cells - {c}), c, FaceOrder);
            && (WellFormed(g) ==> WellFormed(r))
            && (WellFormed(g) && Consistent(g) ==> Consistent(r))
  {
    var g0 := g.(cells := g.cells - {c});
    var r := ReoptimizeNeighbours(g0, c, FaceOrder);
    if WellFormed(g) {
      assert WellFormed(g0);
      ReoptimizeAllNeighbours(g0, c);
      SameShapeWellFormed(g0, r);
      if Consistent(g) {
        forall q ensures CellConsistent(r, q) {
          if q in r.cells { RemovedCell(g, g0, r, c, q); }
        }
      }
    }
  }

  /** One cell of the grid after a removal at `c` and the re-culling of
      `c`'s neighbours. */
  lemma RemovedCell(g: Grid, g0: Grid, r: Grid, c: Pos, q: Pos)
    requires g0 == g.(cells := g.cells - {c})
    requires Consistent(g) && SameShape(g0, r) && q in r.cells
    requires forall f :: Neighbour(c, f) in r.cells ==> r.cells[Neighbour(c, f)].visible == VisibleSet(g0, Neighbour(c, f))
    requires forall q' :: q' in r.cells && Dist(c, q') != 1 ==> r.cells[q'] == g0.cells[q']
    ensures r.cells[q].visible == VisibleSet(r, q)
  {
    SameShapeVisibleSet(g0, r, q);
    if Dist(c, q) != 1 {
      assert CellConsistent(g, q);
      VisibleSetAwayFromChange(g, g0, c, q);
    } else {
      AdjacentIsNeighbour(c, q);
    }
  }

  lemma RecolorPreserves(g: Grid, q: Pos, color: int)
    requires q in g.cells
    ensures var r := g.(cells := g.cells[q := SetColor(g.cells[q], color)]);
            && (WellFormed(g) ==> WellFormed(r))
            && (Consistent(g) ==> Consistent(r))
  {
    var r := g.(cells := g.cells[q := SetColor(g.cells[q], color)]);
    if Consistent(g) {
      forall p ensures CellConsistent(r, p) {
        VisibleSetFromNeighbours(g, r, p);
        assert CellConsistent(g, p);
      }
    }
  }

  lemma PlacePreserves(g: Grid, q: Pos, color: int)
    requires WithinBounds(g, q)
    ensures var r := PlaceBlock(g, q, color);
            && (WellFormed(g) ==> WellFormed(r))
            && (WellFormed(g) && Consistent(g) ==> Consistent(r))
  {
    if WellFormed(g) {
      var nb := NewBlock(q, color);
      var g1 := g.(cells := g.cells[q := nb]);
      var g2 := g1.(cells := g1.cells[q := nb.(visible := Optimize(g1, nb))]);
      PlaceStages(g, q, nb, g1, g2);
      if Consistent(g) {
        PlaceConsistent(g, q, nb, g1, g2);
      }
    }
  }

  /** The intermediate grids of a placement are well formed and of one shape. */
  lemma PlaceStages(g: Grid, q: Pos, nb: Block, g1: Grid, g2: Grid)
    requires WellFormed(g) && WithinBounds(g, q) && nb.pos == q
    requires g1 == g.(cells := g.cells[q := nb])
    requires g2 == g1.(cells := g1.cells[q := nb.(visible := Optimize(g1, nb))])
    ensures WellFormed(g1) && WellFormed(g2) && SameShape(g1, g2)
    ensures WellFormed(ReoptimizeNeighbours(g2, q, FaceOrder))
  {
    SameShapeUpdateVisible(g1, q, Optimize(g1, nb));
    SameShapeWellFormed(g1, g2);
    ReoptimizeAllNeighbours(g2, q);
    SameShapeWellFormed(g2, ReoptimizeNeighbours(g2, q, FaceOrder));
  }

  lemma PlaceConsistent(g: Grid, q: Pos, nb: Block, g1: Grid, g2: Grid)
    requires WellFormed(g) && Consistent(g) && WithinBounds(g, q) && nb.pos == q
    requires g1 == g.(cells := g.cells[q := nb])
    requires g2 == g1.(cells := g1.cells[q := nb.(visible := Optimize(g1, nb))])
    requires WellFormed(g2) && SameShape(g1, g2)
    ensures Consistent(ReoptimizeNeighbours(g2, q, FaceOrder))
  {
    PlacedCells(g, q, nb, g1, g2);
  }

  lemma PlacedCells(g: Grid, c: Pos, nb: Block, g1: Grid, g2: Grid)
    requires Consistent(g)
    requires g1 == g.(cells := g.cells[c := nb])
    requires g2 == g1.(cells := g1.cells[c := nb.(visible := VisibleSet(g1, c))])
    requires SameShape(g1, g2) && WellFormed(g2)
    ensures Consistent(ReoptimizeNeighbours(g2, c, FaceOrder))
  {
    var r := ReoptimizeNeighbours(g2, c, FaceOrder);
    ReoptimizeAllNeighbours(g2, c);
    forall p ensures CellConsistent(r, p) {
      if p in r.cells { PlacedCell(g, c, nb, g1, g2, r, p); }
    }
  }

  /** One cell of the grid after placing a block at `c`, culling it, and
      re-culling `c`'s neighbours. */
  lemma PlacedCell(g: Grid, c: Pos, nb: Block, g1: Grid, g2: Grid, r: Grid, p: Pos)
    requires Consistent(g)
    requires g1 == g.(cells := g.cells[c := nb])
    requires g2 == g1.(cells := g1.cells[c := nb.(visible := VisibleSet(g1, c))])
    requires SameShape(g1, g2) && SameShape(g2, r) && p in r.cells
    requires forall f :: Neighbour(c, f) in r.cells ==> r.cells[Neighbour(c, f)].visible == VisibleSet(g2, Neighbour(c, f))
    requires forall q' :: q' in r.cells && Dist(c, q') != 1 ==> r.cells[q'] == g2.cells[q']
    ensures r.cells[p].visible == VisibleSet(r, p)
  {
    SameShapeVisibleSet(g2, r, p);
    SameShapeVisibleSet(g1, g2, p);
    if Dist(c, p) != 1 {
      if p != c {
        assert CellConsistent(g, p);
        VisibleSetAwayFromChange(g, g1, c, p);
      }
    } else {
      AdjacentIsNeighbour(c, p);
    }
  }

  /** The four-argument call `setBlock(x, y, z, c)`, the only form the
      client uses, acts on `(x, y, z)` itself with colour `c`. */
  lemma FaceLessCall(g: Grid, p: Pos, c: JsVal)
    ensures Dest(p, c, Undefined) == p
    ensures EffectiveColor(c, Undefined) == c
    ensures SetBlock(g, p, c, Undefined) == SetBlock(g, p, Undefined, c)
  {
  }

  /** Remove: a block is present and the colour is null or undefined. The
      cell empties, its neighbours are re-culled, and no other cell and no
      other field changes. */
  lemma SetBlockRemoves(g: Grid, p: Pos, face: JsVal, color: JsVal)
    requires WellFormed(g)
    requires Dest(p, face, color) in g.cells
    requires Nullish(EffectiveColor(face, color))
    ensures var q := Dest(p, face, color);
            var r := SetBlock(g, p, face, color);
            && SameShape(g.(cells := g.cells - {q}), r)
            && (forall q' :: q' in r.cells && Dist(q, q') != 1 ==> q' in g.cells && r.cells[q'] == g.cells[q'])
            && (forall q' :: q' in r.cells && Dist(q, q') == 1 ==> r.cells[q'].visible == VisibleSet(r, q'))
  {
    var q := Dest(p, face, color);
    assert SetBlock(g, p, face, color) == RemoveBlock(g, g.cells[q]);
    RemoveOutcome(g, q);
  }

  lemma RemoveOutcome(g: Grid, q: Pos)
    requires WellFormed(g) && q in g.cells
    ensures var r := ReoptimizeNeighbours(g.(cells := g.cells - {q}), q, FaceOrder);
            && SameShape(g.(cells := g.cells - {q}), r)
            && (forall q' :: q' in r.cells && Dist(q, q') != 1 ==> q' in g.cells && r.cells[q'] == g.cells[q'])
            && (forall q' :: q' in r.cells && Dist(q, q') == 1 ==> r.cells[q'].visible == VisibleSet(r, q'))
  {
    var g0 := g.(cells := g.cells - {q});
    assert WellFormed(g0);
    RemoveFrame(g, q, g0);
    ReculledNeighbours(g0, q);
  }

  lemma RemoveFrame(g: Grid, q: Pos, g0: Grid)
    requires g0 == g.(cells := g.cells - {q}) && WellFormed(g0)
    ensures var r := ReoptimizeNeighbours(g0, q, FaceOrder);
            && SameShape(g0, r)
            && (forall q' :: q' in r.cells && Dist(q, q') != 1 ==> q' in g.cells && r.cells[q'] == g.cells[q'])
  {
    ReoptimizeAllNeighbours(g0, q);
  }

  /** After re-culling around `q`, each neighbour holds the culling rule of
      the grid as it stands. */
  lemma ReculledNeighbours(g0: Grid, q: Pos)
    requires WellFormed(g0)
    ensures var r := ReoptimizeNeighbours(g0, q, FaceOrder);
            forall q' :: q' in r.cells && Dist(q, q') == 1 ==> r.cells[q'].visible == VisibleSet(r, q')
  {
    var r := ReoptimizeNeighbours(g0, q, FaceOrder);
    ReoptimizeAllNeighbours(g0, q);
    forall q' | q' in r.cells && Dist(q, q') == 1 ensures r.cells[q'].visible == VisibleSet(r, q') {
      AdjacentIsNeighbour(q, q');
      SameShapeVisibleSet(g0, r, q');
    }
  }

  /** Recolour: a block is present and the colour is anything but null or
      undefined (0 included). Only that block's colour changes. */
  lemma SetBlockRecolors(g: Grid, p: Pos, face: JsVal, color: JsVal)
    requires WellFormed(g)
    requires Dest(p, face, color) in g.cells
    requires !Nullish(EffectiveColor(face, color))
    ensures var q := Dest(p, face, color);
            var r := SetBlock(g, p, face, color);
            && r.cells.Keys == g.cells.Keys
            && q in r.cells
            && r.cells[q] == g.cells[q].(color := EffectiveColor(face, color).n)
            && (forall q' :: q' in r.cells && q' != q ==> q' in g.cells && r.cells[q'] == g.cells[q'])
  {
  }

  /** Place: the target is empty and in range and the colour truthy. A block
      of that colour with exactly the target's coordinates appears, culled
      against the new grid, and only its neighbours' visible sets change. */
  lemma SetBlockPlaces(g: Grid, p: Pos, face: JsVal, color: JsVal)
    requires WellFormed(g)
    requires Dest(p, face, color) !in g.cells && WithinBounds(g, Dest(p, face, color))
    requires Truthy(EffectiveColor(face, color))
    ensures var q := Dest(p, face, color);
            var r := SetBlock(g, p, face, color);
            && SameShape(g.(cells := g.cells[q := NewBlock(q, EffectiveColor(face, color).n)]), r)
            && q in r.cells && r.cells[q].visible == VisibleSet(r, q)
            && (forall q' :: q' in r.cells && q' != q && Dist(q, q') != 1 ==> q' in g.cells && r.cells[q'] == g.cells[q'])
            && (forall q' :: q' in r.cells && Dist(q, q') == 1 ==> r.cells[q'].visible == VisibleSet(r, q'))
  {
    var q := Dest(p, face, color);
    var c := EffectiveColor(face, color).n;
    assert SetBlock(g, p, face, color) == PlaceBlock(g, q, c);
    PlaceOutcome(g, q, c);
  }

  lemma PlaceOutcome(g: Grid, q: Pos, c: int)
    requires WellFormed(g) && q !in g.cells && WithinBounds(g, q)
    ensures var r := PlaceBlock(g, q, c);
            && SameShape(g.(cells := g.cells[q := NewBlock(q, c)]), r)
            && q in r.cells && r.cells[q].visible == VisibleSet(r, q)
            && (forall q' :: q' in r.cells && q' != q && Dist(q, q') != 1 ==> q' in g.cells && r.cells[q'] == g.cells[q'])
            && (forall q' :: q' in r.cells && Dist(q, q') == 1 ==> r.cells[q'].visible == VisibleSet(r, q'))
  {
    var nb := NewBlock(q, c);
    var g1 := g.(cells := g.cells[q := nb]);
    var g2 := g1.(cells := g1.cells[q := nb.(visible := Optimize(g1, nb))]);
    PlaceStages(g, q, nb, g1, g2);
    PlaceNewCell(g, q, nb, g1, g2);
    PlaceOtherCells(g, q, nb, g1, g2);
  }

  lemma PlaceNewCell(g: Grid, q: Pos, nb: Block, g1: Grid, g2: Grid)
    requires nb == NewBlock(q, nb.color)
    requires g1 == g.(cells := g.cells[q := nb])
    requires g2 == g1.(cells := g1.cells[q := nb.(visible := Optimize(g1, nb))])
    requires WellFormed(g2) && SameShape(g1, g2)
    ensures var r := ReoptimizeNeighbours(g2, q, FaceOrder);
            && SameShape(g1, r)
            && q in r.cells && r.cells[q].visible == VisibleSet(r, q)
  {
    var r := ReoptimizeNeighbours(g2, q, FaceOrder);
    ReoptimizeAllNeighbours(g2, q);
    UnitStepAway(q);
    SameShapeVisibleSet(g1, g2, q);
    SameShapeVisibleSet(g2, r, q);
    SameShapeTransitive(g1, g2, r);
  }

  lemma PlaceOtherCells(g: Grid, q: Pos, nb: Block, g1: Grid, g2: Grid)
    requires q !in g.cells
    requires g1 == g.(cells := g.cells[q := nb])
    requires g2 == g1.(cells := g1.cells[q := nb.(visible := Optimize(g1, nb))])
    requires WellFormed(g2) && SameShape(g1, g2)
    ensures var r := ReoptimizeNeighbours(g2, q, FaceOrder);
            && (forall q' :: q' in r.cells && q' != q && Dist(q, q') != 1 ==> q' in g.cells && r.cells[q'] == g.cells[q'])
            && (forall q' :: q' in r.cells && Dist(q, q') == 1 ==> r.cells[q'].visible == VisibleSet(r, q'))
  {
    ReoptimizeAllNeighbours(g2, q);
    ReculledNeighbours(g2, q);
  }

  /** A cell is not its own neighbour. */
  lemma UnitStepAway(q: Pos)
    ensures Dist(q, q) != 1
  {
  }

  /** Every other combination (nothing there to remove or recolour, and a
      falsy colour or an out-of-range target) leaves the grid unchanged. */
  lemma SetBlockIgnores(g: Grid, p: Pos, face: JsVal, color: JsVal)
    requires !(WithinBounds(g, Dest(p, face, color)) && Dest(p, face, color) in g.cells)
    requires !Truthy(EffectiveColor(face, color)) || !WithinBounds(g, Dest(p, face, color))
    ensures SetBlock(g, p, face, color) == g
  {
  }
}
