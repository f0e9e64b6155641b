/** The six axis-aligned faces of a voxel, their numeric codes, and the
    neighbour offset `translate` on which all grid lookups are built. */
module Faces {
  import opened Values

  /** An integer lattice cell. */
  datatype Pos = Pos(x: int, y: int, z: int)

  datatype Face = XPlus | XNeg | YPlus | YNeg | ZPlus | ZNeg

  /** The order in which the client walks the faces (`faceArray`). */
  const FaceOrder: seq<Face> := [XPlus, XNeg, YPlus, YNeg, ZPlus, ZNeg]

  const AllFaces: set<Face> := {XPlus, XNeg, YPlus, YNeg, ZPlus, ZNeg}

  /** The exported constant of each face: X_PLUS = 1 up to Z_NEG = 6. */
  function Code(f: Face): (c: int)
    ensures 1 <= c <= 6
    ensures Truthy(Num(c))
  {
    match f
    case XPlus => 1
    case XNeg => 2
    case YPlus => 3
    case YNeg => 4
    case ZPlus => 5
    case ZNeg => 6
  }

  /** The face a code names, if any. */
  function FromCode(c: int): (r: Option<Face>)
    ensures r.Some? <==> 1 <= c <= 6
    ensures r.Some? ==> Code(r.value) == c
  {
    if c == 1 then Some(XPlus)
    else if c == 2 then Some(XNeg)
    else if c == 3 then Some(YPlus)
    else if c == 4 then Some(YNeg)
    else if c == 5 then Some(ZPlus)
    else if c == 6 then Some(ZNeg)
    else None
  }

  /** `translate(x, y, z, type)`: the cell one step through face `type`;
      any argument that is not one of the six codes (including `undefined`)
      leaves the cell where it is. */
  function Translate(p: Pos, v: JsVal): (q: Pos)
    ensures !(v.Num? && 1 <= v.n <= 6) ==> q == p
  {
    if v.Num? then
      if v.n == 1 then Pos(p.x + 1, p.y, p.z)
      else if v.n == 2 then Pos(p.x - 1, p.y, p.z)
      else if v.n == 3 then Pos(p.x, p.y + 1, p.z)
      else if v.n == 4 then Pos(p.x, p.y - 1, p.z)
      else if v.n == 5 then Pos(p.x, p.y, p.z + 1)
      else if v.n == 6 then Pos(p.x, p.y, p.z - 1)
      else p
    else p
  }

  function Abs(n: int): nat
  {
    if n < 0 then -n else n
  }

  /** Manhattan distance between two cells; 1 means exactly one coordinate
      differs, by exactly one. */
  function Dist(p: Pos, q: Pos): nat
  {
    Abs(p.x - q.x) + Abs(p.y - q.y) + Abs(p.z - q.z)
  }

  /** The neighbour of `p` through face `f`. */
  function Neighbour(p: Pos, f: Face): Pos
  {
    Translate(p, Num(Code(f)))
  }

  /** The face pointing the other way along the same axis. */
  function Opposite(f: Face): (g: Face)
    ensures g != f
    ensures Code(g) == (if Code(f) % 2 == 1 then Code(f) + 1 else Code(f) - 1)
  {
    match f
    case XPlus => XNeg
    case XNeg => XPlus
    case YPlus => YNeg
    case YNeg => YPlus
    case ZPlus => ZNeg
    case ZNeg => ZPlus
  }

  /** Each of the six codes moves exactly one coordinate by exactly one. */
  lemma UnitStep(p: Pos, f: Face)
    ensures Dist(p, Neighbour(p, f)) == 1
    ensures Neighbour(p, f) != p
  {
  }

  /** `translate` with a code in 1..6 moves by exactly one unit step; any
      other argument, `undefined` and `null` included, is the identity. */
  lemma TranslateSteps(p: Pos, v: JsVal)
    ensures v.Num? && 1 <= v.n <= 6 ==> Dist(p, Translate(p, v)) == 1
    ensures !(v.Num? && 1 <= v.n <= 6) ==> Translate(p, v) == p
  {
  }

  /** Opposite faces undo each other: X_PLUS then X_NEG is the identity, and
      likewise for every face and its opposite. */
  lemma OppositeInverse(p: Pos, f: Face)
    ensures Neighbour(Neighbour(p, f), Opposite(f)) == p
  {
  }

  /** The six neighbours of a cell are pairwise distinct. */
  lemma NeighboursDistinct(p: Pos, f: Face, g: Face)
    ensures f != g ==> Neighbour(p, f) != Neighbour(p, g)
  {
  }

  /** The neighbour relation is symmetric: if `p` is `q`'s neighbour through
      `f`, then `q` is `p`'s neighbour through the opposite face. */
  lemma NeighbourSymmetric(p: Pos, q: Pos, f: Face)
    ensures Neighbour(q, f) == p <==> q == Neighbour(p, Opposite(f))
  {
    OppositeInverse(q, f);
    OppositeInverse(p, Opposite(f));
  }

  /** The cells one unit step away from `c` are exactly its six face
      neighbours. */
  lemma AdjacentIsNeighbour(c: Pos, q: Pos)
    ensures Dist(c, q) == 1 <==> exists f :: q == Neighbour(c, f)
  {
    if Dist(c, q) == 1 {
      if q.x == c.x + 1 { assert q == Neighbour(c, XPlus); }
      else if q.x == c.x - 1 { assert q == Neighbour(c, XNeg); }
      else if q.y == c.y + 1 { assert q == Neighbour(c, YPlus); }
      else if q.y == c.y - 1 { assert q == Neighbour(c, YNeg); }
      else if q.z == c.z + 1 { assert q == Neighbour(c, ZPlus); }
      else { assert q == Neighbour(c, ZNeg); }
    }
    if exists f :: q == Neighbour(c, f) {
      var f :| q == Neighbour(c, f);
      UnitStep(c, f);
    }
  }

  /** `FaceOrder` lists every face exactly once. */
  lemma FaceOrderComplete()
    ensures forall f :: f in FaceOrder && f in AllFaces
    ensures forall i, j :: 0 <= i < j < |FaceOrder| ==> FaceOrder[i] != FaceOrder[j]
  {
    forall f: Face ensures f in FaceOrder && f in AllFaces {
      match f
      case XPlus =>
      case XNeg =>
      case YPlus =>
      case YNeg =>
      case ZPlus =>
      case ZNeg =>
    }
  }
}
