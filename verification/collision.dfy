/** Swept collision of the player's hitbox against the grid: `Block.collision`
    resolves one block, `Map.collision` gathers the blocks the hitbox could
    touch and hands each of them the movement. */
module Collision {
  import opened Values
  import opened Faces
  import opened Blocks
  import opened VoxelMap

  datatype Axis = X | Y | Z

  /** A real triple: a position, a movement, or the hitbox's half extents. */
  datatype Vec3 = Vec3(x: real, y: real, z: real)

  function Get(v: Vec3, a: Axis): real
  {
    match a
    case X => v.x
    case Y => v.y
    case Z => v.z
  }

  /** `v` with component `a` replaced. */
  function With(v: Vec3, a: Axis, r: real): (w: Vec3)
    ensures Get(w, a) == r
    ensures forall b :: b != a ==> Get(w, b) == Get(v, b)
  {
    match a
    case X => v.(x := r)
    case Y => v.(y := r)
    case Z => v.(z := r)
  }

  /** The cell coordinate of `p` along `a`. */
  function Coord(p: Pos, a: Axis): int
  {
    match a
    case X => p.x
    case Y => p.y
    case Z => p.z
  }

  /** Axes in the order the step list is built. */
  function Rank(a: Axis): nat
  {
    match a
    case X => 0
    case Y => 1
    case Z => 2
  }

  predicate IsZero(v: Vec3)
  {
    v.x == 0.0 && v.y == 0.0 && v.z == 0.0
  }

  /** `(d < 0 ? -1 : 1)`: a zero movement counts as positive. */
  function Lead(d: real): real
  {
    if d < 0.0 then -1.0 else 1.0
  }

  /** The leading corner `to` of the moved hitbox along `a`. */
  function To(half: Vec3, origin: Vec3, delta: Vec3, a: Axis): real
  {
    Get(origin, a) + Get(delta, a) + Lead(Get(delta, a)) * Get(half, a)
  }

  /** The leading corner lies outside the block's unit span along `a`. */
  predicate OutsideOn(b: Block, half: Vec3, origin: Vec3, delta: Vec3, a: Axis)
  {
    var t := To(half, origin, delta, a);
    t < Coord(b.pos, a) as real || t > Coord(b.pos, a) as real + 1.0
  }

  /** The early return: outside on all three axes at once. */
  predicate Missed(b: Block, half: Vec3, origin: Vec3, delta: Vec3)
  {
    OutsideOn(b, half, origin, delta, X) && OutsideOn(b, half, origin, delta, Y) && OutsideOn(b, half, origin, delta, Z)
  }

  /** The block face the leading corner is heading for along `a`. */
  function Destination(b: Block, delta: Vec3, a: Axis): real
  {
    if Get(delta, a) < 0.0 then Coord(b.pos, a) as real + 1.0 else Coord(b.pos, a) as real
  }

  function Travelled(b: Block, half: Vec3, origin: Vec3, delta: Vec3, a: Axis): real
  {
    Destination(b, delta, a) - To(half, origin, delta, a)
  }

  /** The step count of axis `a` before normalisation: how far back along
      the movement the face is, in units of the movement's `a` component. */
  function Key(b: Block, half: Vec3, origin: Vec3, delta: Vec3, a: Axis): real
    requires Get(delta, a) != 0.0
  {
    -Travelled(b, half, origin, delta, a) / Get(delta, a)
  }

  datatype Step = Step(axis: Axis, key: real)

  /** One entry per nonzero axis, x then y then z. */
  function Steps(b: Block, half: Vec3, origin: Vec3, delta: Vec3): (s: seq<Step>)
    ensures forall i :: 0 <= i < |s| ==> Get(delta, s[i].axis) != 0.0 && s[i].key == Key(b, half, origin, delta, s[i].axis)
    ensures forall i, j :: 0 <= i < j < |s| ==> Rank(s[i].axis) < Rank(s[j].axis)
  {
    (if delta.x != 0.0 then [Step(X, Key(b, half, origin, delta, X))] else [])
    + (if delta.y != 0.0 then [Step(Y, Key(b, half, origin, delta, Y))] else [])
    + (if delta.z != 0.0 then [Step(Z, Key(b, half, origin, delta, Z))] else [])
  }

  /** Every nonzero axis, and only those, has an entry. */
  lemma StepsCover(b: Block, half: Vec3, origin: Vec3, delta: Vec3, a: Axis)
    ensures Get(delta, a) != 0.0 <==> exists i :: 0 <= i < |Steps(b, half, origin, delta)| && Steps(b, half, origin, delta)[i].axis == a
  {
    var s := Steps(b, half, origin, delta);
    var sx := if delta.x != 0.0 then [Step(X, Key(b, half, origin, delta, X))] else [];
    var sy := if delta.y != 0.0 then [Step(Y, Key(b, half, origin, delta, Y))] else [];
    assert s == sx + sy + (if delta.z != 0.0 then [Step(Z, Key(b, half, origin, delta, Z))] else []);
    if Get(delta, a) != 0.0 {
      match a
      case X => assert s[0].axis == X;
      case Y => assert s[|sx|].axis == Y;
      case Z => assert s[|sx| + |sy|].axis == Z;
    }
  }

  /** The element a stable ascending sort puts first: a least key, the
      earliest one among equal keys. */
  function FirstMin(s: seq<Step>): (i: nat)
    requires |s| > 0
    ensures i < |s|
    ensures forall j :: 0 <= j < |s| ==> s[i].key <= s[j].key
    ensures forall j :: 0 <= j < i ==> s[i].key < s[j].key
  {
    if |s| == 1 then 0
    else
      var m := FirstMin(s[1..]) + 1;
      if s[0].key <= s[m].key then 0 else m
  }

  /** Multiplying all keys by the same positive factor keeps the first
      minimum. */
  lemma FirstMinScaled(s: seq<Step>, t: seq<Step>, m: real)
    requires 0 < |s| == |t| && m > 0.0
    requires forall i :: 0 <= i < |s| ==> t[i].key == s[i].key * m
    ensures FirstMin(t) == FirstMin(s)
  {
    forall i, j | 0 <= i < |s| && 0 <= j < |s| ensures s[i].key <= s[j].key <==> t[i].key <= t[j].key {
      ScaledPair(s[i].key, s[j].key, t[i].key, t[j].key, m);
    }
    FirstMinOrderInvariant(s, t);
  }

  lemma ScaledPair(u: real, v: real, u': real, v': real, m: real)
    requires m > 0.0 && u' == u * m && v' == v * m
    ensures u <= v <==> u' <= v'
  {
    MulPositive(u, v, m);
  }

  /** The first minimum depends only on how the keys compare. */
  lemma FirstMinOrderInvariant(s: seq<Step>, t: seq<Step>)
    requires 0 < |s| == |t|
    requires forall i, j :: 0 <= i < |s| && 0 <= j < |s| ==> (s[i].key <= s[j].key <==> t[i].key <= t[j].key)
    ensures FirstMin(s) == FirstMin(t)
  {
    var i := FirstMin(s);
    forall j | 0 <= j < |t| ensures t[i].key <= t[j].key && (j < i ==> t[i].key < t[j].key) {
      assert s[i].key <= s[j].key;
      if j < i { assert !(s[j].key <= s[i].key); }
    }
    FirstMinUnique(t, i, FirstMin(t));
  }

  lemma MulPositive(u: real, v: real, m: real)
    requires m > 0.0
    ensures u <= v <==> u * m <= v * m
    ensures u < v <==> u * m < v * m
  {
  }

  /** Two positions that are both the first minimum coincide. */
  lemma FirstMinUnique(s: seq<Step>, i: nat, k: nat)
    requires i < |s| && k < |s|
    requires forall j :: 0 <= j < |s| ==> s[i].key <= s[j].key && (j < i ==> s[i].key < s[j].key)
    requires forall j :: 0 <= j < |s| ==> s[k].key <= s[j].key && (j < k ==> s[k].key < s[j].key)
    ensures i == k
  {
    assert s[i].key <= s[k].key && s[k].key <= s[i].key;
  }

  /** The step list as the code builds it, each key divided by the
      normalised component `delta.a / m`. */
  function SourceSteps(b: Block, half: Vec3, origin: Vec3, delta: Vec3, m: real): (s: seq<Step>)
    requires m > 0.0
    ensures |s| == |Steps(b, half, origin, delta)|
  {
    var s := Steps(b, half, origin, delta);
    seq(|s|, i requires 0 <= i < |s| => Step(s[i].axis, SourceKey(b, half, origin, delta, m, s[i].axis)))
  }

  /** `-1 * travelled / vector.a`, with `vector.a = delta.a / m`. */
  function SourceKey(b: Block, half: Vec3, origin: Vec3, delta: Vec3, m: real, a: Axis): real
    requires Get(delta, a) != 0.0 && m > 0.0
  {
    -1.0 * Travelled(b, half, origin, delta, a) / (Get(delta, a) / m)
  }

  /** Normalising by the magnitude multiplies every key by it, so the code's
      choice and the unnormalised choice agree. The code divides only once
      it has seen a nonzero magnitude, that is, a nonzero movement. */
  lemma SourceStepsScale(b: Block, half: Vec3, origin: Vec3, delta: Vec3, m: real)
    requires m > 0.0 && !IsZero(delta)
    ensures |Steps(b, half, origin, delta)| > 0
    ensures FirstMin(SourceSteps(b, half, origin, delta, m)) == FirstMin(Steps(b, half, origin, delta))
  {
    var s := Steps(b, half, origin, delta);
    var t := SourceSteps(b, half, origin, delta, m);
    assert Get(delta, X) != 0.0 || Get(delta, Y) != 0.0 || Get(delta, Z) != 0.0;
    StepsCover(b, half, origin, delta, X);
    StepsCover(b, half, origin, delta, Y);
    StepsCover(b, half, origin, delta, Z);
    forall i | 0 <= i < |s| ensures t[i].key == s[i].key * m {
      SourceKeyScaled(b, half, origin, delta, m, s[i].axis);
    }
    FirstMinScaled(s, t, m);
  }

  /** One key as the code computes it is the unnormalised key times `m`. */
  lemma SourceKeyScaled(b: Block, half: Vec3, origin: Vec3, delta: Vec3, m: real, a: Axis)
    requires Get(delta, a) != 0.0 && m > 0.0
    ensures SourceKey(b, half, origin, delta, m, a) == Key(b, half, origin, delta, a) * m
  {
    DivNormalised(Travelled(b, half, origin, delta, a), Get(delta, a), m);
  }

  lemma DivNormalised(t: real, d: real, m: real)
    requires d != 0.0 && m > 0.0
    ensures -1.0 * t / (d / m) == (-t / d) * m
  {
    assert (d / m) * m == d;
  }

  /** The axis the code hands to `handle()`, if any. */
  function Chosen(b: Block, half: Vec3, origin: Vec3, delta: Vec3): Option<Axis>
  {
    var s := Steps(b, half, origin, delta);
    if |s| > 0 then Some(s[FirstMin(s)].axis) else None
  }

  /** The face of `b` the movement approaches along `a`: the plus face when
      moving in the negative direction. */
  function Approached(a: Axis, d: real): Face
  {
    match a
    case X => if d < 0.0 then XPlus else XNeg
    case Y => if d < 0.0 then YPlus else YNeg
    case Z => if d < 0.0 then ZPlus else ZNeg
  }

  /** The movement along `a` that puts the hitbox's leading edge on the
      approached face. */
  function Clamp(b: Block, half: Vec3, origin: Vec3, delta: Vec3, a: Axis): real
  {
    var d := Get(delta, a);
    var r := Coord(b.pos, a) as real - Get(origin, a) + (if d > 0.0 then -1.0 else 1.0) * Get(half, a);
    if d < 0.0 then r + 1.0 else r
  }

  /** The leading edge of the hitbox moved by `v` lies on the face of `b`
      approached by a movement of sign `d` along `a`. */
  predicate Lands(b: Block, half: Vec3, origin: Vec3, v: Vec3, d: real, a: Axis)
  {
    && (d > 0.0 ==> Get(origin, a) + Get(v, a) + Get(half, a) == Coord(b.pos, a) as real)
    && (d < 0.0 ==> Get(origin, a) + Get(v, a) - Get(half, a) == Coord(b.pos, a) as real + 1.0)
  }

  /** The approached face is clear: no block behind it, or one that does not
      collide. */
  predicate Clear(g: Grid, b: Block, a: Axis, d: real)
  {
    var nb := GetBlock(g, b.pos, Num(Code(Approached(a, d))));
    nb.None? || !nb.value.collides
  }

  /** `block.collision(player, origin, delta)`: a fresh movement that equals
      `delta` except, possibly, on the single chosen axis, clamped so the
      hitbox stops at the block. */
  function BlockCollision(g: Grid, b: Block, half: Vec3, origin: Vec3, delta: Vec3): (r: Vec3)
    ensures !b.collides ==> r == delta
    ensures Missed(b, half, origin, delta) ==> r == delta
    ensures IsZero(delta) ==> r == delta
    ensures forall a, a' :: Get(r, a) != Get(delta, a) && Get(r, a') != Get(delta, a') ==> a == a'
    ensures forall a :: Get(r, a) != Get(delta, a) ==>
              Get(delta, a) != 0.0 && Lands(b, half, origin, r, Get(delta, a), a)
  {
    if !b.collides then delta
    else if Missed(b, half, origin, delta) then delta
    else if IsZero(delta) then delta
    else
      var s := Steps(b, half, origin, delta);
      if |s| == 0 then delta
      else
        var a := s[FirstMin(s)].axis;
        if Clear(g, b, a, Get(delta, a)) then With(delta, a, Clamp(b, half, origin, delta, a))
        else delta
  }

  /** Only the chosen axis can change, and it is a nonzero axis whose key is
      least, strictly less than that of every earlier axis. */
  lemma CollisionChoosesFirstMin(g: Grid, b: Block, half: Vec3, origin: Vec3, delta: Vec3, a: Axis)
    requires Get(BlockCollision(g, b, half, origin, delta), a) != Get(delta, a)
    ensures Chosen(b, half, origin, delta) == Some(a)
    ensures Get(delta, a) != 0.0
    ensures forall a' :: Get(delta, a') != 0.0 ==>
              Key(b, half, origin, delta, a) <= Key(b, half, origin, delta, a')
              && (Rank(a') < Rank(a) ==> Key(b, half, origin, delta, a) < Key(b, half, origin, delta, a'))
  {
    var s := Steps(b, half, origin, delta);
    var i := FirstMin(s);
    forall a' | Get(delta, a') != 0.0
      ensures Key(b, half, origin, delta, a) <= Key(b, half, origin, delta, a')
      ensures Rank(a') < Rank(a) ==> Key(b, half, origin, delta, a) < Key(b, half, origin, delta, a')
    {
      StepsCover(b, half, origin, delta, a');
      var j :| 0 <= j < |s| && s[j].axis == a';
    }
  }

  /** When the chosen axis's approached face is backed by a colliding block,
      the movement is returned unchanged. */
  lemma CollisionDefers(g: Grid, b: Block, half: Vec3, origin: Vec3, delta: Vec3)
    requires Chosen(b, half, origin, delta).Some?
    requires var a := Chosen(b, half, origin, delta).value; !Clear(g, b, a, Get(delta, a))
    ensures BlockCollision(g, b, half, origin, delta) == delta
  {
  }

  /** Conversely, a colliding block that the hitbox reaches, with the chosen
      axis's face clear, clamps exactly that axis. */
  lemma CollisionClamps(g: Grid, b: Block, half: Vec3, origin: Vec3, delta: Vec3)
    requires b.collides && !Missed(b, half, origin, delta)
    requires Chosen(b, half, origin, delta).Some?
    requires var a := Chosen(b, half, origin, delta).value; Clear(g, b, a, Get(delta, a))
    ensures var a := Chosen(b, half, origin, delta).value;
            BlockCollision(g, b, half, origin, delta) == With(delta, a, Clamp(b, half, origin, delta, a))
  {
    var a := Chosen(b, half, origin, delta).value;
    assert Get(delta, a) != 0.0;
  }

  // ---------------------------------------------------------------------
  // The grid driver

  /** The integers `lo, lo + 1, ..., hi`. */
  function Span(lo: int, hi: int): (s: seq<int>)
    ensures |s| == (if hi < lo then 0 else hi - lo + 1)
    ensures forall i :: 0 <= i < |s| ==> s[i] == lo + i
    decreases hi - lo
  {
    if hi < lo then [] else [lo] + Span(lo + 1, hi)
  }

  /** The loop bounds of `Map.collision` along `a`: from the floor of the
      moved centre minus the half extent to the floor of it plus the half
      extent. */
  function Range(half: Vec3, origin: Vec3, delta: Vec3, a: Axis): seq<int>
  {
    var n := Get(origin, a) + Get(delta, a);
    Span((n - Get(half, a)).Floor, (n + Get(half, a)).Floor)
  }

  /** The innermost loop: `y` runs over `ys` for fixed `x` and `z`. */
  function Column(x: int, z: int, ys: seq<int>): (s: seq<Pos>)
    ensures forall p :: p in s <==> p.x == x && p.z == z && p.y in ys
  {
    var s := seq(|ys|, i requires 0 <= i < |ys| => Pos(x, ys[i], z));
    ColumnMembers(x, z, ys, s);
    s
  }

  /** A column holds exactly the cells of its `x` and `z` with a `y` from `ys`. */
  lemma ColumnMembers(x: int, z: int, ys: seq<int>, s: seq<Pos>)
    requires |s| == |ys| && forall i :: 0 <= i < |s| ==> s[i] == Pos(x, ys[i], z)
    ensures forall p :: p in s <==> p.x == x && p.z == z && p.y in ys
  {
    forall p: Pos | p.x == x && p.z == z && p.y in ys ensures p in s {
      var i :| 0 <= i < |ys| && ys[i] == p.y;
      assert s[i] == p;
    }
  }

  /** The middle loop over `z`. */
  function Row(x: int, zs: seq<int>, ys: seq<int>): (s: seq<Pos>)
    ensures forall p :: p in s <==> p.x == x && p.z in zs && p.y in ys
  {
    if zs == [] then [] else Column(x, zs[0], ys) + Row(x, zs[1..], ys)
  }

  /** The outer loop over `x`. */
  function Sweep(xs: seq<int>, zs: seq<int>, ys: seq<int>): (s: seq<Pos>)
    ensures forall p :: p in s <==> p.x in xs && p.z in zs && p.y in ys
  {
    if xs == [] then [] else Row(xs[0], zs, ys) + Sweep(xs[1..], zs, ys)
  }

  /** `p` comes before `q` in the x-outer, z-middle, y-inner order. */
  predicate SweepBefore(p: Pos, q: Pos)
  {
    p.x < q.x || (p.x == q.x && (p.z < q.z || (p.z == q.z && p.y < q.y)))
  }

  predicate Increasing(s: seq<int>)
  {
    forall i, j :: 0 <= i < j < |s| ==> s[i] < s[j]
  }

  /** Each cell strictly before every later one. */
  predicate Ordered(s: seq<Pos>)
  {
    forall i, j :: 0 <= i < j < |s| ==> SweepBefore(s[i], s[j])
  }

  /** Every cell of `a` strictly before every cell of `b`. */
  predicate AllBefore(a: seq<Pos>, b: seq<Pos>)
  {
    forall i, j :: 0 <= i < |a| && 0 <= j < |b| ==> SweepBefore(a[i], b[j])
  }

  /** Over increasing ranges the sweep visits cells in strictly increasing
      x-outer, z-middle, y-inner order, so it visits each cell once. */
  lemma {:induction false} SweepOrdered(xs: seq<int>, zs: seq<int>, ys: seq<int>)
    requires Increasing(xs) && Increasing(zs) && Increasing(ys)
    ensures Ordered(Sweep(xs, zs, ys))
  {
    if xs != [] {
      assert Increasing(xs[1..]);
      RowOrdered(xs[0], zs, ys);
      SweepOrdered(xs[1..], zs, ys);
      RowBeforeSweep(xs, zs, ys);
      ConcatOrdered(Row(xs[0], zs, ys), Sweep(xs[1..], zs, ys));
    }
  }

  lemma {:induction false} RowOrdered(x: int, zs: seq<int>, ys: seq<int>)
    requires Increasing(zs) && Increasing(ys)
    ensures Ordered(Row(x, zs, ys))
  {
    if zs != [] {
      assert Increasing(zs[1..]);
      RowOrdered(x, zs[1..], ys);
      ColumnBeforeRow(x, zs, ys);
      ConcatOrdered(Column(x, zs[0], ys), Row(x, zs[1..], ys));
    }
  }

  lemma ColumnBeforeRow(x: int, zs: seq<int>, ys: seq<int>)
    requires Increasing(zs) && Increasing(ys) && zs != []
    ensures Ordered(Column(x, zs[0], ys))
    ensures AllBefore(Column(x, zs[0], ys), Row(x, zs[1..], ys))
  {
    var c := Column(x, zs[0], ys);
    var t := Row(x, zs[1..], ys);
    forall i, j | 0 <= i < |c| && 0 <= j < |t| ensures SweepBefore(c[i], t[j]) {
      assert t[j] in t;
      var k :| 0 <= k < |zs[1..]| && zs[1..][k] == t[j].z;
      assert zs[0] < zs[k + 1];
    }
  }

  lemma RowBeforeSweep(xs: seq<int>, zs: seq<int>, ys: seq<int>)
    requires Increasing(xs) && xs != []
    ensures AllBefore(Row(xs[0], zs, ys), Sweep(xs[1..], zs, ys))
  {
    var r := Row(xs[0], zs, ys);
    var t := Sweep(xs[1..], zs, ys);
    forall i, j | 0 <= i < |r| && 0 <= j < |t| ensures SweepBefore(r[i], t[j]) {
      assert r[i] in r && t[j] in t;
      var k :| 0 <= k < |xs[1..]| && xs[1..][k] == t[j].x;
      assert xs[0] < xs[k + 1];
    }
  }

  /** Two ordered runs, the first entirely before the second, concatenate
      into an ordered run. */
  lemma ConcatOrdered(a: seq<Pos>, b: seq<Pos>)
    requires Ordered(a) && Ordered(b) && AllBefore(a, b)
    ensures Ordered(a + b)
  {
    var s := a + b;
    forall i, j | 0 <= i < j < |s| ensures SweepBefore(s[i], s[j]) {
      if j < |a| {
        assert s[i] == a[i] && s[j] == a[j];
      } else if i < |a| {
        assert s[i] == a[i] && s[j] == b[j - |a|];
      } else {
        assert s[i] == b[i - |a|] && s[j] == b[j - |a|];
      }
    }
  }

  /** Ordered runs hold no cell twice. */
  lemma OrderedDistinct(s: seq<Pos>)
    requires Ordered(s)
    ensures forall i, j :: 0 <= i < j < |s| ==> s[i] != s[j]
  {
  }

  /** The cells the hitbox, moved by `delta`, can overlap, in loop order. */
  function Cells(half: Vec3, origin: Vec3, delta: Vec3): seq<Pos>
  {
    Sweep(Range(half, origin, delta, X), Range(half, origin, delta, Z), Range(half, origin, delta, Y))
  }

  /** A span holds exactly the integers between its ends, in increasing
      order. */
  lemma SpanMembers(lo: int, hi: int)
    ensures Increasing(Span(lo, hi))
    ensures forall k :: k in Span(lo, hi) <==> lo <= k <= hi
  {
    var s := Span(lo, hi);
    forall k | lo <= k <= hi ensures k in s {
      assert s[k - lo] == k;
    }
  }

  /** The swept cells are exactly those whose coordinates lie, axis by axis,
      between the floors of the moved hitbox's two edges, and the loops visit
      them in strictly increasing x-outer, z-middle, y-inner order. */
  lemma CellsSwept(half: Vec3, origin: Vec3, delta: Vec3)
    ensures Ordered(Cells(half, origin, delta))
    ensures forall p :: p in Cells(half, origin, delta) <==>
              && (origin.x + delta.x - half.x).Floor <= p.x <= (origin.x + delta.x + half.x).Floor
              && (origin.y + delta.y - half.y).Floor <= p.y <= (origin.y + delta.y + half.y).Floor
              && (origin.z + delta.z - half.z).Floor <= p.z <= (origin.z + delta.z + half.z).Floor
  {
    var xs := Range(half, origin, delta, X);
    var ys := Range(half, origin, delta, Y);
    var zs := Range(half, origin, delta, Z);
    RangeMembers(half, origin, delta, X);
    RangeMembers(half, origin, delta, Y);
    RangeMembers(half, origin, delta, Z);
    SweepOrdered(xs, zs, ys);
    assert Cells(half, origin, delta) == Sweep(xs, zs, ys);
  }

  /** The loop bounds along one axis. */
  lemma RangeMembers(half: Vec3, origin: Vec3, delta: Vec3, a: Axis)
    ensures Increasing(Range(half, origin, delta, a))
    ensures forall k :: k in Range(half, origin, delta, a) <==>
              (Get(origin, a) + Get(delta, a) - Get(half, a)).Floor <= k <= (Get(origin, a) + Get(delta, a) + Get(half, a)).Floor
  {
    var n := Get(origin, a) + Get(delta, a);
    SpanMembers((n - Get(half, a)).Floor, (n + Get(half, a)).Floor);
  }

  /** `testing`: the lookup `getBlock(x, y, z)` of every swept cell. With no
      face the lookup addresses the swept cell itself: an entry is present
      exactly when that cell is in range and occupied, and then it is the
      block stored there. */
  function Lookups(g: Grid, cells: seq<Pos>): (s: seq<Option<Block>>)
    ensures |s| == |cells|
    ensures forall i :: 0 <= i < |s| ==> (s[i].Some? <==> WithinBounds(g, cells[i]) && cells[i] in g.cells)
    ensures forall i :: 0 <= i < |s| && s[i].Some? ==> s[i].value == g.cells[cells[i]]
  {
    var s := seq(|cells|, i requires 0 <= i < |cells| => GetBlock(g, cells[i], Undefined));
    assert forall i :: 0 <= i < |cells| ==> Translate(cells[i], Undefined) == cells[i];
    s
  }

  /** The filter's test for entry `i`: present, and no earlier present entry
      has the same coordinates. */
  predicate Kept(s: seq<Option<Block>>, i: nat)
    requires i < |s|
  {
    s[i].Some? && forall j :: 0 <= j < i && s[j].Some? ==> !SamePosition(s[j].value, s[i].value)
  }

  /** `testing.filter(...)`: the present entries that are the first with
      their coordinates, in order. */
  function Dedup(s: seq<Option<Block>>): seq<Block>
  {
    if s == [] then []
    else
      var n := |s| - 1;
      Dedup(s[..n]) + (if Kept(s, n) then [s[n].value] else [])
  }

  /** Every kept block is an entry of the list. */
  lemma {:induction false} DedupFrom(s: seq<Option<Block>>)
    ensures forall b :: b in Dedup(s) ==> Some(b) in s
  {
    if s != [] {
      var n := |s| - 1;
      DedupFrom(s[..n]);
      assert forall o :: o in s[..n] ==> o in s;
    }
  }

  /** No two kept blocks share coordinates. */
  lemma {:induction false} DedupDistinct(s: seq<Option<Block>>)
    ensures var r := Dedup(s);
            forall i, j :: 0 <= i < j < |r| ==> !SamePosition(r[i], r[j])
  {
    if s != [] {
      var n := |s| - 1;
      var r0 := Dedup(s[..n]);
      DedupDistinct(s[..n]);
      assert forall i, j :: 0 <= i < j < |Dedup(s[..n])| ==> !SamePosition(Dedup(s[..n])[i], Dedup(s[..n])[j]);
      if Kept(s, n) {
        assert forall j :: 0 <= j < n ==> s[..n][j] == s[j];
        DedupFrom(s[..n]);
        DedupNotSeen(s[..n], r0, s[n].value);
        var r := r0 + [s[n].value];
        assert Dedup(s) == r;
        forall i, j | 0 <= i < j < |r| ensures !SamePosition(r[i], r[j]) {
          if j < |r0| { assert r[i] == r0[i] && r[j] == r0[j]; }
          else { assert r[i] == r0[i] && r[j] == s[n].value; }
        }
      }
    }
  }

  /** Every present entry has a kept block with its coordinates. */
  lemma {:induction false} DedupCovers(s: seq<Option<Block>>)
    ensures forall i :: 0 <= i < |s| && s[i].Some? ==> exists b :: b in Dedup(s) && SamePosition(b, s[i].value)
  {
    if s != [] {
      var n := |s| - 1;
      var r0 := Dedup(s[..n]);
      var r := Dedup(s);
      DedupCovers(s[..n]);
      assert forall b :: b in r0 ==> b in r;
      forall i | 0 <= i < |s| && s[i].Some? ensures exists b :: b in r && SamePosition(b, s[i].value) {
        if i < n {
          assert s[..n][i] == s[i];
        } else if Kept(s, n) {
          assert s[n].value in r;
        } else {
          var j :| 0 <= j < n && s[j].Some? && SamePosition(s[j].value, s[n].value);
          assert s[..n][j] == s[j];
          var b :| b in r0 && SamePosition(b, s[j].value);
          assert b in r;
        }
      }
    }
  }

  /** When no entry of `s` shares coordinates with `b`, neither does any
      entry of its deduplication. */
  lemma DedupNotSeen(s: seq<Option<Block>>, r: seq<Block>, b: Block)
    requires forall c :: c in r ==> Some(c) in s
    requires forall j :: 0 <= j < |s| && s[j].Some? ==> !SamePosition(s[j].value, b)
    ensures forall i :: 0 <= i < |r| ==> !SamePosition(r[i], b)
  {
    forall i | 0 <= i < |r| ensures !SamePosition(r[i], b) {
      assert r[i] in r;
      var j :| 0 <= j < |s| && s[j] == Some(r[i]);
    }
  }

  /** The blocks `Map.collision` hands the movement to. */
  function Candidates(g: Grid, half: Vec3, origin: Vec3, delta: Vec3): seq<Block>
  {
    Dedup(Lookups(g, Cells(half, origin, delta)))
  }

  /** In a well-formed grid the candidates are stored blocks of swept
      cells, every occupied swept cell has its candidate, and no two
      candidates share a cell. */
  lemma CandidatesSpec(g: Grid, half: Vec3, origin: Vec3, delta: Vec3)
    requires WellFormed(g)
    ensures var c := Candidates(g, half, origin, delta);
            var cells := Cells(half, origin, delta);
            && (forall b :: b in c ==> b.pos in cells && b.pos in g.cells && g.cells[b.pos] == b)
            && (forall p :: p in cells && p in g.cells ==> exists b :: b in c && b.pos == p)
            && (forall i, j :: 0 <= i < j < |c| ==> c[i].pos != c[j].pos)
            && BlocksOrdered(c)
  {
    var cells := Cells(half, origin, delta);
    CandidatesStored(g, cells);
    CandidatesCover(g, cells);
    CandidatesDistinct(Lookups(g, cells));
    CellsSwept(half, origin, delta);
    LookupsOrdered(g, cells);
    DedupOrdered(Lookups(g, cells));
  }

  /** The blocks' cells come in strictly increasing sweep order. */
  predicate BlocksOrdered(bs: seq<Block>)
  {
    forall i, j :: 0 <= i < j < |bs| ==> SweepBefore(bs[i].pos, bs[j].pos)
  }

  /** The present entries' cells come in strictly increasing sweep order. */
  predicate PresentOrdered(s: seq<Option<Block>>)
  {
    forall i, j :: 0 <= i < j < |s| && s[i].Some? && s[j].Some? ==> SweepBefore(s[i].value.pos, s[j].value.pos)
  }

  /** In a well-formed grid a found block sits in the cell it was looked up
      in, so lookups along an ordered sweep find blocks in that order. */
  lemma LookupsOrdered(g: Grid, cells: seq<Pos>)
    requires WellFormed(g) && Ordered(cells)
    ensures PresentOrdered(Lookups(g, cells))
  {
    var s := Lookups(g, cells);
    forall i | 0 <= i < |s| && s[i].Some? ensures s[i].value.pos == cells[i] {
      TranslateSteps(cells[i], Undefined);
    }
  }

  /** The filter keeps the order of what it keeps. */
  lemma {:induction false} DedupOrdered(s: seq<Option<Block>>)
    requires PresentOrdered(s)
    ensures BlocksOrdered(Dedup(s))
  {
    if s != [] {
      var n := |s| - 1;
      var r0 := Dedup(s[..n]);
      assert forall j :: 0 <= j < n ==> s[..n][j] == s[j];
      DedupOrdered(s[..n]);
      if Kept(s, n) {
        DedupFrom(s[..n]);
        var r := r0 + [s[n].value];
        assert Dedup(s) == r;
        forall i, j | 0 <= i < j < |r| ensures SweepBefore(r[i].pos, r[j].pos) {
          if j < |r0| {
            assert r[i] == r0[i] && r[j] == r0[j];
          } else {
            assert r[i] == r0[i] && r[i] in r0 && r[j] == s[n].value;
            var k :| 0 <= k < n && s[..n][k] == Some(r[i]);
            assert s[k] == Some(r[i]);
          }
        }
      } else {
        assert Dedup(s) == r0;
      }
    }
  }

  lemma CandidatesDistinct(s: seq<Option<Block>>)
    ensures forall i, j :: 0 <= i < j < |Dedup(s)| ==> Dedup(s)[i].pos != Dedup(s)[j].pos
  {
    DedupDistinct(s);
    assert forall i, j :: 0 <= i < j < |Dedup(s)| ==> !SamePosition(Dedup(s)[i], Dedup(s)[j]);
  }

  lemma CandidatesStored(g: Grid, cells: seq<Pos>)
    requires WellFormed(g)
    ensures forall b :: b in Dedup(Lookups(g, cells)) ==> b.pos in cells && b.pos in g.cells && g.cells[b.pos] == b
  {
    var s := Lookups(g, cells);
    DedupFrom(s);
    forall b | b in Dedup(s) ensures b.pos in cells && b.pos in g.cells && g.cells[b.pos] == b {
      var i :| 0 <= i < |s| && s[i] == Some(b);
      assert cells[i] in cells;
    }
  }

  lemma CandidatesCover(g: Grid, cells: seq<Pos>)
    requires WellFormed(g)
    ensures forall p :: p in cells && p in g.cells ==> exists b :: b in Dedup(Lookups(g, cells)) && b.pos == p
  {
    var s := Lookups(g, cells);
    DedupCovers(s);
    forall p | p in cells && p in g.cells ensures exists b :: b in Dedup(s) && b.pos == p {
      var i :| 0 <= i < |cells| && cells[i] == p;
      assert s[i].Some?;
    }
  }

  /** `Map.collision` as written: each block's fresh result is dropped, so
      the movement the caller goes on to use is the one it passed in. */
  function DiscardAll(g: Grid, bs: seq<Block>, half: Vec3, origin: Vec3, delta: Vec3): (r: Vec3)
    ensures r == delta
  {
    if bs == [] then delta
    else
      var _ := BlockCollision(g, bs[0], half, origin, delta);
      DiscardAll(g, bs[1..], half, origin, delta)
  }

  function MapCollisionAsWritten(g: Grid, half: Vec3, origin: Vec3, delta: Vec3): (r: Vec3)
    ensures r == delta
  {
    DiscardAll(g, Candidates(g, half, origin, delta), half, origin, delta)
  }

  /** The evident intent: each block's result becomes the movement the next
      block sees. */
  function Fold(g: Grid, bs: seq<Block>, half: Vec3, origin: Vec3, delta: Vec3): (r: Vec3)
    ensures forall a :: Get(delta, a) == 0.0 ==> Get(r, a) == 0.0
    ensures (forall b :: b in bs ==> !b.collides) ==> r == delta
    decreases |bs|
  {
    if bs == [] then delta
    else
      assert forall b :: b in bs[1..] ==> b in bs;
      Fold(g, bs[1..], half, origin, BlockCollision(g, bs[0], half, origin, delta))
  }

  /** `Map.collision` with each result folded in: an axis the player does
      not move along stays still. */
  function MapCollision(g: Grid, half: Vec3, origin: Vec3, delta: Vec3): (r: Vec3)
    ensures forall a :: Get(delta, a) == 0.0 ==> Get(r, a) == 0.0
  {
    Fold(g, Candidates(g, half, origin, delta), half, origin, delta)
  }

  /** In a well-formed grid without solid blocks the corrected driver
      returns the requested movement: every candidate is a stored block. */
  lemma MapCollisionSolidFree(g: Grid, half: Vec3, origin: Vec3, delta: Vec3)
    requires WellFormed(g)
    requires forall p :: p in g.cells ==> !g.cells[p].collides
    ensures MapCollision(g, half, origin, delta) == delta
  {
    CandidatesStored(g, Cells(half, origin, delta));
  }

  /** The hitbox moved by `v` has an edge on one of the two faces of `b`
      across axis `a`. */
  predicate OnFace(b: Block, half: Vec3, origin: Vec3, v: Vec3, a: Axis)
  {
    || Get(origin, a) + Get(v, a) + Get(half, a) == Coord(b.pos, a) as real
    || Get(origin, a) + Get(v, a) - Get(half, a) == Coord(b.pos, a) as real + 1.0
  }

  /** Along every axis the final movement is either the requested one or
      puts the hitbox's edge on a face of one of the blocks. */
  predicate OnSomeFace(bs: seq<Block>, half: Vec3, origin: Vec3, v: Vec3, a: Axis)
  {
    exists i :: 0 <= i < |bs| && OnFace(bs[i], half, origin, v, a)
  }

  /** A clamp along a moving axis lands on a face. */
  lemma LandsOnFace(b: Block, half: Vec3, origin: Vec3, v: Vec3, d: real, a: Axis)
    requires d != 0.0 && Lands(b, half, origin, v, d, a)
    ensures OnFace(b, half, origin, v, a)
  {
  }

  lemma {:induction false} FoldLands(g: Grid, bs: seq<Block>, half: Vec3, origin: Vec3, delta: Vec3, a: Axis)
    ensures var r := Fold(g, bs, half, origin, delta);
            Get(r, a) == Get(delta, a) || OnSomeFace(bs, half, origin, r, a)
    decreases |bs|
  {
    if bs != [] {
      var d1 := BlockCollision(g, bs[0], half, origin, delta);
      var r := Fold(g, bs[1..], half, origin, d1);
      assert Fold(g, bs, half, origin, delta) == r;
      FoldLands(g, bs[1..], half, origin, d1, a);
      if Get(r, a) == Get(d1, a) {
        if Get(d1, a) != Get(delta, a) {
          LandsOnFace(bs[0], half, origin, d1, Get(delta, a), a);
          assert OnFace(bs[0], half, origin, r, a);
        }
      } else {
        var i :| 0 <= i < |bs[1..]| && OnFace(bs[1..][i], half, origin, r, a);
        assert bs[1..][i] == bs[i + 1];
      }
    }
  }

  /** The corrected driver resolves every axis: an axis with no movement
      stays still, and a changed axis puts the hitbox's edge on a face of
      one of the candidate blocks. */
  lemma MapCollisionLands(g: Grid, half: Vec3, origin: Vec3, delta: Vec3, a: Axis)
    ensures var r := MapCollision(g, half, origin, delta);
            && (Get(delta, a) == 0.0 ==> Get(r, a) == 0.0)
            && (Get(r, a) == Get(delta, a) || OnSomeFace(Candidates(g, half, origin, delta), half, origin, r, a))
  {
    FoldLands(g, Candidates(g, half, origin, delta), half, origin, delta, a);
  }

  // ---------------------------------------------------------------------
  // The discarded result, on a concrete input

  /** A 1 x 1 x 1 grid holding one block in its only cell. */
  function OneBlockGrid(): (g: Grid)
    ensures WellFormed(g)
    ensures Pos(0, 0, 0) in g.cells && g.cells[Pos(0, 0, 0)].collides
  {
    Grid(1, 1, 1, map[Pos(0, 0, 0) := NewBlock(Pos(0, 0, 0), 0x280e02)])
  }

  const ExampleHalf := Vec3(0.25, 0.25, 0.25)
  const ExampleOrigin := Vec3(0.5, 1.5, 0.5)
  const ExampleDelta := Vec3(0.0, -0.5, 0.0)

  /** Falling by 0.5 from height 1.5 sweeps the cells (0, 0, 0) and
      (0, 1, 0), in that order. */
  lemma ExampleCells()
    ensures Cells(ExampleHalf, ExampleOrigin, ExampleDelta) == [Pos(0, 0, 0), Pos(0, 1, 0)]
  {
    assert (0.25).Floor == 0 && (0.75).Floor == 0 && (1.25).Floor == 1;
    assert Range(ExampleHalf, ExampleOrigin, ExampleDelta, X) == [0];
    assert Range(ExampleHalf, ExampleOrigin, ExampleDelta, Z) == [0];
    assert Range(ExampleHalf, ExampleOrigin, ExampleDelta, Y) == [0, 1];
    assert Row(0, [0], [0, 1]) == Column(0, 0, [0, 1]);
  }

  /** Only the first swept cell is occupied, so it is the one candidate. */
  lemma ExampleCandidates()
    ensures Candidates(OneBlockGrid(), ExampleHalf, ExampleOrigin, ExampleDelta)
            == [OneBlockGrid().cells[Pos(0, 0, 0)]]
  {
    ExampleCells();
    ExampleLookups();
    DedupOccupiedThenEmpty(OneBlockGrid().cells[Pos(0, 0, 0)]);
  }

  /** The lookup of (0, 1, 0) falls outside the one-layer grid. */
  lemma ExampleLookups()
    ensures Lookups(OneBlockGrid(), [Pos(0, 0, 0), Pos(0, 1, 0)]) == [Some(OneBlockGrid().cells[Pos(0, 0, 0)]), None]
  {
    var g := OneBlockGrid();
    assert GetBlock(g, Pos(0, 1, 0), Undefined) == None;
    assert GetBlock(g, Pos(0, 0, 0), Undefined) == Some(g.cells[Pos(0, 0, 0)]);
  }

  /** One occupied lookup followed by an empty one leaves that block. */
  lemma DedupOccupiedThenEmpty(b: Block)
    ensures Dedup([Some(b), None]) == [b]
  {
    var s := [Some(b), None];
    assert s[..1] == [Some(b)];
    assert [Some(b)][..0] == [];
    assert Kept([Some(b)], 0) && !Kept(s, 1);
    assert Dedup([Some(b)]) == Dedup([]) + [b];
    assert Dedup(s) == Dedup([Some(b)]) + [];
  }

  /** That block stops the fall on its top face: the movement along y is cut
      from -0.5 to -0.25. */
  lemma ExampleBlockCollision()
    ensures BlockCollision(OneBlockGrid(), OneBlockGrid().cells[Pos(0, 0, 0)], ExampleHalf, ExampleOrigin, ExampleDelta)
            == Vec3(0.0, -0.25, 0.0)
  {
    var g := OneBlockGrid();
    var b := g.cells[Pos(0, 0, 0)];
    assert !Missed(b, ExampleHalf, ExampleOrigin, ExampleDelta);
    assert Steps(b, ExampleHalf, ExampleOrigin, ExampleDelta) == [Step(Y, 0.5)];
    assert Clear(g, b, Y, -0.5);
  }

  /** A player of half extent 0.25 whose centre is at height 1.5 above that
      block falls by 0.5. The driver as written lets the bottom of the hitbox
      sink to 0.75, inside the block; folding the results stops it on the
      top face at height 1. */
  lemma DiscardedResolution()
    ensures var g := OneBlockGrid();
            && MapCollisionAsWritten(g, ExampleHalf, ExampleOrigin, ExampleDelta) == ExampleDelta
            && ExampleOrigin.y + MapCollisionAsWritten(g, ExampleHalf, ExampleOrigin, ExampleDelta).y - ExampleHalf.y == 0.75
            && MapCollision(g, ExampleHalf, ExampleOrigin, ExampleDelta) == Vec3(0.0, -0.25, 0.0)
            && ExampleOrigin.y + MapCollision(g, ExampleHalf, ExampleOrigin, ExampleDelta).y - ExampleHalf.y == 1.0
  {
    var g := OneBlockGrid();
    var b := g.cells[Pos(0, 0, 0)];
    ExampleCandidates();
    ExampleBlockCollision();
    assert Fold(g, [b], ExampleHalf, ExampleOrigin, ExampleDelta)
        == Fold(g, [], ExampleHalf, ExampleOrigin, Vec3(0.0, -0.25, 0.0));
  }
}
