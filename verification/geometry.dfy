/** Pixel geometry of the arena: the four facing directions, whole-pixel
    positions, sprite-box overlap and centre-distance overlap.

    Every sprite is one level cell, SpriteWidth by SpriteHeight pixels, and
    its centre is its position plus half a cell on each axis.  Two centres
    are therefore exactly as far apart as the two positions, and since the
    engine only compares distances with the radii 10, 80 and 1000 or with
    each other, squared integer distances decide every comparison exactly. */
module Geometry {

  /** Size of one sprite (and one level cell), in pixels. */
  const SpriteWidth: int := 16
  const SpriteHeight: int := 16

  /** Centre distance below which two actors overlap (activation, vomit reach). */
  const OverlapRadius: int := 10
  /** Centre distance below which citizens follow or flee and smart zombies chase. */
  const SightRadius: int := 80
  /** Initial "best distance" of the nearest-actor searches. */
  const SearchRadius: int := 1000

  datatype Dir = Up | Down | Left | Right

  datatype Pos = Pos(x: int, y: int)

  /** The four directions in the order the engine indexes them with a draw in [0,3]. */
  const AllDirs: seq<Dir> := [Up, Down, Left, Right]

  predicate Vertical(d: Dir) {
    d == Up || d == Down
  }

  function Opposite(d: Dir): Dir {
    match d
    case Up => Down
    case Down => Up
    case Left => Right
    case Right => Left
  }

  function Sq(n: int): int {
    n * n
  }

  function Abs(n: int): nat {
    if n < 0 then -n else n
  }

  /** Squared distance between two positions (equivalently, between the two sprites' centres). */
  function Dist2(p: Pos, q: Pos): int {
    Sq(p.x - q.x) + Sq(p.y - q.y)
  }

  /** `p` moved `n` pixels along `d`: up is +y, down is -y, left is -x, right is +x. */
  function Shift(p: Pos, d: Dir, n: int): (q: Pos)
    ensures Vertical(d) ==> q.x == p.x
    ensures !Vertical(d) ==> q.y == p.y
    ensures Vertical(d) ==> q.y - p.y == (if d == Up then n else -n)
    ensures !Vertical(d) ==> q.x - p.x == (if d == Right then n else -n)
  {
    match d
    case Up => Pos(p.x, p.y + n)
    case Down => Pos(p.x, p.y - n)
    case Left => Pos(p.x - n, p.y)
    case Right => Pos(p.x + n, p.y)
  }

  /** A shift by `n` pixels covers a distance of exactly `n`. */
  lemma ShiftDistance(p: Pos, d: Dir, n: int)
    ensures Dist2(p, Shift(p, d, n)) == Sq(n)
  {
  }

  /** Pixel position of the lower-left corner of level cell (col, row). */
  function CellOrigin(col: int, row: int): Pos {
    Pos(SpriteWidth * col, SpriteHeight * row)
  }

  /** The sprite whose corner is at `p` covers the point `q`: both coordinate
      differences are strictly below one sprite size. */
  predicate SpriteOverlap(p: Pos, q: Pos) {
    Abs(p.x - q.x) < SpriteWidth && Abs(p.y - q.y) < SpriteHeight
  }

  /** The centres of sprites at `p` and `q` are less than `r` pixels apart. */
  predicate Within(p: Pos, q: Pos, r: int) {
    Dist2(p, q) < Sq(r)
  }

  /** Two actors overlap for activation purposes: centre distance below 10. */
  predicate CentresClose(p: Pos, q: Pos) {
    Within(p, q, OverlapRadius)
  }

  /** Moving `d` from `p` heads toward `q` on d's own axis. */
  predicate Toward(p: Pos, q: Pos, d: Dir) {
    match d
    case Up => q.y > p.y
    case Down => q.y < p.y
    case Left => q.x < p.x
    case Right => q.x > p.x
  }

  lemma ShiftThenBack(p: Pos, d: Dir, n: int)
    ensures Shift(Shift(p, d, n), Opposite(d), n) == p
  {
  }

  /** Moving one cell from a cell's corner lands on the neighbouring cell's corner. */
  lemma ShiftByOneCell(col: int, row: int)
    ensures Shift(CellOrigin(col, row), Up, SpriteHeight) == CellOrigin(col, row + 1)
    ensures Shift(CellOrigin(col, row), Down, SpriteHeight) == CellOrigin(col, row - 1)
    ensures Shift(CellOrigin(col, row), Left, SpriteWidth) == CellOrigin(col - 1, row)
    ensures Shift(CellOrigin(col, row), Right, SpriteWidth) == CellOrigin(col + 1, row)
  {
  }

  /** Overlap is strict: sprites one full cell apart on an axis do not overlap,
      while offsets below one cell on both axes do. */
  lemma OverlapIsStrict(p: Pos, d: Dir, n: int)
    ensures SpriteOverlap(p, Shift(p, d, n)) <==> Abs(n) < SpriteWidth
  {
  }

  /** Sprites of two different level cells never overlap. */
  lemma DistinctCellsDoNotOverlap(c1: int, r1: int, c2: int, r2: int)
    requires (c1, r1) != (c2, r2)
    ensures !SpriteOverlap(CellOrigin(c1, r1), CellOrigin(c2, r2))
  {
    if c1 != c2 {
      assert Abs(SpriteWidth * c1 - SpriteWidth * c2) >= SpriteWidth;
    } else {
      assert Abs(SpriteHeight * r1 - SpriteHeight * r2) >= SpriteHeight;
    }
  }

  lemma SquareAtLeast(a: int, b: nat)
    requires Abs(a) >= b
    ensures Sq(a) >= Sq(b)
  {
    var m := Abs(a);
    assert Sq(a) == m * m;
    assert m * m >= b * m >= b * b;
  }

  /** Centre-distance overlap implies sprite-box overlap: a centre distance
      below 10 keeps both coordinate differences below 10 < 16. */
  lemma CloseImpliesOverlap(p: Pos, q: Pos)
    requires CentresClose(p, q)
    ensures SpriteOverlap(p, q)
  {
    if Abs(p.x - q.x) >= OverlapRadius {
      SquareAtLeast(p.x - q.x, OverlapRadius);
      assert false;
    }
    if Abs(p.y - q.y) >= OverlapRadius {
      SquareAtLeast(p.y - q.y, OverlapRadius);
      assert false;
    }
  }

  /** A one-pixel step toward a point on the step's axis strictly reduces the
      distance to it. */
  lemma StepTowardIsCloser(p: Pos, q: Pos, d: Dir)
    requires Toward(p, q, d)
    ensures Dist2(Shift(p, d, 1), q) < Dist2(p, q)
  {
  }

  /** A two-pixel step toward a point on the step's axis never increases the
      distance to it, and reduces it unless the point is one pixel away on
      that axis. */
  lemma TwoStepsTowardNotFarther(p: Pos, q: Pos, d: Dir)
    requires Toward(p, q, d)
    ensures Dist2(Shift(p, d, 2), q) <= Dist2(p, q)
    ensures (if Vertical(d) then Abs(q.y - p.y) else Abs(q.x - p.x)) >= 2 ==> Dist2(Shift(p, d, 2), q) < Dist2(p, q)
  {
  }

  lemma Dist2Symmetric(p: Pos, q: Pos)
    ensures Dist2(p, q) == Dist2(q, p)
  {
  }

  lemma Dist2ZeroIffSame(p: Pos, q: Pos)
    ensures Dist2(p, q) >= 0
    ensures Dist2(p, q) == 0 <==> p == q
  {
    if p != q {
      if p.x != q.x {
        SquareAtLeast(p.x - q.x, 1);
      } else {
        SquareAtLeast(p.y - q.y, 1);
      }
    }
  }
}
