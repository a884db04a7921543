/**
 * Integer grid positions and distances (`infra/CommonTypes.go`, `infra/Grid.go`).
 *
 * The source measures distance as the square root of the squared Euclidean
 * distance. Every caller only compares distances, so the model works with
 * the squared distance, and `RootOrder` shows that comparing square roots
 * and comparing their squares always agree.
 */
module Geometry {

  datatype Position = Position(x: int, y: int) {
    function Add(o: Position): Position {
      Position(x + o.x, y + o.y)
    }

    function Sub(o: Position): Position {
      Position(x - o.x, y - o.y)
    }
  }

  /** The zero vector, returned by the movement policies when they have no target. */
  const Origin := Position(0, 0)

  /** Squared Euclidean distance: the radicand of `PositionVector.Dist`. */
  function SqDist(p: Position, q: Position): (d: nat)
    ensures d == 0 <==> p == q
  {
    var dx := p.x - q.x;
    var dy := p.y - q.y;
    SquareZero(dx);
    SquareZero(dy);
    dx * dx + dy * dy
  }

  lemma SquareZero(n: int)
    ensures n * n >= 0
    ensures n * n == 0 <==> n == 0
  {
    if n < 0 {
      assert n * n == (-n) * (-n);
    }
  }

  lemma SqDistSymmetric(p: Position, q: Position)
    ensures SqDist(p, q) == SqDist(q, p)
  {
    assert (p.x - q.x) * (p.x - q.x) == (q.x - p.x) * (q.x - p.x);
    assert (p.y - q.y) * (p.y - q.y) == (q.y - p.y) * (q.y - p.y);
  }

  /** `d` is the non-negative square root of `v` (what `math.Sqrt` returns, up to rounding). */
  ghost predicate IsRoot(d: real, v: nat) {
    0.0 <= d && d * d == v as real
  }

  /** Square roots are ordered exactly as their radicands are. */
  lemma RootOrder(d1: real, v1: nat, d2: real, v2: nat)
    requires IsRoot(d1, v1) && IsRoot(d2, v2)
    ensures d1 < d2 <==> v1 < v2
    ensures d1 == d2 <==> v1 == v2
  {
    if d1 < d2 {
      SquareGrows(d1, d2);
      assert v1 as real < v2 as real;
    } else if d2 < d1 {
      SquareGrows(d2, d1);
      assert v2 as real < v1 as real;
    }
  }

  lemma SquareGrows(a: real, b: real)
    requires 0.0 <= a < b
    ensures a * a < b * b
  {
    var ab := a * b;
    assert a * a <= ab;
    assert ab < b * b;
  }

  /** The root of the distance from a point to itself is 0. */
  lemma RootOfSelfDistance(p: Position, d: real)
    requires IsRoot(d, SqDist(p, p))
    ensures d == 0.0
  {
    RootOrder(d, SqDist(p, p), 0.0, 0);
  }

  /**
   * The "move away" target `2*self - other` (`selfPos.Sub(closest).Add(selfPos)`):
   * `self` is the midpoint between `other` and the target, so the target is
   * as far from `self` as `other` is, and twice as far from `other`.
   */
  function Reflect(self: Position, other: Position): (t: Position)
    ensures t.Add(other) == self.Add(self)
    ensures SqDist(self, t) == SqDist(self, other)
    ensures SqDist(t, other) == 4 * SqDist(self, other)
  {
    var t := self.Sub(other).Add(self);
    assert (t.x - other.x) * (t.x - other.x) == 4 * ((self.x - other.x) * (self.x - other.x));
    assert (t.y - other.y) * (t.y - other.y) == 4 * ((self.y - other.y) * (self.y - other.y));
    assert (self.x - t.x) * (self.x - t.x) == (self.x - other.x) * (self.x - other.x);
    assert (self.y - t.y) * (self.y - t.y) == (self.y - other.y) * (self.y - other.y);
    t
  }

  /**
   * The grid. The source's `Grid` record holds only the dimensions; the
   * tombstone and temple markers that the elimination pass places are kept
   * here as two append-only sequences.
   */
  datatype Grid = Grid(width: int, height: int, tombstones: seq<Position>, temples: seq<Position>) {
    function PlaceTombstone(p: Position): Grid {
      this.(tombstones := tombstones + [p])
    }

    function PlaceTemple(p: Position): Grid {
      this.(temples := temples + [p])
    }

    /** All memorials: tombstones followed by temples. */
    function Memorials(): seq<Position> {
      tombstones + temples
    }
  }

  /** `CreateGrid`: the dimensions are stored as given and there are no markers yet. */
  function CreateGrid(width: int, height: int): (g: Grid)
    ensures g.width == width && g.height == height
    ensures g.Memorials() == []
  {
    Grid(width, height, [], [])
  }

  /** `Distance` on `[x, y]` pairs, as a squared distance. */
  function Distance(a: (int, int), b: (int, int)): nat {
    SquareZero(a.0 - b.0);
    SquareZero(a.1 - b.1);
    (a.0 - b.0) * (a.0 - b.0) + (a.1 - b.1) * (a.1 - b.1)
  }

  /** `Distance` is symmetric, zero exactly on equal pairs, and agrees with `PositionVector.Dist`. */
  lemma DistanceProperties(a: (int, int), b: (int, int))
    ensures Distance(a, b) == Distance(b, a)
    ensures Distance(a, b) == 0 <==> a == b
    ensures Distance(a, b) == SqDist(Position(a.0, a.1), Position(b.0, b.1))
  {
    SqDistSymmetric(Position(a.0, a.1), Position(b.0, b.1));
  }
}
