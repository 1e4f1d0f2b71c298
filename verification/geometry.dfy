/** Coordinates on the square Minesweeper grid: bounds, neighbourhoods,
    the safe zone around the first click, and the cardinality facts the
    mine placement needs to know that it can always finish. */
module Geometry {

  /** A cell coordinate (x, y); x selects the outer list of the board. */
  type Pos = (int, int)

  predicate InBounds(n: int, p: Pos) {
    0 <= p.0 < n && 0 <= p.1 < n
  }

  /** Chebyshev distance at most 1. A cell is near itself. */
  predicate Near(p: Pos, q: Pos) {
    -1 <= q.0 - p.0 <= 1 && -1 <= q.1 - p.1 <= 1
  }

  /** The rectangle [x0, x0 + w) x [y0, y0 + h). */
  function Rect(x0: int, y0: int, w: nat, h: nat): (r: set<Pos>)
    ensures forall p :: p in r <==> x0 <= p.0 < x0 + w && y0 <= p.1 < y0 + h
  {
    set x, y | x0 <= x < x0 + w && y0 <= y < y0 + h :: (x, y)
  }

  /** Every coordinate of an n x n grid. */
  function Cells(n: nat): (r: set<Pos>)
    ensures forall p :: p in r <==> InBounds(n, p)
  {
    Rect(0, 0, n, n)
  }

  /** The coordinates first + (dx, dy) with dx in [-2, 1] and dy in [-1, 1]:
      a 4 x 3 block that never receives a mine. Members outside the grid
      are allowed; they simply never match a cell. */
  function SafeZone(first: Pos): (r: set<Pos>)
    ensures forall p :: p in r <==> -2 <= p.0 - first.0 <= 1 && -1 <= p.1 - first.1 <= 1
  {
    Rect(first.0 - 2, first.1 - 1, 4, 3)
  }

  /** The nine coordinates pushed by one flood-fill expansion, in the order
      the nested dx/dy loops push them (the centre included). */
  function Around(p: Pos): (r: seq<Pos>)
    ensures |r| == 9
    ensures forall q :: q in r <==> Near(p, q)
  {
    var (x, y) := p;
    [(x - 1, y - 1), (x - 1, y), (x - 1, y + 1),
     (x, y - 1), (x, y), (x, y + 1),
     (x + 1, y - 1), (x + 1, y), (x + 1, y + 1)]
  }

  lemma {:induction false} ColumnCard(x: int, y0: int, h: nat)
    ensures |Rect(x, y0, 1, h)| == h
  {
    if h == 0 {
      assert Rect(x, y0, 1, 0) == {};
    } else {
      ColumnCard(x, y0, h - 1);
      assert (x, y0 + h - 1) !in Rect(x, y0, 1, h - 1);
      assert Rect(x, y0, 1, h) == Rect(x, y0, 1, h - 1) + {(x, y0 + h - 1)};
    }
  }

  /** w * h, counted column by column. */
  function Area(w: nat, h: nat): nat {
    if w == 0 then 0 else Area(w - 1, h) + h
  }

  lemma {:induction false} AreaIsProduct(w: nat, h: nat)
    ensures Area(w, h) == w * h
  {
    if w > 0 {
      AreaIsProduct(w - 1, h);
      assert (w - 1) * h + h == w * h;
    }
  }

  /** A w x h rectangle holds exactly w * h coordinates. */
  lemma {:induction false} RectCard(x0: int, y0: int, w: nat, h: nat)
    ensures |Rect(x0, y0, w, h)| == Area(w, h)
  {
    if w == 0 {
      assert Rect(x0, y0, 0, h) == {};
    } else {
      RectCard(x0, y0, w - 1, h);
      ColumnCard(x0 + w - 1, y0, h);
      RectSplit(x0, y0, w, h);
    }
  }

  /** A rectangle is the one a column narrower plus its last column. */
  lemma RectSplit(x0: int, y0: int, w: nat, h: nat)
    requires w > 0
    ensures Rect(x0, y0, w - 1, h) * Rect(x0 + w - 1, y0, 1, h) == {}
    ensures Rect(x0, y0, w, h) == Rect(x0, y0, w - 1, h) + Rect(x0 + w - 1, y0, 1, h)
    ensures |Rect(x0, y0, w, h)| == |Rect(x0, y0, w - 1, h)| + |Rect(x0 + w - 1, y0, 1, h)|
  {
    var left, column := Rect(x0, y0, w - 1, h), Rect(x0 + w - 1, y0, 1, h);
    assert left * column == {};
    assert Rect(x0, y0, w, h) == left + column;
  }

  lemma CardSubset<T>(a: set<T>, b: set<T>)
    requires a <= b
    ensures |a| <= |b|
  {
    assert b == a + (b - a);
  }

  lemma CardDifference<T>(a: set<T>, b: set<T>)
    ensures |a - b| >= |a| - |b|
  {
    assert a == (a - b) + (a * b);
    CardSubset(a * b, b);
  }

  /** Removing a subset removes exactly its elements from the count. */
  lemma CardSubsetDifference<T>(a: set<T>, b: set<T>)
    requires b <= a
    ensures |a - b| == |a| - |b|
  {
    assert a == (a - b) + b;
  }

  /** A subset as large as its superset is the whole superset. */
  lemma SubsetOfEqualCard<T>(a: set<T>, b: set<T>)
    requires a <= b && |a| == |b|
    ensures a == b
  {
    assert b == a + (b - a);
    assert a * (b - a) == {};
  }

  /** However the first click lies, at most twelve grid cells are kept free,
      so an n x n grid with n >= 5 still has at least n * n / 2 cells a mine
      may go to. This is what the constructor's clamping relies on. */
  lemma {:induction false} RoomOutsideSafeZone(n: nat, first: Pos)
    requires n >= 5
    ensures |Cells(n) - SafeZone(first)| >= n * n / 2
  {
    var m := n * n;
    SquareAtLeast25(n);
    RectCard(0, 0, n, n);
    AreaIsProduct(n, n);
    RectCard(first.0 - 2, first.1 - 1, 4, 3);
    assert Area(4, 3) == 12;
    CardDifference(Cells(n), SafeZone(first));
    assert |Cells(n) - SafeZone(first)| >= m - 12;
  }

  lemma SquareAtLeast25(n: nat)
    requires n >= 5
    ensures n * n >= 25
  {
    assert n * n >= 5 * n;
  }
}
