/** Lazy mine placement and the adjacency counts computed right after it. */
module MinePlacement {
  import opened Geometry
  import opened Grid

  /** The cells a mine may still go to: on the grid, outside the safe zone
      of the first click, and not a mine already. */
  function Eligible(b: Board, first: Pos): (s: set<Pos>)
    requires Shaped(b)
    ensures forall p :: p in s <==> InBounds(b.gridSize, p) && p !in SafeZone(first) && !At(b, p).isMine
  {
    Cells(b.gridSize) - SafeZone(first) - Mines(b)
  }

  /** Cells agree on everything except possibly their mine flag. */
  ghost predicate SameButMines(b: Board, r: Board)
    requires Shaped(b) && Shaped(r) && r.gridSize == b.gridSize
  {
    forall q :: InBounds(b.gridSize, q) ==> At(r, q) == At(b, q).(isMine := At(r, q).isMine)
  }

  /** The mine-laying loop, run once on the fresh board of a clamped game.
      Each round `generate_mines` draws a random coordinate and keeps it only
      when it is eligible; a rejected draw changes nothing, so the rounds that
      matter are modelled as a choice among the eligible cells. `numMines`
      distinct mines are laid (none when it is negative), all outside the
      safe zone; nothing but the mine flags changes. */
  method PlaceMines(b: Board, first: Pos) returns (r: Board)
    requires Shaped(b) && Clamped(b.gridSize, b.numMines) && Mines(b) == {}
    ensures Shaped(r) && r.gridSize == b.gridSize && r.numMines == b.numMines
    ensures r.minesGenerated == b.minesGenerated
    ensures SameButMines(b, r)
    ensures |Mines(r)| == MineTarget(b.numMines)
    ensures Mines(r) * SafeZone(first) == {}
  {
    FreshBoardHasRoom(b, first);
    r := b;
    var placed := 0;
    ghost var added: set<Pos> := {};
    while placed < b.numMines
      invariant 0 <= placed <= MineTarget(b.numMines)
      invariant Placing(b, first, r, added, placed)
      invariant b.numMines <= |Eligible(b, first)|
      decreases b.numMines - placed
    {
      PlacingRoom(b, first, r, added, placed);
      var p := PickEligible(r, first);
      PlacingStep(b, first, r, added, placed, p);
      r, added, placed := LayMine(r, p), added + {p}, placed + 1;
    }
    PlacingDone(b, first, r, added, placed);
  }

  /** One accepted random draw: some cell a mine may still go to. */
  method PickEligible(b: Board, first: Pos) returns (p: Pos)
    requires Shaped(b) && Eligible(b, first) != {}
    ensures p in Eligible(b, first)
  {
    p :| p in Eligible(b, first);
  }

  /** The state of the placement loop after `placed` rounds that laid the
      mines `added`. */
  ghost predicate Placing(b: Board, first: Pos, r: Board, added: set<Pos>, placed: int)
    requires Shaped(b)
  {
    && Shaped(r) && r.gridSize == b.gridSize && r.numMines == b.numMines
    && r.minesGenerated == b.minesGenerated
    && SameButMines(b, r)
    && |added| == placed
    && Mines(r) == Mines(b) + added && Mines(b) * added == {}
    && added * SafeZone(first) == {}
    && |Eligible(r, first)| == |Eligible(b, first)| - placed
  }

  /** While mines remain to be laid there is an eligible cell left. */
  lemma PlacingRoom(b: Board, first: Pos, r: Board, added: set<Pos>, placed: int)
    requires Shaped(b) && Placing(b, first, r, added, placed)
    requires placed < b.numMines <= |Eligible(b, first)|
    ensures Eligible(r, first) != {}
  {
  }

  lemma PlacingStep(b: Board, first: Pos, r: Board, added: set<Pos>, placed: int, p: Pos)
    requires Shaped(b) && Placing(b, first, r, added, placed)
    requires p in Eligible(r, first)
    ensures Placing(b, first, LayMine(r, p), added + {p}, placed + 1)
  {
    var r' := LayMine(r, p);
    assert p !in Mines(r) && p !in SafeZone(first);
    LayMineShrinksEligible(r, p, first);
    SameButMinesTransitive(b, r, r');
    AddOne(Mines(b), Mines(r), Mines(r'), added, SafeZone(first), p);
  }

  lemma AddOne<T>(before: set<T>, now: set<T>, next: set<T>, added: set<T>, zone: set<T>, p: T)
    requires now == before + added && before * added == {} && added * zone == {}
    requires next == now + {p} && p !in now && p !in zone
    ensures next == before + (added + {p})
    ensures before * (added + {p}) == {} && (added + {p}) * zone == {}
    ensures |added + {p}| == |added| + 1
  {
    assert p !in added;
    assert before * (added + {p}) == before * added + before * {p};
    assert (added + {p}) * zone == added * zone + {p} * zone;
  }

  lemma PlacingDone(b: Board, first: Pos, r: Board, added: set<Pos>, placed: int)
    requires Shaped(b) && Placing(b, first, r, added, placed)
    requires Mines(b) == {} && placed == MineTarget(b.numMines)
    ensures |Mines(r)| == MineTarget(b.numMines)
    ensures Mines(r) * SafeZone(first) == {}
  {
    assert Mines(r) == added;
  }

  /** The board with a mine laid at `p`. */
  function LayMine(b: Board, p: Pos): (r: Board)
    requires Shaped(b) && InBounds(b.gridSize, p)
    ensures Shaped(r) && r.gridSize == b.gridSize && r.numMines == b.numMines
    ensures r.minesGenerated == b.minesGenerated
    ensures SameButMines(b, r)
    ensures Mines(r) == Mines(b) + {p}
  {
    var r := Update(b, p, At(b, p).(isMine := true));
    assert Mines(r) == Mines(b) + {p};
    r
  }

  lemma LayMineShrinksEligible(b: Board, p: Pos, first: Pos)
    requires Shaped(b) && p in Eligible(b, first)
    ensures Eligible(LayMine(b, p), first) == Eligible(b, first) - {p}
    ensures |Eligible(LayMine(b, p), first)| == |Eligible(b, first)| - 1
  {
    var r := LayMine(b, p);
    assert Eligible(r, first) == Eligible(b, first) - {p};
  }

  lemma SameButMinesTransitive(a: Board, b: Board, c: Board)
    requires Shaped(a) && Shaped(b) && Shaped(c) && b.gridSize == a.gridSize && c.gridSize == a.gridSize
    requires SameButMines(a, b) && SameButMines(b, c)
    ensures SameButMines(a, c)
  {
  }

  /** The coordinates of `NeighbourMines(mines, p)` already visited by the
      dx/dy scan when it stands at offset (dx, dy). */
  ghost function Scanned(mines: set<Pos>, p: Pos, dx: int, dy: int): (s: set<Pos>)
    ensures forall q :: q in s <==> q in mines && Near(p, q) && (q.0 - p.0 < dx || (q.0 - p.0 == dx && q.1 - p.1 < dy))
  {
    set q | q in mines && Near(p, q) && (q.0 - p.0 < dx || (q.0 - p.0 == dx && q.1 - p.1 < dy))
  }

  /** The sum over the (up to) nine in-bounds neighbours of `p`, the cell
      itself included, of whether they hold a mine. */
  method CountAdjacent(b: Board, p: Pos) returns (count: nat)
    requires Shaped(b)
    ensures count == |NeighbourMines(Mines(b), p)|
  {
    ghost var mines := Mines(b);
    count := 0;
    var dx := -1;
    assert Scanned(mines, p, -1, -1) == {};
    while dx < 2
      invariant -1 <= dx <= 2
      invariant count == |Scanned(mines, p, dx, -1)|
    {
      var dy := -1;
      while dy < 2
        invariant -1 <= dy <= 2
        invariant count == |Scanned(mines, p, dx, dy)|
      {
        var q := (p.0 + dx, p.1 + dy);
        ScanStep(mines, p, dx, dy);
        if InBounds(b.gridSize, q) && At(b, q).isMine {
          count := count + 1;
        }
        dy := dy + 1;
      }
      ScanRowEnd(mines, p, dx);
      dx := dx + 1;
    }
    assert Scanned(mines, p, 2, -1) == NeighbourMines(mines, p);
  }

  /** One step of the scan adds the offset just visited when it is a mine. */
  lemma ScanStep(mines: set<Pos>, p: Pos, dx: int, dy: int)
    requires -1 <= dx <= 1 && -1 <= dy <= 1
    ensures var q := (p.0 + dx, p.1 + dy);
      |Scanned(mines, p, dx, dy + 1)| == |Scanned(mines, p, dx, dy)| + if q in mines then 1 else 0
  {
    var q := (p.0 + dx, p.1 + dy);
    if q in mines {
      assert q !in Scanned(mines, p, dx, dy);
      assert Scanned(mines, p, dx, dy + 1) == Scanned(mines, p, dx, dy) + {q};
    } else {
      assert Scanned(mines, p, dx, dy + 1) == Scanned(mines, p, dx, dy);
    }
  }

  lemma ScanRowEnd(mines: set<Pos>, p: Pos, dx: int)
    ensures Scanned(mines, p, dx, 2) == Scanned(mines, p, dx + 1, -1)
  {
  }

  /** The cell at `q` once the counts are filled in: a mine keeps its cell,
      a safe cell gets the number of mines around it. */
  ghost function Counted(b: Board, q: Pos): Cell
    requires Shaped(b) && InBounds(b.gridSize, q)
  {
    if At(b, q).isMine then At(b, q)
    else At(b, q).(adjacentMines := |NeighbourMines(Mines(b), q)|)
  }

  /** Row-major position test: (x, y) comes before the scan position. */
  predicate Before(q: Pos, x: int, y: int) {
    q.0 < x || (q.0 == x && q.1 < y)
  }

  /** Fills in `adjacentMines` of every safe cell, skipping the mines. */
  method CalculateAdjacentMines(b: Board) returns (r: Board)
    requires Shaped(b)
    ensures Shaped(r) && r.gridSize == b.gridSize && r.numMines == b.numMines
    ensures r.minesGenerated == b.minesGenerated
    ensures forall q :: InBounds(b.gridSize, q) ==> At(r, q) == Counted(b, q)
  {
    var n := b.gridSize;
    r := b;
    var x := 0;
    while x < n
      invariant 0 <= x <= n
      invariant Shaped(r) && r.gridSize == n && r.numMines == b.numMines
      invariant r.minesGenerated == b.minesGenerated
      invariant forall q :: InBounds(n, q) ==> At(r, q) == if q.0 < x then Counted(b, q) else At(b, q)
    {
      var y := 0;
      while y < n
        invariant 0 <= y <= n
        invariant Shaped(r) && r.gridSize == n && r.numMines == b.numMines
        invariant r.minesGenerated == b.minesGenerated
        invariant forall q :: InBounds(n, q) ==> At(r, q) == if Before(q, x, y) then Counted(b, q) else At(b, q)
      {
        var c := At(r, (x, y));
        if !c.isMine {
          var count := CountAdjacent(b, (x, y));
          r := Update(r, (x, y), c.(adjacentMines := count));
        }
        y := y + 1;
      }
      x := x + 1;
    }
  }

  /** `generate_mines`, on the fresh board of a clamped game: lay the mines
      around the first click, then count. Exactly `numMines` mines are laid
      (none when it is negative), all outside the safe zone; safe cells end
      up with the true number of mines around them; mines keep their old
      count; revealed and flagged cells are untouched. */
  method GenerateMines(b: Board, first: Pos) returns (r: Board)
    requires Shaped(b) && Clamped(b.gridSize, b.numMines) && Mines(b) == {}
    ensures Shaped(r) && r.gridSize == b.gridSize && r.numMines == b.numMines
    ensures r.minesGenerated == b.minesGenerated
    ensures |Mines(r)| == MineTarget(b.numMines)
    ensures Mines(r) * SafeZone(first) == {}
    ensures Revealed(r) == Revealed(b) && Flagged(r) == Flagged(b)
    ensures forall q :: InBounds(b.gridSize, q) ==>
      At(r, q).adjacentMines == if At(r, q).isMine then At(b, q).adjacentMines
                                else |NeighbourMines(Mines(r), q)|
  {
    var placed := PlaceMines(b, first);
    r := CalculateAdjacentMines(placed);
    forall q | InBounds(b.gridSize, q)
      ensures At(r, q).isMine == At(placed, q).isMine
      ensures At(r, q).revealed == At(b, q).revealed && At(r, q).flagged == At(b, q).flagged
      ensures At(r, q).isMine ==> At(r, q).adjacentMines == At(b, q).adjacentMines
    {
      assert At(r, q) == Counted(placed, q);
      assert At(placed, q) == At(b, q).(isMine := At(placed, q).isMine);
    }
    SameMines(placed, r);
    SameRevealedAndFlagged(b, r);
  }

  /** On a fresh board of a clamped game the placement always has room,
      wherever the first click falls. */
  lemma {:induction false} FreshBoardHasRoom(b: Board, first: Pos)
    requires Shaped(b) && Clamped(b.gridSize, b.numMines) && Mines(b) == {}
    ensures b.numMines <= |Eligible(b, first)|
  {
    RoomOutsideSafeZone(b.gridSize, first);
    AreaIsProduct(b.gridSize, b.gridSize);
    assert Eligible(b, first) == Cells(b.gridSize) - SafeZone(first);
  }
}
