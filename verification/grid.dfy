/** The board of a Minesweeper game: cells, the sets of mines, revealed and
    flagged cells they define, the board invariant every operation keeps,
    flag toggling and the victory test. */
module Grid {
  import opened Geometry

  /** One grid position. `adjacentMines` is only meaningful for safe cells. */
  datatype Cell = Cell(x: int, y: int, isMine: bool, revealed: bool, flagged: bool, adjacentMines: int)

  /** `cells[x][y]` is the cell at (x, y). `minesGenerated` flips to true on
      the first reveal, which is also when the mines are laid. */
  datatype Board = Board(gridSize: nat, numMines: int, cells: seq<seq<Cell>>, minesGenerated: bool)

  /** The configuration the game constructor produces: a grid of at least
      5 x 5 and at most half of its cells mined. */
  predicate Clamped(gridSize: int, numMines: int) {
    gridSize >= 5 && numMines <= Area(gridSize, gridSize) / 2
  }

  /** How many mines the placement loop lays: a negative request lays none. */
  function MineTarget(numMines: int): nat {
    if numMines < 0 then 0 else numMines
  }

  /** The board is square and every cell knows its own coordinates. */
  predicate Shaped(b: Board) {
    |b.cells| == b.gridSize &&
    forall x :: 0 <= x < b.gridSize ==>
      |b.cells[x]| == b.gridSize &&
      forall y :: 0 <= y < b.gridSize ==> b.cells[x][y].x == x && b.cells[x][y].y == y
  }

  function At(b: Board, p: Pos): (c: Cell)
    requires Shaped(b) && InBounds(b.gridSize, p)
    ensures c.x == p.0 && c.y == p.1
  {
    b.cells[p.0][p.1]
  }

  /** The board with the cell at `p` replaced by `c`. */
  function Update(b: Board, p: Pos, c: Cell): (r: Board)
    requires Shaped(b) && InBounds(b.gridSize, p)
    requires c.x == p.0 && c.y == p.1
    ensures Shaped(r)
    ensures r.gridSize == b.gridSize && r.numMines == b.numMines && r.minesGenerated == b.minesGenerated
    ensures forall q :: InBounds(b.gridSize, q) ==> At(r, q) == if q == p then c else At(b, q)
  {
    b.(cells := b.cells[p.0 := b.cells[p.0][p.1 := c]])
  }

  function Mines(b: Board): (s: set<Pos>)
    requires Shaped(b)
    ensures forall p :: p in s <==> InBounds(b.gridSize, p) && At(b, p).isMine
  {
    set p | p in Cells(b.gridSize) && At(b, p).isMine
  }

  function Revealed(b: Board): (s: set<Pos>)
    requires Shaped(b)
    ensures forall p :: p in s <==> InBounds(b.gridSize, p) && At(b, p).revealed
  {
    set p | p in Cells(b.gridSize) && At(b, p).revealed
  }

  function Flagged(b: Board): (s: set<Pos>)
    requires Shaped(b)
    ensures forall p :: p in s <==> InBounds(b.gridSize, p) && At(b, p).flagged
  {
    set p | p in Cells(b.gridSize) && At(b, p).flagged
  }

  /** The mines within Chebyshev distance 1 of `p`. */
  function NeighbourMines(mines: set<Pos>, p: Pos): (s: set<Pos>)
    ensures forall q :: q in s <==> q in mines && Near(p, q)
  {
    set q | q in mines && Near(p, q)
  }

  /** Every safe cell carries the number of mines around it; a mine keeps
      the count of 0 it was created with. */
  ghost predicate CountsCorrect(b: Board)
    requires Shaped(b)
  {
    forall p {:trigger NeighbourMines(Mines(b), p)} :: InBounds(b.gridSize, p) ==>
      At(b, p).adjacentMines == if At(b, p).isMine then 0 else |NeighbourMines(Mines(b), p)|
  }

  /** Counts stay correct on a board with the same mines and the same counts. */
  lemma SameCounts(b: Board, r: Board)
    requires Shaped(b) && Shaped(r) && r.gridSize == b.gridSize
    requires CountsCorrect(b) && Mines(r) == Mines(b)
    requires forall q :: InBounds(b.gridSize, q) ==> At(r, q).adjacentMines == At(b, q).adjacentMines
    ensures CountsCorrect(r)
  {
    forall q | InBounds(b.gridSize, q)
      ensures At(r, q).adjacentMines == if At(r, q).isMine then 0 else |NeighbourMines(Mines(r), q)|
    {
      assert At(r, q).isMine <==> q in Mines(b);
      assert NeighbourMines(Mines(r), q) == NeighbourMines(Mines(b), q);
    }
  }

  ghost predicate NeverFlaggedAndRevealed(b: Board)
    requires Shaped(b)
  {
    Revealed(b) * Flagged(b) == {}
  }

  lemma SameMines(b: Board, r: Board)
    requires Shaped(b) && Shaped(r) && r.gridSize == b.gridSize
    requires forall q :: InBounds(b.gridSize, q) ==> At(r, q).isMine == At(b, q).isMine
    ensures Mines(r) == Mines(b)
  {
  }

  lemma SameRevealedAndFlagged(b: Board, r: Board)
    requires Shaped(b) && Shaped(r) && r.gridSize == b.gridSize
    requires forall q :: InBounds(b.gridSize, q) ==>
      At(r, q).revealed == At(b, q).revealed && At(r, q).flagged == At(b, q).flagged
    ensures Revealed(r) == Revealed(b) && Flagged(r) == Flagged(b)
  {
  }

  /** The invariant of a board in play. Before the first reveal there are no
      mines and nothing is revealed; afterwards exactly the requested number
      of mines lie on the board. No mine is ever revealed. */
  ghost predicate Consistent(b: Board) {
    && Shaped(b)
    && Clamped(b.gridSize, b.numMines)
    && NeverFlaggedAndRevealed(b)
    && Mines(b) * Revealed(b) == {}
    && CountsCorrect(b)
    && (if b.minesGenerated then |Mines(b)| == MineTarget(b.numMines)
        else Mines(b) == {} && Revealed(b) == {})
  }

  /** A fresh board: every cell covered, unflagged, safe, with count 0. */
  function NewBoard(gridSize: nat, numMines: int): (b: Board)
    ensures Shaped(b) && b.gridSize == gridSize && b.numMines == numMines && !b.minesGenerated
    ensures Mines(b) == {} && Revealed(b) == {} && Flagged(b) == {}
    ensures forall p :: InBounds(gridSize, p) ==> At(b, p).adjacentMines == 0
    ensures Clamped(gridSize, numMines) ==> Consistent(b)
  {
    var b := Board(gridSize, numMines,
                   seq(gridSize, x => seq(gridSize, y => Cell(x, y, false, false, false, 0))),
                   false);
    assert forall p :: InBounds(gridSize, p) ==> NeighbourMines(Mines(b), p) == {};
    b
  }

  /** Right click: a revealed cell is left alone, any other cell has its
      flag flipped. */
  function ToggleFlag(b: Board, p: Pos): (r: Board)
    requires Shaped(b) && InBounds(b.gridSize, p)
    ensures Shaped(r) && r.gridSize == b.gridSize && r.numMines == b.numMines
    ensures r.minesGenerated == b.minesGenerated
    ensures Mines(r) == Mines(b) && Revealed(r) == Revealed(b)
    ensures Flagged(r) == if p in Revealed(b) then Flagged(b)
                          else if p in Flagged(b) then Flagged(b) - {p}
                          else Flagged(b) + {p}
    ensures forall q :: InBounds(b.gridSize, q) ==> At(r, q).adjacentMines == At(b, q).adjacentMines
  {
    var c := At(b, p);
    if c.revealed then b else Update(b, p, c.(flagged := !c.flagged))
  }

  /** Toggling the same cell twice gives back the board unchanged. */
  lemma ToggleFlagTwice(b: Board, p: Pos)
    requires Shaped(b) && InBounds(b.gridSize, p)
    ensures ToggleFlag(ToggleFlag(b, p), p) == b
  {
    var r := ToggleFlag(ToggleFlag(b, p), p);
    forall x | 0 <= x < b.gridSize
      ensures r.cells[x] == b.cells[x]
    {
      assert forall y :: 0 <= y < b.gridSize ==> r.cells[x][y] == At(r, (x, y)) == At(b, (x, y));
    }
    assert r.cells == b.cells;
  }

  /** Flag toggling keeps the board invariant: since a revealed cell's flag
      is never flipped, no cell becomes both flagged and revealed. */
  lemma ToggleFlagConsistent(b: Board, p: Pos)
    requires Consistent(b) && InBounds(b.gridSize, p)
    ensures Consistent(ToggleFlag(b, p))
  {
    SameCounts(b, ToggleFlag(b, p));
  }

  /** The victory test: every cell is revealed or a mine; flags play no part. */
  function IsVictory(b: Board): (won: bool)
    requires Shaped(b)
    ensures won <==> Cells(b.gridSize) - Mines(b) <= Revealed(b)
  {
    var won := forall x, y :: 0 <= x < b.gridSize && 0 <= y < b.gridSize ==>
      b.cells[x][y].revealed || b.cells[x][y].isMine;
    assert won <==> forall p :: p in Cells(b.gridSize) ==> At(b, p).revealed || At(b, p).isMine by {
      if !won {
        var x, y :| 0 <= x < b.gridSize && 0 <= y < b.gridSize &&
          !(b.cells[x][y].revealed || b.cells[x][y].isMine);
        assert (x, y) in Cells(b.gridSize);
      }
    }
    won
  }

  /** On a consistent board victory can be read off the counts: the game is
      won exactly when the revealed cells and the mines together fill the grid. */
  lemma VictoryByCount(b: Board)
    requires Consistent(b)
    ensures IsVictory(b) <==> |Revealed(b)| + |Mines(b)| == b.gridSize * b.gridSize
  {
    var n := b.gridSize;
    var safe := Cells(n) - Mines(b);
    SafeCellCount(b);
    assert Revealed(b) <= safe;
    VictoryFromCount(Revealed(b), safe, |Mines(b)|, n * n);
  }

  lemma VictoryFromCount<T>(revealed: set<T>, safe: set<T>, mines: int, total: int)
    requires revealed <= safe && |safe| == total - mines
    ensures safe <= revealed <==> |revealed| + mines == total
  {
    if |revealed| + mines == total {
      SubsetOfEqualCard(revealed, safe);
    }
    if safe <= revealed {
      assert revealed == safe;
    }
  }

  lemma SafeCellCount(b: Board)
    requires Shaped(b)
    ensures |Cells(b.gridSize) - Mines(b)| == b.gridSize * b.gridSize - |Mines(b)|
  {
    var n := b.gridSize;
    RectCard(0, 0, n, n);
    AreaIsProduct(n, n);
    var safe := Cells(n) - Mines(b);
    assert Cells(n) == safe + Mines(b);
    assert safe * Mines(b) == {};
  }
}
