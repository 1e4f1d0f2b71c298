# Minesweeper board, modelled in Dafny

This project models the core of a small pygame Minesweeper game (`classes.py`):

- the board of cells;
- lazy mine placement on the first reveal, which keeps a 4 x 3 safe zone around the first click free;
- the adjacency counts;
- revealing a cell with an explicit-stack flood fill;
- flag toggling and the victory test;
- the game object's clamping of its configuration, the dispatch of mouse events, and the lost/victory decision of the main loop.

Everything is stated over immutable values. A `Board` holds `cells: seq<seq<Cell>>`, indexed `cells[x][y]` like the Python list of lists. The sets `Mines`, `Revealed` and `Flagged` are read off the board, and most contracts are written in terms of these sets.

Modules, one per concern:

- `Geometry` (`geometry.dfy`): coordinates, Chebyshev neighbourhoods, the safe zone, rectangle cardinalities.
- `Grid` (`grid.dfy`): `Cell`, `Board`, the board invariant `Consistent`, flag toggling, victory.
- `MinePlacement` (`mines.dfy`): `generate_mines` and `calculate_adjacent_mines`.
- `Reveal` (`reveal.dfy`): `reveal_cell` and `flood_fill`.
- `GameLoop` (`game.dfy`): the `MineSweeperGame` constructor, event dispatch and the end-of-round decision.

`Grid.Consistent` is the board invariant. Every operation keeps it. It says:

- no cell is both flagged and revealed;
- no mine is revealed;
- every safe cell's `adjacentMines` equals the number of mines within Chebyshev distance 1, and a mine keeps a count of 0;
- before the first reveal there are no mines and nothing is revealed;
- after the first reveal exactly `numMines` cells are mines (none when `numMines` is negative).

Behaviour of the game worth knowing:

- **Negative mine counts.** The constructor only caps the mine count from above, with `min(num_mines, grid_size²//2)`, so a negative request survives. The placement loop then lays no mines. The model keeps the negative value, and `MineTarget` turns it into 0.
- **Hitting a mine.** The mine cell is not revealed. The game is only flagged as lost.
- **Events after a loss.** All events already queued in the same round are still handled after a mine hit, including further reveals. The loop stops only at the decision that ends the round (`GameLoop.HandleEvents`, `GameLoop.Step`).
- **Running out of room for mines.** This cannot happen. `Geometry.RoomOutsideSafeZone` shows that a grid of at least 5 x 5 with at most half its cells mined always leaves enough eligible cells, wherever the first click lands.

## Model

| member | source | states |
|---|---|---|
| `Grid.NewBoard` | classes.py:36-40 | a new board built from cells initialised as in `Cell.__init__` is square, every cell knows its own coordinates and is covered, unflagged, safe and has count 0; mines are not yet generated; under the clamped configuration the board invariant holds |
| `MinePlacement.PlaceMines` | classes.py:44-51 | on the fresh board of a clamped game the loop ends with exactly `numMines` distinct mines (none if negative), none of them in the safe zone, and nothing but `isMine` changed |
| `MinePlacement.PickEligible` | classes.py:47-49 | an accepted random draw is an in-bounds cell outside the safe zone that is not yet a mine |
| `MinePlacement.CountAdjacent` | classes.py:59-64 | the sum over the in-bounds offsets dx, dy in [-1, 1] equals the number of mines within Chebyshev distance 1 of the cell |
| `MinePlacement.CalculateAdjacentMines` | classes.py:54-64 | every safe cell gets the true number of neighbouring mines; mine cells are skipped and keep their cell unchanged; nothing else changes |
| `MinePlacement.GenerateMines` | classes.py:43-52 | after placement and counting: exactly `numMines` mines, none in the safe zone, revealed and flagged cells untouched, every safe cell's count equal to the number of mines around it, mines keeping their old count |
| `Geometry.RoomOutsideSafeZone` | classes.py:106-109 | for a grid of side n at least 5, at least ⌊n²/2⌋ of its cells lie outside any 4 x 3 safe zone, so the capped number of mines always fits |
| `Reveal.RevealCell` | classes.py:66-75 | the click turns the board into one related to it as `Reveal.Revealing` states: mines are generated on the first call only, outside the clicked cell's safe zone, and never change afterwards; a revealed or flagged target changes nothing but the generation; a mine target stays covered; otherwise the target is revealed, every other newly revealed cell is reached from the target through a chain of newly revealed zero-count safe cells, each touching the next, and every neighbour of a newly revealed zero-count safe cell ends revealed or flagged; flags are untouched and the board invariant is kept; a hit is reported exactly when a covered, unflagged mine was clicked |
| `Reveal.FloodFill` | classes.py:77-90 | only `revealed` changes and only from false to true; the start cell is revealed unless flagged; no flagged cell is revealed; every other newly revealed cell touches a newly revealed zero-count safe cell, and is reached from the start by a chain of such cells, each touching the next, no longer than the number of newly revealed cells; every neighbour of a newly revealed zero-count safe cell ends revealed or flagged; with correct counts and a safe start no mine is revealed; the loop terminates because the covered cells shrink or the stack does |
| `Reveal.NoMineNearOpener` | classes.py:87-90 | with correct counts, no neighbour of a zero-count safe cell is a mine, so the flood fill never pushes a mine |
| `Reveal.GeneratedConsistent` | classes.py:67-69 | generating mines on a fresh consistent board and setting `mines_generated` gives a consistent board |
| `Grid.ToggleFlag` | classes.py:92-94 | a revealed cell is left alone; otherwise exactly that cell's flag flips; mines, revealed cells and counts are unchanged |
| `Grid.ToggleFlagTwice` | classes.py:92-94 | toggling the same cell twice gives the original board |
| `Grid.ToggleFlagConsistent` | classes.py:92-94 | flag toggling keeps the board invariant, in particular no cell becomes both flagged and revealed |
| `Grid.IsVictory` | classes.py:96-97 | the game is won iff every cell outside the mine set is revealed; flags play no part |
| `Grid.VictoryByCount` | classes.py:96-97 | on a consistent board, victory holds iff the revealed cells and the mines together number `gridSize²` |
| `GameLoop.NewGame` | classes.py:105-118 | the grid side is the requested one or 5, whichever is larger; the mine count is the requested one or ⌊side²/2⌋, whichever is smaller; the new game is running, neither lost nor won, with an empty consistent board whose mines are not yet generated |
| `GameLoop.ClampedMineCount` | classes.py:106-109 | 1000 mines requested on a 5 x 5 grid become 12; a side of 3 becomes 5 |
| `GameLoop.HandleEvent` | classes.py:136-145 | the game after the event is related to the game before as `GameLoop.Handled` states: a left click changes the board exactly as `reveal_cell` does (`Reveal.Revealing`: the first click lays the mines outside its own safe zone, and the opened cells are the flood region of the clicked cell) and sets `lost` exactly on a hit of a covered, unflagged mine, never clearing it; a right click gives exactly the board with that flag toggled; other buttons and closing the window leave the board alone; closing the window stops the loop; the board invariant is kept |
| `GameLoop.HandleEvents` | classes.py:134-145 | a ghost trace holds the game before each event and after the last: it starts at the given game, ends at the result, and each event is handled in order, from one trace entry to the next, as `GameLoop.Handled` states; a `lost` set anywhere in the trace is still set at the end; the loop stops iff the window was closed; without a left click nothing is revealed, no mine is laid and the game is not lost; only a right-clicked cell can change its flag; a cell clicked with the left button and never with the right one ends revealed unless it was flagged at the start or is a mine |
| `GameLoop.Settle` | classes.py:125-129 | a lost game stops and is not declared won even if the board is complete; otherwise a complete board is a victory that stops the game |
| `GameLoop.Step` | classes.py:123-131 | the round's events are handled in order as the ghost trace records (`GameLoop.Handled` for each event), and the result keeps the last trace entry's board and `lost`, so a mine hit anywhere in the round ends the game lost; a lost game is stopped and not won; otherwise it is won iff every safe cell is revealed; it runs on iff it is neither lost nor won and the window was not closed; without a left click the game is not lost and nothing is revealed or laid; revealed cells and laid mines persist |

## Left out

- Rendering (`Cell.draw`, `Board.draw`, `draw_screen`, `show_end_message`) and the window, font and clock set-up: these are pygame drawing and timing.
- `main.py`: it reads the two numbers from the console and starts and stops pygame.
- Pixel-to-cell conversion and pygame event polling: an `Event` already carries a cell. Its coordinates must be on the grid, which is always true for clicks inside the window.
- `random.randint`: modelled as an unconstrained choice of an eligible cell (`MinePlacement.PickEligible`). A rejected random draw has no effect, so this choice reaches the same outcomes. Probabilities are not modelled.
- The board's `game` back-reference: `Reveal.RevealCell` returns the hit as a boolean instead, and `GameLoop.HandleEvent` stores it in `lost`.
- Negative or out-of-range coordinates in `reveal_cell` and `toggle_flag`, which Python would wrap by negative indexing: being on the grid is a precondition.
- `MinePlacement.PlaceMines`, `MinePlacement.GenerateMines`: require the fresh, mine-free board of a clamped game, which is the only state `reveal_cell` calls them in. On a board with fewer eligible cells than `numMines` the loop of `generate_mines` would never end. With the clamp there is always room (`Geometry.RoomOutsideSafeZone`).
- `Reveal.RevealCell`: requires the board invariant `Grid.Consistent`, which includes the clamped configuration. Every board the game creates and updates satisfies it.
- `Grid.NewBoard`: takes a natural grid size. The board is only ever built by the game constructor, with a side of at least 5.
- `Reveal.FloodFill`: "each cell is revealed at most once" is carried by the termination measure, the strictly shrinking set of covered cells.
