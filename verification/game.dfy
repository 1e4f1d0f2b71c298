/** The game controller: the clamped configuration, the dispatch of mouse
    events to the board, and the lost/victory decision after each round of
    events. */
module GameLoop {
  import opened Geometry
  import opened Grid
  import opened Reveal

  /** `lost` is set by a mine hit; `victory` and `running` by the decision
      at the end of a round. */
  datatype Game = Game(gridSize: int, numMines: int, board: Board, lost: bool, victory: bool, running: bool)

  /** An input event whose mouse position has already been divided down to
      a cell. Button 1 is the left button, 3 the right one. */
  datatype Event = Quit | MouseDown(button: int, cell: Pos)

  const LeftButton := 1
  const RightButton := 3

  /** A game between rounds: its board is consistent and belongs to it, a
      finished game is no longer running, and a lost game is not won. */
  ghost predicate Playable(g: Game) {
    && Consistent(g.board)
    && g.board.gridSize == g.gridSize && g.board.numMines == g.numMines
    && (g.lost ==> !g.running && !g.victory)
    && (g.victory ==> !g.running)
  }

  /** The constructor: the grid is at least 5 x 5 and at most half of it is
      mined. Sizes and counts already in range are kept as given. */
  function NewGame(gridSize: int, numMines: int): (g: Game)
    ensures g.gridSize >= 5 && g.gridSize >= gridSize
    ensures g.gridSize == 5 || g.gridSize == gridSize
    ensures g.numMines <= numMines && g.numMines <= g.gridSize * g.gridSize / 2
    ensures g.numMines == numMines || g.numMines == g.gridSize * g.gridSize / 2
    ensures Playable(g) && g.running && !g.lost && !g.victory
    ensures !g.board.minesGenerated
    ensures Mines(g.board) == {} && Revealed(g.board) == {} && Flagged(g.board) == {}
  {
    var size := if gridSize < 5 then 5 else gridSize;
    var maxMines := size * size / 2;
    var mines := if numMines < maxMines then numMines else maxMines;
    AreaIsProduct(size, size);
    Game(size, mines, NewBoard(size, mines), false, false, true)
  }

  /** The clamping on the 5 x 5 grid: a request for 1000 mines gets 12. */
  lemma ClampedMineCount()
    ensures NewGame(5, 1000).numMines == 12
    ensures NewGame(3, 4).gridSize == 5 && NewGame(3, 4).numMines == 4
  {
  }

  /** The cells the events click with `button`. */
  function Clicked(events: seq<Event>, button: int): (cells: set<Pos>)
    ensures forall q :: q in cells <==> MouseDown(button, q) in events
  {
    set e <- events | e.MouseDown? && e.button == button :: e.cell
  }

  /** What handling event `e` does to game `g`, a game in play whose board
      belongs to it, ending in game `r`. A left click reveals as
      `reveal_cell` does and sets `lost` on a hit of a covered, unflagged
      mine; nothing clears `lost`. A right click toggles that cell's flag,
      any other button does nothing, and closing the window stops the loop.
      The board invariant is kept. */
  ghost predicate Handled(g: Game, e: Event, r: Game) {
    && Consistent(g.board) && g.board.gridSize == g.gridSize && g.board.numMines == g.numMines
    && (e.MouseDown? ==> InBounds(g.gridSize, e.cell))
    && Consistent(r.board) && r.board.gridSize == r.gridSize && r.board.numMines == r.numMines
    && r.gridSize == g.gridSize && r.numMines == g.numMines && r.victory == g.victory
    && r.running == (g.running && !e.Quit?)
    && r.lost == (g.lost || (e.MouseDown? && e.button == LeftButton &&
                             e.cell !in Revealed(g.board) && e.cell !in Flagged(g.board) &&
                             e.cell in Mines(r.board)))
    && (e.MouseDown? && e.button == LeftButton ==> Revealing(g.board, e.cell, r.board))
    && (e.MouseDown? && e.button == RightButton ==> r.board == ToggleFlag(g.board, e.cell))
    && (e.Quit? || (e.MouseDown? && e.button != LeftButton && e.button != RightButton) ==> r.board == g.board)
  }

  /** One event of `handle_events`. */
  method HandleEvent(g: Game, e: Event) returns (r: Game)
    requires Consistent(g.board) && g.board.gridSize == g.gridSize && g.board.numMines == g.numMines
    requires e.MouseDown? ==> InBounds(g.gridSize, e.cell)
    ensures Handled(g, e, r)
  {
    match e
    case Quit =>
      r := g.(running := false);
    case MouseDown(button, cell) =>
      if button == LeftButton {
        var b, hit := RevealCell(g.board, cell);
        r := g.(board := b, lost := g.lost || hit);
      } else if button == RightButton {
        ToggleFlagConsistent(g.board, cell);
        r := g.(board := ToggleFlag(g.board, cell));
      } else {
        r := g;
      }
  }

  /** The decision after a round of events: a loss ends the game and wins
      nothing, even when the board is also complete; otherwise a complete
      board is a victory. */
  function Settle(g: Game): (r: Game)
    requires Shaped(g.board)
    ensures r.board == g.board && r.lost == g.lost
    ensures r.gridSize == g.gridSize && r.numMines == g.numMines
    ensures g.lost ==> !r.running && r.victory == g.victory
    ensures !g.lost ==> r.victory == (g.victory || IsVictory(g.board))
    ensures !g.lost ==> r.running == (g.running && !IsVictory(g.board))
  {
    if g.lost then g.(running := false)
    else if IsVictory(g.board) then g.(victory := true, running := false)
    else g
  }

  /** `handle_events`: every pending event is handled in order, also those
      that follow a mine hit in the same round. `trace` holds the game
      before each event and, last, the game after the round. */
  method HandleEvents(g: Game, events: seq<Event>) returns (r: Game, ghost trace: seq<Game>)
    requires Consistent(g.board) && g.board.gridSize == g.gridSize && g.board.numMines == g.numMines
    requires forall e :: e in events && e.MouseDown? ==> InBounds(g.gridSize, e.cell)
    ensures |trace| == |events| + 1 && trace[0] == g && trace[|events|] == r
    ensures forall i {:trigger Handled(trace[i], events[i], trace[i + 1])} :: 0 <= i < |events| ==> Handled(trace[i], events[i], trace[i + 1])
    ensures Consistent(r.board) && r.board.gridSize == r.gridSize && r.board.numMines == r.numMines
    ensures r.gridSize == g.gridSize && r.numMines == g.numMines && r.victory == g.victory
    ensures r.running == (g.running && Quit !in events)
    ensures forall i :: 0 <= i <= |events| && trace[i].lost ==> r.lost
    ensures (forall q :: q !in Clicked(events, LeftButton)) ==> r.lost == g.lost && Unclicked(g.board, r.board)
    ensures Revealed(g.board) <= Revealed(r.board)
    ensures g.board.minesGenerated ==> r.board.minesGenerated && Mines(r.board) == Mines(g.board)
    ensures forall q :: q !in Clicked(events, RightButton) ==> (q in Flagged(r.board) <==> q in Flagged(g.board))
    ensures forall q :: (q in Clicked(events, LeftButton) && q !in Clicked(events, RightButton) &&
                         q !in Flagged(g.board) && q !in Mines(r.board)) ==> q in Revealed(r.board)
  {
    r, trace := g, [g];
    var i := 0;
    while i < |events|
      invariant 0 <= i <= |events| && |trace| == i + 1 && trace[0] == g && trace[i] == r
      invariant Consistent(r.board) && r.board.gridSize == r.gridSize && r.board.numMines == r.numMines
      invariant r.gridSize == g.gridSize
      invariant Traced(events, i, trace)
    {
      assert events[i] in events;
      var next := HandleEvent(r, events[i]);
      TraceStep(events, i, trace, next);
      r, trace, i := next, trace + [next], i + 1;
    }
    TracedProgress(g, events, trace, i);
    assert events[..i] == events;
  }

  /** The trace of the first `i` events: the game before each of them and
      after the last, each step handled as `Handled` says; once `lost` is
      set it is still set after event `i`. */
  ghost predicate Traced(events: seq<Event>, i: int, trace: seq<Game>) {
    && 0 <= i <= |events| && |trace| == i + 1
    && (forall j {:trigger Handled(trace[j], events[j], trace[j + 1])} :: 0 <= j < i ==> Handled(trace[j], events[j], trace[j + 1]))
    && (forall j :: 0 <= j <= i && trace[j].lost ==> trace[i].lost)
  }

  /** Without a left click, no cell is revealed and no mine is laid. */
  ghost predicate Unclicked(g: Board, r: Board)
    requires Shaped(g) && Shaped(r)
  {
    Revealed(r) == Revealed(g) && Mines(r) == Mines(g) && r.minesGenerated == g.minesGenerated
  }

  /** What handling the events `done` did to game `g`, ending in game `r`:
      the board invariant holds; only closing the window stops the loop;
      without a left click nothing is revealed, laid or lost; revealed cells
      and laid mines persist; once a left click was handled the mines are
      laid; only a right click changes a flag; a cell clicked with the left
      button and never with the right one is revealed unless it was flagged
      from the start or is a mine. */
  ghost predicate Progress(g: Game, done: seq<Event>, r: Game) {
    && Shaped(g.board)
    && Consistent(r.board) && r.board.gridSize == r.gridSize && r.board.numMines == r.numMines
    && r.gridSize == g.gridSize && r.numMines == g.numMines && r.victory == g.victory
    && r.running == (g.running && Quit !in done)
    && (Clicked(done, LeftButton) == {} ==> r.lost == g.lost && Unclicked(g.board, r.board))
    && Revealed(g.board) <= Revealed(r.board)
    && (g.board.minesGenerated ==> r.board.minesGenerated && Mines(r.board) == Mines(g.board))
    && (Clicked(done, LeftButton) != {} ==> r.board.minesGenerated)
    && (forall q :: q !in Clicked(done, RightButton) ==> (q in Flagged(r.board) <==> q in Flagged(g.board)))
    && (forall q :: (q in Clicked(done, LeftButton) && q !in Clicked(done, RightButton) &&
                     q !in Flagged(g.board) && q !in Mines(r.board)) ==> q in Revealed(r.board))
  }

  /** The facts about one handled event that the round as a whole needs. */
  ghost predicate Effect(a: Game, e: Event, n: Game) {
    && Shaped(a.board)
    && Consistent(n.board) && n.board.gridSize == n.gridSize && n.board.numMines == n.numMines
    && n.gridSize == a.gridSize && n.numMines == a.numMines && n.victory == a.victory
    && n.running == (a.running && !e.Quit?)
    && Revealed(a.board) <= Revealed(n.board)
    && (a.board.minesGenerated ==> n.board.minesGenerated && Mines(n.board) == Mines(a.board))
    && (e.MouseDown? && e.button == LeftButton ==> n.board.minesGenerated && Flagged(n.board) == Flagged(a.board))
    && ((e.MouseDown? && e.button == LeftButton && e.cell !in Revealed(a.board) && e.cell !in Flagged(a.board) &&
         e.cell !in Mines(n.board)) ==> e.cell in Revealed(n.board))
    && (!(e.MouseDown? && e.button == LeftButton) ==> n.lost == a.lost && Unclicked(a.board, n.board))
    && (e.MouseDown? && e.button == RightButton ==>
          forall q :: q != e.cell ==> (q in Flagged(n.board) <==> q in Flagged(a.board)))
    && (!(e.MouseDown? && e.button == RightButton) ==> Flagged(n.board) == Flagged(a.board))
  }

  /** Handling event `i` extends what the first `i` events did. */
  lemma ProgressStep(g: Game, events: seq<Event>, i: int, a: Game, n: Game)
    requires 0 <= i < |events|
    requires Progress(g, events[..i], a) && Effect(a, events[i], n)
    ensures Progress(g, events[..i + 1], n)
  {
    PrefixStep(events, i);
  }

  /** What the first `i` events of a trace starting at `g` did to it. */
  lemma {:induction false} TracedProgress(g: Game, events: seq<Event>, trace: seq<Game>, i: int)
    requires Consistent(g.board) && g.board.gridSize == g.gridSize && g.board.numMines == g.numMines
    requires Traced(events, |events|, trace) && trace[0] == g && 0 <= i <= |events|
    ensures Progress(g, events[..i], trace[i])
    decreases i
  {
    if i > 0 {
      var j := i - 1;
      TracedProgress(g, events, trace, j);
      assert Handled(trace[j], events[j], trace[j + 1]);
      assert Effect(trace[j], events[j], trace[j + 1]);
      ProgressStep(g, events, j, trace[j], trace[j + 1]);
    }
  }

  /** Appending the game after event `i` extends the trace of the first `i`
      events to one of the first `i + 1`. */
  lemma TraceStep(events: seq<Event>, i: int, trace: seq<Game>, next: Game)
    requires Traced(events, i, trace) && i < |events|
    requires Handled(trace[i], events[i], next)
    ensures Traced(events, i + 1, trace + [next])
  {
    var t := trace + [next];
    forall j {:trigger events[j]} | 0 <= j < i + 1
      ensures Handled(t[j], events[j], t[j + 1])
    {
      if j < i {
        assert t[j] == trace[j] && t[j + 1] == trace[j + 1];
      } else {
        assert t[j] == trace[i] && t[j + 1] == next;
      }
    }
    forall j | 0 <= j <= i + 1 && t[j].lost
      ensures t[i + 1].lost
    {
      if j <= i {
        assert trace[j].lost && trace[i].lost;
      }
    }
  }

  lemma PrefixStep(events: seq<Event>, i: int)
    requires 0 <= i < |events|
    ensures Quit in events[..i + 1] <==> Quit in events[..i] || events[i].Quit?
    ensures events[i] in events
    ensures forall button, q :: MouseDown(button, q) in events[..i + 1] <==>
      MouseDown(button, q) in events[..i] || events[i] == MouseDown(button, q)
  {
    assert events[..i + 1] == events[..i] + [events[i]];
    assert events[..i + 1][..i] == events[..i];
  }

  /** One iteration of the game loop: the round's events, handled one after
      the other as `trace` records, then the decision. A lost game is never
      won and stops; otherwise the game is won exactly when every safe cell
      is revealed; it keeps running only when it is neither lost nor won and
      the window was not closed. */
  method Step(g: Game, events: seq<Event>) returns (r: Game, ghost trace: seq<Game>)
    requires Playable(g) && g.running
    requires forall e :: e in events && e.MouseDown? ==> InBounds(g.gridSize, e.cell)
    ensures |trace| == |events| + 1 && trace[0] == g
    ensures forall i {:trigger Handled(trace[i], events[i], trace[i + 1])} :: 0 <= i < |events| ==> Handled(trace[i], events[i], trace[i + 1])
    ensures r.board == trace[|events|].board && r.lost == trace[|events|].lost
    ensures forall i :: 0 <= i <= |events| && trace[i].lost ==> r.lost
    ensures Playable(r)
    ensures r.gridSize == g.gridSize && r.numMines == g.numMines
    ensures r.lost ==> !r.running && !r.victory
    ensures r.victory <==> !r.lost && Cells(r.gridSize) - Mines(r.board) <= Revealed(r.board)
    ensures r.running <==> !r.lost && !r.victory && Quit !in events
    ensures (forall q :: q !in Clicked(events, LeftButton)) ==> !r.lost && Unclicked(g.board, r.board)
    ensures Revealed(g.board) <= Revealed(r.board)
    ensures g.board.minesGenerated ==> Mines(r.board) == Mines(g.board)
  {
    var handled;
    handled, trace := HandleEvents(g, events);
    r := Settle(handled);
  }
}
