/** Revealing a cell: the lazy mine generation on the first click, the mine
    hit, and the explicit-stack flood fill over zero-count cells. */
module Reveal {
  import opened Geometry
  import opened Grid
  import opened MinePlacement

  /** A revealed safe cell with no mine around it: the flood fill spreads
      from exactly these cells. */
  predicate Opener(b: Board, z: Pos)
    requires Shaped(b)
  {
    InBounds(b.gridSize, z) && At(b, z).revealed && !At(b, z).isMine && At(b, z).adjacentMines == 0
  }

  /** Cells agree on everything except possibly whether they are revealed. */
  ghost predicate SameButRevealed(b: Board, r: Board)
    requires Shaped(b) && Shaped(r) && r.gridSize == b.gridSize
  {
    forall q :: InBounds(b.gridSize, q) ==> At(r, q) == At(b, q).(revealed := At(r, q).revealed)
  }

  /** The board with the cell at `p` revealed. */
  function RevealAt(b: Board, p: Pos): (r: Board)
    requires Shaped(b) && InBounds(b.gridSize, p)
    ensures Shaped(r) && r.gridSize == b.gridSize && r.numMines == b.numMines
    ensures r.minesGenerated == b.minesGenerated
    ensures SameButRevealed(b, r)
    ensures At(r, p).revealed
    ensures Revealed(r) == Revealed(b) + {p}
    ensures Flagged(r) == Flagged(b) && Mines(r) == Mines(b)
  {
    var r := Update(b, p, At(b, p).(revealed := true));
    assert Revealed(r) == Revealed(b) + {p};
    SameRevealedFlags(b, r);
    r
  }

  lemma SameRevealedFlags(b: Board, r: Board)
    requires Shaped(b) && Shaped(r) && r.gridSize == b.gridSize
    requires SameButRevealed(b, r)
    ensures Flagged(r) == Flagged(b) && Mines(r) == Mines(b)
    ensures forall q :: InBounds(b.gridSize, q) ==> At(r, q).adjacentMines == At(b, q).adjacentMines
  {
    assert forall q :: InBounds(b.gridSize, q) ==>
      At(r, q).flagged == At(b, q).flagged && At(r, q).isMine == At(b, q).isMine;
    SameMines(b, r);
  }

  lemma SameButRevealedTransitive(a: Board, b: Board, c: Board)
    requires Shaped(a) && Shaped(b) && Shaped(c) && b.gridSize == a.gridSize && c.gridSize == a.gridSize
    requires SameButRevealed(a, b) && SameButRevealed(b, c)
    ensures SameButRevealed(a, c)
  {
  }

  /** Revealing more cells never takes away an opener. */
  lemma OpenerStable(b: Board, r: Board, z: Pos)
    requires Shaped(b) && Shaped(r) && r.gridSize == b.gridSize
    requires SameButRevealed(b, r) && Revealed(b) <= Revealed(r)
    requires Opener(b, z)
    ensures Opener(r, z)
  {
    assert z in Revealed(b);
  }

  /** With correct counts, no mine touches a zero-count safe cell. */
  lemma NoMineNearOpener(b: Board, z: Pos, q: Pos)
    requires Shaped(b) && CountsCorrect(b)
    requires Opener(b, z) && Near(z, q)
    ensures q !in Mines(b)
  {
    assert |NeighbourMines(Mines(b), z)| == 0;
    assert q !in NeighbourMines(Mines(b), z);
  }

  /** `q` is `start`, or lies next to an opener in `region` that is itself
      reached from `start` in fewer steps: a chain of openers, all in
      `fresh`, leads from `start` to `q`. */
  ghost predicate Chain(r: Board, region: set<Pos>, start: Pos, q: Pos, steps: nat)
    requires Shaped(r)
    decreases steps
  {
    q == start ||
    (steps > 0 && exists z :: z in region && Opener(r, z) && Near(z, q) && Chain(r, region, start, z, steps - 1))
  }

  /** The state of the flood fill loop. `from[i]` is the opener that pushed
      `stack[i]` (unused for the start entry), `via[q]` the opener next to
      which the newly revealed `q` was found, and `rank[q]` the position of
      `q` in the order of reveals, `k` of them so far. */
  ghost predicate Filling(b: Board, start: Pos, r: Board, stack: seq<Pos>, from: seq<Pos>,
                          via: map<Pos, Pos>, rank: map<Pos, nat>, k: nat)
    requires Shaped(b)
  {
    && Shaped(r) && r.gridSize == b.gridSize && r.numMines == b.numMines
    && r.minesGenerated == b.minesGenerated
    && SameButRevealed(b, r)
    && Revealed(b) <= Revealed(r)
    && (Revealed(r) - Revealed(b)) !! Flagged(b)
    && (InBounds(b.gridSize, start) && start !in Flagged(b) ==> start in Revealed(r) || start in stack)
    && StackOrigins(b, r, start, stack, from)
    && RevealedOrigins(b, r, start, via, rank)
    && Ranked(b, r, rank, k) && |Revealed(r)| == |Revealed(b)| + k
    && Closed(b, r, stack)
  }

  /** Every stacked coordinate but the start was pushed by a newly revealed
      opener next to it. */
  ghost predicate StackOrigins(b: Board, r: Board, start: Pos, stack: seq<Pos>, from: seq<Pos>)
    requires Shaped(b) && Shaped(r)
  {
    |from| == |stack| &&
    forall i :: 0 <= i < |stack| ==>
      stack[i] == start ||
      (from[i] in Revealed(r) - Revealed(b) && Opener(r, from[i]) && Near(from[i], stack[i]))
  }

  /** Every newly revealed cell but the start lies next to a newly revealed
      opener, recorded in `via`, that was revealed before it. */
  ghost predicate RevealedOrigins(b: Board, r: Board, start: Pos, via: map<Pos, Pos>, rank: map<Pos, nat>)
    requires Shaped(b) && Shaped(r)
  {
    && (forall q :: q in Revealed(r) - Revealed(b) && q != start ==> q in via)
    && forall q {:trigger via[q]} :: q in via && q != start ==>
         via[q] in Revealed(r) - Revealed(b) && Opener(r, via[q]) && Near(via[q], q) &&
         q in rank && via[q] in rank && rank[via[q]] < rank[q]
  }

  /** Every newly revealed cell has a rank below `k`. */
  ghost predicate Ranked(b: Board, r: Board, rank: map<Pos, nat>, k: nat)
    requires Shaped(b) && Shaped(r)
  {
    forall q :: q in Revealed(r) - Revealed(b) ==> q in rank && rank[q] < k
  }

  /** Every neighbour of a newly revealed opener is revealed, flagged or
      still waiting on the stack. */
  ghost predicate Closed(b: Board, r: Board, stack: seq<Pos>)
    requires Shaped(b) && Shaped(r) && r.gridSize == b.gridSize
  {
    forall z, q :: z in Revealed(r) - Revealed(b) && Opener(r, z) && InBounds(b.gridSize, q) && Near(z, q) ==>
      q in Revealed(r) || q in Flagged(b) || q in stack
  }

  lemma FillingStart(b: Board, start: Pos)
    requires Shaped(b)
    ensures Filling(b, start, b, [start], [start], map[], map[], 0)
  {
    assert Revealed(b) - Revealed(b) == {};
  }

  /** Popping a coordinate that is off the grid, revealed or flagged. */
  lemma FillingSkip(b: Board, start: Pos, r: Board, stack: seq<Pos>, from: seq<Pos>,
                    via: map<Pos, Pos>, rank: map<Pos, nat>, k: nat)
    requires Shaped(b) && Filling(b, start, r, stack, from, via, rank, k) && |stack| > 0
    requires var p := stack[|stack| - 1];
      !InBounds(b.gridSize, p) || p in Revealed(r) || p in Flagged(b)
    ensures Filling(b, start, r, stack[..|stack| - 1], from[..|from| - 1], via, rank, k)
  {
    PopMembers(stack, []);
    assert stack[..|stack| - 1] + [] == stack[..|stack| - 1];
    SkipOrigins(b, r, start, stack, from);
    SkipClosed(b, r, stack);
  }

  lemma SkipOrigins(b: Board, r: Board, start: Pos, stack: seq<Pos>, from: seq<Pos>)
    requires Shaped(b) && Shaped(r) && |stack| > 0 && StackOrigins(b, r, start, stack, from)
    ensures StackOrigins(b, r, start, stack[..|stack| - 1], from[..|from| - 1])
  {
  }

  lemma SkipClosed(b: Board, r: Board, stack: seq<Pos>)
    requires Shaped(b) && Shaped(r) && r.gridSize == b.gridSize && |stack| > 0 && Closed(b, r, stack)
    requires var p := stack[|stack| - 1];
      !InBounds(b.gridSize, p) || p in Revealed(r) || p in Flagged(b)
    ensures Closed(b, r, stack[..|stack| - 1])
  {
    PopMembers(stack, []);
    assert stack[..|stack| - 1] + [] == stack[..|stack| - 1];
  }

  /** Popping a covered, unflagged cell: it is revealed with the next rank,
      and when it is an opener its nine neighbours are pushed. */
  lemma FillingReveal(b: Board, start: Pos, r: Board, stack: seq<Pos>, from: seq<Pos>,
                      via: map<Pos, Pos>, rank: map<Pos, nat>, k: nat)
    requires Shaped(b) && Filling(b, start, r, stack, from, via, rank, k) && |stack| > 0
    requires var p := stack[|stack| - 1];
      InBounds(b.gridSize, p) && p !in Revealed(r) && p !in Flagged(b)
    ensures var p := stack[|stack| - 1];
      var r' := RevealAt(r, p);
      var pushed := if Opener(r', p) then Around(p) else [];
      var pushedFrom := if Opener(r', p) then seq(9, _ => p) else [];
      Filling(b, start, r', stack[..|stack| - 1] + pushed, from[..|from| - 1] + pushedFrom,
              via[p := from[|from| - 1]], rank[p := k], k + 1)
  {
    var p := stack[|stack| - 1];
    var r' := RevealAt(r, p);
    var pushed := if Opener(r', p) then Around(p) else [];
    var stack' := stack[..|stack| - 1] + pushed;
    SameButRevealedTransitive(b, r, r');
    SameRevealedFlags(r, r');
    RevealKeepsOpeners(r, p);
    RevealStackOrigins(b, start, r, stack, from, via, rank, k);
    RevealVia(b, start, r, stack, from, via, rank, k);
    RevealRanked(b, start, r, stack, from, via, rank, k);
    RevealClosed(b, start, r, stack, from, via, rank, k);
    PopMembers(stack, pushed);
  }

  /** Every entry of a stack is its top or stays after the pop and push. */
  lemma PopMembers<T>(stack: seq<T>, pushed: seq<T>)
    requires |stack| > 0
    ensures stack == stack[..|stack| - 1] + [stack[|stack| - 1]]
    ensures forall x :: x in stack ==> x == stack[|stack| - 1] || x in stack[..|stack| - 1] + pushed
  {
    assert stack == stack[..|stack| - 1] + [stack[|stack| - 1]];
  }

  lemma RevealKeepsOpeners(r: Board, p: Pos)
    requires Shaped(r) && InBounds(r.gridSize, p)
    ensures forall z :: Opener(r, z) ==> Opener(RevealAt(r, p), z)
  {
    forall z | Opener(r, z)
      ensures Opener(RevealAt(r, p), z)
    {
      OpenerStable(r, RevealAt(r, p), z);
    }
  }

  /** Revealing a covered `p` adds exactly `p` to the newly revealed cells. */
  lemma RevealFresh(b: Board, r: Board, p: Pos)
    requires Shaped(b) && Shaped(r) && r.gridSize == b.gridSize && Revealed(b) <= Revealed(r)
    requires InBounds(r.gridSize, p) && p !in Revealed(r)
    ensures Revealed(RevealAt(r, p)) - Revealed(b) == (Revealed(r) - Revealed(b)) + {p}
    ensures p !in Revealed(r) - Revealed(b)
  {
  }

  lemma RevealStackOrigins(b: Board, start: Pos, r: Board, stack: seq<Pos>, from: seq<Pos>,
                           via: map<Pos, Pos>, rank: map<Pos, nat>, k: nat)
    requires Shaped(b) && Shaped(r) && r.gridSize == b.gridSize && Revealed(b) <= Revealed(r) && |stack| > 0
    requires InBounds(b.gridSize, stack[|stack| - 1]) && stack[|stack| - 1] !in Revealed(r)
    requires StackOrigins(b, r, start, stack, from)
    ensures var p := stack[|stack| - 1];
      var r' := RevealAt(r, p);
      var stack' := stack[..|stack| - 1] + if Opener(r', p) then Around(p) else [];
      var from' := from[..|from| - 1] + if Opener(r', p) then seq(9, _ => p) else [];
      StackOrigins(b, r', start, stack', from')
  {
    var p := stack[|stack| - 1];
    var r' := RevealAt(r, p);
    var rest := stack[..|stack| - 1];
    var stack' := rest + if Opener(r', p) then Around(p) else [];
    var from' := from[..|from| - 1] + if Opener(r', p) then seq(9, _ => p) else [];
    RevealKeepsOpeners(r, p);
    RevealFresh(b, r, p);
    forall i | 0 <= i < |stack'|
      ensures stack'[i] == start ||
        (from'[i] in Revealed(r') - Revealed(b) && Opener(r', from'[i]) && Near(from'[i], stack'[i]))
    {
      if i < |rest| {
        assert stack'[i] == stack[i] && from'[i] == from[i];
      } else {
        assert from'[i] == p && stack'[i] in Around(p);
      }
    }
  }

  lemma RevealVia(b: Board, start: Pos, r: Board, stack: seq<Pos>, from: seq<Pos>,
                  via: map<Pos, Pos>, rank: map<Pos, nat>, k: nat)
    requires Shaped(b) && Shaped(r) && r.gridSize == b.gridSize && Revealed(b) <= Revealed(r) && |stack| > 0
    requires InBounds(b.gridSize, stack[|stack| - 1]) && stack[|stack| - 1] !in Revealed(r)
    requires StackOrigins(b, r, start, stack, from) && RevealedOrigins(b, r, start, via, rank) && Ranked(b, r, rank, k)
    ensures var p := stack[|stack| - 1];
      var r' := RevealAt(r, p);
      RevealedOrigins(b, r', start, via[p := from[|from| - 1]], rank[p := k])
  {
    var p := stack[|stack| - 1];
    var r' := RevealAt(r, p);
    var o := from[|from| - 1];
    var via', rank' := via[p := o], rank[p := k];
    RevealKeepsOpeners(r, p);
    RevealFresh(b, r, p);
    forall q | q in via' && q != start
      ensures via'[q] in Revealed(r') - Revealed(b) && Opener(r', via'[q]) && Near(via'[q], q) &&
              q in rank' && via'[q] in rank' && rank'[via'[q]] < rank'[q]
    {
      if q == p {
        assert o in Revealed(r) - Revealed(b) && Opener(r, o) && Near(o, p);
        assert o in rank && o != p && rank'[o] == rank[o] < k;
      } else {
        assert q in via;
        var z := via[q];
        assert z in Revealed(r) - Revealed(b) && Opener(r, z) && z != p;
        assert via'[q] == z && rank'[q] == rank[q] && rank'[z] == rank[z];
      }
    }
  }

  lemma RevealRanked(b: Board, start: Pos, r: Board, stack: seq<Pos>, from: seq<Pos>,
                     via: map<Pos, Pos>, rank: map<Pos, nat>, k: nat)
    requires Shaped(b) && Shaped(r) && r.gridSize == b.gridSize && Revealed(b) <= Revealed(r) && |stack| > 0
    requires InBounds(b.gridSize, stack[|stack| - 1]) && stack[|stack| - 1] !in Revealed(r)
    requires Ranked(b, r, rank, k) && |Revealed(r)| == |Revealed(b)| + k
    ensures var p := stack[|stack| - 1];
      Ranked(b, RevealAt(r, p), rank[p := k], k + 1) && |Revealed(RevealAt(r, p))| == |Revealed(b)| + k + 1
  {
    var p := stack[|stack| - 1];
    RevealFresh(b, r, p);
    RankStep(Revealed(r), Revealed(RevealAt(r, p)), Revealed(b), rank, k, p);
  }

  lemma RankStep(now: set<Pos>, next: set<Pos>, before: set<Pos>, rank: map<Pos, nat>, k: nat, p: Pos)
    requires next == now + {p} && p !in now && |now| == |before| + k
    requires forall q :: q in now - before ==> q in rank && rank[q] < k
    ensures |next| == |before| + k + 1
    ensures forall q :: q in next - before ==> q in rank[p := k] && rank[p := k][q] < k + 1
  {
  }

  lemma RevealClosed(b: Board, start: Pos, r: Board, stack: seq<Pos>, from: seq<Pos>,
                     via: map<Pos, Pos>, rank: map<Pos, nat>, k: nat)
    requires Shaped(b) && Shaped(r) && r.gridSize == b.gridSize && Revealed(b) <= Revealed(r) && |stack| > 0
    requires InBounds(b.gridSize, stack[|stack| - 1]) && stack[|stack| - 1] !in Revealed(r)
    requires Closed(b, r, stack)
    ensures var p := stack[|stack| - 1];
      var r' := RevealAt(r, p);
      Closed(b, r', stack[..|stack| - 1] + if Opener(r', p) then Around(p) else [])
  {
    var p := stack[|stack| - 1];
    var r' := RevealAt(r, p);
    var rest := stack[..|stack| - 1];
    var stack' := rest + if Opener(r', p) then Around(p) else [];
    PopMembers(stack, if Opener(r', p) then Around(p) else []);
    forall z, q | z in Revealed(r') - Revealed(b) && Opener(r', z) && InBounds(b.gridSize, q) && Near(z, q)
      ensures q in Revealed(r') || q in Flagged(b) || q in stack'
    {
      if z == p {
        assert q in Around(p);
      } else if q != p {
        assert Opener(r, z);
        assert q in Revealed(r) || q in Flagged(b) || q in stack;
      }
    }
  }

  /** The explicit-stack flood fill. It only ever sets `revealed`; it
      reveals the start cell unless that is flagged, and never reveals a
      flagged cell. The opened region is connected: every newly revealed
      cell is reached from the start through a chain of newly revealed
      zero-count safe cells. It is also closed: every neighbour of such a
      cell ends up revealed or flagged. With correct counts and a safe
      start it reveals no mine. */
  method FloodFill(b: Board, start: Pos) returns (r: Board)
    requires Shaped(b)
    ensures Shaped(r) && r.gridSize == b.gridSize && r.numMines == b.numMines
    ensures r.minesGenerated == b.minesGenerated
    ensures SameButRevealed(b, r)
    ensures Revealed(b) <= Revealed(r)
    ensures (Revealed(r) - Revealed(b)) !! Flagged(b)
    ensures InBounds(b.gridSize, start) && start !in Flagged(b) ==> start in Revealed(r)
    ensures forall q :: q in Revealed(r) - Revealed(b) && q != start ==>
      exists z :: z in Revealed(r) - Revealed(b) && Opener(r, z) && Near(z, q)
    ensures forall q :: q in Revealed(r) - Revealed(b) ==>
      Chain(r, Revealed(r) - Revealed(b), start, q, |Revealed(r) - Revealed(b)|)
    ensures forall z, q :: z in Revealed(r) - Revealed(b) && Opener(r, z) && InBounds(b.gridSize, q) && Near(z, q) ==>
      q in Revealed(r) || q in Flagged(b)
    ensures CountsCorrect(b) && start !in Mines(b) ==> (Revealed(r) - Revealed(b)) !! Mines(b)
  {
    ghost var via, rank, k;
    r, via, rank, k := FillLoop(b, start);
    FillingDone(b, start, r, [], via, rank, k);
  }

  /** The loop of `flood_fill`: pop a cell, skip it if it is off the grid,
      revealed or flagged, otherwise reveal it and, when it is a zero-count
      safe cell, push its eight neighbours. The ghost outputs record, for
      each newly revealed cell, the opener that pushed it and the order in
      which it was revealed. */
  method FillLoop(b: Board, start: Pos) returns (r: Board, ghost via: map<Pos, Pos>, ghost rank: map<Pos, nat>, ghost k: nat)
    requires Shaped(b)
    ensures Filling(b, start, r, [], [], via, rank, k)
  {
    var stack := [start];
    ghost var from := [start];
    via, rank, k := map[], map[], 0;
    r := b;
    FillingStart(b, start);
    while |stack| > 0
      invariant Filling(b, start, r, stack, from, via, rank, k)
      decreases Cells(b.gridSize) - Revealed(r), |stack|
    {
      var p := stack[|stack| - 1];
      if !InBounds(r.gridSize, p) || At(r, p).revealed || At(r, p).flagged {
        FillingSkip(b, start, r, stack, from, via, rank, k);
        stack, from := stack[..|stack| - 1], from[..|from| - 1];
      } else {
        FillingReveal(b, start, r, stack, from, via, rank, k);
        var r' := RevealAt(r, p);
        var c := At(r', p);
        var pushed := if c.adjacentMines == 0 && !c.isMine then Around(p) else [];
        ghost var pushedFrom := if c.adjacentMines == 0 && !c.isMine then seq(9, _ => p) else [];
        assert Cells(b.gridSize) - Revealed(r') < Cells(b.gridSize) - Revealed(r);
        via, rank, k := via[p := from[|from| - 1]], rank[p := k], k + 1;
        r, stack, from := r', stack[..|stack| - 1] + pushed, from[..|from| - 1] + pushedFrom;
      }
    }
    assert from == [];
  }

  lemma FillingDone(b: Board, start: Pos, r: Board, from: seq<Pos>, via: map<Pos, Pos>, rank: map<Pos, nat>, k: nat)
    requires Shaped(b) && Filling(b, start, r, [], from, via, rank, k)
    ensures forall q :: q in Revealed(r) - Revealed(b) && q != start ==>
      exists z :: z in Revealed(r) - Revealed(b) && Opener(r, z) && Near(z, q)
    ensures forall q :: q in Revealed(r) - Revealed(b) ==>
      Chain(r, Revealed(r) - Revealed(b), start, q, |Revealed(r) - Revealed(b)|)
    ensures CountsCorrect(b) && start !in Mines(b) ==> (Revealed(r) - Revealed(b)) !! Mines(b)
  {
    forall q | q in Revealed(r) - Revealed(b) && q != start
      ensures exists z :: z in Revealed(r) - Revealed(b) && Opener(r, z) && Near(z, q)
    {
      var z := OriginOf(b, r, start, via, rank, q);
    }
    CardSubsetDifference(Revealed(r), Revealed(b));
    forall q | q in Revealed(r) - Revealed(b)
      ensures Chain(r, Revealed(r) - Revealed(b), start, q, |Revealed(r) - Revealed(b)|)
    {
      ChainByRank(b, r, start, via, rank, k, q, k);
    }
    if CountsCorrect(b) && start !in Mines(b) {
      SameRevealedFlags(b, r);
      SameCounts(b, r);
      forall q | q in Revealed(r) - Revealed(b)
        ensures q !in Mines(b)
      {
        if q != start {
          var z := OriginOf(b, r, start, via, rank, q);
          NoMineNearOpener(r, z, q);
        }
      }
    }
  }

  /** Following `via` from a newly revealed cell strictly lowers its rank,
      so it reaches the start within `rank[q]` steps. */
  lemma {:induction false} ChainByRank(b: Board, r: Board, start: Pos, via: map<Pos, Pos>, rank: map<Pos, nat>,
                                       k: nat, q: Pos, n: nat)
    requires Shaped(b) && Shaped(r)
    requires RevealedOrigins(b, r, start, via, rank) && Ranked(b, r, rank, k)
    requires q in Revealed(r) - Revealed(b) && rank[q] < n
    ensures Chain(r, Revealed(r) - Revealed(b), start, q, n)
    decreases n
  {
    if q != start {
      var z := OriginOf(b, r, start, via, rank, q);
      ChainByRank(b, r, start, via, rank, k, z, n - 1);
      ChainExtend(r, Revealed(r) - Revealed(b), start, z, q, n);
    }
  }

  /** The opener recorded for a newly revealed cell other than the start. */
  lemma OriginOf(b: Board, r: Board, start: Pos, via: map<Pos, Pos>, rank: map<Pos, nat>, q: Pos) returns (z: Pos)
    requires Shaped(b) && Shaped(r) && RevealedOrigins(b, r, start, via, rank)
    requires q in Revealed(r) - Revealed(b) && q != start
    ensures z in Revealed(r) - Revealed(b) && Opener(r, z) && Near(z, q)
    ensures q in rank && z in rank && rank[z] < rank[q]
  {
    assert q in via;
    z := via[q];
  }

  /** A chain to an opener extends by one step to each of its neighbours. */
  lemma ChainExtend(r: Board, region: set<Pos>, start: Pos, z: Pos, q: Pos, n: nat)
    requires Shaped(r) && n > 0
    requires z in region && Opener(r, z) && Near(z, q) && Chain(r, region, start, z, n - 1)
    ensures Chain(r, region, start, q, n)
  {
  }

  /** The board flagged as having its mines laid. */
  function MarkGenerated(b: Board): (r: Board)
    requires Shaped(b)
    ensures Shaped(r) && r.gridSize == b.gridSize && r.numMines == b.numMines && r.minesGenerated
    ensures forall q :: InBounds(b.gridSize, q) ==> At(r, q) == At(b, q)
    ensures Mines(r) == Mines(b) && Revealed(r) == Revealed(b) && Flagged(r) == Flagged(b)
  {
    var r := b.(minesGenerated := true);
    SameMines(b, r);
    SameRevealedAndFlagged(b, r);
    r
  }

  /** Mines laid on a fresh consistent board, with their counts, give a
      consistent board once it is marked as generated. */
  lemma GeneratedConsistent(b: Board, g: Board)
    requires Consistent(b) && !b.minesGenerated
    requires Shaped(g) && g.gridSize == b.gridSize && g.numMines == b.numMines
    requires |Mines(g)| == MineTarget(b.numMines)
    requires Revealed(g) == Revealed(b) && Flagged(g) == Flagged(b)
    requires forall q :: InBounds(b.gridSize, q) ==>
      At(g, q).adjacentMines == if At(g, q).isMine then At(b, q).adjacentMines
                                else |NeighbourMines(Mines(g), q)|
    ensures Consistent(MarkGenerated(g))
  {
    var r := MarkGenerated(g);
    forall q | InBounds(b.gridSize, q) && At(g, q).isMine
      ensures At(b, q).adjacentMines == 0
    {
      assert q !in Mines(b);
      assert NeighbourMines(Mines(b), q) == {};
    }
  }

  /** A flood fill from a covered, unflagged safe cell keeps a consistent
      board consistent. */
  lemma FilledConsistent(b: Board, p: Pos, r: Board)
    requires Consistent(b) && InBounds(b.gridSize, p) && p !in Mines(b)
    requires Shaped(r) && r.gridSize == b.gridSize && r.numMines == b.numMines
    requires r.minesGenerated == b.minesGenerated && b.minesGenerated
    requires SameButRevealed(b, r) && Revealed(b) <= Revealed(r)
    requires (Revealed(r) - Revealed(b)) !! Flagged(b)
    requires (Revealed(r) - Revealed(b)) !! Mines(b)
    ensures Consistent(r)
  {
    SameRevealedFlags(b, r);
    SameCounts(b, r);
    assert Revealed(r) * Flagged(r) == {} by {
      assert Revealed(r) == Revealed(b) + (Revealed(r) - Revealed(b));
    }
    assert Mines(r) * Revealed(r) == {} by {
      assert Revealed(r) == Revealed(b) + (Revealed(r) - Revealed(b));
    }
  }

  /** What `reveal_cell` does to board `b` when cell `p` is clicked, ending
      in board `r`. The first call lays the mines, keeping the 4 x 3 safe
      zone around `p` free; later calls never touch them again. A revealed
      or flagged target is left alone, and so is a mine, which stays
      covered. Any other target is opened by the flood fill: every newly
      revealed cell is reached from `p` through newly revealed zero-count
      safe cells, each touching the next, and every neighbour of such a
      cell ends revealed or flagged. Flags never change and the board
      invariant holds, so no mine is ever revealed. */
  ghost predicate Revealing(b: Board, p: Pos, r: Board) {
    && Shaped(b) && Consistent(r) && r.minesGenerated
    && r.gridSize == b.gridSize && r.numMines == b.numMines
    && |Mines(r)| == MineTarget(b.numMines)
    && (!b.minesGenerated ==> Mines(r) * SafeZone(p) == {})
    && (b.minesGenerated ==> Mines(r) == Mines(b))
    && (b.minesGenerated ==> forall q :: InBounds(b.gridSize, q) ==> At(r, q).adjacentMines == At(b, q).adjacentMines)
    && Flagged(r) == Flagged(b) && Revealed(b) <= Revealed(r)
    && (p in Revealed(b) || p in Flagged(b) || p in Mines(r) ==> Revealed(r) == Revealed(b))
    && (b.minesGenerated && (p in Revealed(b) || p in Flagged(b)) ==> r == b)
    && (p !in Revealed(b) && p !in Flagged(b) && p !in Mines(r) ==> p in Revealed(r))
    && (forall q :: q in Revealed(r) - Revealed(b) && q != p ==>
          exists z :: z in Revealed(r) - Revealed(b) && Opener(r, z) && Near(z, q))
    && (forall q :: q in Revealed(r) - Revealed(b) ==>
          Chain(r, Revealed(r) - Revealed(b), p, q, |Revealed(r) - Revealed(b)|))
    && (forall z, q :: z in Revealed(r) - Revealed(b) && Opener(r, z) && InBounds(b.gridSize, q) && Near(z, q) ==>
          q in Revealed(r) || q in Flagged(r))
  }

  /** `reveal_cell`: the click on `p` turns `b` into `r` as `Revealing`
      describes, and reports a hit exactly when a covered, unflagged mine
      was clicked. */
  method RevealCell(b: Board, p: Pos) returns (r: Board, hit: bool)
    requires Consistent(b) && InBounds(b.gridSize, p)
    ensures Revealing(b, p, r)
    ensures hit <==> p !in Revealed(b) && p !in Flagged(b) && p in Mines(r)
  {
    r := b;
    if !r.minesGenerated {
      var g := GenerateMines(r, p);
      GeneratedConsistent(b, g);
      r := MarkGenerated(g);
    }
    var c := At(r, p);
    if c.revealed || c.flagged {
      hit := false;
      return;
    }
    if c.isMine {
      hit := true;
      return;
    }
    var before := r;
    r := FloodFill(before, p);
    FilledConsistent(before, p, r);
    SameRevealedFlags(before, r);
    hit := false;
  }
}
