/**
  Whole sessions of the game, driven through the `GridClash` handlers the
  way a player's clicks and the CPU's timer drive the component.
*/
module Scenarios {
  import opened Optional
  import opened Grid
  import opened CpuPolicy
  import opened Game

  /**
    X makes the first click of a round, then the players alternate: X makes
    the clicks with an even number of clicks before them. The parity is
    written as alternation so that each click of a replay unfolds it one
    step, with no reasoning about `%`.
  */
  predicate XClicks(n: nat) {
    if n == 0 then true else !XClicks(n - 1)
  }

  /** The board after the first `n` of `clicks`, played from an empty board. */
  function Replay(clicks: seq<Index>, n: nat): Board
    requires n <= |clicks|
  {
    if n == 0 then EmptyBoard()
    else Replay(clicks, n - 1)[clicks[n - 1] := Marked(Mover(XClicks(n - 1)))]
  }

  /** The `n`-th click lands on a free cell of a board nobody has won yet. */
  predicate ClickOpen(clicks: seq<Index>, n: nat)
    requires n < |clicks|
  {
    WinnerUnrolled(Replay(clicks, n)).None? && Replay(clicks, n)[clicks[n]] == Empty
  }

  /** Every click of the round is open. */
  predicate Playable(clicks: seq<Index>) {
    forall n :: 0 <= n < |clicks| ==> ClickOpen(clicks, n)
  }

  /** The `n`-th click of a round, on the board the earlier clicks left. */
  method PlayClick(g: GridClash, clicks: seq<Index>, n: nat)
    requires n < |clicks| && g.Valid() && g.mode == Duo
    requires g.Cells() == Replay(clicks, n) && g.isXNext == XClicks(n)
    requires ClickOpen(clicks, n)
    modifies g
    ensures g.Valid() && g.mode == Duo
    ensures g.Cells() == Replay(clicks, n + 1) && g.isXNext == XClicks(n + 1)
    ensures g.scores ==
      if WinnerUnrolled(g.Cells()).Some? then old(g.scores).Credit(WinnerUnrolled(g.Cells()).value.player) else old(g.scores)
  {
    GetWinnerUnrolled(g.Cells());
    g.HandleSquareClick(clicks[n]);
    GetWinnerUnrolled(g.Cells());
  }

  /**
    A round of a local duel clicked out from an empty board: every click is
    taken, the board ends as `Replay` says, and only the last click can have
    scored.
  */
  method PlayDuel(g: GridClash, clicks: seq<Index>)
    requires g.Valid() && g.mode == Duo && g.Cells() == EmptyBoard() && g.isXNext
    requires Playable(clicks)
    modifies g
    ensures g.Valid() && g.mode == Duo
    ensures g.Cells() == Replay(clicks, |clicks|) && g.isXNext == XClicks(|clicks|)
    ensures g.scores ==
      if WinnerUnrolled(g.Cells()).Some? then old(g.scores).Credit(WinnerUnrolled(g.Cells()).value.player) else old(g.scores)
  {
    for n := 0 to |clicks|
      invariant g.Valid() && g.mode == Duo
      invariant g.Cells() == Replay(clicks, n) && g.isXNext == XClicks(n)
      invariant g.scores ==
        if WinnerUnrolled(g.Cells()).Some? then old(g.scores).Credit(WinnerUnrolled(g.Cells()).value.player) else old(g.scores)
    {
      PlayClick(g, clicks, n);
    }
  }

  /** The clicks of the duel: X at 0, O at 3, X at 1, O at 4, X at 2. */
  const TopRowClicks: seq<Index> := [0, 3, 1, 4, 2]

  /** Nobody has won before the fifth click, which wins the top row for X. */
  lemma TopRowPlayable()
    ensures Playable(TopRowClicks)
    ensures WinnerUnrolled(Replay(TopRowClicks, 5)) == Some(Win(X, Line(0, 1, 2)))
  {
  }

  /**
    A local duel in which X takes the top row while O answers at 3 and 4:
    X wins on the row (0, 1, 2), the status line says so and the scoreboard
    reads one win for X.
  */
  method DuelTopRow() returns (status: string, scores: Scores, line: Option<Line>)
    ensures status == "Player X wins!" && scores == Scores(1, 0)
    ensures line == Some(Line(0, 1, 2))
  {
    var g := new GridClash();
    TopRowPlayable();
    PlayDuel(g, TopRowClicks);
    TopRowStatus(g.Cells(), g.isXNext);
    status := StatusMessage(g.Cells(), g.isXNext, g.mode);
    scores := g.scores;
    var w := GetWinner(g.Cells());
    line := if w.Some? then Some(w.value.line) else None;
  }

  /** The status line after the top-row duel. */
  lemma TopRowStatus(b: Board, isXNext: bool)
    requires b == Replay(TopRowClicks, 5)
    ensures GetWinner(b) == Some(Win(X, Line(0, 1, 2)))
    ensures StatusMessage(b, isXNext, Duo) == "Player X wins!"
  {
    TopRowPlayable();
    GetWinnerUnrolled(b);
  }

  /** Nine clicks that fill the board with no line: X O X / X O O / O X X. */
  const DrawClicks: seq<Index> := [0, 1, 2, 4, 3, 5, 7, 6, 8]

  /** No click of that round finds a winner or an occupied cell, and the full board has no line. */
  lemma DrawPlayable()
    ensures Playable(DrawClicks)
    ensures WinnerUnrolled(Replay(DrawClicks, 9)).None?
  {
  }

  /** The status line after the drawn duel. */
  lemma DrawStatus(b: Board, isXNext: bool)
    requires b == Replay(DrawClicks, 9)
    ensures GetWinner(b).None? && IsDraw(b)
    ensures StatusMessage(b, isXNext, Duo) == "No moves left. It is a draw."
  {
    DrawPlayable();
    GetWinnerUnrolled(b);
    forall i: Index ensures b[i] != Empty {
      assert i == 0 || i == 1 || i == 2 || i == 3 || i == 4 || i == 5 || i == 6 || i == 7 || i == 8;
    }
  }

  /**
    A duel that fills the board without a line: the round is a draw, the
    status line says so, O is to move and the scores are untouched.
  */
  method DrawnDuel() returns (status: string, scores: Scores, isXNext: bool)
    ensures status == "No moves left. It is a draw." && scores == Scores(0, 0) && !isXNext
  {
    var g := new GridClash();
    DrawPlayable();
    PlayDuel(g, DrawClicks);
    DrawStatus(g.Cells(), g.isXNext);
    status := StatusMessage(g.Cells(), g.isXNext, g.mode);
    scores, isXNext := g.scores, g.isXNext;
  }

  /** X's opening at 0 in solo mode: no winner, no threat, cells still free. */
  lemma SoloOpening(b: Board)
    requires b == EmptyBoard()[0 := Marked(X)]
    ensures WinnerUnrolled(b).None? && Quiet(b) && !Full(b) && b[4] == Empty
  {
    forall k | 0 <= k < |Lines| ensures !Threat(b, Lines[k], O) && !Threat(b, Lines[k], X) {
      assert k == 0 || k == 1 || k == 2 || k == 3 || k == 4 || k == 5 || k == 6 || k == 7;
    }
    assert b[1] == Empty;
  }

  /** After the CPU's reply at the centre nobody has won and the status line asks X to move. */
  lemma SoloReplied(b: Board)
    requires b == EmptyBoard()[0 := Marked(X)][4 := Marked(O)]
    ensures StatusMessage(b, true, Solo) == "You to move"
  {
    assert WinnerUnrolled(b).None? && b[1] == Empty;
    GetWinnerUnrolled(b);
  }

  /**
    Solo mode, X opens at 0: the status line says the CPU is planning, and
    the CPU's step, whatever the random source gives, answers in the centre
    and hands the move back to X.
  */
  method SoloOpeningExchange(rand: real) returns (planning: string, answered: string, cells: Board)
    requires 0.0 <= rand < 1.0
    ensures planning == "CPU is planning its move..."
    ensures cells == EmptyBoard()[0 := Marked(X)][4 := Marked(O)]
    ensures answered == "You to move"
  {
    var g := new GridClash();
    g.HandleModeChange(Solo);
    GetWinnerUnrolled(EmptyBoard());
    g.HandleSquareClick(0);
    var first := g.Cells();
    SoloOpening(first);
    GetWinnerUnrolled(first);
    planning := StatusMessage(first, g.isXNext, g.mode);
    CpuMoveClass(first, rand);
    g.CpuStep(rand);
    cells := g.Cells();
    SoloReplied(cells);
    answered := StatusMessage(cells, g.isXNext, g.mode);
  }

  /**
    A CPU move that was due when X clicked no longer applies once Next Round
    has emptied the board: the step finds X to move and changes nothing.
  */
  method StaleCpuStep(rand: real) returns (cells: Board, isXNext: bool, scores: Scores)
    requires 0.0 <= rand < 1.0
    ensures cells == EmptyBoard() && isXNext && scores == Scores(0, 0)
  {
    var g := new GridClash();
    g.HandleModeChange(Solo);
    GetWinnerUnrolled(EmptyBoard());
    g.HandleSquareClick(0);
    g.ResetBoard();
    g.CpuStep(rand);
    cells, isXNext, scores := g.Cells(), g.isXNext, g.scores;
  }
}
