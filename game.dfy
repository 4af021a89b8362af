/**
  The Grid Clash game (src/App.js, lines 90-189): the board, whose turn it
  is, the running scores and the mode, the status line, the click, reset and
  mode handlers, and the body of the CPU's delayed move.
*/
module Game {
  import opened Optional
  import opened Grid
  import opened CpuPolicy

  /** `MODES`: a local duel, or solo against the CPU, which plays O. */
  datatype Mode = Duo | Solo

  /** `scores`: a running win count per player. */
  datatype Scores = Scores(x: nat, o: nat) {
    function Of(p: Player): nat {
      if p == X then x else o
    }

    /** `{ ...prev, [p]: prev[p] + 1 }`: one more win for `p`, none for the other. */
    function Credit(p: Player): (r: Scores)
      ensures r.Of(p) == Of(p) + 1 && r.Of(Other(p)) == Of(Other(p))
    {
      if p == X then Scores(x + 1, o) else Scores(x, o + 1)
    }
  }

  /** `isXNext ? 'X' : 'O'`. */
  function Mover(isXNext: bool): (p: Player)
    ensures p == X <==> isXNext
  {
    if isXNext then X else O
  }

  function Name(p: Player): string {
    if p == X then "X" else "O"
  }

  /** `isCpuTurn`: solo mode with O to move. */
  predicate IsCpuTurn(mode: Mode, isXNext: bool)
    ensures IsCpuTurn(mode, isXNext) <==> mode == Solo && Mover(isXNext) == O
  {
    mode == Solo && !isXNext
  }

  /** `handleSquareClick` plays the click: the cell is free, nobody has won, and it is not the CPU's turn. */
  predicate ClickAllowed(board: Board, isXNext: bool, mode: Mode, index: Index)
    ensures ClickAllowed(board, isXNext, mode, index) ==>
      !Full(board) && !IsDraw(board) && (mode == Solo ==> Mover(isXNext) == X)
  {
    board[index] == Empty && GetWinner(board).None? && !IsCpuTurn(mode, isXNext)
  }

  /** The effect schedules the CPU's move: its turn, no winner, no draw. */
  predicate CpuMoveDue(board: Board, isXNext: bool, mode: Mode)
    ensures CpuMoveDue(board, isXNext, mode) ==> mode == Solo && Mover(isXNext) == O && !Full(board)
  {
    IsCpuTurn(mode, isXNext) && GetWinner(board).None? && !IsDraw(board)
  }

  /**
    What every reachable state satisfies: X has as many marks as O, or one
    more when O is to move, and every complete line belongs to the player who
    moved last.
  */
  ghost predicate Consistent(board: Board, isXNext: bool) {
    Count(board, Marked(X)) == Count(board, Marked(O)) + (if isXNext then 0 else 1) &&
    forall k :: 0 <= k < |Lines| && Monochrome(board, Lines[k]) ==>
      board[Lines[k].a] == Marked(Other(Mover(isXNext)))
  }

  /** The empty board with X to move is consistent. */
  lemma EmptyBoardConsistent()
    ensures Consistent(EmptyBoard(), true)
  {
    assert Marked(X) !in EmptyBoard() && Marked(O) !in EmptyBoard();
  }

  /**
    A move by the player to move, into a free cell of a board without a
    winner, keeps the state consistent with the turn flipped: any line it
    completes is the mover's.
  */
  lemma PlayKeepsConsistent(board: Board, isXNext: bool, i: Index)
    requires Consistent(board, isXNext)
    requires board[i] == Empty && GetWinner(board).None?
    ensures Consistent(board[i := Marked(Mover(isXNext))], !isXNext)
  {
    var p := Mover(isXNext);
    var after := board[i := Marked(p)];
    CountUpdate(board, i, Marked(p), Marked(X));
    CountUpdate(board, i, Marked(p), Marked(O));
    forall k | 0 <= k < |Lines| && Monochrome(after, Lines[k])
      ensures after[Lines[k].a] == Marked(p)
    {
      assert !Monochrome(board, Lines[k]);
    }
  }

  /**
    When the CPU's move is due, `PickCpuMove` finds a free cell, and playing O
    there keeps the state consistent with X to move; a win it makes is O's.
  */
  lemma CpuMoveKeepsConsistent(board: Board, isXNext: bool, mode: Mode, rand: real)
    requires 0.0 <= rand < 1.0
    requires Consistent(board, isXNext) && CpuMoveDue(board, isXNext, mode)
    ensures PickCpuMove(board, rand).Some?
    ensures var after := board[PickCpuMove(board, rand).value := Marked(O)];
      Consistent(after, true) && (GetWinner(after).Some? ==> GetWinner(after).value.player == O)
  {
    var move := PickCpuMove(board, rand).value;
    PlayKeepsConsistent(board, isXNext, move);
    WinnerMovedLast(board[move := Marked(O)], true);
  }

  /** In a consistent state there is at most one winning player: the one who moved last. */
  lemma WinnerMovedLast(board: Board, isXNext: bool)
    requires Consistent(board, isXNext)
    ensures GetWinner(board).Some? ==> GetWinner(board).value.player == Other(Mover(isXNext))
    ensures forall j, k ::
      0 <= j < |Lines| && 0 <= k < |Lines| && Monochrome(board, Lines[j]) && Monochrome(board, Lines[k]) ==>
        board[Lines[j].a] == board[Lines[k].a]
  {
    if GetWinner(board).Some? {
      var k: nat :| FirstMonochrome(board, k) && Lines[k] == GetWinner(board).value.line;
    }
  }

  /**
    A full board in a consistent state holds five X and four O, so a draw
    always falls on O's turn (which is why the CPU effect tests `isDraw`).
  */
  lemma FullBoardOnOsTurn(board: Board, isXNext: bool)
    requires Consistent(board, isXNext) && Full(board)
    ensures !isXNext && Count(board, Marked(X)) == 5 && Count(board, Marked(O)) == 4
  {
    CountPartition(board);
    assert Empty !in board by {
      forall i | 0 <= i < |board| ensures board[i] != Empty {
        assert board[i as Index] != Empty;
      }
    }
  }

  /** The round's state as the status line reports it. */
  datatype Phase = Won(winner: Player) | Drawn | CpuThinking | ToMove(next: Player)

  function PhaseOf(board: Board, isXNext: bool, mode: Mode): Phase {
    if GetWinner(board).Some? then Won(GetWinner(board).value.player)
    else if Full(board) then Drawn
    else if IsCpuTurn(mode, isXNext) then CpuThinking
    else ToMove(Mover(isXNext))
  }

  /**
    `statusMessage`. It reads "CPU is planning its move..." exactly when the
    CPU's move is scheduled.
  */
  function StatusMessage(board: Board, isXNext: bool, mode: Mode): (r: string)
    ensures r == "CPU is planning its move..." <==> CpuMoveDue(board, isXNext, mode)
  {
    var winner := GetWinner(board);
    if winner.Some? then
      if mode == Solo then
        (if winner.value.player == O then "CPU claims the round!" else "You win this round!")
      else
        "Player " + Name(winner.value.player) + " wins!"
    else if IsDraw(board) then "No moves left. It is a draw."
    else if IsCpuTurn(mode, isXNext) then "CPU is planning its move..."
    else (if mode == Solo && isXNext then "You" else "Player " + Name(Mover(isXNext))) + " to move"
  }

  /** The text `StatusMessage` shows in each phase. */
  lemma StatusInPhase(board: Board, isXNext: bool, mode: Mode)
    ensures var r := StatusMessage(board, isXNext, mode);
      match PhaseOf(board, isXNext, mode)
      case Won(p) =>
        if mode == Solo then r == (if p == O then "CPU claims the round!" else "You win this round!")
        else r == "Player " + Name(p) + " wins!"
      case Drawn => r == "No moves left. It is a draw."
      case CpuThinking => r == "CPU is planning its move..."
      case ToMove(p) =>
        if mode == Solo then p == X && r == "You to move"
        else r == "Player " + Name(p) + " to move"
  {
  }

  /** The eighth character of "Player X ..." names the player. */
  lemma PlayerTextNames(p: Player, q: Player, rest: string)
    requires p != q
    ensures "Player " + Name(p) + rest != "Player " + Name(q) + rest
  {
    var s := "Player " + Name(p) + rest;
    var t := "Player " + Name(q) + rest;
    assert s[7] == Name(p)[0] && t[7] == Name(q)[0];
  }

  /** Within one mode, two states show the same status exactly when they are in the same phase. */
  lemma StatusIdentifiesPhase(b1: Board, x1: bool, b2: Board, x2: bool, mode: Mode)
    ensures StatusMessage(b1, x1, mode) == StatusMessage(b2, x2, mode) <==>
      PhaseOf(b1, x1, mode) == PhaseOf(b2, x2, mode)
  {
    var p1, p2 := PhaseOf(b1, x1, mode), PhaseOf(b2, x2, mode);
    StatusInPhase(b1, x1, mode);
    StatusInPhase(b2, x2, mode);
    if p1 != p2 && mode == Duo {
      if p1.Won? && p2.Won? {
        PlayerTextNames(p1.winner, p2.winner, " wins!");
      } else if p1.ToMove? && p2.ToMove? {
        PlayerTextNames(p1.next, p2.next, " to move");
      }
    }
  }

  /** `board.slice()`: a fresh array with the same cells. */
  method CopyBoard(source: array<Cell>) returns (copy: array<Cell>)
    ensures fresh(copy) && copy[..] == source[..]
  {
    copy := new Cell[source.Length];
    for i := 0 to source.Length
      invariant copy[..i] == source[..i]
    {
      copy[i] := source[i];
    }
  }

  /** The `App` component's state. The board array is replaced, never written, once installed. */
  class GridClash {
    var board: array<Cell>
    var isXNext: bool
    var scores: Scores
    var mode: Mode

    ghost predicate Valid()
      reads this, board
    {
      board.Length == 9 && Consistent(board[..], isXNext)
    }

    function Cells(): Board
      reads this, board
      requires board.Length == 9
    {
      board[..]
    }

    /** The initial state: empty board, X to move, no wins, duel mode. */
    constructor ()
      ensures Valid()
      ensures Cells() == EmptyBoard() && isXNext && scores == Scores(0, 0) && mode == Duo
    {
      var cells := new Cell[9](_ => Empty);
      assert cells[..] == EmptyBoard();
      EmptyBoardConsistent();
      board := cells;
      isXNext := true;
      scores := Scores(0, 0);
      mode := Duo;
    }

    /**
      The part both moves share (`nextBoard = board.slice()`, the write, the
      score update on a win, `setBoard(nextBoard)`): `player` goes into
      `index` on a fresh copy of the board, and a win on the new board is
      credited to its player.
    */
    method Place(index: Index, player: Player)
      requires board.Length == 9
      modifies this
      ensures board.Length == 9 && isXNext == old(isXNext) && mode == old(mode)
      ensures Cells() == old(Cells())[index := Marked(player)]
      ensures GetWinner(Cells()).None? ==> scores == old(scores)
      ensures GetWinner(Cells()).Some? ==> scores == old(scores).Credit(GetWinner(Cells()).value.player)
    {
      var next := CopyBoard(board);
      next[index] := Marked(player);
      var victory := GetWinner(next[..]);
      if victory.Some? {
        scores := scores.Credit(victory.value.player);
      }
      board := next;
    }

    /**
      `handleSquareClick`: when the click is allowed, only the clicked cell
      changes, to the mover's mark, the turn flips, and a win the move makes
      is the mover's and is credited to the mover (one more win, the other
      score unchanged); otherwise nothing changes.
    */
    method HandleSquareClick(index: Index)
      requires Valid()
      modifies this
      ensures Valid() && mode == old(mode)
      ensures old(ClickAllowed(Cells(), isXNext, mode, index)) ==>
        var player := Mover(old(isXNext));
        Cells() == old(Cells())[index := Marked(player)] &&
        isXNext == !old(isXNext) &&
        (GetWinner(Cells()).Some? ==> GetWinner(Cells()).value.player == player) &&
        scores == if GetWinner(Cells()).Some? then old(scores).Credit(player) else old(scores)
      ensures !old(ClickAllowed(Cells(), isXNext, mode, index)) ==>
        board == old(board) && Cells() == old(Cells()) && isXNext == old(isXNext) && scores == old(scores)
    {
      if board[index] != Empty || GetWinner(board[..]).Some? || IsCpuTurn(mode, isXNext) {
        return;
      }
      var player := Mover(isXNext);
      PlayKeepsConsistent(board[..], isXNext, index);
      WinnerMovedLast(board[..][index := Marked(player)], !isXNext);
      Place(index, player);
      isXNext := !isXNext;
    }

    /** `resetBoard` (Next Round): empty board, X to move; scores and mode kept. */
    method ResetBoard()
      requires Valid()
      modifies this
      ensures Valid()
      ensures Cells() == EmptyBoard() && isXNext && scores == old(scores) && mode == old(mode)
    {
      var cells := new Cell[9](_ => Empty);
      assert cells[..] == EmptyBoard();
      EmptyBoardConsistent();
      board := cells;
      isXNext := true;
    }

    /** `resetEverything` (Reset Scores): as `ResetBoard`, and both scores back to zero. */
    method ResetEverything()
      requires Valid()
      modifies this
      ensures Valid()
      ensures Cells() == EmptyBoard() && isXNext && scores == Scores(0, 0) && mode == old(mode)
    {
      ResetBoard();
      scores := Scores(0, 0);
    }

    /**
      `handleModeChange`: choosing the current mode does nothing; another
      mode is set with an empty board and X to move, scores kept.
    */
    method HandleModeChange(selected: Mode)
      requires Valid()
      modifies this
      ensures Valid() && mode == selected && scores == old(scores)
      ensures selected == old(mode) ==> board == old(board) && Cells() == old(Cells()) && isXNext == old(isXNext)
      ensures selected != old(mode) ==> Cells() == EmptyBoard() && isXNext
    {
      if selected == mode {
        return;
      }
      mode := selected;
      ResetBoard();
    }

    /**
      The body of the CPU's timer callback, run only under the effect's guard:
      O goes into the free cell `PickCpuMove` chooses, X is to move again, and
      a win that move makes is O's and is credited to O. When the guard fails
      nothing changes.
    */
    method CpuStep(rand: real)
      requires Valid() && 0.0 <= rand < 1.0
      modifies this
      ensures Valid() && mode == old(mode)
      ensures old(CpuMoveDue(Cells(), isXNext, mode)) ==>
        PickCpuMove(old(Cells()), rand).Some? &&
        var move := PickCpuMove(old(Cells()), rand).value;
        old(Cells())[move] == Empty &&
        Cells() == old(Cells())[move := Marked(O)] && isXNext &&
        (GetWinner(Cells()).Some? ==> GetWinner(Cells()).value.player == O) &&
        scores == if GetWinner(Cells()).Some? then old(scores).Credit(O) else old(scores)
      ensures !old(CpuMoveDue(Cells(), isXNext, mode)) ==>
        board == old(board) && Cells() == old(Cells()) && isXNext == old(isXNext) && scores == old(scores)
    {
      if !IsCpuTurn(mode, isXNext) || GetWinner(board[..]).Some? || IsDraw(board[..]) {
        return;
      }
      var cells := board[..];
      CpuMoveKeepsConsistent(cells, isXNext, mode, rand);
      var move := PickCpuMove(cells, rand);
      if move.None? {
        // the source's `move === null` branch: the guard has ruled out a full board
        assert false;
      }
      Place(move.value, O);
      isXNext := true;
    }
  }
}
