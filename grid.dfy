/**
  The Grid Clash board: nine cells in row-major order, the eight winning
  lines, the winner search and the draw test (src/App.js, lines 4-20, 81-88
  and 99).
*/
module Grid {
  import opened Optional

  datatype Player = X | O

  /** A cell is `null` (empty) or holds a player's mark. */
  datatype Cell = Empty | Marked(player: Player)

  type Index = i: nat | i < 9

  type Board = s: seq<Cell> | |s| == 9
    witness [Empty, Empty, Empty, Empty, Empty, Empty, Empty, Empty, Empty]

  function Other(p: Player): (q: Player)
    ensures q != p
  {
    if p == X then O else X
  }

  /** `emptyBoard()`: nine empty cells. */
  function EmptyBoard(): (b: Board)
    ensures forall i: Index :: b[i] == Empty
  {
    [Empty, Empty, Empty, Empty, Empty, Empty, Empty, Empty, Empty]
  }

  /** A line is an index triple; the board wins on it when all three agree. */
  datatype Line = Line(a: Index, b: Index, c: Index) {
    function Indices(): seq<Index> {
      [a, b, c]
    }

    predicate Contains(i: Index) {
      i == a || i == b || i == c
    }
  }

  /** `WINNING_LINES`: three rows, three columns, two diagonals, in this order. */
  const Lines: seq<Line> := [
    Line(0, 1, 2), Line(3, 4, 5), Line(6, 7, 8),
    Line(0, 3, 6), Line(1, 4, 7), Line(2, 5, 8),
    Line(0, 4, 8), Line(2, 4, 6)
  ]

  /** The test inside `getWinner`'s loop: a non-empty first cell equal to the other two. */
  predicate Monochrome(board: Board, l: Line) {
    board[l.a] != Empty && board[l.a] == board[l.b] && board[l.a] == board[l.c]
  }

  /** `Lines[k]` is the first monochrome line in enumeration order. */
  predicate FirstMonochrome(board: Board, k: nat) {
    k < |Lines| && Monochrome(board, Lines[k]) &&
    forall j :: 0 <= j < k ==> !Monochrome(board, Lines[j])
  }

  /** The `{ player, line }` object `getWinner` returns. */
  datatype Win = Win(player: Player, line: Line)

  /** The loop of `getWinner` from line `k` on. */
  function WinnerFrom(board: Board, k: nat): (r: Option<Win>)
    requires k <= |Lines|
    ensures r.None? <==> forall j :: k <= j < |Lines| ==> !Monochrome(board, Lines[j])
    ensures r.Some? ==>
      Monochrome(board, r.value.line) && board[r.value.line.a] == Marked(r.value.player) &&
      exists j :: k <= j < |Lines| && Lines[j] == r.value.line &&
        forall i :: k <= i < j ==> !Monochrome(board, Lines[i])
    decreases |Lines| - k
  {
    if k == |Lines| then None
    else if Monochrome(board, Lines[k]) then Some(Win(board[Lines[k].a].player, Lines[k]))
    else WinnerFrom(board, k + 1)
  }

  /**
    `getWinner`: the first line whose three cells hold the same mark, with
    that mark; `None` exactly when no line is monochrome.
  */
  function GetWinner(board: Board): (r: Option<Win>)
    ensures r.None? <==> forall k :: 0 <= k < |Lines| ==> !Monochrome(board, Lines[k])
    ensures r.Some? ==>
      board[r.value.line.a] == Marked(r.value.player) &&
      board[r.value.line.b] == Marked(r.value.player) &&
      board[r.value.line.c] == Marked(r.value.player) &&
      exists k: nat :: FirstMonochrome(board, k) && Lines[k] == r.value.line
  {
    WinnerFrom(board, 0)
  }

  /**
    `getWinner` with its loop unrolled: the eight lines tested one after
    another, in order. It is the same function as `GetWinner`
    (`GetWinnerUnrolled`), written out so that the winner of a concrete
    board is a chain of eight tests rather than an unfolding of the
    recursive scan and its quantified contract.
  */
  function WinnerUnrolled(board: Board): Option<Win> {
    if Monochrome(board, Lines[0]) then Some(Win(board[Lines[0].a].player, Lines[0]))
    else if Monochrome(board, Lines[1]) then Some(Win(board[Lines[1].a].player, Lines[1]))
    else if Monochrome(board, Lines[2]) then Some(Win(board[Lines[2].a].player, Lines[2]))
    else if Monochrome(board, Lines[3]) then Some(Win(board[Lines[3].a].player, Lines[3]))
    else if Monochrome(board, Lines[4]) then Some(Win(board[Lines[4].a].player, Lines[4]))
    else if Monochrome(board, Lines[5]) then Some(Win(board[Lines[5].a].player, Lines[5]))
    else if Monochrome(board, Lines[6]) then Some(Win(board[Lines[6].a].player, Lines[6]))
    else if Monochrome(board, Lines[7]) then Some(Win(board[Lines[7].a].player, Lines[7]))
    else None
  }

  /** The loop and its unrolling agree on every board. */
  lemma GetWinnerUnrolled(board: Board)
    ensures GetWinner(board) == WinnerUnrolled(board)
  {
    assert WinnerFrom(board, 7) == if Monochrome(board, Lines[7]) then Some(Win(board[Lines[7].a].player, Lines[7])) else None;
    assert WinnerFrom(board, 6) == if Monochrome(board, Lines[6]) then Some(Win(board[Lines[6].a].player, Lines[6])) else WinnerFrom(board, 7);
    assert WinnerFrom(board, 5) == if Monochrome(board, Lines[5]) then Some(Win(board[Lines[5].a].player, Lines[5])) else WinnerFrom(board, 6);
    assert WinnerFrom(board, 4) == if Monochrome(board, Lines[4]) then Some(Win(board[Lines[4].a].player, Lines[4])) else WinnerFrom(board, 5);
    assert WinnerFrom(board, 3) == if Monochrome(board, Lines[3]) then Some(Win(board[Lines[3].a].player, Lines[3])) else WinnerFrom(board, 4);
    assert WinnerFrom(board, 2) == if Monochrome(board, Lines[2]) then Some(Win(board[Lines[2].a].player, Lines[2])) else WinnerFrom(board, 3);
    assert WinnerFrom(board, 1) == if Monochrome(board, Lines[1]) then Some(Win(board[Lines[1].a].player, Lines[1])) else WinnerFrom(board, 2);
  }

  /** `board.every(Boolean)`: no cell is empty. */
  predicate Full(board: Board) {
    forall i: Index :: board[i] != Empty
  }

  /** A board is full exactly when counting its empty cells gives zero. */
  lemma FullCount(board: Board)
    ensures Full(board) <==> Count(board, Empty) == 0
  {
    if Empty in board {
      var j :| 0 <= j < |board| && board[j] == Empty;
      assert !Full(board) by { assert board[j as Index] == Empty; }
    }
  }

  /** `isDraw`: no winner and every cell filled. */
  predicate IsDraw(board: Board)
    ensures IsDraw(board) <==>
      (forall k :: 0 <= k < |Lines| ==> !Monochrome(board, Lines[k])) && Full(board)
  {
    GetWinner(board).None? && Full(board)
  }

  /** The number of cells of `s` equal to `c` (`filter(...).length`). */
  function Count(s: seq<Cell>, c: Cell): (n: nat)
    ensures n <= |s|
    ensures n == 0 <==> c !in s
  {
    if s == [] then 0 else (if s[0] == c then 1 else 0) + Count(s[1..], c)
  }

  /** Writing `v` at `i` moves the count of `c` by what left and what arrived. */
  lemma {:induction false} CountUpdate(s: seq<Cell>, i: nat, v: Cell, c: Cell)
    requires i < |s|
    ensures Count(s[i := v], c) ==
      Count(s, c) - (if s[i] == c then 1 else 0) + (if v == c then 1 else 0)
  {
    if i == 0 {
      assert s[i := v][1..] == s[1..];
    } else {
      assert s[i := v][1..] == s[1..][i - 1 := v];
      CountUpdate(s[1..], i - 1, v, c);
    }
  }

  /** Every cell is empty, an X or an O. */
  lemma {:induction false} CountPartition(s: seq<Cell>)
    ensures Count(s, Empty) + Count(s, Marked(X)) + Count(s, Marked(O)) == |s|
  {
    if s != [] {
      CountPartition(s[1..]);
      assert Count(s, Empty) == (if s[0] == Empty then 1 else 0) + Count(s[1..], Empty);
      assert Count(s, Marked(X)) == (if s[0] == Marked(X) then 1 else 0) + Count(s[1..], Marked(X));
      assert Count(s, Marked(O)) == (if s[0] == Marked(O) then 1 else 0) + Count(s[1..], Marked(O));
      match s[0]
      case Empty =>
      case Marked(p) => assert p == X || p == O;
    }
  }
}
