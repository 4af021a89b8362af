/**
  The CPU opponent of solo mode, which always plays O (src/App.js, lines
  22-79): a fixed priority list of finish, block, centre, random corner,
  random side, lowest empty cell.
*/
module CpuPolicy {
  import opened Optional
  import opened Grid

  /** The cells of `cells` that are empty on `board`, in their order (`filter((index) => !board[index])`). */
  function EmptiesOf(board: Board, cells: seq<Index>): (r: seq<Index>)
    ensures forall i :: i in r <==> i in cells && board[i] == Empty
    ensures |r| <= |cells|
    ensures cells != [] && board[cells[0]] == Empty ==> r != [] && r[0] == cells[0]
  {
    if cells == [] then []
    else (if board[cells[0]] == Empty then [cells[0]] else []) + EmptiesOf(board, cells[1..])
  }

  /** `line.map((index) => board[index])`. */
  function Marks(board: Board, l: Line): seq<Cell> {
    [board[l.a], board[l.b], board[l.c]]
  }

  /** Line `l` holds two marks of `p` and one empty cell, spelled out cell by cell. */
  predicate Threat(board: Board, l: Line, p: Player) {
    (board[l.a] == Empty && board[l.b] == Marked(p) && board[l.c] == Marked(p)) ||
    (board[l.a] == Marked(p) && board[l.b] == Empty && board[l.c] == Marked(p)) ||
    (board[l.a] == Marked(p) && board[l.b] == Marked(p) && board[l.c] == Empty)
  }

  /** The test in `findCriticalMove`'s loop: `playerMarks === 2 && emptySquares.length === 1`. */
  predicate Critical(board: Board, l: Line, p: Player) {
    Count(Marks(board, l), Marked(p)) == 2 && |EmptiesOf(board, l.Indices())| == 1
  }

  /**
    The counting test means exactly a two-and-a-gap line, and the one empty
    square it returns is the gap.
  */
  lemma CriticalIsThreat(board: Board, l: Line, p: Player)
    ensures Critical(board, l, p) <==> Threat(board, l, p)
    ensures Critical(board, l, p) ==>
      var g := EmptiesOf(board, l.Indices())[0]; board[g] == Empty && l.Contains(g)
  {
    var m := Marks(board, l);
    assert m[1..] == [board[l.b], board[l.c]] && m[1..][1..] == [board[l.c]] && m[1..][1..][1..] == [];
    assert Count(m, Marked(p)) ==
      (if board[l.a] == Marked(p) then 1 else 0) + (if board[l.b] == Marked(p) then 1 else 0) +
      (if board[l.c] == Marked(p) then 1 else 0);
    var e := l.Indices();
    assert e[1..] == [l.b, l.c] && e[1..][1..] == [l.c] && e[1..][1..][1..] == [];
    var ea, eb, ec := (if board[l.a] == Empty then [l.a] else []),
      (if board[l.b] == Empty then [l.b] else []), (if board[l.c] == Empty then [l.c] else []);
    assert EmptiesOf(board, e[1..][1..]) == ec;
    assert EmptiesOf(board, e[1..]) == eb + ec;
    assert EmptiesOf(board, e) == ea + (eb + ec);
  }

  /** `Lines[k]` is the first line that is a threat of `p`. */
  predicate FirstThreat(board: Board, p: Player, k: nat) {
    k < |Lines| && Threat(board, Lines[k], p) &&
    forall j :: 0 <= j < k ==> !Threat(board, Lines[j], p)
  }

  /** The loop of `findCriticalMove` from line `k` on. */
  function CriticalFrom(board: Board, p: Player, k: nat): (r: Option<Index>)
    requires k <= |Lines|
    ensures r.None? <==> forall j :: k <= j < |Lines| ==> !Threat(board, Lines[j], p)
    ensures r.Some? ==>
      board[r.value] == Empty &&
      exists j :: k <= j < |Lines| && Threat(board, Lines[j], p) && Lines[j].Contains(r.value) &&
        forall i :: k <= i < j ==> !Threat(board, Lines[i], p)
    decreases |Lines| - k
  {
    if k == |Lines| then None
    else
      var empties := EmptiesOf(board, Lines[k].Indices());
      if Count(Marks(board, Lines[k]), Marked(p)) == 2 && |empties| == 1 then
        CriticalIsThreat(board, Lines[k], p);
        Some(empties[0])
      else
        CriticalIsThreat(board, Lines[k], p);
        CriticalFrom(board, p, k + 1)
  }

  /**
    `findCriticalMove`: the empty cell of the first line holding two marks of
    `p` and one empty cell; `None` when there is no such line.
  */
  function FindCriticalMove(board: Board, p: Player): (r: Option<Index>)
    ensures r.None? <==> forall k :: 0 <= k < |Lines| ==> !Threat(board, Lines[k], p)
    ensures r.Some? ==>
      board[r.value] == Empty &&
      exists k: nat :: FirstThreat(board, p, k) && Lines[k].Contains(r.value)
  {
    CriticalFrom(board, p, 0)
  }

  /** The critical move lies on the first threatening line, whichever that is. */
  lemma CriticalMoveOnFirstThreat(board: Board, p: Player, k: nat)
    requires FirstThreat(board, p, k)
    ensures FindCriticalMove(board, p).Some? && Lines[k].Contains(FindCriticalMove(board, p).value)
  {
  }

  /**
    `pickRandomIndex`: `options[Math.floor(Math.random() * options.length)]`,
    with the value of `Math.random()` passed in as `rand`.
  */
  function PickRandomIndex(options: seq<Index>, rand: real): (r: Option<Index>)
    requires 0.0 <= rand < 1.0
    ensures r.None? <==> options == []
    ensures r.Some? ==> r.value in options
  {
    if options == [] then None
    else
      var n := |options| as real;
      assert rand * n < n;
      var position := (rand * n).Floor;
      Some(options[position])
  }

  /** Every option is the pick for some value of the random source. */
  lemma RandomIndexReaches(options: seq<Index>, j: nat)
    requires j < |options|
    ensures var rand := j as real / |options| as real;
      0.0 <= rand < 1.0 && PickRandomIndex(options, rand) == Some(options[j])
  {
    var n := |options| as real;
    var rand := j as real / n;
    assert rand * n == j as real;
  }

  const Corners: seq<Index> := [0, 2, 6, 8]
  const Sides: seq<Index> := [1, 3, 5, 7]

  predicate IsCorner(i: Index) {
    i == 0 || i == 2 || i == 6 || i == 8
  }

  predicate IsSide(i: Index) {
    i == 1 || i == 3 || i == 5 || i == 7
  }
  const AllCells: seq<Index> := [0, 1, 2, 3, 4, 5, 6, 7, 8]

  /**
    `pickCpuMove`: `None` on a full board, otherwise an empty cell chosen by
    finish, block, centre, random corner, random side, lowest empty cell.
  */
  function PickCpuMove(board: Board, rand: real): (r: Option<Index>)
    requires 0.0 <= rand < 1.0
    ensures r.None? <==> Full(board)
    ensures r.Some? ==> board[r.value] == Empty
  {
    var available := EmptiesOf(board, AllCells);
    assert Full(board) <==> available == [] by {
      forall i: Index ensures i in AllCells {
        assert i == 0 || i == 1 || i == 2 || i == 3 || i == 4 || i == 5 || i == 6 || i == 7 || i == 8;
      }
      if available != [] {
        assert available[0] in available;
      }
    }
    if available == [] then None
    else if FindCriticalMove(board, O).Some? then FindCriticalMove(board, O)
    else if FindCriticalMove(board, X).Some? then FindCriticalMove(board, X)
    else if board[4] == Empty then Some(4)
    else CornerOrSide(board, rand, available[0])
  }

  /**
    The last three rules of `pickCpuMove`: a random free corner, else a
    random free side, else `fallback`.
  */
  function CornerOrSide(board: Board, rand: real, fallback: Index): (r: Option<Index>)
    requires 0.0 <= rand < 1.0
    ensures r.Some? && (board[r.value] == Empty || r.value == fallback)
  {
    var corners := EmptiesOf(board, Corners);
    if corners != [] then PickRandomIndex(corners, rand)
    else
      var sides := EmptiesOf(board, Sides);
      if sides != [] then PickRandomIndex(sides, rand)
      else Some(fallback)
  }

  /** Some corner is free. */
  predicate OpenCorner(board: Board) {
    board[0] == Empty || board[2] == Empty || board[6] == Empty || board[8] == Empty
  }

  /** Neither player has a two-and-a-gap line. */
  predicate Quiet(board: Board) {
    forall k :: 0 <= k < |Lines| ==> !Threat(board, Lines[k], O) && !Threat(board, Lines[k], X)
  }

  /** Playing `p` into the gap of a two-and-a-gap line of `p` completes it. */
  lemma GapCompletes(board: Board, l: Line, p: Player, i: Index)
    requires Threat(board, l, p) && l.Contains(i) && board[i] == Empty
    ensures var after := board[i := Marked(p)];
      Monochrome(after, l) && after[l.a] == Marked(p)
  {
  }

  /** Playing the opponent into that gap puts its mark on the line, which is no longer a threat of `p`. */
  lemma GapBlocks(board: Board, l: Line, p: Player, i: Index)
    requires Threat(board, l, p) && l.Contains(i) && board[i] == Empty
    ensures var after := board[i := Marked(Other(p))];
      Marked(Other(p)) in Marks(after, l) && !Threat(after, l, p)
  {
  }

  /** Playing `p` into `p`'s critical cell completes a line of `p`. */
  lemma CriticalMoveCompletes(board: Board, p: Player, i: Index)
    requires FindCriticalMove(board, p) == Some(i)
    ensures var after := board[i := Marked(p)];
      exists j :: 0 <= j < |Lines| && Monochrome(after, Lines[j]) && after[Lines[j].a] == Marked(p)
  {
    var j: nat :| FirstThreat(board, p, j) && Lines[j].Contains(i);
    GapCompletes(board, Lines[j], p, i);
  }

  /**
    When O can complete a line, the CPU plays O's critical cell (ahead of any
    block), and that move completes an O line.
  */
  lemma CpuTakesWin(board: Board, rand: real, k: nat)
    requires 0.0 <= rand < 1.0
    requires k < |Lines| && Threat(board, Lines[k], O)
    ensures FindCriticalMove(board, O).Some? && PickCpuMove(board, rand) == FindCriticalMove(board, O)
    ensures var after := board[PickCpuMove(board, rand).value := Marked(O)];
      exists j :: 0 <= j < |Lines| && Monochrome(after, Lines[j]) && after[Lines[j].a] == Marked(O)
  {
    assert !Full(board);
    CriticalMoveCompletes(board, O, FindCriticalMove(board, O).value);
  }

  /**
    When O cannot complete a line but X can, the CPU plays into the gap of
    X's first threatening line, which then holds an O.
  */
  lemma CpuBlocks(board: Board, rand: real, k: nat)
    requires 0.0 <= rand < 1.0
    requires forall j :: 0 <= j < |Lines| ==> !Threat(board, Lines[j], O)
    requires k < |Lines| && Threat(board, Lines[k], X)
    ensures FindCriticalMove(board, X).Some? && PickCpuMove(board, rand) == FindCriticalMove(board, X)
    ensures var i := PickCpuMove(board, rand).value;
      exists j: nat :: FirstThreat(board, X, j) && Lines[j].Contains(i) &&
        Marked(O) in Marks(board[i := Marked(O)], Lines[j]) && !Threat(board[i := Marked(O)], Lines[j], X)
  {
    var i := FindCriticalMove(board, X).value;
    var j: nat :| FirstThreat(board, X, j) && Lines[j].Contains(i);
    GapBlocks(board, Lines[j], X, i);
  }

  /**
    With no threat on the board the class of the move is fixed: the centre
    exactly when it is free, a corner exactly when the centre is taken and a
    corner is free, a side exactly when the centre and every corner are taken.
  */
  lemma CpuMoveClass(board: Board, rand: real)
    requires 0.0 <= rand < 1.0
    requires Quiet(board) && !Full(board)
    ensures PickCpuMove(board, rand).Some?
    ensures var i := PickCpuMove(board, rand).value;
      (i == 4 <==> board[4] == Empty) &&
      (IsCorner(i) <==> board[4] != Empty && OpenCorner(board)) &&
      (IsSide(i) <==> board[4] != Empty && !OpenCorner(board))
  {
    var available := EmptiesOf(board, AllCells);
    assert available != [] by {
      var i: Index :| board[i] == Empty;
      assert i == 0 || i == 1 || i == 2 || i == 3 || i == 4 || i == 5 || i == 6 || i == 7 || i == 8;
      assert i in available;
    }
    assert FindCriticalMove(board, O).None? && FindCriticalMove(board, X).None?;
    if board[4] == Empty {
      assert PickCpuMove(board, rand) == Some(4);
    } else {
      assert PickCpuMove(board, rand) == CornerOrSide(board, rand, available[0]);
      CornerOrSideClass(board, rand, available[0]);
    }
  }

  /** The corner rule fires exactly when a corner is free; otherwise the side rule does. */
  lemma CornerOrSideClass(board: Board, rand: real, fallback: Index)
    requires 0.0 <= rand < 1.0
    requires !Full(board) && board[4] != Empty
    ensures var i := CornerOrSide(board, rand, fallback).value;
      (IsCorner(i) <==> OpenCorner(board)) && (IsSide(i) <==> !OpenCorner(board))
  {
    OpenCornerListed(board);
    var i := CornerOrSide(board, rand, fallback).value;
    if OpenCorner(board) {
      assert i in EmptiesOf(board, Corners);
    } else {
      FallbackUnreachable(board);
      assert i in EmptiesOf(board, Sides);
    }
  }

  /** `OpenCorner` is the code's test `corners.length`. */
  lemma OpenCornerListed(board: Board)
    ensures OpenCorner(board) <==> EmptiesOf(board, Corners) != []
  {
    var corners := EmptiesOf(board, Corners);
    if OpenCorner(board) {
      assert board[0] == Empty ==> 0 in corners;
      assert board[2] == Empty ==> 2 in corners;
      assert board[6] == Empty ==> 6 in corners;
      assert board[8] == Empty ==> 8 in corners;
    }
    assert corners != [] ==> corners[0] in Corners && board[corners[0]] == Empty;
  }

  /**
    The last rule (`availableSquares[0]`) is never reached: a non-full board
    whose centre and corners are all taken has a free side.
  */
  lemma FallbackUnreachable(board: Board)
    requires !Full(board) && board[4] != Empty && EmptiesOf(board, Corners) == []
    ensures EmptiesOf(board, Sides) != []
  {
    var i: Index :| board[i] == Empty;
    assert i !in Corners;
    assert i == 1 || i == 3 || i == 5 || i == 7;
    assert i in EmptiesOf(board, Sides);
  }

  /** Every free corner is a possible CPU move when the corner rule applies. */
  lemma CornerChoiceReachable(board: Board, c: Index)
    requires Quiet(board) && board[4] != Empty
    requires IsCorner(c) && board[c] == Empty
    ensures exists rand: real :: 0.0 <= rand < 1.0 && PickCpuMove(board, rand) == Some(c)
  {
    var corners := EmptiesOf(board, Corners);
    assert c in corners;
    var j :| 0 <= j < |corners| && corners[j] == c;
    RandomIndexReaches(corners, j);
    var rand := j as real / |corners| as real;
    assert FindCriticalMove(board, O).None? && FindCriticalMove(board, X).None?;
    assert PickCpuMove(board, rand) == Some(c);
  }

  /** Every free side is a possible CPU move when the side rule applies. */
  lemma SideChoiceReachable(board: Board, s: Index)
    requires Quiet(board) && board[4] != Empty && EmptiesOf(board, Corners) == []
    requires IsSide(s) && board[s] == Empty
    ensures exists rand: real :: 0.0 <= rand < 1.0 && PickCpuMove(board, rand) == Some(s)
  {
    var sides := EmptiesOf(board, Sides);
    assert s in sides;
    var j :| 0 <= j < |sides| && sides[j] == s;
    RandomIndexReaches(sides, j);
    var rand := j as real / |sides| as real;
    assert FindCriticalMove(board, O).None? && FindCriticalMove(board, X).None?;
    assert PickCpuMove(board, rand) == Some(s);
  }

  /** X holds 0 and 1: the CPU blocks at 2, whatever the random source gives. */
  lemma BlockExample(rand: real)
    requires 0.0 <= rand < 1.0
    ensures PickCpuMove([Marked(X), Marked(X), Empty, Empty, Empty, Empty, Empty, Empty, Empty], rand) == Some(2)
  {
    var board: Board := [Marked(X), Marked(X), Empty, Empty, Empty, Empty, Empty, Empty, Empty];
    forall j | 0 <= j < |Lines| ensures !Threat(board, Lines[j], O) {
      assert Marked(O) !in board;
    }
    CpuBlocks(board, rand, 0);
    CriticalMoveOnFirstThreat(board, X, 0);
  }

  /** O holds 0 and 1 and X holds 3 and 4: finishing at 2 beats blocking at 5. */
  lemma FinishBeatsBlockExample(rand: real)
    requires 0.0 <= rand < 1.0
    ensures PickCpuMove([Marked(O), Marked(O), Empty, Marked(X), Marked(X), Empty, Empty, Empty, Empty], rand) == Some(2)
  {
    var board: Board := [Marked(O), Marked(O), Empty, Marked(X), Marked(X), Empty, Empty, Empty, Empty];
    CpuTakesWin(board, rand, 0);
    CriticalMoveOnFirstThreat(board, O, 0);
  }
}
