/**
  The board logic of the two-player desktop front end (loop.py): a 6 x 7 board of 0 (empty),
  1 (player one, yellow) and 2 (player two, red), the turn flag, and the 42-slot list of
  played columns that undo walks back through.

  The state invariant of `Session` ties the board to the moves recorded so far: the board is
  the replay, from an empty board, of the first `movePos` columns of the move list, each of
  which had room when it was played, and the turn flag says whose turn follows them.
*/
module Gui {
  import opened Grids

  const Rows := 6
  const Cols := 7
  /** Length of the move list. */
  const Slots := 42
  const Vacant := 0

  /** The piece placed on the given turn: 1 on player one's turn, 2 otherwise. */
  function Piece(playerOneTurn: bool): int {
    if playerOneTurn then 1 else 2
  }

  /** Whether it is player one's turn after k moves: the turn starts with player one and alternates. */
  function OneToMove(k: nat): bool {
    if k == 0 then true else !OneToMove(k - 1)
  }

  /**
    The row at which the downward scan in column c, started at row y, stops: it moves down
    while it is above the bottom row and the cell below is 0.
  */
  function ScanFrom(g: Grid, c: int, y: nat): (row: nat)
    requires IsRect(g, Rows, Cols) && 0 <= c < Cols && y < Rows
    ensures y <= row < Rows
    ensures row == Rows - 1 || g[row + 1][c] != Vacant
    ensures forall i :: y < i <= row ==> g[i][c] == Vacant
    decreases Rows - y
  {
    if y < Rows - 1 && g[y + 1][c] == Vacant then ScanFrom(g, c, y + 1) else y
  }

  /** The board after dropping `piece` in column c: unchanged when the top cell is taken. */
  function DropBoard(g: Grid, c: int, piece: int): (h: Grid)
    requires IsRect(g, Rows, Cols) && 0 <= c < Cols
    ensures IsRect(h, Rows, Cols)
  {
    if g[0][c] != Vacant then g else SetCell(g, ScanFrom(g, c, 0), c, piece)
  }

  /** The row that undo clears in column c: the scan's stop, moved down one when the top cell is 0. */
  function UndoRow(g: Grid, c: int): (row: nat)
    requires IsRect(g, Rows, Cols) && 0 <= c < Cols
    ensures row < Rows
  {
    var y := ScanFrom(g, c, 0);
    if g[0][c] == Vacant && y < Rows - 1 then y + 1 else y
  }

  /** The board after undoing a move in column c. */
  function UndoBoard(g: Grid, c: int): (h: Grid)
    requires IsRect(g, Rows, Cols) && 0 <= c < Cols
    ensures IsRect(h, Rows, Cols)
  {
    SetCell(g, UndoRow(g, c), c, Vacant)
  }

  /** The first n recorded moves are column numbers. */
  predicate InColumns(moves: seq<int>, n: nat)
    requires n <= |moves|
  {
    forall i :: 0 <= i < n ==> 0 <= moves[i] < Cols
  }

  /** The board reached by playing the first n recorded moves on an empty board, turns alternating. */
  function Replay(moves: seq<int>, n: nat): (g: Grid)
    requires n <= |moves| && InColumns(moves, n)
    ensures IsRect(g, Rows, Cols)
  {
    if n == 0 then Filled(Rows, Cols, Vacant)
    else DropBoard(Replay(moves, n - 1), moves[n - 1], Piece(OneToMove(n - 1)))
  }

  /** Each of the first n recorded moves went into a column whose top cell was still 0. */
  predicate Fits(moves: seq<int>, n: nat)
    requires n <= |moves| && InColumns(moves, n)
  {
    n == 0 || (Fits(moves, n - 1) && Replay(moves, n - 1)[0][moves[n - 1]] == Vacant)
  }

  predicate Legal(moves: seq<int>, n: nat) {
    n <= |moves| && InColumns(moves, n) && Fits(moves, n)
  }

  /** One of the eight unit directions. */
  predicate Direction(dr: int, dc: int) {
    -1 <= dr <= 1 && -1 <= dc <= 1 && (dr != 0 || dc != 0)
  }

  /** p holds four consecutive cells on the board, in any direction. */
  ghost predicate Four(g: Grid, p: int) {
    exists r, c, dr, dc :: Direction(dr, dc) && Window(g, r, c, dr, dc, p)
  }

  /** The winner as the front end reports it: 1 if player one has four in a row, else 2 if player two has, else 0. */
  ghost function Winner(g: Grid): int {
    if Four(g, 1) then 1 else if Four(g, 2) then 2 else 0
  }

  /** (dr, dc) is a unit step and the four cells from (x, y) in that direction are on the 6 x 7 board. */
  predicate Inside(x: int, y: int, dr: int, dc: int) {
    -1 <= dr <= 1 && -1 <= dc <= 1 && 0 <= x < Rows && 0 <= y < Cols && 0 <= Along(x, dr, 3) < Rows && 0 <= Along(y, dc, 3) < Cols
  }

  class Session {
    var gameBoard: array2<int>
    const moveTracker: array<int>
    var movePos: int
    var playerOneTurn: bool

    predicate Shaped()
      reads this
    {
      gameBoard.Length0 == Rows && gameBoard.Length1 == Cols
    }

    function Board(): (g: Grid)
      reads this, gameBoard
      requires Shaped()
      ensures IsRect(g, Rows, Cols)
    {
      ToGrid(gameBoard)
    }

    ghost predicate Valid()
      reads this, gameBoard, moveTracker
    {
      Shaped() && moveTracker.Length == Slots && 0 <= movePos <= Slots
      && Legal(moveTracker[..], movePos)
      && Board() == Replay(moveTracker[..], movePos)
      && playerOneTurn == OneToMove(movePos)
    }

    /** The program's start-up state: an empty board, a move list of zeros, player one to move. */
    constructor ()
      ensures Valid() && fresh(gameBoard) && fresh(moveTracker)
      ensures Board() == Filled(Rows, Cols, Vacant) && movePos == 0 && playerOneTurn
      ensures moveTracker[..] == seq(Slots, _ => 0)
    {
      gameBoard := new int[Rows, Cols]((_, _) => Vacant);
      moveTracker := new int[Slots](_ => 0);
      movePos := 0;
      playerOneTurn := true;
      new;
      GridExt(ToGrid(gameBoard), Filled(Rows, Cols, Vacant), Rows, Cols);
    }

    /**
      Drops the current player's piece in column xIndex: refused (false, nothing changed)
      when the column's top cell is taken, otherwise written at the row where the downward
      scan from row 0 stops.
    */
    method DrawToken(xIndex: int) returns (ok: bool)
      requires Shaped() && 0 <= xIndex < Cols
      modifies gameBoard
      ensures ok == (old(Board())[0][xIndex] == Vacant)
      ensures Board() == DropBoard(old(Board()), xIndex, Piece(playerOneTurn))
    {
      ghost var g := Board();
      var yIndex := 0;
      if gameBoard[0, xIndex] != Vacant {
        return false;
      }
      while yIndex < Rows - 1 && gameBoard[yIndex + 1, xIndex] == Vacant
        invariant 0 <= yIndex < Rows && ScanFrom(g, xIndex, yIndex) == ScanFrom(g, xIndex, 0)
        decreases Rows - yIndex
      {
        yIndex := yIndex + 1;
      }
      gameBoard[yIndex, xIndex] := Piece(playerOneTurn);
      GridExt(Board(), SetCell(g, yIndex, xIndex, Piece(playerOneTurn)), Rows, Cols);
      ok := true;
    }

    /** Hands the turn to the other player. */
    method Switch()
      modifies this`playerOneTurn
      ensures playerOneTurn == !old(playerOneTurn)
    {
      playerOneTurn := !playerOneTurn;
    }

    /**
      A click or key press in column xIndex: when the piece lands, the turn passes and the
      column is appended to the move list.
    */
    method Drop(xIndex: int) returns (ok: bool)
      requires Valid() && 0 <= xIndex < Cols
      modifies gameBoard, moveTracker, this`movePos, this`playerOneTurn
      ensures Valid()
      ensures ok == (old(Board())[0][xIndex] == Vacant)
      ensures ok ==> (movePos == old(movePos) + 1 && moveTracker[..] == old(moveTracker[..])[old(movePos) := xIndex]
        && Board() == DropBoard(old(Board()), xIndex, Piece(old(playerOneTurn)))
        && playerOneTurn == !old(playerOneTurn))
      ensures !ok ==> (movePos == old(movePos) && moveTracker[..] == old(moveTracker[..])
        && Board() == old(Board()) && playerOneTurn == old(playerOneTurn))
    {
      ok := DrawToken(xIndex);
      if ok {
        RoomLeft(moveTracker[..], movePos, xIndex);
        Record(xIndex);
      }
    }

    /**
      After a piece landed in column xIndex: passes the turn and appends the column to the
      move list, which re-establishes the state invariant.
    */
    method Record(xIndex: int)
      requires Shaped() && moveTracker.Length == Slots && 0 <= movePos < Slots && 0 <= xIndex < Cols
      requires Legal(moveTracker[..], movePos) && Replay(moveTracker[..], movePos)[0][xIndex] == Vacant
      requires playerOneTurn == OneToMove(movePos)
      requires Board() == DropBoard(Replay(moveTracker[..], movePos), xIndex, Piece(playerOneTurn))
      modifies moveTracker, this`movePos, this`playerOneTurn
      ensures Valid()
      ensures movePos == old(movePos) + 1 && moveTracker[..] == old(moveTracker[..])[old(movePos) := xIndex]
      ensures playerOneTurn == !old(playerOneTurn)
    {
      ghost var moves, n := moveTracker[..], movePos;
      Switch();
      moveTracker[movePos] := xIndex;
      movePos := movePos + 1;
      ReplayDrop(moves, n, xIndex);
      assert moveTracker[..] == moves[n := xIndex];
    }

    /**
      The undo button: with no recorded move nothing happens; otherwise the last recorded
      move is removed from the list and from the board, and the turn passes back.
    */
    method DrawUndo()
      requires Valid()
      modifies gameBoard, moveTracker, this`movePos, this`playerOneTurn
      ensures Valid()
      ensures old(movePos) == 0 ==> (movePos == 0 && moveTracker[..] == old(moveTracker[..])
        && Board() == old(Board()) && playerOneTurn == old(playerOneTurn))
      ensures old(movePos) > 0 ==> (movePos == old(movePos) - 1
        && Board() == UndoBoard(old(Board()), old(moveTracker[..])[movePos])
        && moveTracker[..] == old(moveTracker[..])[movePos := 0]
        && playerOneTurn == !old(playerOneTurn))
    {
      if movePos == 0 {
        return;
      }
      ghost var moves, g := moveTracker[..], Board();
      movePos := movePos - 1;
      ClearTop(moveTracker[movePos]);
      moveTracker[movePos] := 0;
      Switch();
      ReplayTruncate(moves, movePos + 1);
      assert moveTracker[..] == moves[movePos := 0];
      assert Board() == UndoBoard(g, moves[movePos]) == Replay(moveTracker[..], movePos);
      assert playerOneTurn == OneToMove(movePos);
    }

    /**
      The board half of undo: finds the row of the top piece in the column by the downward
      scan from row 0, moved down one when the top cell is 0, and sets that cell to 0.
    */
    method ClearTop(column: int)
      requires Shaped() && 0 <= column < Cols
      modifies gameBoard
      ensures Board() == UndoBoard(old(Board()), column)
    {
      ghost var g := Board();
      var yIndex := 0;
      while yIndex < Rows - 1 && gameBoard[yIndex + 1, column] == Vacant
        invariant 0 <= yIndex < Rows && ScanFrom(g, column, yIndex) == ScanFrom(g, column, 0)
        decreases Rows - yIndex
      {
        yIndex := yIndex + 1;
      }
      if gameBoard[0, column] == Vacant && yIndex < Rows - 1 {
        yIndex := yIndex + 1;
      }
      gameBoard[yIndex, column] := Vacant;
      GridExt(Board(), UndoBoard(g, column), Rows, Cols);
    }

    /**
      The new-game reset after a win or the new-game button: a fresh empty board, no recorded
      moves, player one to move. The move list itself keeps its old entries.
    */
    method NewGame()
      requires Valid()
      modifies this
      ensures Valid() && fresh(gameBoard)
      ensures Board() == Filled(Rows, Cols, Vacant) && movePos == 0 && playerOneTurn
      ensures moveTracker[..] == old(moveTracker[..])
    {
      gameBoard := new int[Rows, Cols]((_, _) => Vacant);
      movePos := 0;
      playerOneTurn := true;
      GridExt(ToGrid(gameBoard), Filled(Rows, Cols, Vacant), Rows, Cols);
    }

    /** Whether p holds the four cells from (x, y) in the unit direction (dr, dc), read cell by cell. */
    method RunOfFour(x: int, y: int, dr: int, dc: int, p: int) returns (found: bool)
      requires Shaped() && Inside(x, y, dr, dc)
      ensures found == Window(Board(), x, y, dr, dc, p)
    {
      ghost var g := Board();
      for i := 0 to 4
        invariant forall j :: 0 <= j < i ==> Owns(g, Along(x, dr, j), Along(y, dc, j), p)
      {
        if gameBoard[Along(x, dr, i), Along(y, dc, i)] == p {
          if i == 3 {
            WindowAlong(g, x, y, dr, dc, p);
            return true;
          }
        } else {
          WindowAlong(g, x, y, dr, dc, p);
          return false;
        }
      }
      WindowAlong(g, x, y, dr, dc, p);
      found := true;
    }

    /**
      Whether p holds four in a row, by the four scans of hasWon run one after the other,
      each stopping at the first line p holds.
    */
    method HasFour(p: int) returns (found: bool)
      requires Shaped()
      ensures found == Four(Board(), p)
    {
      found := Horizontals(p);
      if found {
        return;
      }
      found := Verticals(p);
      if found {
        return;
      }
      found := Ascending(p);
      if found {
        return;
      }
      found := Descending(p);
      if found {
        return;
      }
      ScansCover(Board(), p);
    }

    /** The scan of horizontal lines, rows 0-5, starting columns 0-3: true at the first one p holds; false when p holds none of them. */
    method Horizontals(p: int) returns (found: bool)
      requires Shaped()
      ensures found ==> Four(Board(), p)
      ensures !found ==> forall a, b :: 0 <= a < Rows && 0 <= b < 4 ==> !Window(Board(), a, b, 0, 1, p)
    {
      ghost var g := Board();
      for y := 0 to 4
        invariant forall a, b :: 0 <= a < Rows && 0 <= b < y ==> !Window(g, a, b, 0, 1, p)
      {
        for x := 0 to 6
          invariant forall a, b :: 0 <= a < Rows && 0 <= b < y ==> !Window(g, a, b, 0, 1, p)
          invariant forall a :: 0 <= a < x ==> !Window(g, a, y, 0, 1, p)
        {
          found := RunOfFour(x, y, 0, 1, p);
          if found {
            assert Direction(0, 1);
            return;
          }
        }
      }
      found := false;
    }

    /** The scan of vertical lines, starting rows 0-2, columns 0-6: true at the first one p holds; false when p holds none of them. */
    method Verticals(p: int) returns (found: bool)
      requires Shaped()
      ensures found ==> Four(Board(), p)
      ensures !found ==> forall a, b :: 0 <= a < 3 && 0 <= b < Cols ==> !Window(Board(), a, b, 1, 0, p)
    {
      ghost var g := Board();
      for x := 0 to 3
        invariant forall a, b :: 0 <= a < x && 0 <= b < Cols ==> !Window(g, a, b, 1, 0, p)
      {
        for y := 0 to 7
          invariant forall a, b :: 0 <= a < x && 0 <= b < Cols ==> !Window(g, a, b, 1, 0, p)
          invariant forall b :: 0 <= b < y ==> !Window(g, x, b, 1, 0, p)
        {
          found := RunOfFour(x, y, 1, 0, p);
          if found {
            assert Direction(1, 0);
            return;
          }
        }
      }
      found := false;
    }

    /** The scan of ascending diagonals, starting rows 3-5, columns 0-3: true at the first one p holds; false when p holds none of them. */
    method Ascending(p: int) returns (found: bool)
      requires Shaped()
      ensures found ==> Four(Board(), p)
      ensures !found ==> forall a, b :: 3 <= a < Rows && 0 <= b < 4 ==> !Window(Board(), a, b, -1, 1, p)
    {
      ghost var g := Board();
      for x := 3 to 6
        invariant forall a, b :: 3 <= a < x && 0 <= b < 4 ==> !Window(g, a, b, -1, 1, p)
      {
        for y := 0 to 4
          invariant forall a, b :: 3 <= a < x && 0 <= b < 4 ==> !Window(g, a, b, -1, 1, p)
          invariant forall b :: 0 <= b < y ==> !Window(g, x, b, -1, 1, p)
        {
          found := RunOfFour(x, y, -1, 1, p);
          if found {
            assert Direction(-1, 1);
            return;
          }
        }
      }
      found := false;
    }

    /** The scan of descending diagonals, starting rows 3-5, columns 3-6: true at the first one p holds; false when p holds none of them. */
    method Descending(p: int) returns (found: bool)
      requires Shaped()
      ensures found ==> Four(Board(), p)
      ensures !found ==> forall a, b :: 3 <= a < Rows && 3 <= b < Cols ==> !Window(Board(), a, b, -1, -1, p)
    {
      ghost var g := Board();
      for x := 3 to 6
        invariant forall a, b :: 3 <= a < x && 3 <= b < Cols ==> !Window(g, a, b, -1, -1, p)
      {
        for y := 3 to 7
          invariant forall a, b :: 3 <= a < x && 3 <= b < Cols ==> !Window(g, a, b, -1, -1, p)
          invariant forall b :: 3 <= b < y ==> !Window(g, x, b, -1, -1, p)
        {
          found := RunOfFour(x, y, -1, -1, p);
          if found {
            assert Direction(-1, -1);
            return;
          }
        }
      }
      found := false;
    }

    /** The winner check run after every drop: player one first, then player two, else 0. */
    method HasWon() returns (winner: int)
      requires Shaped()
      ensures winner == Winner(Board())
    {
      for p := 1 to 3
        invariant forall q :: 1 <= q < p ==> !Four(Board(), q)
      {
        var found := HasFour(p);
        if found {
          return p;
        }
      }
      winner := 0;
    }
  }

  /** Replaying depends only on the moves replayed. */
  lemma {:induction false} ReplayAgree(a: seq<int>, b: seq<int>, n: nat)
    requires Legal(a, n) && n <= |b| && forall i :: 0 <= i < n ==> a[i] == b[i]
    ensures Legal(b, n) && Replay(b, n) == Replay(a, n)
  {
    if n > 0 {
      ReplayAgree(a, b, n - 1);
    }
  }

  /** Recording a column with room after n legal moves gives n + 1 legal moves, whose replay is the drop. */
  lemma ReplayDrop(moves: seq<int>, n: nat, c: int)
    requires Legal(moves, n) && n < |moves| && 0 <= c < Cols && Replay(moves, n)[0][c] == Vacant
    ensures Legal(moves[n := c], n + 1)
    ensures Replay(moves[n := c], n + 1) == DropBoard(Replay(moves, n), c, Piece(OneToMove(n)))
  {
    ReplayAgree(moves, moves[n := c], n);
  }

  /** Clearing the last of n legal moves from the list leaves n - 1 legal moves, whose replay is the undo. */
  lemma ReplayTruncate(moves: seq<int>, n: nat)
    requires Legal(moves, n) && n > 0
    ensures Legal(moves[n - 1 := 0], n - 1)
    ensures Replay(moves[n - 1 := 0], n - 1) == UndoBoard(Replay(moves, n), moves[n - 1])
  {
    ReplayUndo(moves, n);
    ReplayAgree(moves, moves[n - 1 := 0], n - 1);
  }

  /** Every legal move empties one cell fewer: after n legal moves exactly 42 - n cells are 0. */
  lemma {:induction false} ReplayVacancies(moves: seq<int>, n: nat)
    requires Legal(moves, n)
    ensures Count(Replay(moves, n), Vacant) + n == Rows * Cols
  {
    if n == 0 {
      CountFilled(Rows, Cols, Vacant);
    } else {
      ReplayVacancies(moves, n - 1);
      var g := Replay(moves, n - 1);
      var c := moves[n - 1];
      CountSetCell(g, ScanFrom(g, c, 0), c, Vacant, Piece(OneToMove(n - 1)));
    }
  }

  /** A column with room after n legal moves means fewer than 42 moves are recorded, so the move list has a free slot. */
  lemma RoomLeft(moves: seq<int>, n: nat, c: int)
    requires Legal(moves, n) && 0 <= c < Cols && Replay(moves, n)[0][c] == Vacant
    ensures n < Slots
  {
    ReplayVacancies(moves, n);
    CountPositive(Replay(moves, n), 0, c, Vacant);
  }

  /** Undo clears exactly the piece that the last drop into the same column placed. */
  lemma UndoAfterDrop(g: Grid, c: int, piece: int)
    requires IsRect(g, Rows, Cols) && 0 <= c < Cols && g[0][c] == Vacant && piece != Vacant
    ensures UndoBoard(DropBoard(g, c, piece), c) == g
  {
    var y := ScanFrom(g, c, 0);
    var d := SetCell(g, y, c, piece);
    if y > 0 {
      assert d[y][c] != Vacant;
      assert forall i :: 0 < i < y ==> d[i][c] == Vacant;
      assert ScanFrom(d, c, 0) == y - 1;
    } else {
      assert d[1][c] == g[1][c];
    }
    assert UndoRow(d, c) == y;
    GridExt(SetCell(d, y, c, Vacant), g, Rows, Cols);
  }

  /** Undoing the last of n legal moves gives the board of the first n - 1. */
  lemma ReplayUndo(moves: seq<int>, n: nat)
    requires Legal(moves, n) && n > 0
    ensures Legal(moves, n - 1)
    ensures UndoBoard(Replay(moves, n), moves[n - 1]) == Replay(moves, n - 1)
  {
    UndoAfterDrop(Replay(moves, n - 1), moves[n - 1], Piece(OneToMove(n - 1)));
  }

  /** A window read cell by cell with unit steps. */
  lemma WindowAlong(g: Grid, x: int, y: int, dr: int, dc: int, p: int)
    requires -1 <= dr <= 1 && -1 <= dc <= 1
    ensures Window(g, x, y, dr, dc, p) <==> forall j :: 0 <= j < 4 ==> Owns(g, Along(x, dr, j), Along(y, dc, j), p)
  {
    assert Along(x, dr, 0) == x && Along(y, dc, 0) == y;
    assert Along(x, dr, 1) == x + dr && Along(y, dc, 1) == y + dc;
    assert Along(x, dr, 2) == x + 2 * dr && Along(y, dc, 2) == y + 2 * dc;
    assert Along(x, dr, 3) == x + 3 * dr && Along(y, dc, 3) == y + 3 * dc;
  }

  /** The same four cells read from the other end. */
  lemma WindowReversed(g: Grid, r: int, c: int, dr: int, dc: int, p: int)
    ensures Window(g, r, c, dr, dc, p) <==> Window(g, r + 3 * dr, c + 3 * dc, -dr, -dc, p)
  {
  }

  /** No window in one of the four scanned directions once its scan found none. */
  lemma NotScanned(g: Grid, r: int, c: int, dr: int, dc: int, p: int)
    requires IsRect(g, Rows, Cols)
    requires forall a, b :: 0 <= a < Rows && 0 <= b < 4 ==> !Window(g, a, b, 0, 1, p)
    requires forall a, b :: 0 <= a < 3 && 0 <= b < Cols ==> !Window(g, a, b, 1, 0, p)
    requires forall a, b :: 3 <= a < Rows && 0 <= b < 4 ==> !Window(g, a, b, -1, 1, p)
    requires forall a, b :: 3 <= a < Rows && 3 <= b < Cols ==> !Window(g, a, b, -1, -1, p)
    requires (dr, dc) == (0, 1) || (dr, dc) == (1, 0) || (dr, dc) == (-1, 1) || (dr, dc) == (-1, -1)
    ensures !Window(g, r, c, dr, dc, p)
  {
  }

  /** Every four-in-a-row lies on one of the lines the four scans of `HasFour` test. */
  lemma ScansCover(g: Grid, p: int)
    requires IsRect(g, Rows, Cols)
    requires forall a, b :: 0 <= a < Rows && 0 <= b < 4 ==> !Window(g, a, b, 0, 1, p)
    requires forall a, b :: 0 <= a < 3 && 0 <= b < Cols ==> !Window(g, a, b, 1, 0, p)
    requires forall a, b :: 3 <= a < Rows && 0 <= b < 4 ==> !Window(g, a, b, -1, 1, p)
    requires forall a, b :: 3 <= a < Rows && 3 <= b < Cols ==> !Window(g, a, b, -1, -1, p)
    ensures !Four(g, p)
  {
    forall r, c, dr, dc | Direction(dr, dc) ensures !Window(g, r, c, dr, dc, p) {
      if (dr == 1 && dc != 0) || (dr == 0 && dc == -1) || (dr == -1 && dc == 0) {
        WindowReversed(g, r, c, dr, dc, p);
        NotScanned(g, r + 3 * dr, c + 3 * dc, -dr, -dc, p);
      } else {
        NotScanned(g, r, c, dr, dc, p);
      }
    }
  }
}
