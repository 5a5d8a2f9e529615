/** Properties of the front end's board rules: gravity, the undo round trip, the turn order and the win test. */
module GuiProps {
  import opened Grids
  import opened Gui

  /** The turn flag after k moves is the parity of k: player one moves after an even number of moves. */
  lemma {:induction false} OneToMoveParity(k: nat)
    ensures OneToMove(k) <==> k % 2 == 0
  {
    if k > 0 {
      OneToMoveParity(k - 1);
    }
  }

  /** On a settled board with room in column c, the scan stops at the lowest empty cell of that column. */
  lemma DropLandsLowest(g: Grid, c: int)
    requires IsRect(g, Rows, Cols) && Settled(g, Cols, Vacant) && 0 <= c < Cols && g[0][c] == Vacant
    ensures g[ScanFrom(g, c, 0)][c] == Vacant
    ensures forall i :: ScanFrom(g, c, 0) < i < Rows ==> g[i][c] != Vacant
  {
    var y := ScanFrom(g, c, 0);
    assert y == 0 || g[y][c] == Vacant;
    if y < Rows - 1 {
      assert g[y + 1][c] != Vacant;
    }
  }

  /** Dropping a piece keeps gravity. */
  lemma DropSettles(g: Grid, c: int, piece: int)
    requires IsRect(g, Rows, Cols) && Settled(g, Cols, Vacant) && 0 <= c < Cols && piece != Vacant
    ensures Settled(DropBoard(g, c, piece), Cols, Vacant)
  {
    if g[0][c] == Vacant {
      DropLandsLowest(g, c);
    }
  }

  /** Every board reached by legal moves is settled. */
  lemma {:induction false} ReplaySettled(moves: seq<int>, n: nat)
    requires Legal(moves, n)
    ensures Settled(Replay(moves, n), Cols, Vacant)
  {
    if n > 0 {
      ReplaySettled(moves, n - 1);
      DropSettles(Replay(moves, n - 1), moves[n - 1], Piece(OneToMove(n - 1)));
    }
  }

  /** On a settled board, undo in a non-empty column clears its topmost piece. */
  lemma UndoClearsTop(g: Grid, c: int)
    requires IsRect(g, Rows, Cols) && Settled(g, Cols, Vacant) && 0 <= c < Cols && g[Rows - 1][c] != Vacant
    ensures g[UndoRow(g, c)][c] != Vacant
    ensures forall i :: 0 <= i < UndoRow(g, c) ==> g[i][c] == Vacant
  {
    var y := ScanFrom(g, c, 0);
    if g[0][c] == Vacant {
      assert y < Rows - 1;
      assert g[y + 1][c] != Vacant;
    }
  }

  /** After n legal moves at most 42 are recorded: the move list index stays within the list. */
  lemma MovesBounded(moves: seq<int>, n: nat)
    requires Legal(moves, n)
    ensures n <= Slots
  {
    ReplayVacancies(moves, n);
  }

  /**
    The drop/undo round trip on the whole recorded state: recording column c after n legal
    moves and then undoing gives back the board of the first n moves, from the board on
    screen and from the move list with slot n cleared alike, and the two turn switches give
    back the turn.
  */
  lemma DropUndoRoundTrip(moves: seq<int>, n: nat, c: int)
    requires Legal(moves, n) && n < |moves| && 0 <= c < Cols && Replay(moves, n)[0][c] == Vacant
    ensures Legal(moves[n := c], n + 1)
    ensures Replay(moves[n := c][n := 0], n) == Replay(moves, n)
    ensures UndoBoard(Replay(moves[n := c], n + 1), c) == Replay(moves, n)
    ensures OneToMove(n + 2) == OneToMove(n)
  {
    var recorded := moves[n := c];
    ReplayDrop(moves, n, c);
    UndoAfterDrop(Replay(moves, n), c, Piece(OneToMove(n)));
    ReplayAgree(moves, recorded[n := 0], n);
  }

  /** Four in a row needs a piece of the player, so the empty board has no winner. */
  lemma EmptyBoardNoWinner()
    ensures Winner(Filled(Rows, Cols, Vacant)) == 0
  {
    var g := Filled(Rows, Cols, Vacant);
    forall p, r, c, dr, dc | p != Vacant ensures !Window(g, r, c, dr, dc, p) {
      assert !Owns(g, r, c, p);
    }
  }
}
