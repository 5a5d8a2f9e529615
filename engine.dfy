/**
  The headless Connect-4 game engine: the board state, a single turn (pass or drop
  with gravity), the local win test around the last piece, and the turn loop that
  alternates two agents.  Cells hold -1 (empty), 0 or 1 (the two players).
*/
module Engine {
  import opened Grids

  const Empty := -1
  /** run_game declares a draw when the turn counter reaches this value. */
  const TurnCap := 41
  /** How many cells _check_win inspects on each side of the new piece. */
  const Probe: nat := 3
  const DefaultRows := 6
  const DefaultCols := 7

  /** What an agent hands back: None (a pass), a Python int, or any other value. */
  datatype Choice = Pass | Col(column: int) | NonInt

  /**
    An agent callback.  It sees the board and the number of times it has already been
    asked during this game, which covers both pure agents (a network) and scripted
    agents that step through a list of moves.
  */
  type Agent = (Grid, nat) -> Choice

  // ---------------------------------------------------------------------------
  // Specification on board values
  // ---------------------------------------------------------------------------

  /** The highest-indexed row at or above r whose cell in column c is empty, or -1. */
  function LandingFrom(g: Grid, c: nat, r: int): (row: int)
    requires -1 <= r < |g|
    requires forall i :: 0 <= i < |g| ==> c < |g[i]|
    ensures -1 <= row <= r
    ensures row >= 0 ==> g[row][c] == Empty
    decreases r + 1
  {
    if r < 0 then -1 else if g[r][c] == Empty then r else LandingFrom(g, c, r - 1)
  }

  /** Every cell of column c strictly between the landing row and row r is occupied. */
  lemma {:induction false} LandingBelow(g: Grid, c: nat, r: int)
    requires -1 <= r < |g|
    requires forall i :: 0 <= i < |g| ==> c < |g[i]|
    ensures forall i :: LandingFrom(g, c, r) < i <= r ==> g[i][c] != Empty
    decreases r + 1
  {
    if r >= 0 && g[r][c] != Empty {
      LandingBelow(g, c, r - 1);
    }
  }

  /** The row a piece dropped into column c lands in (scanning from the last row up), or -1 if full. */
  function Landing(g: Grid, c: nat): int
    requires forall i :: 0 <= i < |g| ==> c < |g[i]|
  {
    LandingFrom(g, c, |g| - 1)
  }

  /** p owns the i-th cell from (r, c) in the unit direction (dr, dc). */
  predicate Ahead(g: Grid, r: int, c: int, dr: int, dc: int, p: int, i: int) {
    Owns(g, Along(r, dr, i), Along(c, dc, i), p)
  }

  /**
    Length of the run of p's cells (r + i*dr, c + i*dc) for i = 1, 2, ..., looking at
    most n cells away from (r, c).
  */
  function Reach(g: Grid, r: int, c: int, dr: int, dc: int, p: int, n: nat): (k: nat)
    ensures k <= n
  {
    if n == 0 then 0
    else
      var k := Reach(g, r, c, dr, dc, p, n - 1);
      if k == n - 1 && Ahead(g, r, c, dr, dc, p, n) then n else k
  }

  /** Reach is the length of the unbroken run: every cell inside it is p's, the next one is not. */
  lemma {:induction false} ReachIsRun(g: Grid, r: int, c: int, dr: int, dc: int, p: int, n: nat)
    ensures var k := Reach(g, r, c, dr, dc, p, n);
      (forall i :: 1 <= i <= k ==> Ahead(g, r, c, dr, dc, p, i))
      && (k < n ==> !Ahead(g, r, c, dr, dc, p, k + 1))
  {
    if n > 0 {
      ReachIsRun(g, r, c, dr, dc, p, n - 1);
    }
  }

  /**
    The count `i` that _check_win builds for one direction (dr, dc): the cell itself,
    plus at most three of p's cells on the (dr, dc) side and three on the opposite side.
  */
  function Span(g: Grid, r: int, c: int, dr: int, dc: int, p: int): nat {
    1 + Reach(g, r, c, dr, dc, p, Probe) + Reach(g, r, c, -dr, -dc, p, Probe)
  }

  /**
    The win test as the code performs it: the offsets (curr_x, curr_y) range over
    {-1, 0} x {-1, 0} without (0, 0), so only the main diagonal (-1, -1), the row
    (0, -1) and the column (-1, 0) are tried; the anti-diagonal never is.
  */
  predicate Wins(g: Grid, r: int, c: int, p: int) {
    Span(g, r, c, -1, -1, p) >= 4 || Span(g, r, c, 0, -1, p) >= 4 || Span(g, r, c, -1, 0, p) >= 4
  }

  /** Some window of four p cells along direction (dr, dc) contains (r, c). */
  predicate WindowThrough(g: Grid, r: int, c: int, dr: int, dc: int, p: int) {
    Window(g, r, c, dr, dc, p) || Window(g, r - dr, c - dc, dr, dc, p)
      || Window(g, r - 2 * dr, c - 2 * dc, dr, dc, p) || Window(g, r - 3 * dr, c - 3 * dc, dr, dc, p)
  }

  /** The effect of one call of play_turn. */
  datatype Played = Played(ok: bool, board: Grid, won: bool)

  /**
    play_turn for `player`: a pass is accepted and changes nothing; a non-int or a column outside
    [0, cols) is refused; otherwise the piece goes into the highest-indexed empty row of the
    column, and a full column is refused.  `won` is the win test around the new piece.
  */
  function Turn(g: Grid, cols: nat, choice: Choice, player: int): (t: Played)
    requires IsRect(g, |g|, cols)
    ensures IsRect(t.board, |g|, cols)
  {
    match choice
    case Pass => Played(true, g, false)
    case NonInt => Played(false, g, false)
    case Col(c) =>
      if c >= cols || c < 0 then Played(false, g, false)
      else
        var row := Landing(g, c);
        if row < 0 then Played(false, g, false)
        else
          var h := SetCell(g, row, c, player);
          Played(true, h, Wins(h, row, c, player))
  }

  /**
    What play_turn promises: a pass is accepted and changes nothing; a non-int, an
    out-of-range column or a full column is refused and changes nothing; an accepted drop
    puts the player's piece on the empty cell of its column that has only non-empty cells
    below it, changes no other cell, and wins exactly when the win test holds there.
  */
  lemma TurnSpec(g: Grid, cols: nat, choice: Choice, player: int)
    requires IsRect(g, |g|, cols)
    ensures var t := Turn(g, cols, choice, player);
      (t.ok <==> choice.Pass?
                 || (choice.Col? && 0 <= choice.column < cols
                     && exists r :: 0 <= r < |g| && g[r][choice.column] == Empty))
      && (!t.ok || choice.Pass? ==> t.board == g && !t.won)
      && (t.ok && choice.Col? ==>
            exists r :: 0 <= r < |g| && g[r][choice.column] == Empty
              && (forall i :: r < i < |g| ==> g[i][choice.column] != Empty)
              && t.board == SetCell(g, r, choice.column, player)
              && (t.won <==> Wins(t.board, r, choice.column, player)))
  {
    if choice.Col? && 0 <= choice.column < cols {
      var c := choice.column;
      var row := Landing(g, c);
      LandingBelow(g, c, |g| - 1);
      if row < 0 {
        forall r | 0 <= r < |g| ensures g[r][c] != Empty {
        }
      }
    }
  }

  /** One query of an agent during a game: who was asked and what it answered. */
  datatype Query = Query(player: nat, choice: Choice)

  /** The k-th query of a game: the iterator yields player k % 2, whose callback is asked for the (k / 2)-th time. */
  function Ask(agents: seq<Agent>, g: Grid, k: nat): Choice
    requires |agents| == 2
  {
    agents[k % 2](g, k / 2)
  }

  /** The iterator's `(player + 1) % 2` keeps yielding player k % 2 for the k-th query. */
  lemma NextPlayer(k: nat)
    ensures (k % 2 + 1) % 2 == (k + 1) % 2
  {
  }

  /** The state in which run_game returns, with its return value. */
  datatype Ending = Ending(result: int, board: Grid, winner: int, turnNum: int, currentPlayer: int)

  /**
    run_game from a state with board g, winner w, turn counter `turn` and current player
    `current`, where k agent queries have already been made in this call (so the iterator
    yields player k % 2 next, and that agent has been asked k / 2 times before).
  */
  function Run(g: Grid, cols: nat, w: int, turn: int, current: int, k: nat,
               agents: seq<Agent>): (e: Ending)
    requires IsRect(g, |g|, cols) && turn <= TurnCap && |agents| == 2
    ensures IsRect(e.board, |g|, cols)
    decreases TurnCap - turn
  {
    if turn == TurnCap then Ending(-1, g, w, turn, current)
    else
      var player := k % 2;
      var t := Turn(g, cols, Ask(agents, g, k), player);
      var w' := if t.won then player else w;
      if !t.ok then Ending(-1, t.board, w', turn, player)
      else if w' != -1 then Ending(w', t.board, w', turn + 1, player)
      else Run(t.board, cols, w', turn + 1, player, k + 1, agents)
  }

  /** The queries the same run makes, in order: who was asked and what it answered. */
  function Queries(g: Grid, cols: nat, w: int, turn: int, k: nat, agents: seq<Agent>): seq<Query>
    requires IsRect(g, |g|, cols) && turn <= TurnCap && |agents| == 2
    decreases TurnCap - turn
  {
    if turn == TurnCap then []
    else
      var player := k % 2;
      var choice := Ask(agents, g, k);
      var t := Turn(g, cols, choice, player);
      var w' := if t.won then player else w;
      if !t.ok || w' != -1 then [Query(player, choice)]
      else [Query(player, choice)] + Queries(t.board, cols, w', turn + 1, k + 1, agents)
  }

  /**
    A run below the cap, given what its first turn did (accepted or not, the board after it
    and the winner after it): an invalid play ends it with -1, a win ends it after counting
    the turn, and otherwise it is the run from the next turn.
  */
  lemma RunAfterTurn(g: Grid, cols: nat, w: int, turn: int, current: int, k: nat, player: nat,
                     agents: seq<Agent>, ok: bool, h: Grid, w': int)
    requires IsRect(g, |g|, cols) && turn < TurnCap && |agents| == 2 && player == k % 2
    requires var t := Turn(g, cols, Ask(agents, g, k), player);
      ok == t.ok && h == t.board && w' == (if t.won then player else w)
    ensures IsRect(h, |g|, cols)
    ensures var e := Run(g, cols, w, turn, current, k, agents);
      (!ok ==> e == Ending(-1, h, w', turn, player))
      && (ok && w' != -1 ==> e == Ending(w', h, w', turn + 1, player))
      && (ok && w' == -1 ==> e == Run(h, cols, w', turn + 1, player, k + 1, agents))
  {
  }

  /** The outcome of a game between two agents on a fresh default board, as Connect_4.run_game reports it. */
  function MatchResult(agents: seq<Agent>): int
    requires |agents| == 2
  {
    Run(Filled(DefaultRows, DefaultCols, Empty), DefaultCols, -1, 0, 0, 0, agents).result
  }

  // ---------------------------------------------------------------------------
  // The game state object
  // ---------------------------------------------------------------------------

  class Gamestate {
    const numRows: nat
    const numCols: nat
    const gameBoard: array2<int>
    var currentPlayer: int
    var winner: int
    var turnNum: int

    ghost predicate Valid()
    {
      gameBoard.Length0 == numRows && gameBoard.Length1 == numCols
    }

    /** A snapshot of the board, as the agents receive it. */
    function Board(): (g: Grid)
      reads gameBoard
      requires Valid()
      ensures IsRect(g, numRows, numCols)
    {
      ToGrid(gameBoard)
    }

    /** A fresh game: every cell empty, player 0 to move, no winner, turn 0. */
    constructor (rows: nat, cols: nat)
      ensures Valid() && numRows == rows && numCols == cols && fresh(gameBoard)
      ensures Board() == Filled(rows, cols, Empty)
      ensures currentPlayer == 0 && winner == -1 && turnNum == 0
    {
      numRows, numCols := rows, cols;
      gameBoard := new int[rows, cols]((_, _) => Empty);
      currentPlayer, winner, turnNum := 0, -1, 0;
      new;
      GridExt(ToGrid(gameBoard), Filled(rows, cols, Empty), rows, cols);
    }

    /**
      The `check_in` half of one step of _check_win's inner loop: look at the cell `offset`
      steps away in direction (currX, currY), which can only leave the board at row or
      column -1.
    */
    method StepIn(x: int, y: int, currX: int, currY: int, offset: nat, checkIn: bool, i: int)
      returns (checkIn': bool, i': int)
      requires Valid() && 0 <= x < numRows && 0 <= y < numCols && offset >= 1
      requires (currX == -1 || currX == 0) && (currY == -1 || currY == 0)
      requires checkIn <==> Reach(Board(), x, y, currX, currY, currentPlayer, offset - 1) == offset - 1
      ensures checkIn' <==> Reach(Board(), x, y, currX, currY, currentPlayer, offset) == offset
      ensures i' == i + Reach(Board(), x, y, currX, currY, currentPlayer, offset)
                      - Reach(Board(), x, y, currX, currY, currentPlayer, offset - 1)
    {
      checkIn', i' := checkIn, i;
      if checkIn {
        var r, c := x + offset * currX, y + offset * currY;
        assert r == Along(x, currX, offset) && c == Along(y, currY, offset);
        if r < 0 || c < 0 {
          checkIn' := false;
        } else if gameBoard[r, c] == currentPlayer {
          i' := i + 1;
        } else {
          checkIn' := false;
        }
      }
    }

    /**
      The `check_out` half: look at the cell `offset` steps away in the opposite direction,
      which can only leave the board at row numRows or column numCols.
    */
    method StepOut(x: int, y: int, currX: int, currY: int, offset: nat, checkOut: bool, i: int)
      returns (checkOut': bool, i': int)
      requires Valid() && 0 <= x < numRows && 0 <= y < numCols && offset >= 1
      requires (currX == -1 || currX == 0) && (currY == -1 || currY == 0)
      requires checkOut <==> Reach(Board(), x, y, -currX, -currY, currentPlayer, offset - 1) == offset - 1
      ensures checkOut' <==> Reach(Board(), x, y, -currX, -currY, currentPlayer, offset) == offset
      ensures i' == i + Reach(Board(), x, y, -currX, -currY, currentPlayer, offset)
                      - Reach(Board(), x, y, -currX, -currY, currentPlayer, offset - 1)
    {
      checkOut', i' := checkOut, i;
      if checkOut {
        var r, c := x - offset * currX, y - offset * currY;
        assert r == Along(x, -currX, offset) && c == Along(y, -currY, offset);
        if r >= numRows || c >= numCols {
          checkOut' := false;
        } else if gameBoard[r, c] == currentPlayer {
          i' := i + 1;
        } else {
          checkOut' := false;
        }
      }
    }

    /**
      The inner loop of _check_win for one offset pair (currX, currY): i starts at 1 and
      grows by one for each of the current player's cells met walking up to three steps in
      each direction, each walk stopping at the first edge or foreign cell.
    */
    method SpanAt(x: int, y: int, currX: int, currY: int) returns (i: int)
      requires Valid() && 0 <= x < numRows && 0 <= y < numCols
      requires (currX == -1 || currX == 0) && (currY == -1 || currY == 0)
      ensures i == Span(Board(), x, y, currX, currY, currentPlayer)
    {
      ghost var g := Board();
      ghost var p := currentPlayer;
      i := 1;
      var checkIn, checkOut := true, true;
      for offset := 1 to 4
        invariant checkIn <==> Reach(g, x, y, currX, currY, p, offset - 1) == offset - 1
        invariant checkOut <==> Reach(g, x, y, -currX, -currY, p, offset - 1) == offset - 1
        invariant i == 1 + Reach(g, x, y, currX, currY, p, offset - 1) + Reach(g, x, y, -currX, -currY, p, offset - 1)
      {
        checkIn, i := StepIn(x, y, currX, currY, offset, checkIn, i);
        checkOut, i := StepOut(x, y, currX, currY, offset, checkOut, i);
      }
    }

    /** _check_win: the run-length test around (x, y) for the current player. */
    method CheckWin(x: int, y: int) returns (won: bool)
      requires Valid() && 0 <= x < numRows && 0 <= y < numCols
      ensures won == Wins(Board(), x, y, currentPlayer)
    {
      ghost var g := Board();
      var p := currentPlayer;
      for currY := -1 to 1
        invariant forall cy, cx :: -1 <= cy < currY && -1 <= cx < 1 && (cy != 0 || cx != 0) ==> Span(g, x, y, cx, cy, p) < 4
      {
        for currX := -1 to 1
          invariant forall cy, cx :: -1 <= cy < currY && -1 <= cx < 1 && (cy != 0 || cx != 0) ==> Span(g, x, y, cx, cy, p) < 4
          invariant forall cx :: -1 <= cx < currX && (currY != 0 || cx != 0) ==> Span(g, x, y, cx, currY, p) < 4
        {
          if currY == 0 && currX == 0 {
          } else {
            var i := SpanAt(x, y, currX, currY);
            if i >= 4 {
              return true;
            }
          }
        }
      }
      assert Span(g, x, y, -1, -1, p) < 4 && Span(g, x, y, 0, -1, p) < 4 && Span(g, x, y, -1, 0, p) < 4;
      return false;
    }

    /** play_turn: validate the choice and drop the current player's piece with gravity. */
    method PlayTurn(columnNum: Choice) returns (ok: bool)
      requires Valid()
      modifies gameBoard, this`winner
      ensures var t := Turn(old(Board()), numCols, columnNum, currentPlayer);
        ok == t.ok && Board() == t.board && winner == (if t.won then currentPlayer else old(winner))
    {
      if columnNum.Pass? {
        return true;
      }
      if !columnNum.Col? || columnNum.column >= numCols || columnNum.column < 0 {
        return false;
      }
      var c := columnNum.column;
      ghost var g := Board();
      var row := numRows - 1;
      while row >= 0
        invariant -1 <= row < numRows
        invariant forall i :: row < i < numRows ==> g[i][c] != Empty
        invariant Board() == g
        decreases row + 1
      {
        if gameBoard[row, c] == Empty {
          LandingBelow(g, c, numRows - 1);
          assert Landing(g, c) == row;
          gameBoard[row, c] := currentPlayer;
          GridExt(Board(), SetCell(g, row, c, currentPlayer), numRows, numCols);
          var won := CheckWin(row, c);
          if won {
            winner := currentPlayer;
          }
          return true;
        }
        row := row - 1;
      }
      LandingBelow(g, c, numRows - 1);
      assert Landing(g, c) == -1;
      return false;
    }

    /**
      One pass of run_game's loop body below the cap: the iterator yields player `player`,
      whose callback is asked for its move on the current board, and play_turn is called.
      The run from the old state is then decided by the new one.
    */
    method TakeTurn(agents: seq<Agent>, player: nat, k: nat) returns (ok: bool)
      requires Valid() && |agents| == 2 && turnNum < TurnCap && player == k % 2
      modifies this, gameBoard
      ensures Valid() && currentPlayer == player && turnNum == old(turnNum) + (if ok then 1 else 0)
      ensures var t := Turn(old(Board()), numCols, Ask(agents, old(Board()), k), player);
        ok == t.ok && Board() == t.board && winner == (if t.won then player else old(winner))
      ensures var e := Run(old(Board()), numCols, old(winner), old(turnNum), old(currentPlayer), k, agents);
        (!ok ==> e == Ending(-1, Board(), winner, turnNum, player))
        && (ok && winner != -1 ==> e == Ending(winner, Board(), winner, turnNum, player))
        && (ok && winner == -1 ==> e == Run(Board(), numCols, winner, turnNum, player, k + 1, agents))
    {
      ghost var g, w, turn, current := Board(), winner, turnNum, currentPlayer;
      ghost var t := Turn(g, numCols, Ask(agents, g, k), player);
      currentPlayer := player;
      assert agents[player](g, k / 2) == Ask(agents, g, k);
      ok := PlayTurn(agents[player](Board(), k / 2));
      assert ok == t.ok && Board() == t.board && winner == (if t.won then player else w);
      RunAfterTurn(g, numCols, w, turn, current, k, player, agents, ok, Board(), winner);
      if ok {
        turnNum := turnNum + 1;
      }
    }

    /** run_game: alternate the two callbacks until a draw by the turn cap, an invalid play or a win. */
    method RunGame(inputCallback: seq<Agent>) returns (result: int)
      requires Valid() && |inputCallback| == 2 && turnNum <= TurnCap
      modifies this, gameBoard
      ensures var e := Run(old(Board()), numCols, old(winner), old(turnNum), old(currentPlayer), 0,
                           inputCallback);
        result == e.result && Board() == e.board && winner == e.winner
        && turnNum == e.turnNum && currentPlayer == e.currentPlayer
    {
      ghost var goal := Run(Board(), numCols, winner, turnNum, currentPlayer, 0, inputCallback);
      var player := 0;
      var k: nat := 0;
      while true
        invariant Valid() && turnNum <= TurnCap && 0 <= player < 2 && player == k % 2
        invariant Run(Board(), numCols, winner, turnNum, currentPlayer, k, inputCallback) == goal
        decreases TurnCap - turnNum
      {
        if turnNum == TurnCap {
          return -1;
        }
        var ok := TakeTurn(inputCallback, player, k);
        if !ok {
          return -1;
        }
        if winner != -1 {
          break;
        }
        NextPlayer(k);
        player := (player + 1) % 2;
        k := k + 1;
      }
      return winner;
    }
  }

  /** Connect_4(callbacks, headless=True).run_game(): a fresh default game, played to its end. */
  method PlayMatch(agents: seq<Agent>) returns (winner: int)
    requires |agents| == 2
    ensures winner == MatchResult(agents)
  {
    var game := new Gamestate(DefaultRows, DefaultCols);
    winner := game.RunGame(agents);
  }
}
