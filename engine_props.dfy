/**
  Properties of the game engine's specification functions: what the three-axis win test
  detects, that turns keep gravity, and what a run of run_game can end in.
*/
module EngineProps {
  import opened Grids
  import opened Engine

  // ---------------------------------------------------------------------------
  // The win test against a window oracle
  // ---------------------------------------------------------------------------

  lemma AlongStep(b: int, d: int, i: int)
    requires -1 <= d <= 1
    ensures Along(b, d, i) == b + i * d
  {
  }

  /** The length of the leading run of true values among a, b, c. */
  function Streak(a: bool, b: bool, c: bool): nat {
    if !a then 0 else if !b then 1 else if !c then 2 else 3
  }

  /** Reach over the probe depth, written out as the nested run test it performs. */
  lemma ReachThree(g: Grid, r: int, c: int, dr: int, dc: int, p: int)
    ensures Reach(g, r, c, dr, dc, p, Probe)
         == Streak(Ahead(g, r, c, dr, dc, p, 1), Ahead(g, r, c, dr, dc, p, 2), Ahead(g, r, c, dr, dc, p, 3))
  {
    assert Reach(g, r, c, dr, dc, p, 1) == if Ahead(g, r, c, dr, dc, p, 1) then 1 else 0;
    assert Reach(g, r, c, dr, dc, p, 2)
        == if Ahead(g, r, c, dr, dc, p, 1) && Ahead(g, r, c, dr, dc, p, 2) then 2
           else Reach(g, r, c, dr, dc, p, 1);
  }

  /** The four windows through (r, c), named by the cells they need besides (r, c) itself. */
  lemma WindowThroughCells(g: Grid, r: int, c: int, dr: int, dc: int, p: int)
    requires Owns(g, r, c, p)
    ensures WindowThrough(g, r, c, dr, dc, p)
        <==> (Owns(g, r + dr, c + dc, p) && Owns(g, r + 2 * dr, c + 2 * dc, p) && Owns(g, r + 3 * dr, c + 3 * dc, p))
             || (Owns(g, r - dr, c - dc, p) && Owns(g, r + dr, c + dc, p) && Owns(g, r + 2 * dr, c + 2 * dc, p))
             || (Owns(g, r - 2 * dr, c - 2 * dc, p) && Owns(g, r - dr, c - dc, p) && Owns(g, r + dr, c + dc, p))
             || (Owns(g, r - 3 * dr, c - 3 * dc, p) && Owns(g, r - 2 * dr, c - 2 * dc, p) && Owns(g, r - dr, c - dc, p))
  {
    assert r - dr + 2 * dr == r + dr && r - dr + 3 * dr == r + 2 * dr;
    assert c - dc + 2 * dc == c + dc && c - dc + 3 * dc == c + 2 * dc;
    assert r - 2 * dr + dr == r - dr && r - 2 * dr + 3 * dr == r + dr;
    assert c - 2 * dc + dc == c - dc && c - 2 * dc + 3 * dc == c + dc;
    assert r - 3 * dr + dr == r - 2 * dr && r - 3 * dr + 2 * dr == r - dr && r - 3 * dr + 3 * dr == r;
    assert c - 3 * dc + dc == c - 2 * dc && c - 3 * dc + 2 * dc == c - dc && c - 3 * dc + 3 * dc == c;
  }

  /** The i-th cell ahead in a unit direction, and in the opposite one, as coordinates. */
  lemma AheadCells(g: Grid, r: int, c: int, dr: int, dc: int, p: int, i: int)
    requires -1 <= dr <= 1 && -1 <= dc <= 1
    ensures Ahead(g, r, c, dr, dc, p, i) == Owns(g, r + i * dr, c + i * dc, p)
    ensures Ahead(g, r, c, -dr, -dc, p, i) == Owns(g, r - i * dr, c - i * dc, p)
  {
    AlongStep(r, dr, i);
    AlongStep(c, dc, i);
    AlongStep(r, -dr, i);
    AlongStep(c, -dc, i);
  }

  /** The run for direction (dr, dc), in terms of the three cells it can look at. */
  lemma ReachCells(g: Grid, r: int, c: int, dr: int, dc: int, p: int)
    requires -1 <= dr <= 1 && -1 <= dc <= 1
    ensures Reach(g, r, c, dr, dc, p, Probe)
         == Streak(Owns(g, r + dr, c + dc, p), Owns(g, r + 2 * dr, c + 2 * dc, p), Owns(g, r + 3 * dr, c + 3 * dc, p))
  {
    ReachThree(g, r, c, dr, dc, p);
    AlongStep(r, dr, 1);
    AlongStep(c, dc, 1);
    AlongStep(r, dr, 2);
    AlongStep(c, dc, 2);
    AlongStep(r, dr, 3);
    AlongStep(c, dc, 3);
  }

  /** The count for direction (dr, dc), in terms of the six cells it can look at. */
  lemma SpanCells(g: Grid, r: int, c: int, dr: int, dc: int, p: int)
    requires -1 <= dr <= 1 && -1 <= dc <= 1
    ensures Span(g, r, c, dr, dc, p)
         == 1 + Streak(Owns(g, r + dr, c + dc, p), Owns(g, r + 2 * dr, c + 2 * dc, p), Owns(g, r + 3 * dr, c + 3 * dc, p))
              + Streak(Owns(g, r - dr, c - dc, p), Owns(g, r - 2 * dr, c - 2 * dc, p), Owns(g, r - 3 * dr, c - 3 * dc, p))
  {
    ReachCells(g, r, c, dr, dc, p);
    ReachCells(g, r, c, -dr, -dc, p);
    assert r + -dr == r - dr && r + 2 * -dr == r - 2 * dr && r + 3 * -dr == r - 3 * dr;
    assert c + -dc == c - dc && c + 2 * -dc == c - 2 * dc && c + 3 * -dc == c - 3 * dc;
  }

  /**
    For a cell p owns and a unit direction (dr, dc), the count _check_win builds reaches 4
    exactly when some window of four p cells along that direction contains the cell.
  */
  lemma SpanIffWindow(g: Grid, r: int, c: int, dr: int, dc: int, p: int)
    requires Owns(g, r, c, p)
    requires -1 <= dr <= 1 && -1 <= dc <= 1
    ensures Span(g, r, c, dr, dc, p) >= 4 <==> WindowThrough(g, r, c, dr, dc, p)
  {
    SpanCells(g, r, c, dr, dc, p);
    WindowThroughCells(g, r, c, dr, dc, p);
  }

  /**
    The win test around a cell p owns holds exactly when a four-window of p cells through
    it lies on the main diagonal, the row or the column.
  */
  lemma WinsIffWindow(g: Grid, r: int, c: int, p: int)
    requires Owns(g, r, c, p)
    ensures Wins(g, r, c, p)
        <==> WindowThrough(g, r, c, -1, -1, p) || WindowThrough(g, r, c, 0, -1, p)
             || WindowThrough(g, r, c, -1, 0, p)
  {
    SpanIffWindow(g, r, c, -1, -1, p);
    SpanIffWindow(g, r, c, 0, -1, p);
    SpanIffWindow(g, r, c, -1, 0, p);
  }

  /**
    An accepted drop wins exactly when the new piece, on the lowest empty cell of its column,
    completes a row, column or main-diagonal window.
  */
  lemma TurnWinIffWindow(g: Grid, cols: nat, c: int, player: int)
    requires IsRect(g, |g|, cols)
    ensures var t := Turn(g, cols, Col(c), player);
      t.ok ==> exists r :: 0 <= r < |g| && g[r][c] == Empty
                 && (forall i :: r < i < |g| ==> g[i][c] != Empty)
                 && t.board[r][c] == player
                 && (t.won <==> WindowThrough(t.board, r, c, -1, -1, player)
                                || WindowThrough(t.board, r, c, 0, -1, player)
                                || WindowThrough(t.board, r, c, -1, 0, player))
  {
    var t := Turn(g, cols, Col(c), player);
    TurnSpec(g, cols, Col(c), player);
    if t.ok {
      var r :| 0 <= r < |g| && g[r][c] == Empty
        && (forall i :: r < i < |g| ==> g[i][c] != Empty)
        && t.board == SetCell(g, r, c, player)
        && (t.won <==> Wins(t.board, r, c, player));
      WinsIffWindow(t.board, r, c, player);
    }
  }

  /**
    A 6 x 7 position in which player 0 is to drop into column 3.  The piece lands in row 2
    and completes the anti-diagonal (2, 3), (3, 2), (4, 1), (5, 0).
  */
  function AntiDiagonalBoard(): (g: Grid)
    ensures IsRect(g, DefaultRows, DefaultCols)
  {
    [ [-1, -1, -1, -1, -1, -1, -1],
      [-1, -1, -1, -1, -1, -1, -1],
      [-1, -1, -1, -1, -1, -1, -1],
      [-1, -1,  0,  1, -1, -1, -1],
      [-1,  0,  1,  1, -1, -1, -1],
      [ 0,  1,  1,  0,  0, -1, -1] ]
  }

  /** In that position a piece dropped into column 3 lands in row 2. */
  lemma AntiDiagonalLanding()
    ensures IsRect(AntiDiagonalBoard(), DefaultRows, DefaultCols)
    ensures Landing(AntiDiagonalBoard(), 3) == 2
  {
    var g := AntiDiagonalBoard();
    assert g[5][3] == 0 && g[4][3] == 1 && g[3][3] == 1 && g[2][3] == Empty;
    assert LandingFrom(g, 3, 2) == 2;
    assert LandingFrom(g, 3, 5) == LandingFrom(g, 3, 4) == LandingFrom(g, 3, 3) == 2;
  }

  /** After that drop player 0 holds four on the anti-diagonal through (2, 3), and the win test fails there. */
  lemma AntiDiagonalUnseen()
    ensures var h := SetCell(AntiDiagonalBoard(), 2, 3, 0);
      WindowThrough(h, 2, 3, 1, -1, 0) && !Wins(h, 2, 3, 0)
  {
    var h := SetCell(AntiDiagonalBoard(), 2, 3, 0);
    assert Window(h, 2, 3, 1, -1, 0);
    assert !Owns(h, 1, 2, 0) && !Owns(h, 3, 4, 0);
    assert !Owns(h, 2, 2, 0) && !Owns(h, 2, 4, 0);
    assert !Owns(h, 1, 3, 0) && !Owns(h, 3, 3, 0);
    WinsIffWindow(h, 2, 3, 0);
  }

  /**
    The drop is accepted and makes four in a row on the anti-diagonal, yet _check_win
    reports no win, because it never looks along that axis.
  */
  lemma AntiDiagonalMissed()
    ensures var t := Turn(AntiDiagonalBoard(), DefaultCols, Col(3), 0);
      t.ok && t.board == SetCell(AntiDiagonalBoard(), 2, 3, 0)
      && WindowThrough(t.board, 2, 3, 1, -1, 0) && !t.won
  {
    AntiDiagonalLanding();
    AntiDiagonalUnseen();
  }

  /** One unfolding of a run below the cap and of the queries it makes. */
  lemma RunStep(g: Grid, cols: nat, w: int, turn: int, current: int, k: nat, agents: seq<Agent>)
    requires IsRect(g, |g|, cols) && turn < TurnCap && |agents| == 2
    ensures var player := k % 2;
      var choice := Ask(agents, g, k);
      var t := Turn(g, cols, choice, player);
      var w' := if t.won then player else w;
      IsRect(t.board, |g|, cols)
      && Run(g, cols, w, turn, current, k, agents)
         == (if !t.ok then Ending(-1, t.board, w', turn, player)
             else if w' != -1 then Ending(w', t.board, w', turn + 1, player)
             else Run(t.board, cols, w', turn + 1, player, k + 1, agents))
      && Queries(g, cols, w, turn, k, agents)
         == (if !t.ok || w' != -1 then [Query(player, choice)]
             else [Query(player, choice)] + Queries(t.board, cols, w', turn + 1, k + 1, agents))
  {
  }

  // ---------------------------------------------------------------------------
  // Gravity
  // ---------------------------------------------------------------------------

  /** A turn by a player (a non-empty marker) keeps every column filled from the bottom. */
  lemma TurnSettled(g: Grid, cols: nat, choice: Choice, player: int)
    requires Settled(g, cols, Empty) && player != Empty
    ensures Settled(Turn(g, cols, choice, player).board, cols, Empty)
  {
    var t := Turn(g, cols, choice, player);
    TurnSpec(g, cols, choice, player);
    if t.ok && choice.Col? {
      var c := choice.column;
      var r :| 0 <= r < |g| && g[r][c] == Empty
        && (forall i :: r < i < |g| ==> g[i][c] != Empty)
        && t.board == SetCell(g, r, c, player);
      var h := t.board;
      forall r1, r2, c1 | 0 <= r1 < r2 < |h| && 0 <= c1 < cols && h[r1][c1] != Empty
        ensures h[r2][c1] != Empty
      {
      }
    }
  }

  /** Every board a run passes through, and the one it ends on, is settled. */
  lemma {:induction false} RunSettled(g: Grid, cols: nat, w: int, turn: int, current: int, k: nat,
                                      agents: seq<Agent>)
    requires Settled(g, cols, Empty) && turn <= TurnCap && |agents| == 2
    ensures Settled(Run(g, cols, w, turn, current, k, agents).board, cols, Empty)
    decreases TurnCap - turn
  {
    if turn < TurnCap {
      var player := k % 2;
      var choice := Ask(agents, g, k);
      var t := Turn(g, cols, choice, player);
      var h, w' := t.board, if t.won then player else w;
      RunAfterTurn(g, cols, w, turn, current, k, player, agents, t.ok, h, w');
      TurnSettled(g, cols, choice, player);
      if t.ok && w' == -1 {
        RunSettled(h, cols, w', turn + 1, player, k + 1, agents);
      }
    }
  }

  // ---------------------------------------------------------------------------
  // How a run ends
  // ---------------------------------------------------------------------------

  /**
    The iterator hands out players 0, 1, 0, 1, ...: the i-th query of a run started after k
    queries goes to player (k + i) % 2.  A run below the cap makes at least one query and at
    most one per remaining turn, and its turn counter never passes the cap.
  */
  lemma {:induction false} RunQueries(g: Grid, cols: nat, w: int, turn: int, current: int, k: nat,
                                      agents: seq<Agent>)
    requires IsRect(g, |g|, cols) && turn <= TurnCap && |agents| == 2
    ensures var e := Run(g, cols, w, turn, current, k, agents);
      var q := Queries(g, cols, w, turn, k, agents);
      (turn < TurnCap ==> 1 <= |q|) && |q| <= TurnCap - turn && turn <= e.turnNum <= TurnCap
      && forall i :: 0 <= i < |q| ==> q[i].player == (k + i) % 2
    decreases TurnCap - turn
  {
    if turn < TurnCap {
      RunStep(g, cols, w, turn, current, k, agents);
      var player := k % 2;
      var choice := Ask(agents, g, k);
      var t := Turn(g, cols, choice, player);
      var w' := if t.won then player else w;
      if t.ok && w' == -1 {
        RunQueries(t.board, cols, w', turn + 1, player, k + 1, agents);
        var rest := Queries(t.board, cols, w', turn + 1, k + 1, agents);
        var q := [Query(player, choice)] + rest;
        forall i | 0 <= i < |q| ensures q[i].player == (k + i) % 2 {
          if i > 0 {
            assert q[i] == rest[i - 1];
            assert (k + 1 + (i - 1)) == k + i;
          }
        }
      }
    }
  }

  /** Some piece of p in column c passes _check_win's test. */
  ghost predicate WinningPiece(g: Grid, c: int, p: int) {
    exists r :: Owns(g, r, c, p) && Wins(g, r, c, p)
  }

  /**
    Started with no winner, a run returns -1 (a draw or an invalid play, leaving the winner
    unset) or the player of its last query, whose answer was a column and whose drop passed
    the win test on the final board.
  */
  lemma {:induction false} RunOutcome(g: Grid, cols: nat, turn: int, current: int, k: nat,
                                      agents: seq<Agent>)
    requires IsRect(g, |g|, cols) && turn <= TurnCap && |agents| == 2
    ensures var e := Run(g, cols, -1, turn, current, k, agents);
      var q := Queries(g, cols, -1, turn, k, agents);
      e.winner == e.result && (e.result == -1 || e.result == 0 || e.result == 1)
      && (e.result != -1 ==> |q| > 0 && q[|q| - 1].player == e.result
                              && q[|q| - 1].choice.Col? && e.currentPlayer == e.result
                              && WinningPiece(e.board, q[|q| - 1].choice.column, e.result))
    decreases TurnCap - turn
  {
    if turn < TurnCap {
      RunStep(g, cols, -1, turn, current, k, agents);
      var player := k % 2;
      var choice := Ask(agents, g, k);
      var t := Turn(g, cols, choice, player);
      TurnSpec(g, cols, choice, player);
      var w' := if t.won then player else -1;
      if t.ok && w' == -1 {
        RunOutcome(t.board, cols, turn + 1, player, k + 1, agents);
        var e := Run(t.board, cols, w', turn + 1, player, k + 1, agents);
        var rest := Queries(t.board, cols, w', turn + 1, k + 1, agents);
        var q := [Query(player, choice)] + rest;
        if e.result != -1 {
          assert q[|q| - 1] == rest[|rest| - 1];
        }
      } else if t.ok && t.won {
        var c := choice.column;
        var r :| 0 <= r < |g| && g[r][c] == Empty && t.board == SetCell(g, r, c, player)
          && (t.won <==> Wins(t.board, r, c, player));
        var h := SetCell(g, r, c, player);
        assert h[r][c] == player;
        assert Owns(t.board, r, c, player);
      }
    }
  }

  /** An accepted drop fills exactly one empty cell; a pass or a refused play fills none. */
  lemma TurnEmpties(g: Grid, cols: nat, choice: Choice, player: int)
    requires IsRect(g, |g|, cols) && player != Empty
    ensures var t := Turn(g, cols, choice, player);
      Count(t.board, Empty) == Count(g, Empty) - (if t.ok && choice.Col? then 1 else 0)
  {
    var t := Turn(g, cols, choice, player);
    TurnSpec(g, cols, choice, player);
    if t.ok && choice.Col? {
      var c := choice.column;
      var r :| 0 <= r < |g| && g[r][c] == Empty && t.board == SetCell(g, r, c, player);
      CountSetCell(g, r, c, Empty, player);
    }
  }

  /** Each turn fills at most one empty cell, and a run has at most TurnCap - turn turns. */
  lemma {:induction false} RunEmpties(g: Grid, cols: nat, w: int, turn: int, current: int, k: nat,
                                      agents: seq<Agent>)
    requires IsRect(g, |g|, cols) && turn <= TurnCap && |agents| == 2
    ensures Count(Run(g, cols, w, turn, current, k, agents).board, Empty) + (TurnCap - turn)
            >= Count(g, Empty)
    decreases TurnCap - turn
  {
    if turn < TurnCap {
      var player := k % 2;
      var choice := Ask(agents, g, k);
      var t := Turn(g, cols, choice, player);
      var h, w' := t.board, if t.won then player else w;
      RunAfterTurn(g, cols, w, turn, current, k, player, agents, t.ok, h, w');
      TurnEmpties(g, cols, choice, player);
      assert Count(h, Empty) + 1 >= Count(g, Empty);
      if t.ok && w' == -1 {
        RunEmpties(h, cols, w', turn + 1, player, k + 1, agents);
      }
    }
  }

  /**
    The 41-turn cap ends every game on the default 6 x 7 board with at least one cell still
    empty: the draw is declared one ply before the board could fill.
  */
  lemma FreshGameLeavesEmptyCell(agents: seq<Agent>)
    requires |agents| == 2
    ensures var e := Run(Filled(DefaultRows, DefaultCols, Empty), DefaultCols, -1, 0, 0, 0, agents);
      Count(e.board, Empty) >= 1
  {
    CountFilled(DefaultRows, DefaultCols, Empty);
    RunEmpties(Filled(DefaultRows, DefaultCols, Empty), DefaultCols, -1, 0, 0, 0, agents);
  }

  /** The agent that always answers None. */
  function Passer(): Agent {
    (_, _) => Pass
  }

  /**
    Two agents that always pass are queried once per remaining turn, leave the board as it
    was, and the run ends in a draw at the cap.
  */
  lemma {:induction false} PassersDraw(g: Grid, cols: nat, turn: int, current: int, k: nat)
    requires IsRect(g, |g|, cols) && turn <= TurnCap
    ensures var e := Run(g, cols, -1, turn, current, k, [Passer(), Passer()]);
      e.result == -1 && e.winner == -1 && e.board == g && e.turnNum == TurnCap
      && |Queries(g, cols, -1, turn, k, [Passer(), Passer()])| == TurnCap - turn
    decreases TurnCap - turn
  {
    if turn < TurnCap {
      RunStep(g, cols, -1, turn, current, k, [Passer(), Passer()]);
      PassersDraw(g, cols, turn + 1, k % 2, k + 1);
    }
  }

  /** On a fresh default game, two passers make exactly 41 queries and draw. */
  lemma PassersDrawFresh()
    ensures var e := Run(Filled(DefaultRows, DefaultCols, Empty), DefaultCols, -1, 0, 0, 0, [Passer(), Passer()]);
      e.result == -1
      && |Queries(Filled(DefaultRows, DefaultCols, Empty), DefaultCols, -1, 0, 0, [Passer(), Passer()])| == 41
  {
    PassersDraw(Filled(DefaultRows, DefaultCols, Empty), DefaultCols, 0, 0, 0);
  }
}
