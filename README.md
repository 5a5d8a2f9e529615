# Connect-4 neuroevolution: a verified Dafny model of its core

The repository trains small neural networks to play Connect-4 by evolution. It has
three parts that matter here:

- **The headless game engine** (`connect_4.py`).
  - A 6 × 7 board of -1 (empty), 0 and 1.
  - `play_turn` accepts a pass (`None`) or drops the current player's piece into a
    column, with gravity.
  - `_check_win` counts, around the new piece, runs of the player's cells along a few
    axes.
  - `run_game` alternates two callbacks, through the interface's player iterator. It
    stops with -1 when the turn counter reaches 41 or on an invalid play, and stops
    with the player's number on a win.
- **The trainer** (`trainer.py`).
  - A round robin in which every pair of networks plays one headless game: `rate` and
    `find_winner`.
  - Selection of the best scorers, by repeated first-argmax pops: `find_n_best`.
  - The population rebuilt from copies of the survivors.
  - The mutation rate halved at the middle generation.
- **The board rules of the two-player front end** (`loop.py`).
  - A 6 × 7 board of 0 (empty), 1 and 2.
  - `draw_token` and `draw_undo`, and the turn flag with `switch`.
  - The 42-slot move list and its index `move_pos`.
  - The full-board four-in-a-row scan `hasWon`.

The model has seven modules, one file each:

| file | module | models |
|---|---|---|
| `grids.dfy` | `Grids` | Board values shared by both encodings: rectangular grids, cell update, the four-cell `Window`, gravity (`Settled`, with the empty marker as a parameter), and cell counting with its lemmas. |
| `engine.dfy` | `Engine` | Specification functions on board values (`Turn`, `Wins`, `Run`, `Queries`, `MatchResult`). A class `Gamestate` holding the board in an `array2`, whose methods `PlayTurn`, `CheckWin` and `RunGame` keep the source's loops and are proved against those functions. |
| `engine_props.dfy` | `EngineProps` | What the win test does and does not detect, gravity, the shape of a run, the turn cap, and games between passers. |
| `trainer.dfy` | `Trainer` | The round robin, selection, rebuild and schedule, as functions (`Pairs`, `Tally`, `Scores`, `Select`, `Replicated`, `HalvingsBefore`) and as the source's loops (`Rate`, `FindNBest`, `Rebuild`, `Schedule`). `Rate` plays real engine games through `PlayMatch`. |
| `trainer_props.dfy` | `TrainerProps` | Every pair plays exactly once; scoreboard bounds; selection is sorted, dominant, stable and a permutation; rebuild shape; the halving happens once. |
| `gui.dfy` | `Gui` | The front end's state as a class `Session`. Its invariant says the board is the replay of the recorded moves, each of which had room, and the turn flag matches their number. Also the win scan, proved equal to an all-direction four-in-a-row predicate. |
| `gui_props.dfy` | `GuiProps` | Gravity, the drop/undo round trip, the bound on `move_pos`, turn parity, and no winner on the empty board. |

How the model treats each part of the source:

- **Agents.** An agent is a function of the board and of how many times that agent has
  already been asked in this game. This covers networks, which look only at the board,
  and scripted callbacks that step through moves. A network is an opaque genome `G`,
  turned into an agent by a `brain: G -> Agent` parameter.
- **The player iterator.** `_Interface.__iter__` (connect_4.py:33-37) yields player
  `k % 2` at the k-th query, which `Engine.Ask` states and `EngineProps.RunQueries` proves
  of every game.
- **Python values.** A choice that is not a Python `int` is the constructor `NonInt`;
  `None` is `Pass`.
- **Looping members.** Where the source loops, the Dafny member is a method that keeps
  the loop. Where the source computes a value, the member is a function.
- **Lists the trainer mutates in place.** `find_n_best` pops from the caller's lists.
  It is modelled on values: the method returns the shortened lists.

Behaviour of the code worth knowing:

- **The win test's axes.** `_check_win` tries the offsets (curr_x, curr_y) in
  {-1, 0} × {-1, 0} without (0, 0). So it checks only the main diagonal, the row and
  the column, and never the anti-diagonal (connect_4.py:134-135).
  - `Engine.Wins` reproduces this.
  - `EngineProps.AntiDiagonalMissed` exhibits a concrete board on which player 0
    completes four on the anti-diagonal and the move is not reported as a win.
  - So a four on the anti-diagonal is never reported as a win.
- **The turn cap.** `run_game` declares a draw when the turn counter reaches 41
  (connect_4.py:91), one ply before a 6 × 7 board can fill.
  - `EngineProps.FreshGameLeavesEmptyCell` proves that every game on the default board
    ends with at least one empty cell.
- **Scoring.** The code awards +1 to the winner and nothing else, and an invalid play
  scores like a draw (trainer.py:20-23).
- **The new-game reset.** The reset in the front end assigns a fresh list to a
  misspelt name (`moveTracker`, loop.py:434). The real move list keeps its old
  entries.
  - `move_pos` is reset to 0, so those entries are never read before being overwritten.
  - The invariant of `Gui.Session` constrains only the first `movePos` entries, and
    `Gui.Session.NewGame` states that the list is unchanged.

## Model

| member | source | states |
|---|---|---|
| Engine.LandingFrom | connect_4.py:125-127 | The scan of column c from row r upwards returns -1 or a row at or above r whose cell is empty. |
| Engine.LandingBelow | connect_4.py:125-127 | Every cell of the column strictly between the landing row and the starting row is occupied: the piece lands on the lowest empty cell. |
| Engine.ReachIsRun | connect_4.py:141-157 | The count one side of `_check_win` builds is the length of the unbroken run of the player's cells: every cell inside it is the player's, and the next one is not. |
| Engine.TurnSpec | connect_4.py:109-131 | A pass is accepted and changes nothing. A non-int, an out-of-range column or a full column is refused and changes nothing. An accepted drop puts the player's piece on the empty cell with only occupied cells below it, changes no other cell, and wins exactly when the win test holds there. |
| Engine.Gamestate.constructor | connect_4.py:77-87 | A fresh game: every cell -1, player 0 current, winner -1, turn counter 0. |
| Engine.Gamestate.StepIn | connect_4.py:142-149 | One `check_in` step keeps `check_in` equal to "the run on this side has reached this offset", and adds to `i` exactly the growth of that run. |
| Engine.Gamestate.StepOut | connect_4.py:150-157 | The same for the `check_out` side, in the opposite direction. |
| Engine.Gamestate.SpanAt | connect_4.py:139-158 | For one offset pair, `i` is 1 plus the length of the player's run on each side, each looked at up to three cells away. |
| Engine.Gamestate.CheckWin | connect_4.py:133-160 | Returns true exactly when one of the three axes tried (main diagonal, row, column) has a count of at least 4. |
| Engine.Gamestate.PlayTurn | connect_4.py:109-131 | The result, the new board and the new winner are those of `Turn`, the value-level play_turn: accepted or not, the cell written, and the winner set only on a win. |
| Engine.Gamestate.TakeTurn | connect_4.py:94-101 | One pass of the loop body makes the yielded player current and asks its callback on the current board. `ok` is play_turn's acceptance, and the new board and winner are play_turn's. The turn counter grows by one exactly when the play was accepted. The run from the old state is then the ending (invalid play or win) or the run from the new state. |
| Engine.Gamestate.RunGame | connect_4.py:89-103 | The returned value and the final board, winner, turn counter and current player are those of `Run` from the starting state. |
| Engine.PlayMatch | connect_4.py:9-24 | A headless Connect_4 game on a fresh default board returns `MatchResult` of the two agents. |
| EngineProps.SpanIffWindow | connect_4.py:139-158 | For a cell the player holds, the count along one axis reaches 4 exactly when four of the player's cells in a row along that axis contain the cell. |
| EngineProps.WinsIffWindow | connect_4.py:133-160 | The win test holds exactly when such a four-cell window exists along the main diagonal, the row or the column. |
| EngineProps.TurnWinIffWindow | connect_4.py:124-130 | An accepted drop puts the player's piece on the lowest empty cell of the column, and wins exactly when that piece completes a row, column or main-diagonal window. |
| EngineProps.AntiDiagonalLanding | connect_4.py:125-127 | On the example position, a piece dropped into column 3 lands in row 2. |
| EngineProps.AntiDiagonalUnseen | connect_4.py:134-135 | After that drop, player 0 holds four on the anti-diagonal through (2, 3), and the win test fails there. |
| EngineProps.AntiDiagonalMissed | connect_4.py:133-160 | That drop is accepted, completes an anti-diagonal four, and is not reported as a win. |
| EngineProps.TurnSettled | connect_4.py:124-130 | A turn keeps every column filled from the bottom. |
| EngineProps.RunSettled | connect_4.py:89-103 | Every game leaves a settled board if it starts on one. |
| EngineProps.RunQueries | connect_4.py:89-101 | Below the cap a run queries at least once, queries at most once per remaining turn, alternates the players starting from k % 2, and ends with a turn counter between the start and 41. |
| EngineProps.RunOutcome | connect_4.py:89-103 | A game from no winner returns its final winner; the result is -1, 0 or 1. A win is by the player of the last query, who played a column and is the current player, and a piece of that player in that column passes the win test on the final board. |
| EngineProps.TurnEmpties | connect_4.py:124-131 | An accepted drop fills exactly one empty cell; a pass or a refused play fills none. |
| EngineProps.RunEmpties | connect_4.py:89-103 | The number of empty cells drops by at most the number of turns left before the cap. |
| EngineProps.FreshGameLeavesEmptyCell | connect_4.py:91-93 | Every game on a fresh 6 × 7 board ends with at least one empty cell, because of the 41-turn cap. |
| EngineProps.PassersDraw | connect_4.py:91-101 | Two agents that always answer None are queried once per remaining turn. The board is unchanged, the game ends at the cap, and the result is -1 with no winner. |
| EngineProps.PassersDrawFresh | connect_4.py:91-93 | On a fresh game, two passers make exactly 41 queries and draw. |
| Trainer.PairsBelowInRange | trainer.py:33 | Every pairing names two members of the population. |
| Trainer.FindWinner | trainer.py:15-24 | Playing (p1, p2) adds one to p1's score when player 0 wins, one to p2's when player 1 wins, and nothing otherwise. No other entry changes. |
| Trainer.Rate | trainer.py:26-36 | `rate` returns a fresh scoreboard with one entry per network, equal to the tally of all pairings, in combinations order, over a zero board. |
| Trainer.ArgMax | trainer.py:44 | np.argmax's value: an index of a maximum with every earlier score strictly smaller, i.e. the first maximum. |
| Trainer.FirstArgmax | trainer.py:44 | The same for a linear scan. |
| Trainer.Remove | trainer.py:45 | `list.pop(i)` keeps the order of the other elements and shifts the later ones down. |
| Trainer.Select | trainer.py:42-46 | After n pops there are n survivors, and both lists are n shorter. |
| Trainer.FindNBest | trainer.py:38-46 | The survivors and the shortened lists are those of `Select`, n first-argmax pops of the aligned pairs. |
| Trainer.Rebuild | trainer.py:67-73 | The new population is each survivor's network, 50 // 10 times, in survivor order. The unused total is the sum of the survivors' scores. |
| Trainer.Schedule | trainer.py:53-57 | The number of halvings over range(total) is `HalvingsBefore(total, total)`. |
| Trainer.Generation | trainer.py:63-73 | One generation's survivors are those selected from `rate`'s scores, and the next population is their replication. |
| TrainerProps.PairsBelowShape | trainer.py:33 | Every pairing (a, b) has a < b < n, and the pairings are strictly increasing in lexicographic order. |
| TrainerProps.PairsBelowHas | trainer.py:33 | Among the pairings with first element below m, (a, b) occurs exactly when a < m and a < b < n. |
| TrainerProps.PairsExactlyOnce | trainer.py:33-34 | (a, b) is a game of the round robin exactly when a < b < n, and no game repeats. |
| TrainerProps.PairsLength | trainer.py:33 | n networks play n (n − 1) / 2 games. |
| TrainerProps.TallySum | trainer.py:20-23 | Each decided game adds exactly one point to the scoreboard's sum; a draw or an invalid play adds none. |
| TrainerProps.TallyEntry | trainer.py:20-23 | A network's score is its starting score plus the games it won, as player 0 with outcome 0 or as player 1 with outcome 1. |
| TrainerProps.ScoresBounds | trainer.py:26-36 | `rate`'s scoreboard has n entries. Each entry is that network's wins, hence at most n − 1. The entries add up to the number of decided games, hence at most n (n − 1) / 2. |
| TrainerProps.SelectSortedAndDominant | trainer.py:42-46 | The survivors' scores do not increase, and each is at least every score left behind. |
| TrainerProps.SelectPermutation | trainer.py:42-46 | Survivors plus what is left are a permutation of the original (network, score) pairs, with networks and scores staying aligned. |
| TrainerProps.SelectStable | trainer.py:44-45 | Labelling each network by its position, survivors with equal scores come in increasing position order. |
| TrainerProps.SelectRelabel | trainer.py:42-46 | Selecting from a real population pops the same scores as selecting from the position labels; each survivor and each network left is the network at the corresponding label's position. |
| TrainerProps.SelectStableNetworks | trainer.py:44-45 | For a real population, survivors with equal scores are the networks at increasing positions: ties go to the network that stood first. |
| TrainerProps.ReplicatedAt | trainer.py:69-73 | The rebuilt population has `copies` entries per survivor, and entry s · copies + r is survivor s's network. |
| TrainerProps.GenerationKeepsSize | trainer.py:64-73 | With 10 survivors and 5 copies each, the rebuilt population has 50 networks again. |
| TrainerProps.HalvesIff | trainer.py:56 | `generation == total_generations / 2`, in Python's true division, holds exactly when the total is even and the generation is half of it. |
| TrainerProps.HalvingsBeforeCount | trainer.py:53-57 | Generations before g halve the rate exactly once if the total is even and its half is below g, and never otherwise. |
| TrainerProps.HalvedAtMostOnce | trainer.py:55-57 | Over all generations the rate is halved once when the total is positive and even, and never otherwise. With 10 generations it is halved once, at generation 5. |
| Gui.ScanFrom | loop.py:224-225 | The scan stops at the bottom row or above a non-zero cell, and every cell it moved into is 0. |
| Gui.Session.constructor | loop.py:31-45 | Start-up: every cell 0, the move list all zeros, `move_pos` 0, player one to move; the invariant holds. |
| Gui.Session.DrawToken | loop.py:214-241 | Returns true exactly when the column's top cell is 0. Then the current player's piece (1 or 2) is written where the scan from row 0 stops; otherwise the board is unchanged. |
| Gui.Session.Switch | loop.py:248-258 | The turn flag is negated, so two switches restore it. |
| Gui.Session.Drop | loop.py:371-374 | A key press or click in column x, here and at loop.py:413-416, keeps the invariant. A landed piece passes the turn, writes x at `move_tracker[move_pos]` and increments `move_pos`. A refused one changes nothing. |
| Gui.Session.Record | loop.py:372-374 | The bookkeeping after a landed piece restores the invariant, writing the column at the old index and advancing the index. |
| Gui.Session.DrawUndo | loop.py:152-194 | With `move_pos == 0` nothing changes. Otherwise `move_pos` drops by one and the board is the undo of the last recorded column. That slot becomes 0 and the turn passes back. The invariant holds afterwards. |
| Gui.Session.ClearTop | loop.py:169-178 | The scan, the correction and the cleared cell give the board of `UndoBoard`. |
| Gui.Session.NewGame | loop.py:432-439 | The reset gives a fresh empty board, `move_pos` 0 and player one to move, and leaves the move list as it was, because the reset assigns a misspelt name. |
| Gui.Session.RunOfFour | loop.py:277-282 | The innermost loop reports exactly whether p holds all four cells from (x, y) in the given direction. |
| Gui.Session.Horizontals | loop.py:275-282 | True only if p has four in a row; false only if p holds no horizontal four starting in columns 0-3. |
| Gui.Session.Verticals | loop.py:285-292 | The same for vertical fours starting in rows 0-2. |
| Gui.Session.Ascending | loop.py:295-302 | The same for ascending diagonals starting in rows 3-5, columns 0-3. |
| Gui.Session.Descending | loop.py:305-312 | The same for descending diagonals starting in rows 3-5, columns 3-6. |
| Gui.Session.HasFour | loop.py:274-312 | For one player, the four scans together return true exactly when that player holds four consecutive cells in any direction. |
| Gui.Session.HasWon | loop.py:269-313 | Returns 1 if player one holds four in a row anywhere; else 2 if player two does; else 0. |
| Gui.ReplayAgree | loop.py:371-374 | Replaying the move list depends only on its first `move_pos` entries. |
| Gui.ReplayDrop | loop.py:371-374 | Recording a column that had room extends the recorded legal moves by one, and their replay is the drop. |
| Gui.ReplayTruncate | loop.py:157-194 | Clearing the last recorded slot leaves one legal move fewer, whose replay is the undone board. |
| Gui.ReplayVacancies | loop.py:34 | After n legal moves exactly 42 − n cells are 0. |
| Gui.RoomLeft | loop.py:371-374 | If a drop fits, fewer than 42 moves are recorded, so `move_tracker[move_pos]` is within the list. |
| Gui.UndoAfterDrop | loop.py:170-178 | The undo scan with its off-by-one correction clears exactly the cell the last drop into that column filled, giving back the board. |
| Gui.ReplayUndo | loop.py:157-194 | Undoing the last of n legal moves gives the board of the first n − 1. |
| Gui.WindowReversed | loop.py:294-312 | The same four cells read from the other end are a window in the opposite direction. |
| Gui.ScansCover | loop.py:274-312 | If none of the four scans finds a line, p has no four in a row in any of the eight directions. |
| GuiProps.OneToMoveParity | loop.py:248-258 | After k moves it is player one's turn exactly when k is even. |
| GuiProps.DropLandsLowest | loop.py:224-225 | On a settled board, the scan stops at the lowest empty cell of the column. |
| GuiProps.DropSettles | loop.py:214-241 | A drop keeps gravity. |
| GuiProps.ReplaySettled | loop.py:371-374 | Every board reached by legal moves is settled. |
| GuiProps.UndoClearsTop | loop.py:169-175 | On a settled board, undo in a non-empty column clears its topmost piece. |
| GuiProps.MovesBounded | loop.py:34 | At most 42 moves are ever recorded (`move_pos ≤ 42`). |
| GuiProps.DropUndoRoundTrip | loop.py:170-178 | A drop with its tracking, followed by undo, gives back the board, the index and the turn. The move list, with the slot cleared again, replays to the same board. |
| GuiProps.EmptyBoardNoWinner | loop.py:269-313 | `hasWon` returns 0 on the all-zero board. |

## Left out

- **Drawing, pygame, timing and concurrency.** All pygame calls, in both files, are
  left out, along with the window and font setup, the colours switched by `switch`, and
  the `update_board` printing. The `threading` import and the clock are left out too.
  None of these affects the board or the turn.
- **Event decoding in the front end.** loop.py:320-370 and 384-411 turn keys and mouse
  positions into a column 0-6. The model takes that column as an argument. Each press
  is assumed to come with a column in range, as every branch there produces one.
- **Win handling in the event loop.** Calling `hasWon` after each drop and setting
  `background` are left out. Also left out is the undo that runs when the undo button
  sets the `undo` flag. The operations they trigger (`HasWon`, `NewGame`, `DrawUndo`)
  are modelled.
- **The networks** (network.py). The weights are floating-point numpy arrays, `forward`
  uses a sigmoid, and `mutate` draws uniform random numbers. The network is an opaque
  genome with a `brain` parameter, and the mutation step of each generation
  (trainer.py:60) is not modelled.
- **`Trainer.Schedule`** counts the halvings rather than computing the floating-point
  mutation rate. The halving test runs at the top of generation g, before that
  generation's mutation (trainer.py:56-60). So generation g mutates with rate 2 / 2^h,
  where h = `HalvingsBefore(g + 1, total)` counts the halvings in generations 0 to g.
- **The top level of trainer.py.** The initial random population (trainer.py:49), the
  generation loop over `tqdm`, saving to `log/` and the final interactive game
  (trainer.py:75-83) are left out. They are I/O or randomness. One generation on a
  given population is `Trainer.Generation`.
- **`copy.deepcopy`.** Rebuilt copies are the same genome value. Genomes are values
  here, so aliasing between copies does not arise.
- **`Trainer.FindNBest`** is modelled on values. It returns the shortened lists
  instead of popping from the caller's lists in place.
- **Trainer preconditions.** `FindNBest` and `Generation` require at least n scores.
  With fewer, np.argmax of an empty list raises an exception, which the model does not
  represent.
- **`Engine.Gamestate`** does not keep `game_moves`, `interface` or `printing`.
  `game_moves` is never written, and `printing` only controls printing. `interface` is
  what run_game iterates over (connect_4.py:90): it yields the player numbers and the
  callbacks. The model replaces it with `RunGame`'s `inputCallback` argument, read
  through `Engine.Ask`.
- **The pygame interface class** (connect_4.py:54-71) and `game_board.py` are not part
  of this model. Neither is `play_against.py`.
- **`Engine.Choice`** stands for any Python value as three cases: `Pass` for `None`,
  `Col` for an `int`, `NonInt` for everything else. A numpy integer, which is not an
  `int` to `isinstance`, falls under `NonInt`. A Python `bool`, which is an `int`, is
  not modelled separately.
