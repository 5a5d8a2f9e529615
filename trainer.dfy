/**
  The evolutionary trainer: a round robin in which every pair of networks plays one
  headless game, selection of the best-scoring networks, the rebuild of the population
  from the survivors, and the mutation-rate schedule.  A network is an opaque genome G,
  played through `brain`, which turns a genome into an agent callback.
*/
module Trainer {
  import opened Grids
  import opened Engine

  const TotalGenerations := 10
  const PopSize := 50
  const NumSurviving := 10

  /** One game of the round robin: (p1, p2), with p1 playing as player 0. */
  type Pairing = (nat, nat)

  // ---------------------------------------------------------------------------
  // The round robin as values
  // ---------------------------------------------------------------------------

  /** The pairings itertools.combinations(range(n), 2) yields with first element a: (a, a+1), ..., (a, n-1). */
  function Row(a: nat, n: nat): (row: seq<Pairing>)
    ensures |row| == if a < n then n - a - 1 else 0
    ensures forall j :: 0 <= j < |row| ==> row[j] == (a, a + 1 + j)
  {
    if a < n then seq(n - a - 1, j => (a, a + 1 + j)) else []
  }

  /** The pairings combinations yields before the first one whose first element is m. */
  function PairsBelow(n: nat, m: nat): seq<Pairing>
  {
    if m == 0 then [] else PairsBelow(n, m - 1) + Row(m - 1, n)
  }

  /** All pairings of a population of n, in the order combinations(range(n), 2) yields them. */
  function Pairs(n: nat): seq<Pairing> {
    PairsBelow(n, n)
  }

  /** Every pairing names two members of a population of n. */
  predicate InRange(games: seq<Pairing>, n: nat) {
    forall i :: 0 <= i < |games| ==> games[i].0 < n && games[i].1 < n
  }

  /** find_winner's bookkeeping for one game: outcome 0 credits p1, outcome 1 credits p2, anything else nobody. */
  function Award(board: seq<nat>, game: Pairing, outcome: int): (b: seq<nat>)
    requires game.0 < |board| && game.1 < |board|
    ensures |b| == |board|
  {
    if outcome == 0 then board[game.0 := board[game.0] + 1]
    else if outcome == 1 then board[game.1 := board[game.1] + 1]
    else board
  }

  /** The scoreboard after playing `games` in order, starting from `board`, where `play` decides each game. */
  function Tally(board: seq<nat>, games: seq<Pairing>, play: (nat, nat) -> int): (b: seq<nat>)
    requires InRange(games, |board|)
    ensures |b| == |board|
  {
    if games == [] then board
    else
      var last := games[|games| - 1];
      Award(Tally(board, games[..|games| - 1], play), last, play(last.0, last.1))
  }

  /** The outcome of the headless game in which network p1 plays network p2. */
  function Outcomes<G>(population: seq<G>, brain: G -> Agent): (nat, nat) -> int {
    (p1: nat, p2: nat) =>
      if p1 < |population| && p2 < |population|
      then MatchResult([brain(population[p1]), brain(population[p2])])
      else -1
  }

  /** What rate returns for a population of n networks. */
  function Scores(n: nat, play: (nat, nat) -> int): seq<nat>
    requires InRange(Pairs(n), n)
  {
    Tally(seq(n, _ => 0), Pairs(n), play)
  }

  // ---------------------------------------------------------------------------
  // Selection as values
  // ---------------------------------------------------------------------------

  /** np.argmax: the index of the first maximum. */
  function ArgMax(s: seq<int>): (i: nat)
    requires |s| > 0
    ensures i < |s|
    ensures forall j :: 0 <= j < |s| ==> s[j] <= s[i]
    ensures forall j :: 0 <= j < i ==> s[j] < s[i]
  {
    if |s| == 1 then 0
    else
      var j := ArgMax(s[..|s| - 1]);
      if s[|s| - 1] > s[j] then |s| - 1 else j
  }

  /** list.pop(i) as a value: s without its i-th element. */
  function Remove<T>(s: seq<T>, i: nat): (r: seq<T>)
    requires i < |s|
    ensures |r| == |s| - 1
    ensures forall j :: 0 <= j < |r| ==> r[j] == if j < i then s[j] else s[j + 1]
  {
    s[..i] + s[i + 1..]
  }

  /** The aligned (network, score) pairs of a population and its scores. */
  function Zip<G>(population: seq<G>, scores: seq<int>): (z: seq<(G, int)>)
    requires |population| == |scores|
    ensures |z| == |population|
    ensures forall i :: 0 <= i < |z| ==> z[i] == (population[i], scores[i])
  {
    seq(|population|, i requires 0 <= i < |population| => (population[i], scores[i]))
  }

  /** The survivors chosen so far, and the population and scores still left after the pops. */
  datatype Picked<G> = Picked(best: seq<(G, int)>, population: seq<G>, scores: seq<int>)

  /** find_n_best's first n rounds: each pops the first maximum of the remaining scores. */
  function Select<G>(scores: seq<int>, population: seq<G>, n: nat): (p: Picked<G>)
    requires |scores| == |population| && n <= |scores|
    ensures |p.best| == n && |p.population| == |p.scores| == |scores| - n
  {
    if n == 0 then Picked([], population, scores)
    else
      var p := Select(scores, population, n - 1);
      var i := ArgMax(p.scores);
      Picked(p.best + [(p.population[i], p.scores[i])], Remove(p.population, i), Remove(p.scores, i))
  }

  // ---------------------------------------------------------------------------
  // Rebuild and schedule as values
  // ---------------------------------------------------------------------------

  /** The rebuilt population: each survivor's network, `copies` times, in survivor order. */
  function Replicated<G>(best: seq<(G, int)>, copies: nat): seq<G> {
    if best == [] then []
    else Replicated(best[..|best| - 1], copies) + seq(copies, _ => best[|best| - 1].0)
  }

  /** The halving test `generation == total_generations / 2`, with Python's true division. */
  predicate Halves(generation: int, total: int) {
    2 * generation == total
  }

  /** How many of the generations 0, 1, ..., g - 1 halve the mutation rate. */
  function HalvingsBefore(g: nat, total: int): nat {
    if g == 0 then 0 else HalvingsBefore(g - 1, total) + (if Halves(g - 1, total) then 1 else 0)
  }

  // ---------------------------------------------------------------------------
  // The trainer's procedures
  // ---------------------------------------------------------------------------

  /** find_winner's closure applied to (p1, p2): play one headless game and credit its winner. */
  method FindWinner<G>(population: seq<G>, brain: G -> Agent, scoreboard: array<nat>, p1: nat, p2: nat)
    requires p1 < |population| && p2 < |population| && scoreboard.Length == |population|
    modifies scoreboard
    ensures scoreboard[..] == Award(old(scoreboard[..]), (p1, p2), Outcomes(population, brain)(p1, p2))
  {
    var winner := PlayMatch([brain(population[p1]), brain(population[p2])]);
    if winner == 0 {
      scoreboard[p1] := scoreboard[p1] + 1;
    }
    if winner == 1 {
      scoreboard[p2] := scoreboard[p2] + 1;
    }
  }

  /** Appending one game to the ones already played awards it on top of their tally. */
  lemma TallySnoc(board: seq<nat>, games: seq<Pairing>, game: Pairing, play: (nat, nat) -> int)
    requires InRange(games + [game], |board|)
    ensures InRange(games, |board|) && game.0 < |board| && game.1 < |board|
    ensures Tally(board, games + [game], play) == Award(Tally(board, games, play), game, play(game.0, game.1))
  {
    assert (games + [game])[|games|] == game;
    assert (games + [game])[..|games|] == games;
  }

  /** Every pairing of a population of n names two of its members. */
  lemma {:induction false} PairsBelowInRange(n: nat, m: nat)
    requires m <= n
    ensures InRange(PairsBelow(n, m), n)
  {
    if m > 0 {
      PairsBelowInRange(n, m - 1);
    }
  }

  /** rate: a zero scoreboard, then find_winner mapped over the pairings in combinations order. */
  method Rate<G>(population: seq<G>, brain: G -> Agent) returns (scoreboard: array<nat>)
    ensures fresh(scoreboard) && scoreboard.Length == |population|
    ensures InRange(Pairs(|population|), |population|)
    ensures scoreboard[..] == Scores(|population|, Outcomes(population, brain))
  {
    var n := |population|;
    ghost var play := Outcomes(population, brain);
    scoreboard := new nat[n](_ => 0);
    ghost var zero := scoreboard[..];
    assert zero == seq(n, _ => 0);
    var indexes := Pairs(n);
    PairsBelowInRange(n, n);
    for i := 0 to |indexes|
      invariant scoreboard.Length == n
      invariant scoreboard[..] == Tally(zero, indexes[..i], play)
    {
      assert indexes[..i + 1] == indexes[..i] + [indexes[i]];
      TallySnoc(zero, indexes[..i], indexes[i], play);
      FindWinner(population, brain, scoreboard, indexes[i].0, indexes[i].1);
    }
    assert indexes[..|indexes|] == indexes;
  }

  /** np.argmax over the scores: a linear scan that keeps the first maximum seen. */
  method FirstArgmax(s: seq<int>) returns (i: nat)
    requires |s| > 0
    ensures i < |s|
    ensures forall j :: 0 <= j < |s| ==> s[j] <= s[i]
    ensures forall j :: 0 <= j < i ==> s[j] < s[i]
  {
    i := 0;
    for k := 1 to |s|
      invariant i < k
      invariant forall j :: 0 <= j < k ==> s[j] <= s[i]
      invariant forall j :: 0 <= j < i ==> s[j] < s[i]
    {
      if s[k] > s[i] {
        i := k;
      }
    }
  }

  /** The first maximum is the only index that is a maximum with every earlier score strictly smaller. */
  lemma FirstMaxUnique(s: seq<int>, i: nat)
    requires i < |s|
    requires forall j :: 0 <= j < |s| ==> s[j] <= s[i]
    requires forall j :: 0 <= j < i ==> s[j] < s[i]
    ensures i == ArgMax(s)
  {
  }

  /**
    find_n_best: n times, pop the first maximum of the scores and the network aligned with it,
    and append the pair to `best`.  The callers' lists come back as the shortened lists.
  */
  method FindNBest<G>(scores: seq<int>, population: seq<G>, n: nat)
    returns (best: seq<(G, int)>, population': seq<G>, scores': seq<int>)
    requires |scores| == |population| && n <= |scores|
    ensures Picked(best, population', scores') == Select(scores, population, n)
  {
    best, population', scores' := [], population, scores;
    for i := 0 to n
      invariant Picked(best, population', scores') == Select(scores, population, i)
    {
      var idx := FirstArgmax(scores');
      FirstMaxUnique(scores', idx);
      best := best + [(population'[idx], scores'[idx])];
      population' := population'[..idx] + population'[idx + 1..];
      scores' := scores'[..idx] + scores'[idx + 1..];
    }
  }

  /** The rebuild loop: extend an empty population by pop_size // num_surviving copies of each survivor. */
  method Rebuild<G>(best: seq<(G, int)>) returns (population: seq<G>, totalScore: int)
    ensures population == Replicated(best, PopSize / NumSurviving)
    ensures totalScore == SumScores(best)
  {
    population := [];
    totalScore := 0;
    for i := 0 to |best|
      invariant totalScore == SumScores(best[..i])
    {
      totalScore := totalScore + best[i].1;
      assert best[..i + 1][..i] == best[..i];
    }
    assert best[..|best|] == best;
    for i := 0 to |best|
      invariant population == Replicated(best[..i], PopSize / NumSurviving)
    {
      var numCopies := PopSize / NumSurviving;
      var copies := seq(numCopies, _ => best[i].0);
      population := population + copies;
      assert best[..i + 1][..i] == best[..i];
    }
    assert best[..|best|] == best;
  }

  /** sum([survivor[1] for survivor in best]). */
  function SumScores<G>(best: seq<(G, int)>): int {
    if best == [] then 0 else SumScores(best[..|best| - 1]) + best[|best| - 1].1
  }

  /**
    The generation loop's schedule: the mutation rate is halved in each generation g of
    range(total) with g == total / 2; the result is the number of halvings.
  */
  method Schedule(total: nat) returns (halvings: nat)
    ensures halvings == HalvingsBefore(total, total)
  {
    halvings := 0;
    for generation := 0 to total
      invariant halvings == HalvingsBefore(generation, total)
    {
      if 2 * generation == total {
        halvings := halvings + 1;
      }
    }
  }

  /**
    The scoring, selection and rebuild part of one generation, on an already mutated
    population: rate it, keep the num_surviving best, and rebuild from them.
  */
  method Generation<G>(population: seq<G>, brain: G -> Agent)
    returns (best: seq<(G, int)>, next: seq<G>)
    requires |population| >= NumSurviving
    ensures InRange(Pairs(|population|), |population|)
    ensures best == Select(Scores(|population|, Outcomes(population, brain)), population, NumSurviving).best
    ensures next == Replicated(best, PopSize / NumSurviving)
  {
    var scoreboard := Rate(population, brain);
    var scores: seq<int> := scoreboard[..];
    var rest, restScores;
    best, rest, restScores := FindNBest(scores, population, NumSurviving);
    var totalScore;
    next, totalScore := Rebuild(best);
  }
}
