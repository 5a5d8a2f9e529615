/**
  Properties of the trainer's specification functions: the round robin pairs every two
  networks exactly once, the scoreboard's bounds, what selection keeps and discards, the
  shape of the rebuilt population and the halving schedule.
*/
module TrainerProps {
  import opened Engine
  import opened Trainer

  // ---------------------------------------------------------------------------
  // The pairings
  // ---------------------------------------------------------------------------

  /** Lexicographic order on pairings, the order combinations yields them in. */
  predicate Before(x: Pairing, y: Pairing) {
    x.0 < y.0 || (x.0 == y.0 && x.1 < y.1)
  }

  lemma {:induction false} PairsBelowShape(n: nat, m: nat)
    requires m <= n
    ensures forall i :: 0 <= i < |PairsBelow(n, m)| ==>
      PairsBelow(n, m)[i].0 < m && PairsBelow(n, m)[i].0 < PairsBelow(n, m)[i].1 < n
    ensures forall i, j :: 0 <= i < j < |PairsBelow(n, m)| ==> Before(PairsBelow(n, m)[i], PairsBelow(n, m)[j])
  {
    if m > 0 {
      PairsBelowShape(n, m - 1);
      var ps, row := PairsBelow(n, m - 1), Row(m - 1, n);
      var all := ps + row;
      assert PairsBelow(n, m) == all;
      forall i | 0 <= i < |all| ensures all[i].0 < m && all[i].0 < all[i].1 < n {
        if i < |ps| {
          assert all[i] == ps[i];
        } else {
          assert all[i] == row[i - |ps|];
          assert row[i - |ps|] == (m - 1, m + i - |ps|);
        }
      }
      forall i, j | 0 <= i < j < |all| ensures Before(all[i], all[j]) {
        if j < |ps| {
          assert all[i] == ps[i] && all[j] == ps[j];
        } else if i < |ps| {
          assert all[i] == ps[i] && all[j] == row[j - |ps|];
        } else {
          assert all[i] == row[i - |ps|] && all[j] == row[j - |ps|];
        }
      }
    }
  }

  /** (a, b) is a pairing of a population of n exactly when a < b < n. */
  lemma {:induction false} PairsBelowHas(n: nat, m: nat, a: nat, b: nat)
    requires m <= n
    ensures (a, b) in PairsBelow(n, m) <==> a < m && a < b < n
  {
    PairsBelowShape(n, m);
    if m > 0 {
      PairsBelowHas(n, m - 1, a, b);
      var ps, row := PairsBelow(n, m - 1), Row(m - 1, n);
      assert PairsBelow(n, m) == ps + row;
      if a == m - 1 && a < b < n {
        assert row[b - a - 1] == (a, b);
      }
    }
  }

  /**
    The round robin of rate: every pairing (p1, p2) has p1 < p2 < n, every such pair occurs,
    and none occurs twice (the pairings strictly increase in combinations order).
  */
  lemma PairsExactlyOnce(n: nat)
    ensures forall a: nat, b: nat :: (a, b) in Pairs(n) <==> a < b < n
    ensures forall i, j :: 0 <= i < j < |Pairs(n)| ==> Pairs(n)[i] != Pairs(n)[j]
  {
    forall a: nat, b: nat ensures (a, b) in Pairs(n) <==> a < b < n {
      PairsBelowHas(n, n, a, b);
    }
    PairsBelowShape(n, n);
    forall i, j | 0 <= i < j < |Pairs(n)| ensures Pairs(n)[i] != Pairs(n)[j] {
      assert Before(Pairs(n)[i], Pairs(n)[j]);
    }
  }

  lemma {:induction false} PairsBelowLength(n: nat, m: nat)
    requires m <= n
    ensures 2 * |PairsBelow(n, m)| == m * (2 * n - m - 1)
  {
    if m > 0 {
      PairsBelowLength(n, m - 1);
      assert (m - 1) * (2 * n - (m - 1) - 1) + 2 * (n - m) == m * (2 * n - m - 1);
    }
  }

  /** n networks play n (n - 1) / 2 games. */
  lemma PairsLength(n: nat)
    ensures 2 * |Pairs(n)| == n * (n - 1)
  {
    PairsBelowLength(n, n);
    assert n * (2 * n - n - 1) == n * (n - 1);
  }

  // ---------------------------------------------------------------------------
  // The scoreboard
  // ---------------------------------------------------------------------------

  function Sum(s: seq<nat>): nat {
    if s == [] then 0 else Sum(s[..|s| - 1]) + s[|s| - 1]
  }

  lemma {:induction false} SumIncrement(s: seq<nat>, i: nat)
    requires i < |s|
    ensures Sum(s[i := s[i] + 1]) == Sum(s) + 1
  {
    var t := s[i := s[i] + 1];
    if i < |s| - 1 {
      assert t[..|t| - 1] == s[..|s| - 1][i := s[i] + 1];
      SumIncrement(s[..|s| - 1], i);
    } else {
      assert t[..|t| - 1] == s[..|s| - 1];
    }
  }

  /** How many of the games have a winner (outcome 0 or 1). */
  function Decided(games: seq<Pairing>, play: (nat, nat) -> int): (d: nat)
    ensures d <= |games|
  {
    if games == [] then 0
    else
      var g := games[|games| - 1];
      Decided(games[..|games| - 1], play) + (if play(g.0, g.1) == 0 || play(g.0, g.1) == 1 then 1 else 0)
  }

  /** How many games member i won: as player 0 with outcome 0, or as player 1 with outcome 1. */
  function Credits(games: seq<Pairing>, play: (nat, nat) -> int, i: nat): nat {
    if games == [] then 0
    else
      var g := games[|games| - 1];
      Credits(games[..|games| - 1], play, i)
        + (if (play(g.0, g.1) == 0 && g.0 == i) || (play(g.0, g.1) == 1 && g.1 == i) then 1 else 0)
  }

  /** How many games member i takes part in. */
  function Involving(games: seq<Pairing>, i: nat): nat {
    if games == [] then 0
    else
      var g := games[|games| - 1];
      Involving(games[..|games| - 1], i) + (if g.0 == i || g.1 == i then 1 else 0)
  }

  /** Each decided game adds exactly one point to the scoreboard; a draw or an invalid play adds none. */
  lemma {:induction false} TallySum(board: seq<nat>, games: seq<Pairing>, play: (nat, nat) -> int)
    requires InRange(games, |board|)
    ensures Sum(Tally(board, games, play)) == Sum(board) + Decided(games, play)
  {
    if games != [] {
      var init, g := games[..|games| - 1], games[|games| - 1];
      TallySum(board, init, play);
      var t := Tally(board, init, play);
      var o := play(g.0, g.1);
      if o == 0 {
        SumIncrement(t, g.0);
      } else if o == 1 {
        SumIncrement(t, g.1);
      }
    }
  }

  /** Member i's score is its starting score plus the games it won. */
  lemma {:induction false} TallyEntry(board: seq<nat>, games: seq<Pairing>, play: (nat, nat) -> int, i: nat)
    requires InRange(games, |board|) && i < |board|
    ensures Tally(board, games, play)[i] == board[i] + Credits(games, play, i)
  {
    if games != [] {
      TallyEntry(board, games[..|games| - 1], play, i);
    }
  }

  lemma {:induction false} CreditsAtMostInvolving(games: seq<Pairing>, play: (nat, nat) -> int, i: nat)
    ensures Credits(games, play, i) <= Involving(games, i)
  {
    if games != [] {
      CreditsAtMostInvolving(games[..|games| - 1], play, i);
    }
  }

  lemma {:induction false} InvolvingConcat(a: seq<Pairing>, b: seq<Pairing>, i: nat)
    ensures Involving(a + b, i) == Involving(a, i) + Involving(b, i)
  {
    if b != [] {
      assert (a + b)[..|a + b| - 1] == a + b[..|b| - 1];
      InvolvingConcat(a, b[..|b| - 1], i);
    } else {
      assert a + b == a;
    }
  }

  lemma {:induction false} InvolvingRowPrefix(a: nat, n: nat, i: nat, k: nat)
    requires a < n && k <= n - a - 1
    ensures Involving(Row(a, n)[..k], i) == if a == i then k else if a < i <= a + k then 1 else 0
  {
    if k > 0 {
      var row := Row(a, n);
      assert row[..k][..k - 1] == row[..k - 1];
      InvolvingRowPrefix(a, n, i, k - 1);
    }
  }

  lemma {:induction false} InvolvingPairsBelow(n: nat, m: nat, i: nat)
    requires m <= n && i < n
    ensures Involving(PairsBelow(n, m), i) == if m <= i then m else n - 1
  {
    if m > 0 {
      InvolvingPairsBelow(n, m - 1, i);
      InvolvingConcat(PairsBelow(n, m - 1), Row(m - 1, n), i);
      var row := Row(m - 1, n);
      assert row[..|row|] == row;
      InvolvingRowPrefix(m - 1, n, i, |row|);
    }
  }

  /**
    rate's scoreboard has one entry per network; each entry is the number of games that
    network won, so at most n - 1; and the entries add up to the number of decided games,
    so to at most n (n - 1) / 2.
  */
  lemma ScoresBounds(n: nat, play: (nat, nat) -> int)
    requires InRange(Pairs(n), n)
    ensures var s := Scores(n, play);
      |s| == n
      && (forall i :: 0 <= i < n ==> s[i] == Credits(Pairs(n), play, i) <= n - 1)
      && 2 * Sum(s) <= n * (n - 1)
      && Sum(s) == Decided(Pairs(n), play)
  {
    var zero: seq<nat> := seq(n, _ => 0);
    forall i | 0 <= i < n ensures Scores(n, play)[i] == Credits(Pairs(n), play, i) <= n - 1 {
      TallyEntry(zero, Pairs(n), play, i);
      CreditsAtMostInvolving(Pairs(n), play, i);
      InvolvingPairsBelow(n, n, i);
    }
    ZeroSum(n);
    TallySum(zero, Pairs(n), play);
    PairsLength(n);
  }

  lemma {:induction false} ZeroSum(n: nat)
    ensures Sum(seq(n, _ => 0)) == 0
  {
    if n > 0 {
      assert seq(n, _ => 0)[..n - 1] == seq(n - 1, _ => 0);
      ZeroSum(n - 1);
    }
  }

  // ---------------------------------------------------------------------------
  // Selection
  // ---------------------------------------------------------------------------

  /** The scores of the selected pairs never increase. */
  predicate NonIncreasing<G>(best: seq<(G, int)>) {
    forall k, k' :: 0 <= k < k' < |best| ==> best[k].1 >= best[k'].1
  }

  /** Every selected score is at least every score left behind. */
  predicate Dominates<G>(best: seq<(G, int)>, rest: seq<int>) {
    forall k, j :: 0 <= k < |best| && 0 <= j < |rest| ==> best[k].1 >= rest[j]
  }

  /** Selected pairs with equal scores come in the order of their labels. */
  predicate TiesInOrder(best: seq<(nat, int)>) {
    forall k, k' :: 0 <= k < k' < |best| && best[k].1 == best[k'].1 ==> best[k].0 < best[k'].0
  }

  /** Appending a maximum of what is left keeps the picks sorted. */
  lemma PickKeepsOrder<G>(best: seq<(G, int)>, scores: seq<int>, i: nat, network: G)
    requires i < |scores| && NonIncreasing(best) && Dominates(best, scores)
    ensures NonIncreasing(best + [(network, scores[i])])
  {
    var best' := best + [(network, scores[i])];
    forall k, k' | 0 <= k < k' < |best'| ensures best'[k].1 >= best'[k'].1 {
      assert best'[k] == best[k];
      if k' < |best| {
        assert best'[k'] == best[k'];
      } else {
        assert best[k].1 >= scores[i];
      }
    }
  }

  /** Appending a maximum of what is left keeps the picks at least everything still left. */
  lemma PickKeepsDominance<G>(best: seq<(G, int)>, scores: seq<int>, i: nat, network: G)
    requires i < |scores| && Dominates(best, scores)
    requires forall j :: 0 <= j < |scores| ==> scores[j] <= scores[i]
    ensures Dominates(best + [(network, scores[i])], Remove(scores, i))
  {
    var best', rest := best + [(network, scores[i])], Remove(scores, i);
    forall j | 0 <= j < |rest|
      ensures rest[j] <= scores[i] && forall k :: 0 <= k < |best| ==> best[k].1 >= rest[j]
    {
      var j' := if j < i then j else j + 1;
      assert rest[j] == scores[j'];
    }
    forall k, j | 0 <= k < |best'| && 0 <= j < |rest| ensures best'[k].1 >= rest[j] {
      if k < |best| {
        assert best'[k] == best[k];
      }
    }
  }

  /**
    find_n_best keeps the n best: the selected scores never increase, and every selected
    score is at least every score left behind.
  */
  lemma {:induction false} SelectSortedAndDominant<G>(scores: seq<int>, population: seq<G>, n: nat)
    requires |scores| == |population| && n <= |scores|
    ensures NonIncreasing(Select(scores, population, n).best)
    ensures Dominates(Select(scores, population, n).best, Select(scores, population, n).scores)
  {
    if n > 0 {
      SelectSortedAndDominant(scores, population, n - 1);
      var q := Select(scores, population, n - 1);
      var i := ArgMax(q.scores);
      PickKeepsOrder(q.best, q.scores, i, q.population[i]);
      PickKeepsDominance(q.best, q.scores, i, q.population[i]);
      assert Select(scores, population, n)
          == Picked(q.best + [(q.population[i], q.scores[i])], Remove(q.population, i), Remove(q.scores, i));
    }
  }

  lemma MultisetRemove<T>(s: seq<T>, i: nat)
    requires i < |s|
    ensures multiset(s) == multiset(Remove(s, i)) + multiset{s[i]}
  {
    assert s == s[..i] + [s[i]] + s[i + 1..];
  }

  lemma ZipRemove<G>(population: seq<G>, scores: seq<int>, i: nat)
    requires |population| == |scores| && i < |scores|
    ensures Zip(Remove(population, i), Remove(scores, i)) == Remove(Zip(population, scores), i)
  {
  }

  /** One pop moves the first maximum's aligned pair from what is left to what is selected. */
  lemma PermutationStep<G>(best: seq<(G, int)>, population: seq<G>, scores: seq<int>, i: nat)
    requires |population| == |scores| && i < |scores|
    ensures multiset(best) + multiset(Zip(population, scores))
         == multiset(best + [(population[i], scores[i])]) + multiset(Zip(Remove(population, i), Remove(scores, i)))
  {
    var z := Zip(population, scores);
    ZipRemove(population, scores, i);
    MultisetRemove(z, i);
    assert z[i] == (population[i], scores[i]);
  }

  /** The selected pairs and the remaining aligned pairs are together a permutation of the original aligned pairs. */
  lemma {:induction false} SelectPermutation<G>(scores: seq<int>, population: seq<G>, n: nat)
    requires |scores| == |population| && n <= |scores|
    ensures multiset(Zip(population, scores))
         == multiset(Select(scores, population, n).best)
            + multiset(Zip(Select(scores, population, n).population, Select(scores, population, n).scores))
  {
    if n > 0 {
      SelectPermutation(scores, population, n - 1);
      var q := Select(scores, population, n - 1);
      PermutationStep(q.best, q.population, q.scores, ArgMax(q.scores));
    }
  }

  /** The positions 0, 1, ..., n - 1, used as labels that remember where each network stood. */
  function Positions(n: nat): (s: seq<nat>)
    ensures |s| == n && forall i :: 0 <= i < n ==> s[i] == i
  {
    seq(n, i => i)
  }

  predicate Increasing(s: seq<nat>) {
    forall i, j :: 0 <= i < j < |s| ==> s[i] < s[j]
  }

  /** The invariant behind stable selection, for picks `best` and what is left (`population`, `scores`). */
  predicate StableSoFar(best: seq<(nat, int)>, population: seq<nat>, scores: seq<int>)
    requires |population| == |scores|
  {
    Increasing(population)
    && (forall k, j :: 0 <= k < |best| && 0 <= j < |scores| && scores[j] == best[k].1
          ==> best[k].0 < population[j])
    && TiesInOrder(best)
  }

  /** Popping the first maximum keeps the invariant. */
  lemma StableStep(best: seq<(nat, int)>, population: seq<nat>, scores: seq<int>)
    requires |population| == |scores| > 0 && StableSoFar(best, population, scores)
    ensures var i := ArgMax(scores);
      StableSoFar(best + [(population[i], scores[i])], Remove(population, i), Remove(scores, i))
  {
    var i := ArgMax(scores);
    var best', pop', sc' := best + [(population[i], scores[i])], Remove(population, i), Remove(scores, i);
    forall a, b | 0 <= a < b < |pop'| ensures pop'[a] < pop'[b] {
      assert pop'[a] == population[if a < i then a else a + 1];
      assert pop'[b] == population[if b < i then b else b + 1];
    }
    forall k, j | 0 <= k < |best'| && 0 <= j < |sc'| && sc'[j] == best'[k].1 ensures best'[k].0 < pop'[j] {
      var j' := if j < i then j else j + 1;
      assert sc'[j] == scores[j'] && pop'[j] == population[j'];
      if k < |best| {
        assert best'[k] == best[k];
      } else {
        assert j' > i;
      }
    }
    forall k, k' | 0 <= k < k' < |best'| && best'[k].1 == best'[k'].1 ensures best'[k].0 < best'[k'].0 {
      assert best'[k] == best[k];
      if k' < |best| {
        assert best'[k'] == best[k'];
      }
    }
  }

  lemma {:induction false} SelectStableAux(scores: seq<int>, n: nat)
    requires n <= |scores|
    ensures var p := Select(scores, Positions(|scores|), n);
      StableSoFar(p.best, p.population, p.scores)
  {
    if n > 0 {
      SelectStableAux(scores, n - 1);
      var q := Select(scores, Positions(|scores|), n - 1);
      StableStep(q.best, q.population, q.scores);
    }
  }

  /**
    Ties go to the earliest remaining index: label each network with its original position;
    then among selected networks with equal scores, the one selected first stood first.
  */
  lemma SelectStable(scores: seq<int>, n: nat)
    requires n <= |scores|
    ensures TiesInOrder(Select(scores, Positions(|scores|), n).best)
  {
    SelectStableAux(scores, n);
    var p := Select(scores, Positions(|scores|), n);
    assert StableSoFar(p.best, p.population, p.scores);
  }

  /** Each label in `labels` is a position of `population`, and `networks` holds the networks at those positions. */
  ghost predicate Relabels<G>(networks: seq<G>, labels: seq<nat>, population: seq<G>) {
    |networks| == |labels|
    && forall j :: 0 <= j < |labels| ==> labels[j] < |population| && networks[j] == population[labels[j]]
  }

  /** The same for selected (network, score) pairs and (label, score) pairs. */
  ghost predicate RelabelsPairs<G>(best: seq<(G, int)>, labelled: seq<(nat, int)>, population: seq<G>) {
    |best| == |labelled|
    && forall k :: 0 <= k < |labelled| ==>
         labelled[k].0 < |population| && best[k] == (population[labelled[k].0], labelled[k].1)
  }

  lemma RelabelsRemove<G>(networks: seq<G>, labels: seq<nat>, population: seq<G>, i: nat)
    requires Relabels(networks, labels, population) && i < |labels|
    ensures Relabels(Remove(networks, i), Remove(labels, i), population)
  {
    var n', l' := Remove(networks, i), Remove(labels, i);
    forall j | 0 <= j < |l'| ensures l'[j] < |population| && n'[j] == population[l'[j]] {
      var j' := if j < i then j else j + 1;
      assert l'[j] == labels[j'] && n'[j] == networks[j'];
    }
  }

  lemma RelabelsAppend<G>(best: seq<(G, int)>, labelled: seq<(nat, int)>, population: seq<G>,
                          network: G, position: nat, score: int)
    requires RelabelsPairs(best, labelled, population) && position < |population|
    requires network == population[position]
    ensures RelabelsPairs(best + [(network, score)], labelled + [(position, score)], population)
  {
    var b', l' := best + [(network, score)], labelled + [(position, score)];
    forall k | 0 <= k < |l'| ensures l'[k].0 < |population| && b'[k] == (population[l'[k].0], l'[k].1) {
      if k < |labelled| {
        assert l'[k] == labelled[k] && b'[k] == best[k];
      }
    }
  }

  /** One pop on a real population and on its labels, with the labels picking out the networks. */
  lemma RelabelPop<G>(q: Picked<G>, m: Picked<nat>, population: seq<G>)
    requires |q.population| == |q.scores| > 0 && q.scores == m.scores
    requires Relabels(q.population, m.population, population) && RelabelsPairs(q.best, m.best, population)
    ensures var i := ArgMax(q.scores);
      Relabels(Remove(q.population, i), Remove(m.population, i), population)
      && RelabelsPairs(q.best + [(q.population[i], q.scores[i])], m.best + [(m.population[i], m.scores[i])], population)
  {
    var i := ArgMax(q.scores);
    RelabelsRemove(q.population, m.population, population, i);
    RelabelsAppend(q.best, m.best, population, q.population[i], m.population[i], q.scores[i]);
  }

  /**
    Selection on a real population pops what selection on the position labels pops, with
    each label replaced by the network at that position, so SelectStable speaks about the
    networks find_n_best returns.
  */
  lemma {:induction false} SelectRelabel<G>(scores: seq<int>, population: seq<G>, n: nat)
    requires |scores| == |population| && n <= |scores|
    ensures var p, l := Select(scores, population, n), Select<nat>(scores, Positions(|scores|), n);
      p.scores == l.scores && Relabels(p.population, l.population, population)
      && RelabelsPairs(p.best, l.best, population)
  {
    if n == 0 {
      assert Relabels(population, Positions(|scores|), population);
    } else {
      SelectRelabel(scores, population, n - 1);
      RelabelPop(Select(scores, population, n - 1), Select<nat>(scores, Positions(|scores|), n - 1), population);
    }
  }

  /**
    Stable selection for a real population: survivors with equal scores come in the order in
    which they stood in the population, as their positions show.
  */
  lemma SelectStableNetworks<G>(scores: seq<int>, population: seq<G>, n: nat)
    requires |scores| == |population| && n <= |scores|
    ensures var p, l := Select(scores, population, n), Select<nat>(scores, Positions(|scores|), n);
      TiesInOrder(l.best)
      && forall k :: 0 <= k < n ==>
           l.best[k].0 < |population| && p.best[k] == (population[l.best[k].0], l.best[k].1)
  {
    SelectRelabel(scores, population, n);
    SelectStable(scores, n);
  }

  // ---------------------------------------------------------------------------
  // Rebuild and schedule
  // ---------------------------------------------------------------------------

  /** Index of the r-th copy of survivor s in the rebuilt population. */
  function Slot(s: nat, r: nat, copies: nat): nat {
    s * copies + r
  }

  /** The rebuilt population has `copies` entries per survivor, and its r-th copy of survivor s is that survivor's network. */
  lemma {:induction false} ReplicatedAt<G>(best: seq<(G, int)>, copies: nat)
    ensures |Replicated(best, copies)| == |best| * copies
    ensures forall s, r :: 0 <= s < |best| && 0 <= r < copies ==>
      Slot(s, r, copies) < |Replicated(best, copies)| && Replicated(best, copies)[Slot(s, r, copies)] == best[s].0
  {
    if best != [] {
      var init := best[..|best| - 1];
      ReplicatedAt(init, copies);
      var rest := Replicated(init, copies);
      var r := Replicated(best, copies);
      assert r == rest + seq(copies, _ => best[|best| - 1].0);
      assert |r| == |init| * copies + copies == |best| * copies;
      forall s, t | 0 <= s < |best| && 0 <= t < copies
        ensures Slot(s, t, copies) < |r| && r[Slot(s, t, copies)] == best[s].0
      {
        if s < |init| {
          MulMono(s + 1, |init|, copies);
          assert Slot(s, t, copies) < |rest|;
          assert r[Slot(s, t, copies)] == rest[Slot(s, t, copies)];
          assert init[s] == best[s];
        } else {
          assert Slot(s, t, copies) == |rest| + t;
        }
      }
    }
  }

  lemma {:induction false} MulMono(a: nat, b: nat, c: nat)
    requires a <= b
    ensures a * c <= b * c
  {
    if c > 0 {
      MulMono(a, b, c - 1);
      assert a * c == a * (c - 1) + a && b * c == b * (c - 1) + b;
    }
  }

  /** With 10 survivors and 50 // 10 = 5 copies each, every generation after the first has 50 networks again. */
  lemma GenerationKeepsSize<G>(best: seq<(G, int)>)
    requires |best| == NumSurviving
    ensures |Replicated(best, PopSize / NumSurviving)| == PopSize
  {
    ReplicatedAt(best, PopSize / NumSurviving);
  }

  /** generation == total / 2 holds in true division exactly when total is even and generation is half of it. */
  lemma HalvesIff(generation: int, total: int)
    ensures Halves(generation, total) <==> total % 2 == 0 && generation == total / 2
  {
  }

  lemma {:induction false} HalvingsBeforeCount(g: nat, total: nat)
    ensures HalvingsBefore(g, total) == if total % 2 == 0 && total / 2 < g then 1 else 0
  {
    if g > 0 {
      HalvingsBeforeCount(g - 1, total);
      HalvesIff(g - 1, total);
    }
  }

  /**
    Over range(total) the rate is halved at most once: exactly once when total is even and
    positive, never when it is odd.  With ten generations it happens once, at generation 5.
  */
  lemma HalvedAtMostOnce(total: nat)
    ensures HalvingsBefore(total, total) == if total > 0 && total % 2 == 0 then 1 else 0
    ensures HalvingsBefore(TotalGenerations, TotalGenerations) == 1 && Halves(5, TotalGenerations)
  {
    HalvingsBeforeCount(total, total);
    HalvingsBeforeCount(TotalGenerations, TotalGenerations);
  }
}
