/**
 * Multiway equity (`equity/multiway.rs`): two to nine players share one
 * board. Each showdown ranks every player's hand; the players holding the
 * top ranking are the winners. A sole winner is credited a win, several
 * winners record a tie. The exact path scores one complete board; the
 * Monte Carlo paths tally the winner lists of many drawn boards and turn the
 * tallies into equities.
 */
module Multiway {
  import opened Wrappers
  import opened Cards
  import opened CardSets
  import opened Hands
  import opened HandRank
  import opened Equity
  import opened Fractions

  /** The two fatal preconditions of the source, as values. */
  datatype MultiwayError = InvalidPlayerCount | InvalidBoardSize

  /** `(2..=9).contains(&num_players)`. */
  predicate ValidPlayerCount(n: nat)
  {
    2 <= n <= 9
  }

  /**
   * `MultiPlayerEquityResult`. The equities are `None` when the source
   * divides by zero trials.
   */
  datatype MultiPlayerEquityResult = MultiPlayerEquityResult(playerEquities: Option<seq<real>>, wins: seq<nat>, ties: nat, simulations: nat)

  // ---------------------------------------------------------------- sums

  function Total(xs: seq<real>): real
  {
    if xs == [] then 0.0 else Total(xs[..|xs| - 1]) + xs[|xs| - 1]
  }

  function TotalNat(xs: seq<nat>): nat
  {
    if xs == [] then 0 else TotalNat(xs[..|xs| - 1]) + xs[|xs| - 1]
  }

  // ----------------------------------------------------------- dead cards

  /** Every player's two hole cards, in seat order. */
  function HoleCardList(holes: seq<HoleCards>): (cards: seq<Card>)
    ensures |cards| == 2 * |holes|
    ensures forall c :: c in cards <==> exists h | h in holes :: c == h.high || c == h.low
  {
    if holes == [] then []
    else
      var init := holes[..|holes| - 1];
      var h := holes[|holes| - 1];
      assert holes == init + [h];
      HoleCardList(init) + [h.high, h.low]
  }

  /** `build_dead_cards`: every hole card and every board card. */
  function MultiwayDead(holes: seq<HoleCards>, board: seq<Card>): (dead: CardSet)
    ensures forall c :: Contains(dead, c) <==> (exists h | h in holes :: c == h.high || c == h.low) || c in board
    ensures WellFormed(dead)
  {
    FromCards(HoleCardList(holes) + board)
  }

  /** The deck the Monte Carlo paths shuffle: the cards no player holds and the board lacks. */
  function MultiwayDeck(holes: seq<HoleCards>, board: seq<Card>): (deck: seq<Card>)
    ensures |deck| <= 52
  {
    Available(MultiwayDead(holes, board))
  }

  /** The deck holds exactly the live cards, each once. */
  lemma MultiwayDeckMembers(holes: seq<HoleCards>, board: seq<Card>, c: Card)
    ensures c in MultiwayDeck(holes, board) <==> (forall h | h in holes :: c != h.high && c != h.low) && c !in board
    ensures DistinctCards(MultiwayDeck(holes, board))
  {
    AvailableMembers(MultiwayDead(holes, board));
  }

  // ------------------------------------------------------------- showdown

  /** Each player's ranking on the board, in seat order. */
  function Rankings(judge: Judge, holes: seq<HoleCards>, board: seq<Card>): (rs: seq<HandRanking>)
    ensures |rs| == |holes|
    ensures forall i | 0 <= i < |holes| :: rs[i] == judge(BuildHand(holes[i], board))
  {
    seq(|holes|, i requires 0 <= i < |holes| => judge(BuildHand(holes[i], board)))
  }

  /** `rankings.iter().max()`: the top score. */
  function Best(rs: seq<HandRanking>): (b: nat)
    requires |rs| > 0
    ensures forall i | 0 <= i < |rs| :: rs[i].score <= b
    ensures exists i | 0 <= i < |rs| :: rs[i].score == b
  {
    if |rs| == 1 then rs[0].score
    else
      var b := Best(rs[..|rs| - 1]);
      var last := rs[|rs| - 1].score;
      assert forall i | 0 <= i < |rs| - 1 :: rs[i] == rs[..|rs| - 1][i];
      if last > b then last else b
  }

  /** The seats among the first `k` whose score is `best`, in increasing order. */
  function WinnersUpTo(rs: seq<HandRanking>, best: nat, k: nat): (w: seq<nat>)
    requires k <= |rs|
    ensures forall a | 0 <= a < |w| :: w[a] < k
    ensures forall a, b | 0 <= a < b < |w| :: w[a] < w[b]
  {
    if k == 0 then []
    else WinnersUpTo(rs, best, k - 1) + (if rs[k - 1].score == best then [k - 1] else [])
  }

  lemma {:induction false} WinnersUpToMembers(rs: seq<HandRanking>, best: nat, k: nat)
    requires k <= |rs|
    ensures forall i: nat :: i in WinnersUpTo(rs, best, k) <==> i < k && rs[i].score == best
  {
    if k > 0 {
      WinnersUpToMembers(rs, best, k - 1);
    }
  }

  /** The `filter_map` over the rankings: the seats holding the top score. */
  function Winners(rs: seq<HandRanking>): (w: seq<nat>)
    requires |rs| > 0
  {
    WinnersUpTo(rs, Best(rs), |rs|)
  }

  /** A seat wins exactly when no seat outranks it; there is always a winner; seats are listed once, in order. */
  lemma WinnersMembers(rs: seq<HandRanking>)
    requires |rs| > 0
    ensures forall i: nat :: i in Winners(rs) <==> i < |rs| && forall j | 0 <= j < |rs| :: !Less(rs[i], rs[j])
    ensures |Winners(rs)| > 0
    ensures forall a, b | 0 <= a < b < |Winners(rs)| :: Winners(rs)[a] < Winners(rs)[b]
  {
    WinnersUpToMembers(rs, Best(rs), |rs|);
    var i :| 0 <= i < |rs| && rs[i].score == Best(rs);
    assert i in Winners(rs);
  }

  // ---------------------------------------------------------------- exact

  /** The win counters of one showdown: one win for a sole winner, none otherwise. */
  function ExactWins(w: seq<nat>, n: nat): (wins: seq<nat>)
    ensures |wins| == n
  {
    seq(n, i requires 0 <= i < n => if |w| == 1 && i == w[0] then 1 else 0)
  }

  /** The equities of one showdown: 1 for a win, an equal share for each tied winner, 0 otherwise. */
  function ExactEquities(w: seq<nat>, wins: seq<nat>): (e: seq<real>)
    requires |w| > 0
    ensures |e| == |wins|
  {
    seq(|wins|, i requires 0 <= i < |wins| => if wins[i] > 0 then 1.0 else if i in w then 1.0 / |w| as real else 0.0)
  }

  /** Seats `0 <= w[a] < n`, listed once each in increasing order. */
  predicate SeatList(w: seq<nat>, n: nat)
  {
    (forall a | 0 <= a < |w| :: w[a] < n) && (forall a, b | 0 <= a < b < |w| :: w[a] < w[b])
  }

  /** The result of one showdown among `n` seats won by the seats `w`. */
  function ExactResult(w: seq<nat>, n: nat): (r: MultiPlayerEquityResult)
    requires |w| > 0
    ensures r.playerEquities.Some? && |r.playerEquities.value| == n && |r.wins| == n
    ensures r.simulations == 1 && r.ties <= 1
  {
    var wins := ExactWins(w, n);
    MultiPlayerEquityResult(Some(ExactEquities(w, wins)), wins, if |w| > 1 then 1 else 0, 1)
  }

  /** `calculate_exact`: one showdown on a complete board. */
  function MultiwayExact(judge: Judge, holes: seq<HoleCards>, board: seq<Card>): (r: Result<MultiPlayerEquityResult, MultiwayError>)
    ensures !ValidPlayerCount(|holes|) ==> r == Err(InvalidPlayerCount)
    ensures ValidPlayerCount(|holes|) && |board| != 5 ==> r == Err(InvalidBoardSize)
    ensures r.Ok? ==> ValidPlayerCount(|holes|) && |board| == 5
    ensures r.Ok? ==> r.value.playerEquities.Some? && |r.value.playerEquities.value| == |holes| && |r.value.wins| == |holes|
    ensures r.Ok? ==> r.value.simulations == 1 && r.value.ties <= 1
  {
    if !ValidPlayerCount(|holes|) then Err(InvalidPlayerCount)
    else if |board| != 5 then Err(InvalidBoardSize)
    else
      var rs := Rankings(judge, holes, board);
      WinnersMembers(rs);
      Ok(ExactResult(Winners(rs), |holes|))
  }

  /** Each seat's share of one showdown: a sole winner takes all, tied winners split evenly, the others get nothing. */
  lemma ExactShares(w: seq<nat>, n: nat, i: nat)
    requires |w| > 0 && SeatList(w, n) && i < n
    ensures var r := ExactResult(w, n);
      (r.ties == 1 <==> |w| > 1) &&
      r.wins[i] == (if w == [i] then 1 else 0) &&
      r.playerEquities.value[i] == (if i in w then 1.0 / |w| as real else 0.0)
  {
    if |w| == 1 {
      assert w == [w[0]];
    }
  }

  /** `x` for every seat in `w`, `0` for the others. */
  function Indicator(w: seq<nat>, n: nat, x: real): (e: seq<real>)
    ensures |e| == n
  {
    seq(n, i requires 0 <= i < n => if i in w then x else 0.0)
  }

  /** Adding `x` for every seat of `w` adds `x` once per seat. */
  lemma {:induction false} IndicatorTotal(w: seq<nat>, n: nat, x: real)
    requires SeatList(w, n)
    ensures Total(Indicator(w, n, x)) == |w| as real * x
    decreases n, 1
  {
    if n == 0 {
      SeatListLength(w, n);
    } else if n - 1 in w {
      IndicatorTotalWon(w, n, x);
    } else {
      IndicatorTotalLost(w, n, x);
    }
  }

  /** The inductive step when the last seat is among the winners. */
  lemma {:induction false} IndicatorTotalWon(w: seq<nat>, n: nat, x: real)
    requires SeatList(w, n) && n > 0 && n - 1 in w
    ensures Total(Indicator(w, n, x)) == |w| as real * x
    decreases n, 0
  {
    IndicatorLastSeat(w, n, x);
    IndicatorTotal(w[..|w| - 1], n - 1, x);
    TotalAddsLast(Indicator(w, n, x), w, x);
  }

  /** The inductive step when the last seat is not among the winners. */
  lemma {:induction false} IndicatorTotalLost(w: seq<nat>, n: nat, x: real)
    requires SeatList(w, n) && n > 0 && n - 1 !in w
    ensures Total(Indicator(w, n, x)) == |w| as real * x
    decreases n, 0
  {
    IndicatorOtherSeat(w, n, x);
    IndicatorTotal(w, n - 1, x);
    TotalZeroLast(Indicator(w, n, x));
  }

  /** A last entry of `x` on top of one copy per seat but the last of `w` makes one copy per seat of `w`. */
  lemma TotalAddsLast(e: seq<real>, w: seq<nat>, x: real)
    requires |e| > 0 && e[|e| - 1] == x && |w| > 0
    requires Total(e[..|e| - 1]) == |w[..|w| - 1]| as real * x
    ensures Total(e) == |w| as real * x
  {
    MulSucc((|w| - 1) as real, x);
  }

  /** A last entry of zero adds nothing. */
  lemma TotalZeroLast(e: seq<real>)
    requires |e| > 0 && e[|e| - 1] == 0.0
    ensures Total(e) == Total(e[..|e| - 1])
  {
  }

  /** A seat list names at most `n` seats. */
  lemma {:induction false} SeatListLength(w: seq<nat>, n: nat)
    requires SeatList(w, n)
    ensures |w| <= n
  {
    if |w| > 0 {
      var last := |w| - 1;
      SeatListLength(w[..last], w[last]);
    }
  }

  /** When the last seat won, it is the last of `w`, and the other seats' indicator is that of the rest of `w`. */
  lemma IndicatorLastSeat(w: seq<nat>, n: nat, x: real)
    requires SeatList(w, n) && n > 0 && n - 1 in w
    ensures |w| > 0 && SeatList(w[..|w| - 1], n - 1)
    ensures Indicator(w, n, x)[..n - 1] == Indicator(w[..|w| - 1], n - 1, x)
    ensures Indicator(w, n, x)[n - 1] == x
  {
    var last := |w| - 1;
    assert w[last] == n - 1 by {
      var a :| 0 <= a < |w| && w[a] == n - 1;
      assert w[a] <= w[last];
    }
    var v := w[..last];
    forall a | 0 <= a < |v|
      ensures v[a] < n - 1
    {
      assert w[a] < w[last];
    }
    forall i | 0 <= i < n - 1
      ensures i in w <==> i in v
    {
      if i in w {
        var a :| 0 <= a < |w| && w[a] == i;
        assert a != last;
        assert v[a] == i;
      }
    }
  }

  /** When the last seat did not win, the other seats' indicator is unchanged. */
  lemma IndicatorOtherSeat(w: seq<nat>, n: nat, x: real)
    requires SeatList(w, n) && n > 0 && n - 1 !in w
    ensures SeatList(w, n - 1)
    ensures Indicator(w, n, x)[..n - 1] == Indicator(w, n - 1, x)
    ensures Indicator(w, n, x)[n - 1] == 0.0
  {
    forall a | 0 <= a < |w|
      ensures w[a] < n - 1
    {
      assert w[a] in w;
    }
  }

  /** The equities of one showdown add up to one. */
  lemma ExactSum(w: seq<nat>, n: nat)
    requires |w| > 0 && SeatList(w, n)
    ensures Total(ExactResult(w, n).playerEquities.value) == 1.0
  {
    var x := 1.0 / |w| as real;
    forall i | 0 <= i < n
      ensures ExactResult(w, n).playerEquities.value[i] == Indicator(w, n, x)[i]
    {
      ExactShares(w, n, i);
    }
    assert ExactResult(w, n).playerEquities.value == Indicator(w, n, x);
    IndicatorTotal(w, n, x);
    MulDiv(1.0, |w| as real);
  }

  /** `calculate_exact` in the players' terms: shares by seat, and they add up to one. */
  lemma MultiwayExactShares(judge: Judge, holes: seq<HoleCards>, board: seq<Card>, i: nat)
    requires ValidPlayerCount(|holes|) && |board| == 5 && i < |holes|
    ensures var r := MultiwayExact(judge, holes, board).value;
      var w := Winners(Rankings(judge, holes, board));
      (r.ties == 1 <==> |w| > 1) &&
      r.wins[i] == (if w == [i] then 1 else 0) &&
      r.playerEquities.value[i] == (if i in w then 1.0 / |w| as real else 0.0) &&
      Total(r.playerEquities.value) == 1.0
  {
    var rs := Rankings(judge, holes, board);
    WinnersMembers(rs);
    ExactShares(Winners(rs), |rs|, i);
    ExactSum(Winners(rs), |rs|);
  }

  // ---------------------------------------------------------- aggregation

  /** `n` zero counters. */
  function Zeros(n: nat): (z: seq<nat>)
    ensures |z| == n && TotalNat(z) == 0
    ensures forall i | 0 <= i < n :: z[i] == 0
  {
    if n == 0 then []
    else
      var z := Zeros(n - 1) + [0];
      assert z[..n - 1] == Zeros(n - 1);
      z
  }

  /** Raising one counter by one raises the total by one. */
  lemma {:induction false} TotalNatBump(xs: seq<nat>, j: nat)
    requires j < |xs|
    ensures TotalNat(xs[j := xs[j] + 1]) == TotalNat(xs) + 1
  {
    var ys := xs[j := xs[j] + 1];
    var m := |xs| - 1;
    if j == m {
      assert ys[..m] == xs[..m];
    } else {
      TotalNatBump(xs[..m], j);
      assert ys[..m] == xs[..m][j := xs[j] + 1];
    }
  }

  /** The Monte Carlo counters: sole wins per seat, and trials with several winners. */
  datatype Counts = Counts(wins: seq<nat>, ties: nat)

  /** Every sole winner named in `results` is one of `n` seats. */
  predicate Seated(results: seq<seq<nat>>, n: nat)
  {
    forall k | 0 <= k < |results| :: |results[k]| == 1 ==> results[k][0] < n
  }

  /** One trial credited: a sole winner gains a win, any other winner list records a tie. */
  function Credit(c: Counts, w: seq<nat>): (r: Counts)
    requires |w| == 1 ==> w[0] < |c.wins|
    ensures |r.wins| == |c.wins|
    ensures TotalNat(r.wins) + r.ties == TotalNat(c.wins) + c.ties + 1
  {
    if |w| == 1 then
      TotalNatBump(c.wins, w[0]);
      Counts(c.wins[w[0] := c.wins[w[0]] + 1], c.ties)
    else Counts(c.wins, c.ties + 1)
  }

  /** The counters after the first `k` trials. */
  function AggregateUpTo(results: seq<seq<nat>>, n: nat, k: nat): (c: Counts)
    requires k <= |results| && Seated(results, n)
    ensures |c.wins| == n && TotalNat(c.wins) + c.ties == k
  {
    if k == 0 then Counts(Zeros(n), 0)
    else Credit(AggregateUpTo(results, n, k - 1), results[k - 1])
  }

  /** The counting loop of `aggregate_results`: every trial lands in exactly one counter. */
  function Aggregate(results: seq<seq<nat>>, n: nat): (c: Counts)
    requires Seated(results, n)
    ensures |c.wins| == n && TotalNat(c.wins) + c.ties == |results|
  {
    AggregateUpTo(results, n, |results|)
  }

  /** The number of the first `k` trials that seat `i` won alone. */
  function SoleWins(results: seq<seq<nat>>, i: nat, k: nat): nat
    requires k <= |results|
  {
    if k == 0 then 0 else SoleWins(results, i, k - 1) + (if results[k - 1] == [i] then 1 else 0)
  }

  /** The number of the first `k` trials without a sole winner. */
  function TieCount(results: seq<seq<nat>>, k: nat): nat
    requires k <= |results|
  {
    if k == 0 then 0 else TieCount(results, k - 1) + (if |results[k - 1]| != 1 then 1 else 0)
  }

  /** Seat `i`'s counter is its number of sole wins; the tie counter is the number of shared trials. */
  lemma {:induction false} AggregateCounts(results: seq<seq<nat>>, n: nat, k: nat, i: nat)
    requires k <= |results| && Seated(results, n) && i < n
    ensures AggregateUpTo(results, n, k).wins[i] == SoleWins(results, i, k)
    ensures AggregateUpTo(results, n, k).ties == TieCount(results, k)
  {
    if k > 0 {
      AggregateCounts(results, n, k - 1, i);
      var w := results[k - 1];
      if |w| == 1 {
        assert w == [w[0]];
      }
    }
  }

  // --------------------------------------------------------- build_result

  /** Each player's cut of the ties as the source spreads them: over all players. */
  function TieShare(ties: nat, n: nat, iterations: nat): real
    requires n > 0 && iterations > 0
  {
    if ties > 0 then ties as real / iterations as real / n as real else 0.0
  }

  /**
   * `build_result`, with `num_players` the number of counters. With no
   * trials the source divides zero by zero; the equities are then `None`.
   */
  function BuildResult(c: Counts, iterations: nat): (r: MultiPlayerEquityResult)
    requires |c.wins| > 0
    ensures r.wins == c.wins && r.ties == c.ties && r.simulations == iterations
    ensures r.playerEquities.None? <==> iterations == 0
    ensures r.playerEquities.Some? ==> |r.playerEquities.value| == |c.wins|
  {
    var n := |c.wins|;
    var equities :=
      if iterations == 0 then None
      else Some(seq(n, i requires 0 <= i < n => c.wins[i] as real / iterations as real + TieShare(c.ties, n, iterations)));
    MultiPlayerEquityResult(equities, c.wins, c.ties, iterations)
  }

  /** A sum of `k` terms `wins[i] / d + s`. */
  lemma {:induction false} TotalShares(e: seq<real>, wins: seq<nat>, d: real, s: real, k: nat)
    requires |e| == |wins| && k <= |e| && d > 0.0
    requires forall i | 0 <= i < |e| :: e[i] == wins[i] as real / d + s
    ensures Total(e[..k]) == TotalNat(wins[..k]) as real / d + k as real * s
  {
    if k > 0 {
      TotalShares(e, wins, d, s, k - 1);
      assert e[..k][..k - 1] == e[..k - 1];
      assert wins[..k][..k - 1] == wins[..k - 1];
      DivAdd(TotalNat(wins[..k - 1]) as real, wins[k - 1] as real, d);
    }
  }

  /** When every trial is counted once, the equities `build_result` reports add up to one. */
  lemma BuildResultSum(c: Counts, iterations: nat)
    requires |c.wins| > 0 && iterations > 0 && TotalNat(c.wins) + c.ties == iterations
    ensures Total(BuildResult(c, iterations).playerEquities.value) == 1.0
  {
    var n := |c.wins|;
    var e := BuildResult(c, iterations).playerEquities.value;
    var d := iterations as real;
    var s := TieShare(c.ties, n, iterations);
    TotalShares(e, c.wins, d, s, n);
    assert e[..n] == e && c.wins[..n] == c.wins;
    TieShareTotal(c.ties, n, iterations);
    DivAdd(TotalNat(c.wins) as real, c.ties as real, d);
    DivSelf(d);
  }

  /** The tie share handed to each of the `n` players adds up to the tied fraction of the trials. */
  lemma TieShareTotal(ties: nat, n: nat, iterations: nat)
    requires n > 0 && iterations > 0
    ensures n as real * TieShare(ties, n, iterations) == ties as real / iterations as real
  {
    if ties > 0 {
      MulDiv(ties as real / iterations as real, n as real);
    }
  }

  // ---------------------------------------------------------- Monte Carlo

  /** The winner list of every trial: trial `k` completes the board with `draws[k]`. */
  function TrialWinners(judge: Judge, holes: seq<HoleCards>, board: seq<Card>, draws: seq<seq<Card>>): (results: seq<seq<nat>>)
    requires |holes| > 0
    ensures |results| == |draws| && Seated(results, |holes|)
    ensures forall k | 0 <= k < |draws| :: results[k] == Winners(Rankings(judge, holes, board + draws[k]))
  {
    seq(|draws|, k requires 0 <= k < |draws| => Winners(Rankings(judge, holes, board + draws[k])))
  }

  /**
   * `calculate_parallel`, with the shuffles abstracted: `draws[k]` is the
   * prefix of the shuffled deck that completes the board in trial `k`.
   */
  function MultiwayMonteCarlo(judge: Judge, holes: seq<HoleCards>, board: seq<Card>, draws: seq<seq<Card>>): (r: Result<MultiPlayerEquityResult, MultiwayError>)
    ensures r.Err? <==> !ValidPlayerCount(|holes|)
    ensures r.Err? ==> r.error == InvalidPlayerCount
    ensures r.Ok? ==> |r.value.wins| == |holes| && r.value.simulations == |draws|
    ensures r.Ok? ==> TotalNat(r.value.wins) + r.value.ties == |draws|
    ensures r.Ok? ==> (r.value.playerEquities.None? <==> |draws| == 0)
    ensures r.Ok? && r.value.playerEquities.Some? ==> |r.value.playerEquities.value| == |holes|
  {
    if !ValidPlayerCount(|holes|) then Err(InvalidPlayerCount)
    else Ok(BuildResult(Aggregate(TrialWinners(judge, holes, board, draws), |holes|), |draws|))
  }

  /** With at least one trial the Monte Carlo equities add up to one. */
  lemma MultiwayMonteCarloSum(judge: Judge, holes: seq<HoleCards>, board: seq<Card>, draws: seq<seq<Card>>)
    requires ValidPlayerCount(|holes|) && |draws| > 0
    ensures Total(MultiwayMonteCarlo(judge, holes, board, draws).value.playerEquities.value) == 1.0
  {
    BuildResultSum(Aggregate(TrialWinners(judge, holes, board, draws), |holes|), |draws|);
  }

  /**
   * Each seat's counters and equity in the trials' terms: its sole wins, the
   * shared trials, and the tie share every seat receives.
   */
  lemma MultiwayMonteCarloShares(judge: Judge, holes: seq<HoleCards>, board: seq<Card>, draws: seq<seq<Card>>, i: nat)
    requires ValidPlayerCount(|holes|) && |draws| > 0 && i < |holes|
    ensures var r := MultiwayMonteCarlo(judge, holes, board, draws).value;
      var results := TrialWinners(judge, holes, board, draws);
      r.wins[i] == SoleWins(results, i, |draws|) &&
      r.ties == TieCount(results, |draws|) &&
      r.playerEquities.value[i] == r.wins[i] as real / |draws| as real + TieShare(r.ties, |holes|, |draws|)
  {
    AggregateCounts(TrialWinners(judge, holes, board, draws), |holes|, |draws|, i);
  }

  /** Every trial has a winner. */
  lemma TrialsDecided(judge: Judge, holes: seq<HoleCards>, board: seq<Card>, draws: seq<seq<Card>>)
    requires |holes| > 0
    ensures Decided(TrialWinners(judge, holes, board, draws), |holes|)
  {
    var results := TrialWinners(judge, holes, board, draws);
    forall k | 0 <= k < |draws|
      ensures |results[k]| > 0 && SeatList(results[k], |holes|)
    {
      WinnersMembers(Rankings(judge, holes, board + draws[k]));
    }
  }

  // ----------------------------------------------------------- sequential

  /** The winner scan: the top score first, then the seats holding it. */
  method FindWinners(rs: seq<HandRanking>) returns (w: seq<nat>)
    requires |rs| > 0
    ensures w == Winners(rs)
  {
    var best := rs[0].score;
    var i := 1;
    while i < |rs|
      invariant 1 <= i <= |rs|
      invariant best == Best(rs[..i])
    {
      assert rs[..i + 1][..i] == rs[..i];
      if rs[i].score > best {
        best := rs[i].score;
      }
      i := i + 1;
    }
    assert rs[..|rs|] == rs;
    w := [];
    var k := 0;
    while k < |rs|
      invariant k <= |rs|
      invariant w == WinnersUpTo(rs, best, k)
    {
      if rs[k].score == best {
        w := w + [k];
      }
      k := k + 1;
    }
  }

  /** One trial of the sequential loop: bump the sole winner's counter, or the tie counter. */
  method CreditTrial(wins: seq<nat>, ties: nat, w: seq<nat>) returns (wins': seq<nat>, ties': nat)
    requires |w| == 1 ==> w[0] < |wins|
    ensures Counts(wins', ties') == Credit(Counts(wins, ties), w)
  {
    if |w| == 1 {
      wins', ties' := wins[w[0] := wins[w[0]] + 1], ties;
    } else {
      wins', ties' := wins, ties + 1;
    }
  }

  /** `calculate_sequential`: the same counters, kept in one loop over the trials. */
  method MultiwaySequential(judge: Judge, holes: seq<HoleCards>, board: seq<Card>, draws: seq<seq<Card>>) returns (r: Result<MultiPlayerEquityResult, MultiwayError>)
    ensures r == MultiwayMonteCarlo(judge, holes, board, draws)
  {
    if !ValidPlayerCount(|holes|) {
      return Err(InvalidPlayerCount);
    }
    var n := |holes|;
    var wins := Zeros(n);
    var ties := 0;
    var t := 0;
    while t < |draws|
      invariant t <= |draws|
      invariant Counts(wins, ties) == AggregateUpTo(TrialWinners(judge, holes, board, draws), n, t)
    {
      wins, ties := SequentialTrial(judge, holes, board, draws, t, wins, ties);
      t := t + 1;
    }
    r := Ok(BuildResult(Counts(wins, ties), |draws|));
  }

  /** One pass of the sequential loop: rank the seats on trial `t`'s board and credit its winners. */
  method SequentialTrial(judge: Judge, holes: seq<HoleCards>, board: seq<Card>, draws: seq<seq<Card>>, t: nat, wins: seq<nat>, ties: nat)
    returns (wins': seq<nat>, ties': nat)
    requires |holes| > 0 && t < |draws|
    requires Counts(wins, ties) == AggregateUpTo(TrialWinners(judge, holes, board, draws), |holes|, t)
    ensures Counts(wins', ties') == AggregateUpTo(TrialWinners(judge, holes, board, draws), |holes|, t + 1)
  {
    var w := FindWinners(Rankings(judge, holes, board + draws[t]));
    ghost var results := TrialWinners(judge, holes, board, draws);
    assert w == results[t];
    wins', ties' := CreditTrial(wins, ties, w);
  }

  // ----------------------------------------------------- fair tie shares

  /** Every trial has a winner, and its winners are seats among `n`. */
  predicate Decided(results: seq<seq<nat>>, n: nat)
  {
    forall t | 0 <= t < |results| :: |results[t]| > 0 && SeatList(results[t], n)
  }

  /** Seat-by-seat sum. */
  function Plus(a: seq<real>, b: seq<real>): (c: seq<real>)
    requires |a| == |b|
    ensures |c| == |a|
  {
    seq(|a|, i requires 0 <= i < |a| => a[i] + b[i])
  }

  lemma {:induction false} TotalPlus(a: seq<real>, b: seq<real>, k: nat)
    requires |a| == |b| && k <= |a|
    ensures Total(Plus(a, b)[..k]) == Total(a[..k]) + Total(b[..k])
  {
    if k > 0 {
      TotalPlus(a, b, k - 1);
      assert Plus(a, b)[..k][..k - 1] == Plus(a, b)[..k - 1];
      assert a[..k][..k - 1] == a[..k - 1];
      assert b[..k][..k - 1] == b[..k - 1];
    }
  }

  /** A sum of `k` terms `a[i] / d`. */
  lemma {:induction false} TotalScaled(e: seq<real>, a: seq<real>, d: real, k: nat)
    requires |e| == |a| && k <= |e| && d > 0.0
    requires forall i | 0 <= i < |e| :: e[i] == a[i] / d
    ensures Total(e[..k]) == Total(a[..k]) / d
  {
    if k > 0 {
      TotalScaled(e, a, d, k - 1);
      assert e[..k][..k - 1] == e[..k - 1];
      assert a[..k][..k - 1] == a[..k - 1];
      DivAdd(Total(a[..k - 1]), a[k - 1], d);
    }
  }

  /** One trial's equity, split evenly among its winners. */
  function Split(w: seq<nat>, n: nat): (e: seq<real>)
    requires |w| > 0 && SeatList(w, n)
    ensures |e| == n && Total(e) == 1.0
  {
    IndicatorTotal(w, n, 1.0 / |w| as real);
    MulDiv(1.0, |w| as real);
    Indicator(w, n, 1.0 / |w| as real)
  }

  /** The split equities of the first `k` trials, summed seat by seat; together they make `k`. */
  function FairSharesUpTo(results: seq<seq<nat>>, n: nat, k: nat): (acc: seq<real>)
    requires k <= |results| && Decided(results, n)
    ensures |acc| == n && Total(acc) == k as real
  {
    if k == 0 then
      IndicatorTotal([], n, 0.0);
      Indicator([], n, 0.0)
    else
      var prev := FairSharesUpTo(results, n, k - 1);
      var split := Split(results[k - 1], n);
      TotalPlus(prev, split, n);
      assert Plus(prev, split)[..n] == Plus(prev, split) && prev[..n] == prev && split[..n] == split;
      Plus(prev, split)
  }

  /**
   * The corrected `build_result`: a tied trial's equity goes to the tied
   * seats only, in equal parts, as in the exact path and the heads-up
   * engine. The counters are those of `aggregate_results`.
   */
  function FairResult(results: seq<seq<nat>>, n: nat): (r: MultiPlayerEquityResult)
    requires n > 0 && Decided(results, n)
    ensures r.wins == Aggregate(results, n).wins && r.ties == Aggregate(results, n).ties && r.simulations == |results|
    ensures r.playerEquities.None? <==> |results| == 0
    ensures r.playerEquities.Some? ==> |r.playerEquities.value| == n && Total(r.playerEquities.value) == 1.0
  {
    var c := Aggregate(results, n);
    var acc := FairSharesUpTo(results, n, |results|);
    if |results| == 0 then MultiPlayerEquityResult(None, c.wins, c.ties, 0)
    else
      var d := |results| as real;
      var e := seq(n, i requires 0 <= i < n => acc[i] / d);
      TotalScaled(e, acc, d, n);
      assert e[..n] == e && acc[..n] == acc;
      DivSelf(d);
      MultiPlayerEquityResult(Some(e), c.wins, c.ties, |results|)
  }

  /** The corrected Monte Carlo path. */
  function FairMonteCarlo(judge: Judge, holes: seq<HoleCards>, board: seq<Card>, draws: seq<seq<Card>>): (r: Result<MultiPlayerEquityResult, MultiwayError>)
    ensures r.Err? <==> !ValidPlayerCount(|holes|)
    ensures r.Err? ==> r.error == InvalidPlayerCount
    ensures r.Ok? ==> r.value.simulations == |draws| && (r.value.playerEquities.None? <==> |draws| == 0)
    ensures r.Ok? && |draws| > 0 ==> Total(r.value.playerEquities.value) == 1.0
  {
    if !ValidPlayerCount(|holes|) then Err(InvalidPlayerCount)
    else
      TrialsDecided(judge, holes, board, draws);
      Ok(FairResult(TrialWinners(judge, holes, board, draws), |holes|))
  }

  /** A single trial of the corrected path is the exact result of its board. */
  lemma FairSingleTrial(w: seq<nat>, n: nat)
    requires n > 0 && |w| > 0 && SeatList(w, n)
    ensures FairResult([w], n) == ExactResult(w, n)
  {
    var r := FairResult([w], n);
    var x := ExactResult(w, n);
    var acc := FairSharesUpTo([w], n, 1);
    forall i | 0 <= i < n
      ensures r.wins[i] == x.wins[i] && r.playerEquities.value[i] == x.playerEquities.value[i]
    {
      assert FairSharesUpTo([w], n, 0)[i] == 0.0;
      assert acc[i] == Split(w, n)[i];
      AggregateCounts([w], n, 1, i);
      ExactShares(w, n, i);
    }
    assert r.wins == x.wins;
    assert r.playerEquities.value == x.playerEquities.value;
    AggregateCounts([w], n, 1, 0);
  }

  /** Under the corrected path, a seat that never shares a win gets no equity. */
  lemma {:induction false} FairBystander(results: seq<seq<nat>>, n: nat, i: nat, k: nat)
    requires n > 0 && Decided(results, n) && i < n && k <= |results|
    requires forall t | 0 <= t < |results| :: i !in results[t]
    ensures FairSharesUpTo(results, n, k)[i] == 0.0
  {
    if k > 0 {
      FairBystander(results, n, i, k - 1);
    }
  }

  /** As written, one tied trial gives every seat a positive equity, bystanders included. */
  lemma TieShareReachesBystander(results: seq<seq<nat>>, n: nat, i: nat)
    requires n > 0 && Seated(results, n) && i < n && |results| > 0
    requires TieCount(results, |results|) > 0
    ensures BuildResult(Aggregate(results, n), |results|).playerEquities.value[i] > 0.0
  {
    AggregateCounts(results, n, |results|, i);
    var c := Aggregate(results, n);
    var d := |results| as real;
    assert BuildResult(c, |results|).playerEquities.value[i] == c.wins[i] as real / d + TieShare(c.ties, n, |results|);
    PositiveDiv(c.ties as real, d);
    PositiveDiv(c.ties as real / d, n as real);
    NonNegativeDiv(c.wins[i] as real, d);
  }

  /** The corrected path keeps the source's win and tie counters. */
  lemma FairCounters(judge: Judge, holes: seq<HoleCards>, board: seq<Card>, draws: seq<seq<Card>>)
    requires ValidPlayerCount(|holes|)
    ensures FairMonteCarlo(judge, holes, board, draws).value.wins == MultiwayMonteCarlo(judge, holes, board, draws).value.wins
    ensures FairMonteCarlo(judge, holes, board, draws).value.ties == MultiwayMonteCarlo(judge, holes, board, draws).value.ties
  {
  }

  /**
   * Three seats, one trial, seats 0 and 1 tie: as written every seat is
   * credited a third, while the showdown itself gives seat 2 nothing.
   */
  lemma TieShareWitness()
    ensures BuildResult(Aggregate([[0, 1]], 3), 1).playerEquities == Some([1.0 / 3.0, 1.0 / 3.0, 1.0 / 3.0])
    ensures ExactResult([0, 1], 3).playerEquities == Some([0.5, 0.5, 0.0])
    ensures FairResult([[0, 1]], 3).playerEquities == Some([0.5, 0.5, 0.0])
  {
    var w := [0, 1];
    assert SeatList(w, 3);
    AsWrittenThirds(w);
    var e := ExactResult(w, 3).playerEquities.value;
    ExactShares(w, 3, 0);
    ExactShares(w, 3, 1);
    ExactShares(w, 3, 2);
    assert e == [0.5, 0.5, 0.0];
    FairSingleTrial(w, 3);
  }

  lemma AsWrittenThirds(w: seq<nat>)
    requires w == [0, 1]
    ensures BuildResult(Aggregate([w], 3), 1).playerEquities == Some([1.0 / 3.0, 1.0 / 3.0, 1.0 / 3.0])
  {
    var c := Aggregate([w], 3);
    AggregateCounts([w], 3, 1, 0);
    AggregateCounts([w], 3, 1, 1);
    AggregateCounts([w], 3, 1, 2);
    assert c.wins == [0, 0, 0] && c.ties == 1;
    var e := BuildResult(c, 1).playerEquities.value;
    assert TieShare(1, 3, 1) == 1.0 / 3.0;
    assert e[0] == 1.0 / 3.0 && e[1] == 1.0 / 3.0 && e[2] == 1.0 / 3.0;
    assert e == [1.0 / 3.0, 1.0 / 3.0, 1.0 / 3.0];
  }
}
