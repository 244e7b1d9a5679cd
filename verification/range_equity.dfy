/**
 * Range equity (`equity/mod.rs`): a range against one hand and a range
 * against a range. Each matchup is one heads-up Monte Carlo run whose
 * shuffled completions are a parameter; the results are averaged over the
 * matchups. The sequential variant is a nested loop proved equal to the
 * flattened version.
 */
module RangeEquity {
  import opened Wrappers
  import opened Cards
  import opened CardSets
  import opened Hands
  import opened RangeCombos
  import opened RangeSets
  import opened Equity

  /** The completions drawn for one matchup: `deal(h1, h2)[i]` completes the board in trial `i`. */
  type Deal = (HoleCards, HoleCards) -> seq<seq<Card>>

  /** Every matchup runs the same number of trials. */
  ghost predicate Trials(deal: Deal, iterations: nat)
  {
    forall a: HoleCards, b: HoleCards :: |deal(a, b)| == iterations
  }

  /** `RangeEquityResult`, with the equities as exact fractions. */
  datatype RangeEquityResult = RangeEquityResult(rangeEquity: real, opponentEquity: real, tieEquity: real, combosEvaluated: nat, totalSimulations: nat)

  /** The result the source returns when there is nothing to evaluate. */
  function NoMatchups(opponentEquity: real): RangeEquityResult
  {
    RangeEquityResult(0.0, opponentEquity, 0.0, 0, 0)
  }

  // ------------------------------------------------------------ one matchup

  /** `calculate_monte_carlo` for one matchup, when it runs at least one trial. */
  function Matchup(judge: Judge, deal: Deal, board: seq<Card>, h1: HoleCards, h2: HoleCards): (e: EquityResult)
    requires |deal(h1, h2)| > 0
    ensures e.player1 + e.player2 == 1.0 && e.simulations == |deal(h1, h2)|
    ensures 0.0 <= e.player1 <= 1.0 && 0.0 <= e.player2 <= 1.0 && 0.0 <= e.tie <= 1.0
  {
    MonteCarlo(judge, h1, h2, board, deal(h1, h2)).value
  }

  // ----------------------------------------------------------- aggregation

  /** The running sums of the three equities and the number of results added. */
  datatype Sums = Sums(player1: real, player2: real, tie: real, count: nat)

  function AddResult(s: Sums, e: EquityResult): Sums
  {
    Sums(s.player1 + e.player1, s.player2 + e.player2, s.tie + e.tie, s.count + 1)
  }

  /** The sums over the first `k` matchups in order; each contributes equities summing to one. */
  function AccumulateUpTo(judge: Judge, deal: Deal, iterations: nat, board: seq<Card>, ms: seq<(HoleCards, HoleCards)>, k: nat): (s: Sums)
    requires Trials(deal, iterations) && iterations > 0 && k <= |ms|
    ensures s.count == k && s.player1 + s.player2 == k as real
    ensures 0.0 <= s.player1 <= k as real && 0.0 <= s.player2 <= k as real && 0.0 <= s.tie <= k as real
  {
    if k == 0 then Sums(0.0, 0.0, 0.0, 0)
    else AddResult(AccumulateUpTo(judge, deal, iterations, board, ms, k - 1), Matchup(judge, deal, board, ms[k - 1].0, ms[k - 1].1))
  }

  /** The sums over all the matchups. */
  function Accumulate(judge: Judge, deal: Deal, iterations: nat, board: seq<Card>, ms: seq<(HoleCards, HoleCards)>): (s: Sums)
    requires Trials(deal, iterations) && iterations > 0
    ensures s.count == |ms| && s.player1 + s.player2 == |ms| as real
    ensures 0.0 <= s.player1 <= |ms| as real && 0.0 <= s.player2 <= |ms| as real && 0.0 <= s.tie <= |ms| as real
  {
    AccumulateUpTo(judge, deal, iterations, board, ms, |ms|)
  }

  /** The sums over a prefix read only that prefix. */
  lemma AccumulatePrefix(judge: Judge, deal: Deal, iterations: nat, board: seq<Card>, ms: seq<(HoleCards, HoleCards)>, more: seq<(HoleCards, HoleCards)>, k: nat)
    requires Trials(deal, iterations) && iterations > 0 && k <= |ms|
    ensures AccumulateUpTo(judge, deal, iterations, board, ms + more, k) == AccumulateUpTo(judge, deal, iterations, board, ms, k)
  {
    AccumulateAgree(judge, deal, iterations, board, ms + more, ms, k);
  }

  /** Two matchup lists that agree on their first `k` entries have the same sums up to `k`. */
  lemma {:induction false} AccumulateAgree(judge: Judge, deal: Deal, iterations: nat, board: seq<Card>, xs: seq<(HoleCards, HoleCards)>, ys: seq<(HoleCards, HoleCards)>, k: nat)
    requires Trials(deal, iterations) && iterations > 0 && k <= |xs| && k <= |ys|
    requires forall i | 0 <= i < k :: xs[i] == ys[i]
    ensures AccumulateUpTo(judge, deal, iterations, board, xs, k) == AccumulateUpTo(judge, deal, iterations, board, ys, k)
  {
    if k > 0 {
      assert xs[k - 1] == ys[k - 1];
      AccumulateAgree(judge, deal, iterations, board, xs, ys, k - 1);
    }
  }

  /** The averages over the matchups. */
  function Average(s: Sums, iterations: nat): (r: RangeEquityResult)
    requires s.count > 0 && s.player1 + s.player2 == s.count as real
    requires 0.0 <= s.player1 && 0.0 <= s.player2 && 0.0 <= s.tie <= s.count as real
    ensures r.rangeEquity + r.opponentEquity == 1.0
    ensures 0.0 <= r.rangeEquity <= 1.0 && 0.0 <= r.opponentEquity <= 1.0 && 0.0 <= r.tieEquity <= 1.0
    ensures r.rangeEquity * s.count as real == s.player1 && r.tieEquity * s.count as real == s.tie
    ensures r.combosEvaluated == s.count && r.totalSimulations == s.count * iterations
  {
    var n := s.count as real;
    var r := RangeEquityResult(s.player1 / n, s.player2 / n, s.tie / n, s.count, s.count * iterations);
    assert r.rangeEquity + r.opponentEquity == (s.player1 + s.player2) / n;
    r
  }

  // --------------------------------------------------------- range vs hand

  /** The cards dead for the range: the opponent's hole cards and the board. */
  function VsHandDead(h2: HoleCards, board: seq<Card>): (dead: CardSet)
    ensures forall c :: Contains(dead, c) <==> c == h2.high || c == h2.low || c in board
  {
    FromCards([h2.high, h2.low] + board)
  }

  /** The range's combos that avoid the opponent's cards and the board, in key order. */
  function VsHandCombos(range: Range, h2: HoleCards, board: seq<Card>): seq<HoleCards>
  {
    ToHoleCards(range, Some(VsHandDead(h2, board)))
  }

  /**
   * `calculate_range_vs_hand`: one Monte Carlo run per live combo of the
   * range, averaged. With no trials the source divides zero by zero; that
   * result is `None`.
   */
  function RangeVsHand(judge: Judge, deal: Deal, iterations: nat, range: Range, h2: HoleCards, board: seq<Card>): (r: Option<RangeEquityResult>)
    requires Trials(deal, iterations)
    ensures r.None? <==> iterations == 0 && ComboCount(range, Some(VsHandDead(h2, board))) > 0
    ensures r.Some? ==> r.value.combosEvaluated == ComboCount(range, Some(VsHandDead(h2, board)))
    ensures r.Some? ==> r.value.totalSimulations == r.value.combosEvaluated * iterations
    ensures r.Some? ==> r.value.rangeEquity + r.value.opponentEquity == 1.0
    ensures r.Some? && r.value.combosEvaluated == 0 ==> r.value == NoMatchups(1.0)
  {
    var combos := VsHandCombos(range, h2, board);
    if |combos| == 0 then Some(NoMatchups(1.0))
    else if iterations == 0 then None
    else
      var ms := seq(|combos|, i requires 0 <= i < |combos| => (combos[i], h2));
      Some(Average(Accumulate(judge, deal, iterations, board, ms), iterations))
  }

  /** Every combo the range plays against the hand shares no card with it or with the board. */
  lemma VsHandCombosAvoid(range: Range, h2: HoleCards, board: seq<Card>, x: HoleCards)
    requires ValidRange(range)
    ensures x in VsHandCombos(range, h2, board) <==>
      (exists p | p in range.hands :: Matches(p, x)) &&
      x.high != h2.high && x.high != h2.low && x.low != h2.high && x.low != h2.low &&
      x.high !in board && x.low !in board
  {
    ToHoleCardsMembers(range, Some(VsHandDead(h2, board)), x);
  }

  /** A range holding one live combo has exactly that hand's heads-up equity. */
  lemma RangeVsHandSingle(judge: Judge, deal: Deal, iterations: nat, range: Range, h1: HoleCards, h2: HoleCards, board: seq<Card>)
    requires Trials(deal, iterations) && iterations > 0
    requires VsHandCombos(range, h2, board) == [h1]
    ensures var e := MonteCarlo(judge, h1, h2, board, deal(h1, h2)).value;
      RangeVsHand(judge, deal, iterations, range, h2, board) ==
        Some(RangeEquityResult(e.player1, e.player2, e.tie, 1, iterations))
  {
    var combos := VsHandCombos(range, h2, board);
    var ms := seq(|combos|, i requires 0 <= i < |combos| => (combos[i], h2));
    assert ms == [(h1, h2)];
    var e := Matchup(judge, deal, board, h1, h2);
    assert Accumulate(judge, deal, iterations, board, ms) == Sums(e.player1, e.player2, e.tie, 1) by {
      AccumulateOne(judge, deal, iterations, board, h1, h2);
    }
    AverageOne(e, iterations);
  }

  lemma AverageOne(e: EquityResult, iterations: nat)
    requires e.player1 + e.player2 == 1.0 && 0.0 <= e.player1 && 0.0 <= e.player2 && 0.0 <= e.tie <= 1.0
    ensures Average(Sums(e.player1, e.player2, e.tie, 1), iterations) == RangeEquityResult(e.player1, e.player2, e.tie, 1, iterations)
  {
  }

  lemma AccumulateOne(judge: Judge, deal: Deal, iterations: nat, board: seq<Card>, h1: HoleCards, h2: HoleCards)
    requires Trials(deal, iterations) && iterations > 0
    ensures var e := Matchup(judge, deal, board, h1, h2);
      Accumulate(judge, deal, iterations, board, [(h1, h2)]) == Sums(e.player1, e.player2, e.tie, 1)
  {
  }

  // -------------------------------------------------------- range vs range

  /** The two hands share no card, so they can meet at a table. */
  predicate Disjoint(h1: HoleCards, h2: HoleCards)
  {
    h1.high != h2.high && h1.high != h2.low && h1.low != h2.high && h1.low != h2.low
  }

  /** The `filter_map` over the first `j` combos of the second range for one combo of the first: its opponents, in order. */
  function Opponents(h1: HoleCards, c2: seq<HoleCards>, j: nat): seq<(HoleCards, HoleCards)>
    requires j <= |c2|
  {
    if j == 0 then []
    else Opponents(h1, c2, j - 1) + (if Disjoint(h1, c2[j - 1]) then [(h1, c2[j - 1])] else [])
  }

  /** The `flat_map` over the first `i` combos of the first range: the pairs sharing no card, first range outermost. */
  function MatchupsUpTo(c1: seq<HoleCards>, c2: seq<HoleCards>, i: nat): seq<(HoleCards, HoleCards)>
    requires i <= |c1|
  {
    if i == 0 then []
    else MatchupsUpTo(c1, c2, i - 1) + Opponents(c1[i - 1], c2, |c2|)
  }

  /** Every matchup of two combo lists, in the order the source visits them. */
  function Matchups(c1: seq<HoleCards>, c2: seq<HoleCards>): seq<(HoleCards, HoleCards)>
  {
    MatchupsUpTo(c1, c2, |c1|)
  }

  lemma {:induction false} OpponentsMembers(h1: HoleCards, c2: seq<HoleCards>, j: nat)
    requires j <= |c2|
    ensures forall m :: m in Opponents(h1, c2, j) <==> m.0 == h1 && m.1 in c2[..j] && Disjoint(h1, m.1)
  {
    if j > 0 {
      OpponentsMembers(h1, c2, j - 1);
      assert c2[..j] == c2[..j - 1] + [c2[j - 1]];
    }
  }

  lemma {:induction false} MatchupsUpToMembers(c1: seq<HoleCards>, c2: seq<HoleCards>, i: nat)
    requires i <= |c1|
    ensures forall m :: m in MatchupsUpTo(c1, c2, i) <==> m.0 in c1[..i] && m.1 in c2 && Disjoint(m.0, m.1)
  {
    if i > 0 {
      MatchupsUpToMembers(c1, c2, i - 1);
      OpponentsMembers(c1[i - 1], c2, |c2|);
      assert c1[..i] == c1[..i - 1] + [c1[i - 1]];
      assert c2[..|c2|] == c2;
    }
  }

  /** The matchups are exactly the pairs of combos, one from each list, that share no card. */
  lemma MatchupsMembers(c1: seq<HoleCards>, c2: seq<HoleCards>)
    ensures forall m :: m in Matchups(c1, c2) <==> m.0 in c1 && m.1 in c2 && Disjoint(m.0, m.1)
  {
    MatchupsUpToMembers(c1, c2, |c1|);
    assert c1[..|c1|] == c1;
  }

  lemma EmptyMatchups(c1: seq<HoleCards>, c2: seq<HoleCards>)
    requires |c1| == 0 || |c2| == 0
    ensures Matchups(c1, c2) == []
  {
    if |c2| == 0 {
      NoOpponents(c1, c2, |c1|);
    }
  }

  lemma {:induction false} NoOpponents(c1: seq<HoleCards>, c2: seq<HoleCards>, i: nat)
    requires |c2| == 0 && i <= |c1|
    ensures MatchupsUpTo(c1, c2, i) == []
  {
    if i > 0 {
      NoOpponents(c1, c2, i - 1);
    }
  }

  /** The combos of a range that avoid the board. */
  function VsBoardCombos(range: Range, board: seq<Card>): seq<HoleCards>
  {
    ToHoleCards(range, Some(FromCards(board)))
  }

  /**
   * `calculate_range_vs_range`: one Monte Carlo run per pair of combos that
   * share no card, averaged. Nothing to evaluate gives all zeros; with no
   * trials the source divides zero by zero, and that result is `None`.
   */
  function RangeVsRange(judge: Judge, deal: Deal, iterations: nat, r1: Range, r2: Range, board: seq<Card>): (r: Option<RangeEquityResult>)
    requires Trials(deal, iterations)
    ensures var ms := Matchups(VsBoardCombos(r1, board), VsBoardCombos(r2, board));
      (r.None? <==> iterations == 0 && |ms| > 0) &&
      (r.Some? ==> r.value.combosEvaluated == |ms| && r.value.totalSimulations == |ms| * iterations)
    ensures r.Some? && r.value.combosEvaluated > 0 ==> r.value.rangeEquity + r.value.opponentEquity == 1.0
    ensures r.Some? && r.value.combosEvaluated == 0 ==> r.value == NoMatchups(0.0)
  {
    var c1 := VsBoardCombos(r1, board);
    var c2 := VsBoardCombos(r2, board);
    if |c1| == 0 || |c2| == 0 then
      EmptyMatchups(c1, c2);
      Some(NoMatchups(0.0))
    else
      var ms := Matchups(c1, c2);
      if |ms| == 0 then Some(NoMatchups(0.0))
      else if iterations == 0 then None
      else Some(Average(Accumulate(judge, deal, iterations, board, ms), iterations))
  }

  /** A pair meets exactly when both combos avoid the board, each range holds its combo, and they share no card. */
  lemma RangeVsRangeMatchups(r1: Range, r2: Range, board: seq<Card>, a: HoleCards, b: HoleCards)
    requires ValidRange(r1) && ValidRange(r2)
    ensures (a, b) in Matchups(VsBoardCombos(r1, board), VsBoardCombos(r2, board)) <==>
      (exists p | p in r1.hands :: Matches(p, a)) && (exists p | p in r2.hands :: Matches(p, b)) &&
      a.high !in board && a.low !in board && b.high !in board && b.low !in board && Disjoint(a, b)
  {
    MatchupsMembers(VsBoardCombos(r1, board), VsBoardCombos(r2, board));
    ToHoleCardsMembers(r1, Some(FromCards(board)), a);
    ToHoleCardsMembers(r2, Some(FromCards(board)), b);
  }

  // ---------------------------------------------------- the sequential loop

  /** The running totals so far: the count of the matchups visited and, when trials run, their sums. */
  ghost predicate Tracks(judge: Judge, deal: Deal, iterations: nat, board: seq<Card>, done: seq<(HoleCards, HoleCards)>, total: Sums, matchups: nat)
    requires Trials(deal, iterations)
  {
    matchups == |done| && (iterations > 0 ==> total == Accumulate(judge, deal, iterations, board, done))
  }

  /** Visiting one more matchup keeps the totals in step. */
  lemma TracksStep(judge: Judge, deal: Deal, iterations: nat, board: seq<Card>, done: seq<(HoleCards, HoleCards)>, total: Sums, matchups: nat, m: (HoleCards, HoleCards))
    requires Trials(deal, iterations) && Tracks(judge, deal, iterations, board, done, total, matchups)
    ensures iterations > 0 ==> Tracks(judge, deal, iterations, board, done + [m], AddResult(total, Matchup(judge, deal, board, m.0, m.1)), matchups + 1)
    ensures iterations == 0 ==> Tracks(judge, deal, iterations, board, done + [m], total, matchups + 1)
  {
    if iterations > 0 {
      AccumulatePrefix(judge, deal, iterations, board, done, [m], |done|);
    }
  }

  /** The inner loop's body: one pair is simulated and counted when its hands share no card. */
  method Visit(judge: Judge, deal: Deal, iterations: nat, board: seq<Card>, ghost done: seq<(HoleCards, HoleCards)>,
               h1: HoleCards, h2: HoleCards, total0: Sums, matchups0: nat)
    returns (total: Sums, matchups: nat)
    requires Trials(deal, iterations) && Tracks(judge, deal, iterations, board, done, total0, matchups0)
    ensures Tracks(judge, deal, iterations, board, done + (if Disjoint(h1, h2) then [(h1, h2)] else []), total, matchups)
  {
    total, matchups := total0, matchups0;
    if Disjoint(h1, h2) {
      TracksStep(judge, deal, iterations, board, done, total, matchups, (h1, h2));
      if iterations > 0 {
        total := AddResult(total, Matchup(judge, deal, board, h1, h2));
      }
      matchups := matchups + 1;
    } else {
      assert done + [] == done;
    }
  }

  lemma OpponentsAppend(before: seq<(HoleCards, HoleCards)>, h1: HoleCards, c2: seq<HoleCards>, j: nat)
    requires j < |c2|
    ensures before + Opponents(h1, c2, j + 1) == before + Opponents(h1, c2, j) + (if Disjoint(h1, c2[j]) then [(h1, c2[j])] else [])
  {
  }

  /** The inner loop: one combo of the first range against every combo of the second. */
  method AddOpponents(judge: Judge, deal: Deal, iterations: nat, board: seq<Card>, ghost before: seq<(HoleCards, HoleCards)>,
                      h1: HoleCards, c2: seq<HoleCards>, total0: Sums, matchups0: nat)
    returns (total: Sums, matchups: nat)
    requires Trials(deal, iterations) && Tracks(judge, deal, iterations, board, before, total0, matchups0)
    ensures Tracks(judge, deal, iterations, board, before + Opponents(h1, c2, |c2|), total, matchups)
  {
    total, matchups := total0, matchups0;
    assert before + Opponents(h1, c2, 0) == before;
    var j := 0;
    while j < |c2|
      invariant 0 <= j <= |c2|
      invariant Tracks(judge, deal, iterations, board, before + Opponents(h1, c2, j), total, matchups)
    {
      OpponentsAppend(before, h1, c2, j);
      total, matchups := Visit(judge, deal, iterations, board, before + Opponents(h1, c2, j), h1, c2[j], total, matchups);
      j := j + 1;
    }
  }

  /** The outer loop: the running totals over every matchup, first range outermost. */
  method AddMatchups(judge: Judge, deal: Deal, iterations: nat, board: seq<Card>, c1: seq<HoleCards>, c2: seq<HoleCards>)
    returns (total: Sums, matchups: nat)
    requires Trials(deal, iterations)
    ensures Tracks(judge, deal, iterations, board, Matchups(c1, c2), total, matchups)
  {
    total, matchups := Sums(0.0, 0.0, 0.0, 0), 0;
    var i := 0;
    while i < |c1|
      invariant 0 <= i <= |c1|
      invariant Tracks(judge, deal, iterations, board, MatchupsUpTo(c1, c2, i), total, matchups)
    {
      total, matchups := AddOpponents(judge, deal, iterations, board, MatchupsUpTo(c1, c2, i), c1[i], c2, total, matchups);
      i := i + 1;
    }
  }

  /**
   * `calculate_range_vs_range_sequential`: the same matchups visited by two
   * nested loops, the sums and the count kept in running totals. It returns
   * what the flattened version returns.
   */
  method RangeVsRangeSequential(judge: Judge, deal: Deal, iterations: nat, r1: Range, r2: Range, board: seq<Card>) returns (r: Option<RangeEquityResult>)
    requires Trials(deal, iterations)
    ensures r == RangeVsRange(judge, deal, iterations, r1, r2, board)
  {
    var c1 := VsBoardCombos(r1, board);
    var c2 := VsBoardCombos(r2, board);
    if |c1| == 0 || |c2| == 0 {
      return Some(NoMatchups(0.0));
    }
    var total, matchups := AddMatchups(judge, deal, iterations, board, c1, c2);
    if matchups == 0 {
      return Some(NoMatchups(0.0));
    }
    if iterations == 0 {
      return None;
    }
    return Some(Average(total, iterations));
  }
}
