/**
 * Heads-up equity (`equity/mod.rs`): the deck left after the dead cards, the
 * exact enumeration of every board completion, the win/loss/tie tally and
 * the equities computed from it. The hand evaluator is a parameter; Monte
 * Carlo sampling takes its drawn completions as a parameter too.
 */
module Equity {
  import opened Wrappers
  import opened Cards
  import opened CardSets
  import opened Hands
  import opened HandRank
  import opened Combinations
  import opened Evaluator
  import opened Fractions

  /** How hands are ranked: any function from hands to rankings. */
  type Judge = Hand -> HandRanking

  /** `EquityCalculator`: it owns a `LookupEvaluator`. */
  datatype EquityCalculator = EquityCalculator(evaluator: LookupEvaluator)

  /** `EquityCalculator::new`. */
  function NewCalculator(): (calculator: EquityCalculator)
    ensures ValidTable(calculator.evaluator.flushTable)
  {
    EquityCalculator(NewEvaluator())
  }

  /** The calculator's evaluator as a judge. The hands it is given are built from cards, so always well formed. */
  function JudgeOf(calculator: EquityCalculator): (judge: Judge)
    requires ValidTable(calculator.evaluator.flushTable)
    ensures forall h: Hand | WellFormed(h.cards) :: judge(h) == Evaluate(calculator.evaluator, h)
  {
    (h: Hand) => if WellFormed(h.cards) then Evaluate(calculator.evaluator, h) else MIN
  }

  // --------------------------------------------------------------- the deck

  /** The dead cards of a heads-up calculation: both hole hands and the board. */
  function HeadsUpDead(h1: HoleCards, h2: HoleCards, board: seq<Card>): (dead: CardSet)
    ensures forall c :: Contains(dead, c) <==> c == h1.high || c == h1.low || c == h2.high || c == h2.low || c in board
    ensures WellFormed(dead) && Count(dead) <= 4 + |board|
  {
    FromCards([h1.high, h1.low, h2.high, h2.low] + board)
  }

  /** `all_cards` from index `i` on (its card at index `k` is `CardAt(k)`), without the dead cards. */
  function AvailableFrom(dead: CardSet, i: nat): (r: seq<Card>)
    requires i <= 52
    ensures |r| <= 52 - i
    decreases 52 - i
  {
    if i == 52 then []
    else
      var c := CardAt(i);
      (if Contains(dead, c) then [] else [c]) + AvailableFrom(dead, i + 1)
  }

  /** The cards from index `i` on are exactly the live ones. */
  lemma {:induction false} AvailableFromMembers(dead: CardSet, i: nat)
    requires i <= 52
    ensures forall c :: c in AvailableFrom(dead, i) <==> i <= Index(c) && !Contains(dead, c)
    decreases 52 - i
  {
    if i < 52 {
      var c := CardAt(i);
      AvailableFromMembers(dead, i + 1);
      forall d | Index(d) == i
        ensures d == c
      {
        IndexInjective(d, c);
      }
    }
  }

  /** No card occurs twice. */
  predicate DistinctCards(r: seq<Card>)
  {
    forall a, b | 0 <= a < b < |r| :: r[a] != r[b]
  }

  lemma {:induction false} AvailableFromDistinct(dead: CardSet, i: nat)
    requires i <= 52
    ensures DistinctCards(AvailableFrom(dead, i))
    decreases 52 - i
  {
    if i < 52 {
      var c := CardAt(i);
      AvailableFromDistinct(dead, i + 1);
      if !Contains(dead, c) {
        AvailableFromMembers(dead, i + 1);
        ConsDistinct(c, AvailableFrom(dead, i + 1));
      }
    }
  }

  lemma ConsDistinct(c: Card, rest: seq<Card>)
    requires DistinctCards(rest) && c !in rest
    ensures DistinctCards([c] + rest)
  {
    var r := [c] + rest;
    forall a, b | 0 <= a < b < |r|
      ensures r[a] != r[b]
    {
      assert r[b] == rest[b - 1];
      if a > 0 {
        assert r[a] == rest[a - 1];
      }
    }
  }

  /** The available deck: every card not dead, in index order. */
  function Available(dead: CardSet): (r: seq<Card>)
    ensures |r| <= 52
  {
    AvailableFrom(dead, 0)
  }

  /** The available deck holds every live card and no card twice. */
  lemma AvailableMembers(dead: CardSet)
    ensures forall c :: c in Available(dead) <==> !Contains(dead, c)
    ensures DistinctCards(Available(dead))
  {
    AvailableFromMembers(dead, 0);
    AvailableFromDistinct(dead, 0);
  }

  /** The card indices from `i` on that are not dead. */
  function Free(dead: CardSet, i: nat): set<nat>
  {
    set k: nat | i <= k < 52 && k !in dead.bits
  }

  lemma {:induction false} AvailableFromCount(dead: CardSet, i: nat)
    requires i <= 52
    ensures |AvailableFrom(dead, i)| == |Free(dead, i)|
    decreases 52 - i
  {
    if i < 52 {
      AvailableFromCount(dead, i + 1);
      FreeStep(dead, i);
      AvailableFromStep(dead, i);
    }
  }

  lemma FreeStep(dead: CardSet, i: nat)
    requires i < 52
    ensures |Free(dead, i)| == |Free(dead, i + 1)| + (if i in dead.bits then 0 else 1)
  {
    if i in dead.bits {
      assert Free(dead, i) == Free(dead, i + 1);
    } else {
      assert Free(dead, i) == Free(dead, i + 1) + {i};
    }
  }

  lemma AvailableFromStep(dead: CardSet, i: nat)
    requires i < 52
    ensures |AvailableFrom(dead, i)| == |AvailableFrom(dead, i + 1)| + (if i in dead.bits then 0 else 1)
  {
    assert Index(CardAt(i)) == i;
  }

  /** The available deck has one card for every card that is not dead. */
  lemma AvailableCount(dead: CardSet)
    requires WellFormed(dead)
    ensures |Available(dead)| == 52 - Count(dead)
  {
    AvailableFromCount(dead, 0);
    FreeCount(dead, 52);
  }

  lemma FreeCount(dead: CardSet, n: nat)
    requires WellFormed(dead) && n == 52
    ensures |Free(dead, 0)| == n - Count(dead)
  {
    var all := Below(n);
    assert Free(dead, 0) == all - dead.bits;
    assert all == (all - dead.bits) + dead.bits;
  }

  // --------------------------------------------------------------- showdown

  datatype Outcome = Player1Wins | Player2Wins | Tie

  /** The outcome with the players' seats exchanged. */
  function Flip(o: Outcome): Outcome
  {
    match o
    case Player1Wins => Player2Wins
    case Player2Wins => Player1Wins
    case Tie => Tie
  }

  /** One showdown on a full board: the higher ranking wins, equal rankings tie. */
  function Showdown(judge: Judge, h1: HoleCards, h2: HoleCards, board: seq<Card>): (o: Outcome)
    ensures o == Player1Wins <==> Less(judge(BuildHand(h2, board)), judge(BuildHand(h1, board)))
    ensures o == Player2Wins <==> Less(judge(BuildHand(h1, board)), judge(BuildHand(h2, board)))
  {
    var r1 := judge(BuildHand(h1, board));
    var r2 := judge(BuildHand(h2, board));
    if r1.score > r2.score then Player1Wins
    else if r1.score < r2.score then Player2Wins
    else Tie
  }

  /** Exchanging the players flips every showdown. */
  lemma ShowdownSwap(judge: Judge, h1: HoleCards, h2: HoleCards, board: seq<Card>)
    ensures Showdown(judge, h2, h1, board) == Flip(Showdown(judge, h1, h2, board))
  {
  }

  /** The showdowns on the given boards, in order. */
  function Outcomes(judge: Judge, h1: HoleCards, h2: HoleCards, boards: seq<seq<Card>>): (os: seq<Outcome>)
    ensures |os| == |boards|
    ensures forall i | 0 <= i < |os| :: os[i] == Showdown(judge, h1, h2, boards[i])
  {
    seq(|boards|, i requires 0 <= i < |boards| => Showdown(judge, h1, h2, boards[i]))
  }

  // ------------------------------------------------------------------ tally

  datatype Tally = Tally(p1Wins: nat, p2Wins: nat, ties: nat)

  /** One `match rank1.cmp(&rank2)`: exactly one counter goes up. */
  function Record(t: Tally, o: Outcome): Tally
  {
    match o
    case Player1Wins => t.(p1Wins := t.p1Wins + 1)
    case Player2Wins => t.(p2Wins := t.p2Wins + 1)
    case Tie => t.(ties := t.ties + 1)
  }

  /** The counters after recording every outcome in order. */
  function TallyOf(os: seq<Outcome>): (t: Tally)
    ensures t.p1Wins + t.p2Wins + t.ties == |os|
  {
    if os == [] then Tally(0, 0, 0)
    else Record(TallyOf(os[..|os| - 1]), os[|os| - 1])
  }

  /** Each counter is the number of times its outcome occurs. */
  lemma {:induction false} TallyCounts(os: seq<Outcome>)
    ensures TallyOf(os).p1Wins == multiset(os)[Player1Wins]
    ensures TallyOf(os).p2Wins == multiset(os)[Player2Wins]
    ensures TallyOf(os).ties == multiset(os)[Tie]
  {
    if os != [] {
      var init := os[..|os| - 1];
      TallyCounts(init);
      assert os == init + [os[|os| - 1]];
    }
  }

  function FlipAll(os: seq<Outcome>): (r: seq<Outcome>)
    ensures |r| == |os| && forall i | 0 <= i < |os| :: r[i] == Flip(os[i])
  {
    seq(|os|, i requires 0 <= i < |os| => Flip(os[i]))
  }

  /** Flipping every outcome exchanges the two win counters. */
  lemma {:induction false} TallyFlip(os: seq<Outcome>)
    ensures TallyOf(FlipAll(os)) == Tally(TallyOf(os).p2Wins, TallyOf(os).p1Wins, TallyOf(os).ties)
  {
    if os != [] {
      var init := os[..|os| - 1];
      TallyFlip(init);
      assert FlipAll(os)[..|os| - 1] == FlipAll(init);
    }
  }

  // ----------------------------------------------------------------- result

  /** `EquityResult`, with the equities as exact fractions. */
  datatype EquityResult = EquityResult(player1: real, player2: real, tie: real, simulations: nat)

  /** The equities of a tally over `n` boards: ties count half for each player. */
  function Shape(t: Tally, n: nat): (r: EquityResult)
    requires n > 0 && t.p1Wins + t.p2Wins + t.ties == n
    ensures r.player1 + r.player2 == 1.0
    ensures r.tie * n as real == t.ties as real
    ensures 0.0 <= r.tie <= 1.0 && 0.0 <= r.player1 <= 1.0 && 0.0 <= r.player2 <= 1.0
    ensures r.simulations == n
  {
    var d := n as real;
    var half := t.ties as real / 2.0;
    var a1, a2 := t.p1Wins as real + half, t.p2Wins as real + half;
    assert a1 + a2 == d;
    DivAdd(a1, a2, d);
    DivSelf(d);
    UnitDiv(a1, d);
    UnitDiv(a2, d);
    UnitDiv(t.ties as real, d);
    MulDiv(t.ties as real, d);
    EquityResult(a1 / d, a2 / d, t.ties as real / d, n)
  }

  // ------------------------------------------------------------------ exact

  /** The cards of a completion: the available cards at the tuple's indices. */
  function Completion(avail: seq<Card>, t: seq<nat>): (r: seq<Card>)
    requires InRange(t, 0, |avail|)
    ensures |r| == |t| && forall j | 0 <= j < |t| :: r[j] == avail[t[j]]
  {
    seq(|t|, j requires 0 <= j < |t| => avail[t[j]])
  }

  /** The completed boards `enumerate_helper` visits, in its order: the board, then every choice of the missing cards. */
  function ExactBoards(avail: seq<Card>, board: seq<Card>): (boards: seq<seq<Card>>)
    requires |board| <= 5
    ensures |boards| == Binom(|avail|, 5 - |board|)
    ensures forall i | 0 <= i < |boards| :: |boards[i]| == 5 && boards[i][..|board|] == board
  {
    var ts := Tuples(0, |avail|, 5 - |board|);
    TuplesCount(0, |avail|, 5 - |board|);
    seq(|ts|, i requires 0 <= i < |ts| => board + Completion(avail, ts[i]))
  }

  /** Every choice of missing cards is visited: each increasing index tuple gives one of the boards. */
  lemma ExactBoardsComplete(avail: seq<Card>, board: seq<Card>, t: seq<nat>)
    requires |board| <= 5 && IsTuple(t, 0, |avail|, 5 - |board|)
    ensures board + Completion(avail, t) in ExactBoards(avail, board)
  {
    var i := TupleIndex(0, |avail|, 5 - |board|, t);
    ExactBoardsAt(avail, board, i);
  }

  /** Board `i` of the enumeration completes the board with the `i`-th index tuple. */
  lemma ExactBoardsAt(avail: seq<Card>, board: seq<Card>, i: nat)
    requires |board| <= 5 && i < |Tuples(0, |avail|, 5 - |board|)|
    ensures i < |ExactBoards(avail, board)|
    ensures ExactBoards(avail, board)[i] == board + Completion(avail, Tuples(0, |avail|, 5 - |board|)[i])
  {
  }

  /** The completions use distinct cards that are not dead. */
  lemma ExactBoardsLegal(dead: CardSet, board: seq<Card>, i: nat, j: nat, k: nat)
    requires |board| <= 5
    requires i < |ExactBoards(Available(dead), board)|
    requires |board| <= j < k < 5
    ensures !Contains(dead, ExactBoards(Available(dead), board)[i][j])
    ensures ExactBoards(Available(dead), board)[i][j] != ExactBoards(Available(dead), board)[i][k]
  {
    var avail := Available(dead);
    var ts := Tuples(0, |avail|, 5 - |board|);
    TuplesCount(0, |avail|, 5 - |board|);
    var t := ts[i];
    ExactBoardsAt(avail, board, i);
    assert t[j - |board|] < t[k - |board|];
    AvailableMembers(dead);
    assert avail[t[j - |board|]] in avail;
  }

  /**
   * What one shuffle of `calculate_monte_carlo` deals: the first
   * `5 - |board|` cards of a permutation of the available cards, so distinct
   * live cards in some order.
   */
  predicate LegalDraw(avail: seq<Card>, board: seq<Card>, d: seq<Card>)
  {
    |board| <= 5 && |d| == 5 - |board| && DistinctCards(d) && forall c | c in d :: c in avail
  }

  /** Every completion the exact enumeration visits is a draw a shuffle can deal. */
  lemma CompletionLegal(avail: seq<Card>, board: seq<Card>, t: seq<nat>)
    requires |board| <= 5 && DistinctCards(avail) && IsTuple(t, 0, |avail|, 5 - |board|)
    ensures LegalDraw(avail, board, Completion(avail, t))
  {
    var d := Completion(avail, t);
    forall a, b | 0 <= a < b < |d| ensures d[a] != d[b] {
      assert t[a] < t[b];
    }
    forall c | c in d ensures c in avail {
      var a :| 0 <= a < |d| && d[a] == c;
      assert avail[t[a]] == c;
    }
  }

  /** At least one board is always visited: at most nine cards are dead. */
  lemma ExactBoardsExist(h1: HoleCards, h2: HoleCards, board: seq<Card>)
    requires |board| <= 5
    ensures |Available(HeadsUpDead(h1, h2, board))| >= 43
    ensures |ExactBoards(Available(HeadsUpDead(h1, h2, board)), board)| > 0
  {
    var avail := Available(HeadsUpDead(h1, h2, board));
    assert |avail| >= 43 by {
      AvailableCount(HeadsUpDead(h1, h2, board));
    }
    ExactBoardsNonEmpty(avail, board);
  }

  lemma ExactBoardsNonEmpty(avail: seq<Card>, board: seq<Card>)
    requires |board| <= 5 && |avail| >= 5 - |board|
    ensures |ExactBoards(avail, board)| > 0
  {
    BinomPositive(|avail|, 5 - |board|);
  }

  lemma {:induction false} BinomPositive(n: nat, k: nat)
    requires k <= n
    ensures Binom(n, k) > 0
  {
    if k > 0 && k < n {
      BinomPositive(n - 1, k - 1);
    } else if k > 0 {
      BinomPositive(n - 1, k - 1);
    }
  }

  /** The tally of every completion drawn from `avail`, as equities. */
  function ExactOver(judge: Judge, h1: HoleCards, h2: HoleCards, avail: seq<Card>, board: seq<Card>): (r: EquityResult)
    requires |board| <= 5 && |avail| >= 5 - |board|
    ensures r.simulations == Binom(|avail|, 5 - |board|)
    ensures r.simulations > 0 && r.player1 + r.player2 == 1.0
  {
    var boards := ExactBoards(avail, board);
    ExactBoardsNonEmpty(avail, board);
    Shape(TallyOf(Outcomes(judge, h1, h2, boards)), |boards|)
  }

  /** `calculate_exact`: every completion of the board, tallied. */
  function CalculateExact(judge: Judge, h1: HoleCards, h2: HoleCards, board: seq<Card>): (r: EquityResult)
    requires |board| <= 5
    ensures r.simulations == Binom(|Available(HeadsUpDead(h1, h2, board))|, 5 - |board|)
    ensures r.simulations > 0 && r.player1 + r.player2 == 1.0
  {
    ExactBoardsExist(h1, h2, board);
    ExactOver(judge, h1, h2, Available(HeadsUpDead(h1, h2, board)), board)
  }

  /** Exchanging the players exchanges their equities; the tie share stays. */
  lemma ExactSwap(judge: Judge, h1: HoleCards, h2: HoleCards, board: seq<Card>)
    requires |board| <= 5
    ensures var r := CalculateExact(judge, h1, h2, board);
      CalculateExact(judge, h2, h1, board) == EquityResult(r.player2, r.player1, r.tie, r.simulations)
  {
    assert HeadsUpDead(h1, h2, board) == HeadsUpDead(h2, h1, board) by {
      Extensional(HeadsUpDead(h1, h2, board), HeadsUpDead(h2, h1, board));
    }
    ExactBoardsExist(h1, h2, board);
    ExactOverSwap(judge, h1, h2, Available(HeadsUpDead(h1, h2, board)), board);
  }

  lemma ExactOverSwap(judge: Judge, h1: HoleCards, h2: HoleCards, avail: seq<Card>, board: seq<Card>)
    requires |board| <= 5 && |avail| >= 5 - |board|
    ensures var r := ExactOver(judge, h1, h2, avail, board);
      ExactOver(judge, h2, h1, avail, board) == EquityResult(r.player2, r.player1, r.tie, r.simulations)
  {
    var boards := ExactBoards(avail, board);
    var os := Outcomes(judge, h1, h2, boards);
    assert Outcomes(judge, h2, h1, boards) == FlipAll(os) by {
      forall i | 0 <= i < |boards|
        ensures Outcomes(judge, h2, h1, boards)[i] == FlipAll(os)[i]
      {
        ShowdownSwap(judge, h1, h2, boards[i]);
      }
    }
    TallyFlip(os);
    ExactBoardsNonEmpty(avail, board);
    ShapeFlip(TallyOf(os), |boards|);
  }

  /** Exchanging the win counters exchanges the equities. */
  lemma ShapeFlip(t: Tally, n: nat)
    requires n > 0 && t.p1Wins + t.p2Wins + t.ties == n
    ensures var r := Shape(t, n);
      Shape(Tally(t.p2Wins, t.p1Wins, t.ties), n) == EquityResult(r.player2, r.player1, r.tie, r.simulations)
  {
  }

  /** With four distinct board cards and distinct hole cards, 44 river cards remain. */
  lemma ExactFourCardBoard(judge: Judge, h1: HoleCards, h2: HoleCards, board: seq<Card>)
    requires |board| == 4
    requires var all := [h1.high, h1.low, h2.high, h2.low] + board;
      forall k, l :: 0 <= k < l < |all| ==> all[k] != all[l]
    ensures CalculateExact(judge, h1, h2, board).simulations == 44
  {
    var dead := HeadsUpDead(h1, h2, board);
    HeadsUpDeadCount(h1, h2, board);
    AvailableCount(dead);
    BinomOne(|Available(dead)|);
  }

  /** Distinct hole and board cards are all dead, each counted once. */
  lemma HeadsUpDeadCount(h1: HoleCards, h2: HoleCards, board: seq<Card>)
    requires var all := [h1.high, h1.low, h2.high, h2.low] + board;
      forall k, l :: 0 <= k < l < |all| ==> all[k] != all[l]
    ensures Count(HeadsUpDead(h1, h2, board)) == 4 + |board|
  {
    FromCardsDistinct([h1.high, h1.low, h2.high, h2.low] + board);
  }

  // ------------------------------------------------------------ Monte Carlo

  /**
   * `calculate_monte_carlo`, with the shuffles abstracted: `draws[i]` is the
   * prefix of the shuffled deck that completes the board in trial `i`. With
   * no trials the source divides zero by zero; that result is `None`.
   */
  function MonteCarlo(judge: Judge, h1: HoleCards, h2: HoleCards, board: seq<Card>, draws: seq<seq<Card>>): (r: Option<EquityResult>)
    ensures r.None? <==> |draws| == 0
    ensures r.Some? ==> r.value.simulations == |draws| && r.value.player1 + r.value.player2 == 1.0
    ensures r.Some? ==> 0.0 <= r.value.player1 <= 1.0 && 0.0 <= r.value.player2 <= 1.0 && 0.0 <= r.value.tie <= 1.0
  {
    if |draws| == 0 then None
    else
      var boards := seq(|draws|, i requires 0 <= i < |draws| => board + draws[i]);
      Some(Shape(TallyOf(Outcomes(judge, h1, h2, boards)), |draws|))
  }

  /** Sampling each completion once, in the enumeration's order, gives the exact result. */
  lemma MonteCarloOfEveryBoard(judge: Judge, h1: HoleCards, h2: HoleCards, board: seq<Card>, draws: seq<seq<Card>>)
    requires |board| <= 5
    requires var boards := ExactBoards(Available(HeadsUpDead(h1, h2, board)), board);
      |draws| == |boards| && forall i | 0 <= i < |draws| :: board + draws[i] == boards[i]
    ensures MonteCarlo(judge, h1, h2, board, draws) == Some(CalculateExact(judge, h1, h2, board))
  {
    ExactBoardsExist(h1, h2, board);
    MonteCarloOver(judge, h1, h2, Available(HeadsUpDead(h1, h2, board)), board, draws);
  }

  lemma MonteCarloOver(judge: Judge, h1: HoleCards, h2: HoleCards, avail: seq<Card>, board: seq<Card>, draws: seq<seq<Card>>)
    requires |board| <= 5 && |avail| >= 5 - |board|
    requires var boards := ExactBoards(avail, board);
      |draws| == |boards| && forall i | 0 <= i < |draws| :: board + draws[i] == boards[i]
    ensures MonteCarlo(judge, h1, h2, board, draws) == Some(ExactOver(judge, h1, h2, avail, board))
  {
    ExactBoardsNonEmpty(avail, board);
    assert seq(|draws|, i requires 0 <= i < |draws| => board + draws[i]) == ExactBoards(avail, board);
  }
}
