/**
 * The corrected evaluation the callers of `evaluate_u64` rely on: the best
 * five-card hand among all five-card subsets of the cards, as
 * `evaluate_7_cards` computes it, with plain flushes ordered by their five
 * ranks as `HandRanking::flush` orders them.
 */
module BestFive {
  import opened HandRank
  import opened Evaluator
  import opened EvaluatorFindings
  import Combinations

  /** The positions of `ps` at the indices listed in `t`. */
  function Pick(ps: seq<nat>, t: seq<nat>): (r: seq<nat>)
    requires Combinations.InRange(t, 0, |ps|)
    ensures |r| == |t|
    ensures forall i | 0 <= i < |t| :: r[i] == ps[t[i]]
    ensures Positions(ps) && Combinations.Increasing(t) ==> Positions(r)
  {
    seq(|t|, i requires 0 <= i < |t| => ps[t[i]])
  }

  /** The index of `x` in `ps`. */
  function IndexOf(ps: seq<nat>, x: nat): (i: nat)
    requires x in ps
    ensures i < |ps| && ps[i] == x
  {
    if ps[0] == x then 0 else 1 + IndexOf(ps[1..], x)
  }

  /** Every five positions taken from increasing positions are picked by a five-tuple of indices. */
  lemma SubsetTuple(ps: seq<nat>, five: seq<nat>) returns (t: seq<nat>)
    requires Positions(ps) && Positions(five) && FiveOf(ps, five)
    ensures Combinations.IsTuple(t, 0, |ps|, 5) && Pick(ps, t) == five
  {
    t := seq(5, i requires 0 <= i < 5 => IndexOf(ps, five[i]));
    forall i, j | 0 <= i < j < 5 ensures t[i] < t[j] {
      IndexOrder(ps, t[i], t[j]);
    }
  }

  /** In increasing positions, a smaller position sits at a smaller index. */
  lemma IndexOrder(ps: seq<nat>, a: nat, b: nat)
    requires Positions(ps) && a < |ps| && b < |ps| && ps[a] < ps[b]
    ensures a < b
  {
  }

  /**
   * Corrected five-card evaluation: as `evaluate_u64`, except that a plain
   * flush is ranked by its five ranks from high to low.
   */
  function CorrectedFive(ev: LookupEvaluator, ps: seq<nat>): (r: HandRanking)
    requires ValidTable(ev.flushTable) && Positions(ps) && |ps| == 5
    ensures Category(r) == Category(EvaluatePositions(ev, ps))
    ensures Category(r) != Flush ==> r == EvaluatePositions(ev, ps)
    ensures Category(r) == Flush ==>
      (CheckFlush(ps).Some? && forall i | 0 <= i < 5 :: Nibble(r.score, i) == RanksOf(CheckFlush(ps).value)[i])
  {
    var s := EvaluatePositions(ev, ps);
    if Category(s) == Flush then CorrectedFlushRanking(CheckFlush(ps).value) else s
  }

  /** Corrected plain flushes of five cards compare as their descending rank lists. */
  lemma CorrectedFiveFlushOrder(ev: LookupEvaluator, a: seq<nat>, b: seq<nat>)
    requires ValidTable(ev.flushTable) && Positions(a) && |a| == 5 && Positions(b) && |b| == 5
    requires Category(EvaluatePositions(ev, a)) == Flush && Category(EvaluatePositions(ev, b)) == Flush
    ensures Less(CorrectedFive(ev, a), CorrectedFive(ev, b)) <==>
      LexLess(AsU8(RanksOf(CheckFlush(a).value)), AsU8(RanksOf(CheckFlush(b).value)))
  {
    CorrectedFlushOrder(CheckFlush(a).value, CheckFlush(b).value);
  }

  /** The best of a list of scores: at least each of them, and MIN or one of them. */
  function Best(vals: seq<HandRanking>): (r: HandRanking)
    ensures forall i | 0 <= i < |vals| :: !Less(r, vals[i])
    ensures r == MIN || r in vals
  {
    if vals == [] then MIN
    else
      var rest := Best(vals[1..]);
      assert forall i | 1 <= i < |vals| :: vals[i] == vals[1..][i - 1];
      if Less(rest, vals[0]) then vals[0] else rest
  }

  /** The corrected scores of the picks `ts` of `ps`. */
  function Scores(ev: LookupEvaluator, ps: seq<nat>, ts: seq<seq<nat>>): (vals: seq<HandRanking>)
    requires ValidTable(ev.flushTable) && Positions(ps)
    requires forall i | 0 <= i < |ts| :: Combinations.IsTuple(ts[i], 0, |ps|, 5)
    ensures |vals| == |ts|
    ensures forall i | 0 <= i < |ts| ::
      Combinations.IsTuple(ts[i], 0, |ps|, 5) && vals[i] == CorrectedFive(ev, Pick(ps, ts[i]))
  {
    seq(|ts|, i requires 0 <= i < |ts| && Combinations.IsTuple(ts[i], 0, |ps|, 5) => CorrectedFive(ev, Pick(ps, ts[i])))
  }

  /** A score at least every listed score is at least the score of every five-tuple. */
  lemma BestCovers(ev: LookupEvaluator, ps: seq<nat>, r: HandRanking)
    requires ValidTable(ev.flushTable) && Positions(ps)
    requires forall i | 0 <= i < |Combinations.Tuples(0, |ps|, 5)| ::
      !Less(r, CorrectedFive(ev, Pick(ps, Combinations.Tuples(0, |ps|, 5)[i])))
    ensures forall t | Combinations.IsTuple(t, 0, |ps|, 5) :: !Less(r, CorrectedFive(ev, Pick(ps, t)))
  {
    var ts := Combinations.Tuples(0, |ps|, 5);
    forall t | Combinations.IsTuple(t, 0, |ps|, 5) ensures !Less(r, CorrectedFive(ev, Pick(ps, t))) {
      Combinations.TuplesComplete(0, |ps|, 5, t);
      var i :| 0 <= i < |ts| && ts[i] == t;
      assert !Less(r, CorrectedFive(ev, Pick(ps, ts[i])));
    }
  }

  /** The indices 0..4 are a five-tuple of any hand of five or more cards. */
  lemma FirstFive(n: nat)
    requires n >= 5
    ensures Combinations.IsTuple([0, 1, 2, 3, 4], 0, n, 5)
  {
  }

  /** Five or more cards have a five-card subset. */
  lemma SomeTuple(n: nat)
    requires n >= 5
    ensures |Combinations.Tuples(0, n, 5)| > 0
  {
    FirstFive(n);
    Combinations.TuplesComplete(0, n, 5, [0, 1, 2, 3, 4]);
  }

  /** Fewer than five cards have no five-card subset. */
  lemma NoTuples(n: nat)
    requires n < 5
    ensures Combinations.Tuples(0, n, 5) == []
  {
    Combinations.TuplesCount(0, n, 5);
  }

  /** The best corrected score of five or more cards is the score of one of their five-tuples. */
  lemma BestAttained(ev: LookupEvaluator, ps: seq<nat>)
    requires ValidTable(ev.flushTable) && Positions(ps) && |ps| >= 5
    ensures exists t | Combinations.IsTuple(t, 0, |ps|, 5) ::
      Best(Scores(ev, ps, Combinations.Tuples(0, |ps|, 5))) == CorrectedFive(ev, Pick(ps, t))
  {
    var t := BestTuple(ev, ps);
  }

  /** The five-tuple whose corrected score is the best one. */
  lemma BestTuple(ev: LookupEvaluator, ps: seq<nat>) returns (t: seq<nat>)
    requires ValidTable(ev.flushTable) && Positions(ps) && |ps| >= 5
    ensures Combinations.IsTuple(t, 0, |ps|, 5)
    ensures Best(Scores(ev, ps, Combinations.Tuples(0, |ps|, 5))) == CorrectedFive(ev, Pick(ps, t))
  {
    var ts := Combinations.Tuples(0, |ps|, 5);
    var vals := Scores(ev, ps, ts);
    SomeTuple(|ps|);
    var i := BestIndex(vals);
    t := ts[i];
  }

  /** The best of a non-empty list is one of its entries: MIN is below or equal to everything. */
  lemma BestIndex(vals: seq<HandRanking>) returns (i: nat)
    requires vals != []
    ensures i < |vals| && Best(vals) == vals[i]
  {
    var r := Best(vals);
    if r in vals {
      i :| i < |vals| && vals[i] == r;
    } else {
      assert !Less(r, vals[0]);
      i := 0;
    }
  }

  /**
   * Corrected `evaluate_7_cards_fast` (and `evaluate_u64` on more than five
   * cards): the best corrected score over every five-card subset, in the
   * enumeration order of the index tuples.
   */
  function EvaluateBest(ev: LookupEvaluator, ps: seq<nat>): (r: HandRanking)
    requires ValidTable(ev.flushTable) && Positions(ps)
    ensures |ps| < 5 ==> r == MIN
    ensures forall t | Combinations.IsTuple(t, 0, |ps|, 5) :: !Less(r, CorrectedFive(ev, Pick(ps, t)))
    ensures |ps| >= 5 ==> exists t | Combinations.IsTuple(t, 0, |ps|, 5) :: r == CorrectedFive(ev, Pick(ps, t))
  {
    var r := Best(Scores(ev, ps, Combinations.Tuples(0, |ps|, 5)));
    BestCovers(ev, ps, r);
    if |ps| >= 5 then BestAttained(ev, ps); r
    else NoTuples(|ps|); r
  }

  /** Corrected, a hand scores at least as well as any five of its cards. */
  lemma BestSeesEveryFive(ev: LookupEvaluator, ps: seq<nat>, five: seq<nat>)
    requires ValidTable(ev.flushTable) && Positions(ps) && Positions(five) && FiveOf(ps, five)
    ensures !Less(EvaluateBest(ev, ps), CorrectedFive(ev, five))
  {
    var t := SubsetTuple(ps, five);
  }

  /** Corrected, a hand holding five cards that are not a plain flush scores at least their `evaluate_u64` score. */
  lemma BestSeesUnflushedFive(ev: LookupEvaluator, ps: seq<nat>, five: seq<nat>)
    requires ValidTable(ev.flushTable) && Positions(ps) && Positions(five) && FiveOf(ps, five)
    requires Category(EvaluatePositions(ev, five)) != Flush
    ensures !Less(EvaluateBest(ev, ps), EvaluatePositions(ev, five))
  {
    BestSeesEveryFive(ev, ps, five);
  }

  // --------------------------------------- the findings' hands, corrected

  /** Corrected, 5c 6d 7h 8s 9c 9d Kc scores at least its nine-high straight, above the pair `evaluate_u64` gives it. */
  lemma BestSeesStraight(ev: LookupEvaluator)
    requires ValidTable(ev.flushTable)
    ensures !Less(EvaluateBest(ev, StraightSeven()), EvaluatePositions(ev, StraightFive()))
    ensures Less(EvaluatePositions(ev, StraightSeven()), EvaluateBest(ev, StraightSeven()))
  {
    StraightFiveOf();
    StraightFiveNoFlush();
    PairHidesStraightWitness(ev);
    BestSeesUnflushedFive(ev, StraightSeven(), StraightFive());
  }

  /** Corrected, 2c 2d Kc Ac Ad Ah As scores as four aces with a king. */
  lemma BestSeesQuadsKicker(ev: LookupEvaluator)
    requires ValidTable(ev.flushTable)
    ensures !Less(EvaluateBest(ev, QuadsSeven()), EvaluatePositions(ev, QuadsFive()))
    ensures Less(EvaluatePositions(ev, QuadsSeven()), EvaluateBest(ev, QuadsSeven()))
  {
    QuadsShapes();
    QuadsKickerFromPairWitness(ev);
    BestSeesUnflushedFive(ev, QuadsSeven(), QuadsFive());
  }

  /** Corrected, 2c 2d Qc Qd Kc Kd Ah scores as kings and queens with an ace. */
  lemma BestSeesTwoPairKicker(ev: LookupEvaluator)
    requires ValidTable(ev.flushTable)
    ensures !Less(EvaluateBest(ev, TwoPairSeven()), EvaluatePositions(ev, TwoPairFive()))
    ensures Less(EvaluatePositions(ev, TwoPairSeven()), EvaluateBest(ev, TwoPairSeven()))
  {
    TwoPairShapes();
    TwoPairKickerFromThirdPairWitness(ev);
    BestSeesUnflushedFive(ev, TwoPairSeven(), TwoPairFive());
  }

  /** Corrected, 2c 5s 6s 7s 8s 9s As scores as its nine-high straight flush. */
  lemma BestSeesStraightFlush(ev: LookupEvaluator)
    requires ValidTable(ev.flushTable)
    ensures !Less(EvaluateBest(ev, FlushSeven()), EvaluatePositions(ev, FlushFive()))
    ensures Less(EvaluatePositions(ev, FlushSeven()), EvaluateBest(ev, FlushSeven()))
  {
    FlushFiveOf();
    FlushSevenShape();
    FlushFiveShape();
    TopFiveHidesStraightFlush(ev, FlushSeven(), FlushFive());
    BestSeesUnflushedFive(ev, FlushSeven(), FlushFive());
  }
}
