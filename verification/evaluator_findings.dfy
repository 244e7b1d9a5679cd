/**
 * Where the lookup evaluator of `evaluator.rs` departs from the poker order
 * its callers rely on, each shown on the code as written, and the corrected
 * evaluation: the best five-card hand, with plain flushes ordered by their
 * five ranks.
 */
module EvaluatorFindings {
  import opened Wrappers
  import opened Cards
  import opened HandRank
  import opened Evaluator
  import Combinations

  // ------------------------------------------------- plain-flush tiebreak cap

  /**
   * As written, `encode_high_card_score` saturates for every five ranks that
   * are not a straight: the top rank is at least 5 (a 7-high), and
   * 371 * 5 = 1855 is already above the cap of 999.
   */
  lemma {:induction false} PlainFlushEntrySaturates(key: set<nat>)
    requires FiveRanks(key)
    requires forall h | 3 <= h <= 12 :: key != Window(h)
    ensures KeyEntry(key) == 5000 + HIGH_CARD_CAP
  {
    LowestTop(RanksOf(key));
  }

  /** Five descending ranks top out at 4 or more, and at exactly 4 only as 6-5-4-3-2. */
  lemma LowestTop(ranks: seq<nat>)
    requires |ranks| == 5 && Descending(ranks) && RanksBelow(ranks, 13)
    ensures ranks[0] >= 4
    ensures ranks[0] == 4 ==> Combinations.Elements(ranks) == Window(4)
  {
    FiveElements(ranks);
    assert ranks[0] > ranks[1] > ranks[2] > ranks[3] > ranks[4];
    if ranks[0] == 4 {
      assert ranks == [4, 3, 2, 1, 0];
    }
  }

  /** As written, every plain flush `evaluate_u64` scores gets one and the same score. */
  lemma PlainFlushesTie(ev: LookupEvaluator, ps: seq<nat>)
    requires ValidTable(ev.flushTable) && Positions(ps) && |ps| >= 5
    requires Category(EvaluatePositions(ev, ps)) == Flush
    ensures EvaluatePositions(ev, ps).score == 5 * KICKER_LIMIT + HIGH_CARD_CAP
  {
    var f := CheckFlush(ps).value;
    var v := ev.flushTable[f];
    assert v == KeyEntry(f);
    assert v < 8000;
    forall h | 3 <= h <= 12 ensures f != Window(h) {
      assert v != 8000 + h;
    }
    PlainFlushEntrySaturates(f);
  }

  /** Ranks below 13 as `u8` values. */
  function AsU8(ranks: seq<nat>): (r: seq<u8>)
    requires RanksBelow(ranks, 13)
    ensures |r| == |ranks| && Nibbles(r)
    ensures forall i | 0 <= i < |r| :: r[i] == ranks[i]
  {
    seq(|ranks|, i requires 0 <= i < |ranks| => ranks[i] as u8)
  }

  /** Corrected: a plain flush is ranked by its five ranks from high to low, as `HandRanking::flush` does. */
  function CorrectedFlushRanking(key: set<nat>): (r: HandRanking)
    requires FiveRanks(key)
    ensures Category(r) == Flush
    ensures forall i | 0 <= i < 5 :: Nibble(r.score, i) == RanksOf(key)[i]
  {
    FlushRanking(AsU8(RanksOf(key)))
  }

  /** Corrected plain flushes compare exactly as their descending rank lists do. */
  lemma CorrectedFlushOrder(k1: set<nat>, k2: set<nat>)
    requires FiveRanks(k1) && FiveRanks(k2)
    ensures Less(CorrectedFlushRanking(k1), CorrectedFlushRanking(k2)) <==> LexLess(AsU8(RanksOf(k1)), AsU8(RanksOf(k2)))
  {
    var a := AsU8(RanksOf(k1));
    var b := AsU8(RanksOf(k2));
    LexTotal(a, b);
    if LexLess(a, b) {
      EncodeLexicographic(a, b);
    } else if LexLess(b, a) {
      EncodeLexicographic(b, a);
    }
  }

  /** Corrected, two different plain flushes never tie. */
  lemma CorrectedFlushesDiffer(k1: set<nat>, k2: set<nat>)
    requires FiveRanks(k1) && FiveRanks(k2) && k1 != k2
    ensures CorrectedFlushRanking(k1) != CorrectedFlushRanking(k2)
  {
    var a := AsU8(RanksOf(k1));
    var b := AsU8(RanksOf(k2));
    CorrectedFlushOrder(k1, k2);
    CorrectedFlushOrder(k2, k1);
    LexTotal(a, b);
  }

  // ------------------------------------------------ concrete evaluation aids

  /** How many positions fall in suit slot `slot`. */
  function SuitCount(ps: seq<nat>, slot: nat): nat
  {
    if ps == [] then 0 else (if ps[0] % 4 == slot then 1 else 0) + SuitCount(ps[1..], slot)
  }

  /** Distinct positions give a suit mask with one rank per card of that suit. */
  lemma {:induction false} SuitRanksSize(ps: seq<nat>, slot: nat)
    requires slot < 4 && Positions(ps)
    ensures |SuitRanks(ps, slot)| == SuitCount(ps, slot)
    decreases |ps|
  {
    if ps != [] {
      PositionsTail(ps);
      SuitRanksSize(ps[1..], slot);
      SuitRanksHeld(ps[1..], slot, ps[0] / 4);
    }
  }

  /** No suit slot holds five cards: the flush path is skipped. */
  lemma NoFlushOf(ps: seq<nat>)
    requires Positions(ps)
    requires SuitCount(ps, 0) < 5 && SuitCount(ps, 1) < 5 && SuitCount(ps, 2) < 5 && SuitCount(ps, 3) < 5
    ensures NoFlushFrom(SuitMasks(ps), 0)
  {
    var suits := SuitMasks(ps);
    forall s | 0 <= s < |suits| ensures |suits[s]| < 5 {
      SuitRanksSize(ps, s);
      assert s == 0 || s == 1 || s == 2 || s == 3;
    }
  }

  // ---------------------------------------------- rank groups from the cards

  /** Two descending lists with the same members are equal. */
  lemma {:induction false} DescendingUnique(a: seq<u8>, b: seq<u8>)
    requires Descending(a) && Descending(b)
    requires forall x :: x in a <==> x in b
    ensures a == b
    decreases |a|
  {
    if a != [] {
      assert a[0] in a;
    }
    if b != [] {
      assert b[0] in b;
    }
    if a != [] && b != [] {
      assert a == [a[0]] + a[1..] && b == [b[0]] + b[1..];
      assert a[0] in b && b[0] in a;
      forall x ensures x in a[1..] <==> x in b[1..] {
        if x in a[1..] {
          var i :| 0 <= i < |a| - 1 && a[1..][i] == x;
          assert a[i + 1] == x && x < a[0];
          assert x in a;
          var j :| 0 <= j < |b| && b[j] == x;
          assert j > 0 && b[1..][j - 1] == x;
        }
        if x in b[1..] {
          var i :| 0 <= i < |b| - 1 && b[1..][i] == x;
          assert b[i + 1] == x && x < b[0];
          assert x in b;
          var j :| 0 <= j < |a| && a[j] == x;
          assert j > 0 && a[1..][j - 1] == x;
        }
      }
      DescendingUnique(a[1..], b[1..]);
    }
  }

  /** The group list for count `n` is `want` when `want` lists, from high to low, exactly the ranks of that count. */
  lemma GroupIs(counts: seq<nat>, n: nat, want: seq<u8>)
    requires |counts| == 13 && Descending(want)
    requires RanksBelow(want, 13)
    requires forall r: u8 | r < 13 :: counts[r] == n <==> r in want
    ensures Group(counts, n, 13) == want
  {
    DescendingUnique(Group(counts, n, 13), want);
  }

  /** The four lists `evaluate_paired` builds from the counts of positions `ps`. */
  lemma GroupsOfPositions(ps: seq<nat>, quads: seq<u8>, trips: seq<u8>, pairs: seq<u8>, singles: seq<u8>)
    requires Positions(ps)
    requires Descending(quads) && Descending(trips) && Descending(pairs) && Descending(singles)
    requires RanksBelow(quads, 13) && RanksBelow(trips, 13) && RanksBelow(pairs, 13) && RanksBelow(singles, 13)
    requires forall r: u8 | r < 13 :: SuitsHeld(ps, r) == 4 <==> r in quads
    requires forall r: u8 | r < 13 :: SuitsHeld(ps, r) == 3 <==> r in trips
    requires forall r: u8 | r < 13 :: SuitsHeld(ps, r) == 2 <==> r in pairs
    requires forall r: u8 | r < 13 :: SuitsHeld(ps, r) == 1 <==> r in singles
    ensures RankCounts(CountRanks(ps))
    ensures GroupsOf(CountRanks(ps)) == Groups(quads, trips, pairs, singles)
  {
    var counts := CountRanks(ps);
    assert forall r: u8 | r < 13 :: counts[r] == SuitsHeld(ps, r);
    GroupIs(counts, 4, quads);
    GroupIs(counts, 3, trips);
    GroupIs(counts, 2, pairs);
    GroupIs(counts, 1, singles);
  }

  /** One rank held twice and no other rank repeated: the paired path scores one pair. */
  lemma OnePairOf(ps: seq<nat>, p: nat)
    requires Positions(ps) && p < 13 && SuitsHeld(ps, p) == 2
    requires forall r | 0 <= r < 13 && r != p :: SuitsHeld(ps, r) < 2
    ensures HasPairs(CountRanks(ps))
    ensures Category(EvaluatePaired(CountRanks(ps))) == OnePair
  {
    var counts := CountRanks(ps);
    PairedCategory(counts);
    assert counts[p] == 2;
  }

  /** Exactly the ranks of one window, once each: no repeat, and the window lies inside the rank bits. */
  lemma WindowOnly(ps: seq<nat>, h: nat)
    requires Positions(ps) && 3 <= h <= 12
    requires forall r | 0 <= r < 13 :: SuitsHeld(ps, r) == if r in Window(h) then 1 else 0
    ensures !HasPairs(CountRanks(ps))
    ensures Window(h) <= RankBits(ps)
  {
  }

  /** Two rankings of one category whose kicker lists compare lexicographically. */
  lemma KickersOrder(c: HandCategory, a: seq<u8>, b: seq<u8>, k: nat)
    requires Nibbles(a) && Nibbles(b) && |a| == |b| <= 5
    requires k < |a| && a[..k] == b[..k] && a[k] < b[k]
    ensures Less(New(c, EncodeKickers(a)), New(c, EncodeKickers(b)))
  {
    EncodeLexicographic(a, b);
    SameCategoryOrder(c, EncodeKickers(a), EncodeKickers(b));
  }

  /** Without a flush and with a repeated rank, `evaluate_u64` scores what the paired path scores. */
  lemma PairedScore(ev: LookupEvaluator, ps: seq<nat>, r: HandRanking)
    requires ValidTable(ev.flushTable) && Positions(ps) && |ps| >= 5
    requires NoFlushFrom(SuitMasks(ps), 0) && HasPairs(CountRanks(ps)) && EvaluatePaired(CountRanks(ps)) == r
    ensures EvaluatePositions(ev, ps) == r
  {
  }


  /** Quads with a higher kicker rank higher. */
  lemma QuadsKickers(q: u8, p: u8, k: u8)
    requires q < 13 && p < k < 13
    ensures Less(FourOfAKindRanking(q, p), FourOfAKindRanking(q, k))
  {
    KickersOrder(FourOfAKind, [q, p], [q, k], 1);
  }

  /** Two pair with a higher kicker ranks higher. */
  lemma TwoPairKickers(a: u8, b: u8, c: u8, k: u8)
    requires a < 13 && b < 13 && c < k < 13
    ensures Less(TwoPairRanking(a, b, c), TwoPairRanking(a, b, k))
  {
    KickersOrder(TwoPair, [a, b, c], [a, b, k], 2);
  }

  /** Quads, a pair and a single: the paired path takes the pair as kicker. */
  lemma QuadsPairSingle(ps: seq<nat>, q: nat, p: nat, k: nat)
    requires Positions(ps) && q < 13 && p < 13 && k < 13 && p != q && k != q && k != p
    requires forall r | 0 <= r < 13 :: SuitsHeld(ps, r) == if r == q then 4 else if r == p then 2 else if r == k then 1 else 0
    ensures HasPairs(CountRanks(ps))
    ensures EvaluatePaired(CountRanks(ps)) == FourOfAKindRanking(q as u8, p as u8)
  {
    GroupsOfPositions(ps, [q as u8], [], [p as u8], [k as u8]);
    assert CountRanks(ps)[q] == 4;
  }

  /** Quads and a single: the single is the kicker. */
  lemma QuadsSingle(ps: seq<nat>, q: nat, k: nat)
    requires Positions(ps) && q < 13 && k < 13 && k != q
    requires forall r | 0 <= r < 13 :: SuitsHeld(ps, r) == if r == q then 4 else if r == k then 1 else 0
    ensures HasPairs(CountRanks(ps))
    ensures EvaluatePaired(CountRanks(ps)) == FourOfAKindRanking(q as u8, k as u8)
  {
    GroupsOfPositions(ps, [q as u8], [], [], [k as u8]);
    assert CountRanks(ps)[q] == 4;
  }

  /** Three pairs and a single: the paired path takes the third pair as kicker. */
  lemma ThreePairsSingle(ps: seq<nat>, a: nat, b: nat, c: nat, k: nat)
    requires Positions(ps) && a < 13 && b < a && c < b && k < 13 && k != a && k != b && k != c
    requires forall r | 0 <= r < 13 :: SuitsHeld(ps, r) == if r == a || r == b || r == c then 2 else if r == k then 1 else 0
    ensures HasPairs(CountRanks(ps))
    ensures EvaluatePaired(CountRanks(ps)) == TwoPairRanking(a as u8, b as u8, c as u8)
  {
    GroupsOfPositions(ps, [], [], [a as u8, b as u8, c as u8], [k as u8]);
    assert CountRanks(ps)[a] == 2;
  }

  /** Two pairs and a single: the single is the kicker. */
  lemma TwoPairsSingle(ps: seq<nat>, a: nat, b: nat, k: nat)
    requires Positions(ps) && a < 13 && b < a && k < 13 && k != a && k != b
    requires forall r | 0 <= r < 13 :: SuitsHeld(ps, r) == if r == a || r == b then 2 else if r == k then 1 else 0
    ensures HasPairs(CountRanks(ps))
    ensures EvaluatePaired(CountRanks(ps)) == TwoPairRanking(a as u8, b as u8, k as u8)
  {
    GroupsOfPositions(ps, [], [], [a as u8, b as u8], [k as u8]);
    assert CountRanks(ps)[a] == 2;
  }

  /** The suit holding a flush, when there is one. */
  function FlushMask(ps: seq<nat>): (m: set<nat>)
    requires Positions(ps) && !NoFlushFrom(SuitMasks(ps), 0)
    ensures |m| >= 5
  {
    SuitMasks(ps)[FlushSlot(SuitMasks(ps), 0).value]
  }

  /** Keeping the five highest of 5-6-7-8-9-A drops the 5. */
  lemma TopOfSix(mask: set<nat>, top: set<nat>)
    requires mask == {3, 4, 5, 6, 7, 12} && top <= mask && |top| == 5
    requires forall x, y | x in mask - top && y in top :: x < y
    ensures top == {4, 5, 6, 7, 12}
  {
    var x := ExtraElement(top, mask);
    assert x in mask - top && x >= 3;
    assert 3 !in top;
    SubsetOfFive(top, {4, 5, 6, 7, 12});
  }

  /** 6-7-8-9-A is no straight. */
  lemma NineHighAceNoWindow()
    ensures forall h | 3 <= h <= 12 :: {4, 5, 6, 7, 12} != Window(h)
  {
    forall h | 3 <= h <= 12 ensures {4, 5, 6, 7, 12} != Window(h) {
      if h == 3 {
        assert 0 in Window(h);
      } else {
        assert h in Window(h) && h - 4 in Window(h);
      }
    }
  }

  /** The flush suit holds 5-6-7-8-9 and the ace: the five highest are 6-7-8-9-A, which form no window. */
  lemma TopFiveNoWindow(ps: seq<nat>)
    requires Positions(ps) && !NoFlushFrom(SuitMasks(ps), 0) && FlushMask(ps) == {3, 4, 5, 6, 7, 12}
    ensures CheckFlush(ps).Some? && CheckFlush(ps).value == {4, 5, 6, 7, 12}
    ensures forall h | 3 <= h <= 12 :: CheckFlush(ps).value != Window(h)
  {
    TopOfSix(FlushMask(ps), CheckFlush(ps).value);
    NineHighAceNoWindow();
  }

  /** The flush suit holds 5-6-7-8-9 and the ace: `evaluate_u64` scores a plain flush. */
  lemma PlainFlushScore(ev: LookupEvaluator, ps: seq<nat>)
    requires ValidTable(ev.flushTable) && Positions(ps) && |ps| >= 5
    requires !NoFlushFrom(SuitMasks(ps), 0) && FlushMask(ps) == {3, 4, 5, 6, 7, 12}
    ensures Category(EvaluatePositions(ev, ps)) == Flush
  {
    TopFiveNoWindow(ps);
  }

  /** The flush suit holds exactly one window: `evaluate_u64` scores a straight flush. */
  lemma StraightFlushScore(ev: LookupEvaluator, ps: seq<nat>, h: nat)
    requires ValidTable(ev.flushTable) && Positions(ps) && |ps| >= 5 && 3 <= h <= 12
    requires !NoFlushFrom(SuitMasks(ps), 0) && FlushMask(ps) == Window(h)
    ensures Category(EvaluatePositions(ev, ps)) == StraightFlush
  {
    TopFiveWindow(ps, h);
  }

  /** A flush suit of exactly one window: the five ranks are that window. */
  lemma TopFiveWindow(ps: seq<nat>, h: nat)
    requires Positions(ps) && !NoFlushFrom(SuitMasks(ps), 0) && 3 <= h <= 12 && FlushMask(ps) == Window(h)
    ensures CheckFlush(ps).Some? && CheckFlush(ps).value == Window(h)
  {
    SubsetOfFive(CheckFlush(ps).value, Window(h));
  }

  /** A subset smaller than its superset misses one of its elements. */
  lemma ExtraElement(a: set<nat>, b: set<nat>) returns (x: nat)
    requires a <= b && |a| < |b|
    ensures x in b && x !in a
  {
    assert a * b == a;
    assert a + b == b;
    assert |b - a| > 0;
    x :| x in b - a;
  }

  /** A five-element subset of a five-element set is the set. */
  lemma SubsetOfFive(a: set<nat>, b: set<nat>)
    requires a <= b && |a| == 5 && |b| == 5
    ensures a == b
  {
    assert a * b == a;
    assert a + b == b;
    assert |b - a| == 0;
    assert b - a == {};
  }

  // ------------------------------------------- seven cards below a subset

  /** `five` is five of the cards of `seven`. */
  predicate FiveOf(seven: seq<nat>, five: seq<nat>)
  {
    |five| == 5 && forall x | x in five :: x in seven
  }

  /**
   * As written, `evaluate_u64` on more than five cards sends any repeated rank
   * down the paired path, so a straight among the cards is never looked for:
   * seven cards holding one pair score below five of them forming a straight.
   */
  lemma PairHidesStraight(ev: LookupEvaluator, seven: seq<nat>, five: seq<nat>, p: nat, h: nat)
    requires ValidTable(ev.flushTable) && Positions(seven) && Positions(five)
    requires |seven| == 7 && FiveOf(seven, five)
    requires NoFlushFrom(SuitMasks(seven), 0) && NoFlushFrom(SuitMasks(five), 0)
    requires p < 13 && SuitsHeld(seven, p) == 2
    requires forall r | 0 <= r < 13 && r != p :: SuitsHeld(seven, r) < 2
    requires 3 <= h <= 12 && forall r | 0 <= r < 13 :: SuitsHeld(five, r) == if r in Window(h) then 1 else 0
    ensures Category(EvaluatePositions(ev, seven)) == OnePair
    ensures Category(EvaluatePositions(ev, five)) == Straight
    ensures Less(EvaluatePositions(ev, seven), EvaluatePositions(ev, five))
  {
    OnePairOf(seven, p);
    WindowOnly(five, h);
    CategoryOrder(EvaluatePositions(ev, seven), EvaluatePositions(ev, five));
  }

  /**
   * As written, the quads kicker is the first of trips, pairs and singles
   * rather than the highest other rank: seven cards with quads, a low pair and
   * a higher single score below the quads with that single.
   */
  lemma QuadsKickerFromPair(ev: LookupEvaluator, seven: seq<nat>, five: seq<nat>, q: nat, p: nat, k: nat)
    requires ValidTable(ev.flushTable) && Positions(seven) && Positions(five)
    requires |seven| == 7 && FiveOf(seven, five)
    requires NoFlushFrom(SuitMasks(seven), 0) && NoFlushFrom(SuitMasks(five), 0)
    requires q < 13 && p < k < 13 && q != p && q != k
    requires forall r | 0 <= r < 13 :: SuitsHeld(seven, r) == if r == q then 4 else if r == p then 2 else if r == k then 1 else 0
    requires forall r | 0 <= r < 13 :: SuitsHeld(five, r) == if r == q then 4 else if r == k then 1 else 0
    ensures EvaluatePositions(ev, seven) == FourOfAKindRanking(q as u8, p as u8)
    ensures EvaluatePositions(ev, five) == FourOfAKindRanking(q as u8, k as u8)
    ensures Less(EvaluatePositions(ev, seven), EvaluatePositions(ev, five))
  {
    QuadsPairSingle(seven, q, p, k);
    PairedScore(ev, seven, FourOfAKindRanking(q as u8, p as u8));
    QuadsSingle(five, q, k);
    PairedScore(ev, five, FourOfAKindRanking(q as u8, k as u8));
    QuadsKickers(q as u8, p as u8, k as u8);
  }

  /**
   * As written, with three pairs the two-pair kicker is the third pair rather
   * than the highest other rank: seven cards with pairs a > b > c and a single
   * above c score below the two top pairs with that single.
   */
  lemma TwoPairKickerFromThirdPair(ev: LookupEvaluator, seven: seq<nat>, five: seq<nat>, a: nat, b: nat, c: nat, k: nat)
    requires ValidTable(ev.flushTable) && Positions(seven) && Positions(five)
    requires |seven| == 7 && FiveOf(seven, five)
    requires NoFlushFrom(SuitMasks(seven), 0) && NoFlushFrom(SuitMasks(five), 0)
    requires a < 13 && b < a && c < b && c < k < 13 && k != a && k != b
    requires forall r | 0 <= r < 13 :: SuitsHeld(seven, r) == if r == a || r == b || r == c then 2 else if r == k then 1 else 0
    requires forall r | 0 <= r < 13 :: SuitsHeld(five, r) == if r == a || r == b then 2 else if r == k then 1 else 0
    ensures EvaluatePositions(ev, seven) == TwoPairRanking(a as u8, b as u8, c as u8)
    ensures EvaluatePositions(ev, five) == TwoPairRanking(a as u8, b as u8, k as u8)
    ensures Less(EvaluatePositions(ev, seven), EvaluatePositions(ev, five))
  {
    ThreePairsSingle(seven, a, b, c, k);
    PairedScore(ev, seven, TwoPairRanking(a as u8, b as u8, c as u8));
    TwoPairsSingle(five, a, b, k);
    PairedScore(ev, five, TwoPairRanking(a as u8, b as u8, k as u8));
    TwoPairKickers(a as u8, b as u8, c as u8, k as u8);
  }

  /**
   * As written, `check_flush` keeps the five highest ranks of the flush suit,
   * so a straight flush lower in the suit is lost: 5-6-7-8-9 and an ace of
   * one suit score as a plain flush, below those five cards alone.
   */
  lemma TopFiveHidesStraightFlush(ev: LookupEvaluator, seven: seq<nat>, five: seq<nat>)
    requires ValidTable(ev.flushTable) && Positions(seven) && Positions(five)
    requires |seven| == 7 && FiveOf(seven, five)
    requires !NoFlushFrom(SuitMasks(seven), 0) && FlushMask(seven) == {3, 4, 5, 6, 7, 12}
    requires !NoFlushFrom(SuitMasks(five), 0) && FlushMask(five) == Window(7)
    ensures Category(EvaluatePositions(ev, seven)) == Flush
    ensures Category(EvaluatePositions(ev, five)) == StraightFlush
    ensures Less(EvaluatePositions(ev, seven), EvaluatePositions(ev, five))
  {
    PlainFlushScore(ev, seven);
    StraightFlushScore(ev, five, 7);
    FlushBelowStraightFlush(EvaluatePositions(ev, seven), EvaluatePositions(ev, five));
  }

  lemma FlushBelowStraightFlush(a: HandRanking, b: HandRanking)
    requires Category(a) == Flush && Category(b) == StraightFlush
    ensures Less(a, b)
  {
    CategoryOrder(a, b);
  }

  // ------------------------------------------------------ the concrete hands

  /** 5c 6d 7h 8s 9c 9d Kc as card positions. */
  function StraightSeven(): (ps: seq<nat>)
    ensures Positions(ps) && |ps| == 7
  {
    [12, 17, 22, 27, 28, 29, 44]
  }

  /** 5c 6d 7h 8s 9c. */
  function StraightFive(): (ps: seq<nat>)
    ensures Positions(ps) && |ps| == 5
  {
    [12, 17, 22, 27, 28]
  }

  lemma StraightSevenSuits()
    ensures SuitCount(StraightSeven(), 0) == 3 && SuitCount(StraightSeven(), 1) == 2
    ensures SuitCount(StraightSeven(), 2) == 1 && SuitCount(StraightSeven(), 3) == 1
  {
  }

  lemma StraightSevenRanks()
    ensures forall r | 0 <= r < 13 :: SuitsHeld(StraightSeven(), r) == if r == 7 then 2 else if 3 <= r <= 6 || r == 11 then 1 else 0
  {
  }

  lemma StraightFiveRanks()
    ensures forall r | 0 <= r < 13 :: SuitsHeld(StraightFive(), r) == if r in Window(7) then 1 else 0
  {
  }

  lemma StraightFiveOf()
    ensures FiveOf(StraightSeven(), StraightFive())
  {
  }

  lemma StraightFiveNoFlush()
    ensures NoFlushFrom(SuitMasks(StraightFive()), 0)
  {
    NoFlushOf(StraightFive());
  }

  lemma StraightSevenNoFlush()
    ensures NoFlushFrom(SuitMasks(StraightSeven()), 0)
  {
    StraightSevenSuits();
    NoFlushOf(StraightSeven());
  }

  /** 5c 6d 7h 8s 9c 9d Kc and 5c 6d 7h 8s 9c meet the shape of `PairHidesStraight`. */
  lemma PairHidesStraightWitness(ev: LookupEvaluator)
    requires ValidTable(ev.flushTable)
    ensures Less(EvaluatePositions(ev, StraightSeven()), EvaluatePositions(ev, StraightFive()))
  {
    StraightFiveOf();
    StraightSevenNoFlush();
    StraightFiveNoFlush();
    StraightSevenRanks();
    StraightFiveRanks();
    PairHidesStraight(ev, StraightSeven(), StraightFive(), 7, 7);
  }

  /** 2c 2d Kc Ac Ad Ah As. */
  function QuadsSeven(): (ps: seq<nat>)
    ensures Positions(ps) && |ps| == 7
  {
    [0, 1, 44, 48, 49, 50, 51]
  }

  /** Kc Ac Ad Ah As. */
  function QuadsFive(): (ps: seq<nat>)
    ensures Positions(ps) && |ps| == 5
  {
    [44, 48, 49, 50, 51]
  }

  lemma QuadsSevenSuits()
    ensures SuitCount(QuadsSeven(), 0) == 3 && SuitCount(QuadsSeven(), 1) == 2
    ensures SuitCount(QuadsSeven(), 2) == 1 && SuitCount(QuadsSeven(), 3) == 1
  {
  }

  lemma QuadsSevenRanks()
    ensures forall r | 0 <= r < 13 :: SuitsHeld(QuadsSeven(), r) == if r == 12 then 4 else if r == 0 then 2 else if r == 11 then 1 else 0
  {
  }

  lemma QuadsFiveRanks()
    ensures forall r | 0 <= r < 13 :: SuitsHeld(QuadsFive(), r) == if r == 12 then 4 else if r == 11 then 1 else 0
  {
  }

  lemma QuadsShapes()
    ensures FiveOf(QuadsSeven(), QuadsFive())
    ensures NoFlushFrom(SuitMasks(QuadsSeven()), 0) && NoFlushFrom(SuitMasks(QuadsFive()), 0)
  {
    QuadsSevenSuits();
    NoFlushOf(QuadsSeven());
    NoFlushOf(QuadsFive());
  }

  /** 2c 2d Kc Ac Ad Ah As scores as aces with a deuce, Kc Ac Ad Ah As as aces with a king. */
  lemma QuadsKickerFromPairWitness(ev: LookupEvaluator)
    requires ValidTable(ev.flushTable)
    ensures Less(EvaluatePositions(ev, QuadsSeven()), EvaluatePositions(ev, QuadsFive()))
  {
    QuadsShapes();
    QuadsSevenRanks();
    QuadsFiveRanks();
    QuadsKickerFromPair(ev, QuadsSeven(), QuadsFive(), 12, 0, 11);
  }

  /** 2c 2d Qc Qd Kc Kd Ah. */
  function TwoPairSeven(): (ps: seq<nat>)
    ensures Positions(ps) && |ps| == 7
  {
    [0, 1, 40, 41, 44, 45, 50]
  }

  /** Qc Qd Kc Kd Ah. */
  function TwoPairFive(): (ps: seq<nat>)
    ensures Positions(ps) && |ps| == 5
  {
    [40, 41, 44, 45, 50]
  }

  lemma TwoPairSevenSuits()
    ensures SuitCount(TwoPairSeven(), 0) == 3 && SuitCount(TwoPairSeven(), 1) == 3
    ensures SuitCount(TwoPairSeven(), 2) == 1 && SuitCount(TwoPairSeven(), 3) == 0
  {
  }

  lemma TwoPairSevenRanks()
    ensures forall r | 0 <= r < 13 :: SuitsHeld(TwoPairSeven(), r) == if r == 11 || r == 10 || r == 0 then 2 else if r == 12 then 1 else 0
  {
  }

  lemma TwoPairFiveRanks()
    ensures forall r | 0 <= r < 13 :: SuitsHeld(TwoPairFive(), r) == if r == 11 || r == 10 then 2 else if r == 12 then 1 else 0
  {
  }

  lemma TwoPairShapes()
    ensures FiveOf(TwoPairSeven(), TwoPairFive())
    ensures NoFlushFrom(SuitMasks(TwoPairSeven()), 0) && NoFlushFrom(SuitMasks(TwoPairFive()), 0)
  {
    TwoPairSevenSuits();
    NoFlushOf(TwoPairSeven());
    NoFlushOf(TwoPairFive());
  }

  /** 2c 2d Qc Qd Kc Kd Ah scores as kings and queens with a deuce, Qc Qd Kc Kd Ah with an ace. */
  lemma TwoPairKickerFromThirdPairWitness(ev: LookupEvaluator)
    requires ValidTable(ev.flushTable)
    ensures Less(EvaluatePositions(ev, TwoPairSeven()), EvaluatePositions(ev, TwoPairFive()))
  {
    TwoPairShapes();
    TwoPairSevenRanks();
    TwoPairFiveRanks();
    TwoPairKickerFromThirdPair(ev, TwoPairSeven(), TwoPairFive(), 11, 10, 0, 12);
  }

  /** A suit mask is `m` when `m` lists exactly the ranks held in that suit. */
  lemma SuitMaskIs(ps: seq<nat>, slot: nat, m: set<nat>)
    requires Positions(ps) && slot < 4
    requires forall r: nat :: r in m <==> r < 13 && 4 * r + slot in ps
    ensures SuitMasks(ps)[slot] == m
  {
    forall r: nat ensures r in SuitRanks(ps, slot) <==> r in m {
      SuitRanksHeld(ps, slot, r);
    }
  }

  /** With fewer than five cards in each of the first three suits, spades decides the flush. */
  lemma SpadesFlush(ps: seq<nat>)
    requires Positions(ps)
    requires SuitCount(ps, 0) < 5 && SuitCount(ps, 1) < 5 && SuitCount(ps, 2) < 5 && |SuitMasks(ps)[3]| >= 5
    ensures !NoFlushFrom(SuitMasks(ps), 0) && FlushMask(ps) == SuitMasks(ps)[3]
  {
    SuitRanksSize(ps, 0);
    SuitRanksSize(ps, 1);
    SuitRanksSize(ps, 2);
    var v := FlushSlot(SuitMasks(ps), 0).value;
    assert v == 0 || v == 1 || v == 2 || v == 3;
  }

  /** 2c 5s 6s 7s 8s 9s As. */
  function FlushSeven(): (ps: seq<nat>)
    ensures Positions(ps) && |ps| == 7
  {
    [0, 15, 19, 23, 27, 31, 51]
  }

  /** 5s 6s 7s 8s 9s. */
  function FlushFive(): (ps: seq<nat>)
    ensures Positions(ps) && |ps| == 5
  {
    [15, 19, 23, 27, 31]
  }

  lemma FlushSevenSuits()
    ensures SuitCount(FlushSeven(), 0) == 1 && SuitCount(FlushSeven(), 1) == 0 && SuitCount(FlushSeven(), 2) == 0
  {
  }

  lemma FlushSevenSpades()
    ensures SuitMasks(FlushSeven())[3] == {3, 4, 5, 6, 7, 12}
  {
    SuitMaskIs(FlushSeven(), 3, {3, 4, 5, 6, 7, 12});
  }

  /** The nine-high spades and the ace make six ranks. */
  lemma SixSpades()
    ensures |{3, 4, 5, 6, 7, 12}| == 6
  {
    assert {3, 4, 5, 6, 7, 12} == Window(7) + {12};
  }

  lemma FlushFiveSuits()
    ensures SuitCount(FlushFive(), 0) == 0 && SuitCount(FlushFive(), 1) == 0 && SuitCount(FlushFive(), 2) == 0
  {
  }

  lemma FlushFiveSpades()
    ensures SuitMasks(FlushFive())[3] == Window(7)
  {
    SuitMaskIs(FlushFive(), 3, {3, 4, 5, 6, 7});
  }

  lemma FlushSevenShape()
    ensures !NoFlushFrom(SuitMasks(FlushSeven()), 0) && FlushMask(FlushSeven()) == {3, 4, 5, 6, 7, 12}
  {
    FlushSevenSuits();
    FlushSevenSpades();
    SixSpades();
    SpadesFlush(FlushSeven());
  }

  lemma FlushFiveShape()
    ensures !NoFlushFrom(SuitMasks(FlushFive()), 0) && FlushMask(FlushFive()) == Window(7)
  {
    FlushFiveSuits();
    FlushFiveSpades();
    SpadesFlush(FlushFive());
  }

  lemma FlushFiveOf()
    ensures FiveOf(FlushSeven(), FlushFive())
  {
  }

  /** 2c 5s 6s 7s 8s 9s As scores as a plain flush, 5s 6s 7s 8s 9s as a straight flush. */
  lemma TopFiveHidesStraightFlushWitness(ev: LookupEvaluator)
    requires ValidTable(ev.flushTable)
    ensures Less(EvaluatePositions(ev, FlushSeven()), EvaluatePositions(ev, FlushFive()))
  {
    FlushFiveOf();
    FlushSevenShape();
    FlushFiveShape();
    TopFiveHidesStraightFlush(ev, FlushSeven(), FlushFive());
  }
}
