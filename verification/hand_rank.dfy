/**
 * Hand categories and the 32-bit ranking score of `hand_rank.rs`: the category
 * sits at bit 24 and above, five 4-bit kicker nibbles at bits 16, 12, 8, 4, 0.
 * Rankings compare as plain numbers.
 */
module HandRank {
  import opened Cards

  datatype HandCategory =
    HighCard | OnePair | TwoPair | ThreeOfAKind | Straight | Flush | FullHouse | FourOfAKind | StraightFlush

  /** The `#[repr(u8)]` discriminant. */
  function CategoryNum(c: HandCategory): (n: nat)
    ensures n <= 8
  {
    match c
    case HighCard => 0
    case OnePair => 1
    case TwoPair => 2
    case ThreeOfAKind => 3
    case Straight => 4
    case Flush => 5
    case FullHouse => 6
    case FourOfAKind => 7
    case StraightFlush => 8
  }

  type u32 = x: int | 0 <= x < 0x1_0000_0000

  /** `1 << 24`: the kicker field's size. */
  const KICKER_LIMIT: nat := 0x100_0000

  datatype HandRanking = HandRanking(score: u32)

  /** `HandRanking::MIN`. */
  const MIN: HandRanking := HandRanking(0)

  /** `HandRanking::MAX`. */
  const MAX: HandRanking := HandRanking(0xFFFF_FFFF)

  /** The derived order: by score. */
  predicate Less(a: HandRanking, b: HandRanking)
  {
    a.score < b.score
  }

  /**
   * `HandRanking::new`: `(category << 24) | kickers`. The debug assertion
   * `kickers < 1 << 24` is the precondition; under it the `|` adds disjoint bits.
   */
  function New(category: HandCategory, kickers: nat): (r: HandRanking)
    requires kickers < KICKER_LIMIT
    ensures Category(r) == category
    ensures r.score % KICKER_LIMIT == kickers
  {
    HandRanking(CategoryNum(category) * KICKER_LIMIT + kickers)
  }

  /** `category`: `score >> 24`, with anything above 8 read as `HighCard`. */
  function Category(r: HandRanking): (c: HandCategory)
    ensures r.score / KICKER_LIMIT > 8 ==> c == HighCard
    ensures r.score / KICKER_LIMIT <= 8 ==> CategoryNum(c) == r.score / KICKER_LIMIT
  {
    match r.score / KICKER_LIMIT
    case 0 => HighCard
    case 1 => OnePair
    case 2 => TwoPair
    case 3 => ThreeOfAKind
    case 4 => Straight
    case 5 => Flush
    case 6 => FullHouse
    case 7 => FourOfAKind
    case 8 => StraightFlush
    case _ => HighCard
  }

  /** A top field of 9 or more decodes as a high card, so the top of the range ranks above a straight flush. */
  lemma TopFieldOverflow()
    ensures Category(HandRanking(9 * KICKER_LIMIT)) == HighCard
    ensures Category(MAX) == HighCard
    ensures Less(New(StraightFlush, KICKER_LIMIT - 1), MAX)
  {
  }

  /** `is_royal_flush`: a straight flush whose low nibble is 12. */
  predicate IsRoyalFlush(r: HandRanking)
  {
    Category(r) == StraightFlush && r.score % 16 == 12
  }

  /** With kickers in range, a lower category always ranks below a higher one. */
  lemma CategoryDominance(c1: HandCategory, k1: nat, c2: HandCategory, k2: nat)
    requires k1 < KICKER_LIMIT && k2 < KICKER_LIMIT
    requires CategoryNum(c1) < CategoryNum(c2)
    ensures Less(New(c1, k1), New(c2, k2))
  {
  }

  /** Within one category the ranking follows the kickers. */
  lemma SameCategoryOrder(c: HandCategory, k1: nat, k2: nat)
    requires k1 < KICKER_LIMIT && k2 < KICKER_LIMIT
    ensures Less(New(c, k1), New(c, k2)) <==> k1 < k2
  {
  }

  /**
   * Rankings compare by decoded category first: a ranking of a lower category
   * (other than the catch-all high card) is below any ranking of a higher one.
   */
  lemma CategoryOrder(a: HandRanking, b: HandRanking)
    requires Category(a) != HighCard
    requires CategoryNum(Category(a)) < CategoryNum(Category(b))
    ensures Less(a, b)
  {
    assert a.score / KICKER_LIMIT == CategoryNum(Category(a));
    assert a.score < (a.score / KICKER_LIMIT + 1) * KICKER_LIMIT;
    assert b.score >= (b.score / KICKER_LIMIT) * KICKER_LIMIT;
  }

  /** Place value of the `i`-th kicker: `1 << (16 - 4 i)`. */
  function Place(i: nat): (p: nat)
    requires i < 5
    ensures p > 0
  {
    [0x10000, 0x1000, 0x100, 0x10, 0x1][i]
  }

  /** Each of the first `n` ranks fits one nibble; later ranks are not read. */
  predicate NibblesUpTo(ranks: seq<u8>, n: nat)
  {
    forall k :: 0 <= k < |ranks| && k < n ==> ranks[k] < 16
  }

  /** The ranks `encode_kickers` reads, at most the first five, each fit one nibble. */
  predicate Nibbles(ranks: seq<u8>)
  {
    NibblesUpTo(ranks, 5)
  }

  /** Upper bound of the nibbles from position `i` on. */
  function Span(i: nat): (p: nat)
    requires i <= 5
    ensures p > 0
  {
    if i == 0 then 0x100000 else Place(i - 1)
  }

  /** The nibbles `ranks[i..5]`, each at its place. */
  function EncodeFrom(ranks: seq<u8>, i: nat): (r: nat)
    requires i <= 5 && Nibbles(ranks)
    ensures r < Span(i)
    decreases 5 - i
  {
    if i == 5 || i >= |ranks| then 0
    else ranks[i] * Place(i) + EncodeFrom(ranks, i + 1)
  }

  /**
   * `encode_kickers`: the first five ranks at bits 16, 12, 8, 4, 0. Ranks are
   * nibbles, so the `|` of the source is a sum of disjoint fields.
   */
  function EncodeKickers(ranks: seq<u8>): (r: nat)
    requires Nibbles(ranks)
    ensures r < 0x100000
  {
    EncodeFrom(ranks, 0)
  }

  /** The `i`-th kicker nibble of a score. */
  function Nibble(score: nat, i: nat): nat
    requires i < 5
  {
    (score / Place(i)) % 16
  }

  /** The rank at position `i`, or 0 past the end. */
  function Kicker(ranks: seq<u8>, i: nat): nat
  {
    if i < |ranks| then ranks[i] else 0
  }

  lemma MulAtLeast(d: int, p: nat)
    requires d >= 1
    ensures d * p >= p
  {
  }

  /** Quotient and remainder are unique. */
  lemma DivModUnique(x: int, q: int, r: int, p: int)
    requires p > 0 && 0 <= r < p && x == q * p + r
    ensures x / p == q && x % p == r
  {
    var q' := x / p;
    var r' := x % p;
    assert (q - q') * p == r' - r;
    if q > q' {
      MulAtLeast(q - q', p);
    } else if q' > q {
      MulAtLeast(q' - q, p);
    }
  }

  /** The loop's sum written out: each of the first five ranks times its place. */
  lemma EncodeClosed(ranks: seq<u8>)
    requires Nibbles(ranks)
    ensures EncodeKickers(ranks) ==
      Kicker(ranks, 0) * 0x10000 + Kicker(ranks, 1) * 0x1000 + Kicker(ranks, 2) * 0x100
      + Kicker(ranks, 3) * 0x10 + Kicker(ranks, 4)
  {
  }

  /** Decoding a ranking built from a category number and encoded ranks. */
  lemma {:induction false} DecodeScore(c: nat, ranks: seq<u8>)
    requires Nibbles(ranks)
    ensures var s := c * KICKER_LIMIT + EncodeKickers(ranks);
      s / KICKER_LIMIT == c && s % KICKER_LIMIT == EncodeKickers(ranks)
      && forall i :: 0 <= i < 5 ==> Nibble(s, i) == Kicker(ranks, i)
  {
    EncodeClosed(ranks);
    var k0, k1, k2, k3, k4 := Kicker(ranks, 0), Kicker(ranks, 1), Kicker(ranks, 2), Kicker(ranks, 3), Kicker(ranks, 4);
    var e := EncodeKickers(ranks);
    var s := c * KICKER_LIMIT + e;
    DivModUnique(s, c, e, KICKER_LIMIT);
    DivModUnique(s, c * 0x100 + k0, k1 * 0x1000 + k2 * 0x100 + k3 * 0x10 + k4, 0x10000);
    DivModUnique(c * 0x100 + k0, c * 0x10, k0, 16);
    DivModUnique(s, c * 0x1000 + k0 * 0x10 + k1, k2 * 0x100 + k3 * 0x10 + k4, 0x1000);
    DivModUnique(c * 0x1000 + k0 * 0x10 + k1, c * 0x100 + k0, k1, 16);
    DivModUnique(s, c * 0x10000 + k0 * 0x100 + k1 * 0x10 + k2, k3 * 0x10 + k4, 0x100);
    DivModUnique(c * 0x10000 + k0 * 0x100 + k1 * 0x10 + k2, c * 0x1000 + k0 * 0x10 + k1, k2, 16);
    DivModUnique(s, c * 0x100000 + k0 * 0x1000 + k1 * 0x100 + k2 * 0x10 + k3, k4, 0x10);
    DivModUnique(c * 0x100000 + k0 * 0x1000 + k1 * 0x100 + k2 * 0x10 + k3, c * 0x10000 + k0 * 0x100 + k1 * 0x10 + k2, k3, 16);
    DivModUnique(s, s, 0, 1);
    DivModUnique(s, c * 0x100000 + k0 * 0x1000 + k1 * 0x100 + k2 * 0x10 + k3, k4, 16);
  }

  /** The `i`-th nibble of the encoding is `ranks[i]` for the first five ranks, and 0 past the end. */
  lemma EncodeNibbles(ranks: seq<u8>, i: nat)
    requires Nibbles(ranks) && i < 5
    ensures Nibble(EncodeKickers(ranks), i) == Kicker(ranks, i)
  {
    DecodeScore(0, ranks);
  }

  /** Only the first five ranks count. */
  lemma EncodeTakesFive(ranks: seq<u8>)
    requires Nibbles(ranks) && |ranks| > 5
    ensures EncodeKickers(ranks) == EncodeKickers(ranks[..5])
  {
    EncodeClosed(ranks);
    EncodeClosed(ranks[..5]);
  }

  /** Lexicographic order on equal-length rank lists. */
  predicate LexLess(a: seq<u8>, b: seq<u8>)
    requires |a| == |b|
  {
    exists k :: 0 <= k < |a| && a[..k] == b[..k] && a[k] < b[k]
  }

  /** Equal-length rank lists (at most five) encode in lexicographic order. */
  lemma {:induction false} EncodeLexicographic(a: seq<u8>, b: seq<u8>)
    requires Nibbles(a) && Nibbles(b) && |a| == |b| <= 5
    requires LexLess(a, b)
    ensures EncodeKickers(a) < EncodeKickers(b)
  {
    var k :| 0 <= k < |a| && a[..k] == b[..k] && a[k] < b[k];
    EncodeClosed(a);
    EncodeClosed(b);
    forall j | 0 <= j < k
      ensures Kicker(a, j) == Kicker(b, j)
    {
      assert a[j] == a[..k][j] == b[..k][j] == b[j];
    }
  }

  /** Lexicographic order is total on lists of one length. */
  lemma LexTotal(a: seq<u8>, b: seq<u8>)
    requires |a| == |b|
    ensures a == b || LexLess(a, b) || LexLess(b, a)
  {
    if a != b {
      var k :| 0 <= k < |a| && a[k] != b[k];
      while k > 0 && a[..k] != b[..k]
        invariant 0 <= k < |a| && a[k] != b[k]
        decreases k
      {
        var k' :| 0 <= k' < k && a[k'] != b[k'];
        k := k';
      }
      if k > 0 {
        assert a[..k] == b[..k];
      }
      assert a[..k] == b[..k];
    }
  }

  /** Decoding the nibbles of a ranking built from `ranks`. */
  lemma NibblesOfNew(c: HandCategory, ranks: seq<u8>)
    requires Nibbles(ranks)
    ensures forall i :: 0 <= i < 5 ==> Nibble(New(c, EncodeKickers(ranks)).score, i) == Kicker(ranks, i)
  {
    DecodeScore(CategoryNum(c), ranks);
  }

  /** `high_card`. */
  function HighCardRanking(kickers: seq<u8>): (r: HandRanking)
    requires Nibbles(kickers)
    ensures Category(r) == HighCard
    ensures forall i :: 0 <= i < 5 ==> Nibble(r.score, i) == Kicker(kickers, i)
  {
    NibblesOfNew(HighCard, kickers);
    New(HighCard, EncodeKickers(kickers))
  }

  /** `one_pair`: the pair rank, then at most three kickers. */
  function OnePairRanking(pairRank: u8, kickers: seq<u8>): (r: HandRanking)
    requires pairRank < 16 && NibblesUpTo(kickers, 3)
    ensures Category(r) == OnePair
    ensures Nibble(r.score, 0) == pairRank
    ensures forall i :: 1 <= i < 5 ==> Nibble(r.score, i) == if i - 1 < |kickers| && i <= 3 then kickers[i - 1] else 0
  {
    var ranks := [pairRank] + kickers[..if |kickers| < 3 then |kickers| else 3];
    NibblesOfNew(OnePair, ranks);
    New(OnePair, EncodeKickers(ranks))
  }

  /** `two_pair`: high pair, low pair, kicker. */
  function TwoPairRanking(highPair: u8, lowPair: u8, kicker: u8): (r: HandRanking)
    requires highPair < 16 && lowPair < 16 && kicker < 16
    ensures Category(r) == TwoPair
    ensures Nibble(r.score, 0) == highPair && Nibble(r.score, 1) == lowPair && Nibble(r.score, 2) == kicker
    ensures Nibble(r.score, 3) == 0 && Nibble(r.score, 4) == 0
  {
    NibblesOfNew(TwoPair, [highPair, lowPair, kicker]);
    New(TwoPair, EncodeKickers([highPair, lowPair, kicker]))
  }

  /** `three_of_a_kind`: the trips rank, then at most two kickers. */
  function ThreeOfAKindRanking(tripsRank: u8, kickers: seq<u8>): (r: HandRanking)
    requires tripsRank < 16 && NibblesUpTo(kickers, 2)
    ensures Category(r) == ThreeOfAKind
    ensures Nibble(r.score, 0) == tripsRank
    ensures forall i :: 1 <= i < 5 ==> Nibble(r.score, i) == if i - 1 < |kickers| && i <= 2 then kickers[i - 1] else 0
  {
    var ranks := [tripsRank] + kickers[..if |kickers| < 2 then |kickers| else 2];
    NibblesOfNew(ThreeOfAKind, ranks);
    New(ThreeOfAKind, EncodeKickers(ranks))
  }

  /** `straight`: the high card as the whole kicker field. */
  function StraightRanking(highCard: u8): (r: HandRanking)
    ensures Category(r) == Straight
    ensures r.score % KICKER_LIMIT == highCard
  {
    New(Straight, highCard)
  }

  /** `flush`. */
  function FlushRanking(kickers: seq<u8>): (r: HandRanking)
    requires Nibbles(kickers)
    ensures Category(r) == Flush
    ensures forall i :: 0 <= i < 5 ==> Nibble(r.score, i) == Kicker(kickers, i)
  {
    NibblesOfNew(Flush, kickers);
    New(Flush, EncodeKickers(kickers))
  }

  /** `full_house`: trips rank, then pair rank. */
  function FullHouseRanking(tripsRank: u8, pairRank: u8): (r: HandRanking)
    requires tripsRank < 16 && pairRank < 16
    ensures Category(r) == FullHouse
    ensures Nibble(r.score, 0) == tripsRank && Nibble(r.score, 1) == pairRank
    ensures forall i :: 2 <= i < 5 ==> Nibble(r.score, i) == 0
  {
    NibblesOfNew(FullHouse, [tripsRank, pairRank]);
    New(FullHouse, EncodeKickers([tripsRank, pairRank]))
  }

  /** `four_of_a_kind`: quads rank, then kicker. */
  function FourOfAKindRanking(quadsRank: u8, kicker: u8): (r: HandRanking)
    requires quadsRank < 16 && kicker < 16
    ensures Category(r) == FourOfAKind
    ensures Nibble(r.score, 0) == quadsRank && Nibble(r.score, 1) == kicker
    ensures forall i :: 2 <= i < 5 ==> Nibble(r.score, i) == 0
  {
    NibblesOfNew(FourOfAKind, [quadsRank, kicker]);
    New(FourOfAKind, EncodeKickers([quadsRank, kicker]))
  }

  /** `straight_flush`: the high card as the whole kicker field. */
  function StraightFlushRanking(highCard: u8): (r: HandRanking)
    ensures Category(r) == StraightFlush
    ensures r.score % KICKER_LIMIT == highCard
    ensures IsRoyalFlush(r) <==> highCard % 16 == 12
  {
    var r := New(StraightFlush, highCard);
    DivModUnique(r.score, 8 * KICKER_LIMIT / 16 + highCard / 16, highCard % 16, 16);
    r
  }

  /** `royal_flush`: the ace-high straight flush. */
  function RoyalFlushRanking(): (r: HandRanking)
    ensures IsRoyalFlush(r)
  {
    StraightFlushRanking(12)
  }

  /** The royal flush is the best straight flush the evaluator produces, and the king-high one is not royal. */
  lemma RoyalFlushFacts()
    ensures !IsRoyalFlush(StraightFlushRanking(11))
    ensures forall h: u8 :: h <= 12 ==> !Less(RoyalFlushRanking(), StraightFlushRanking(h))
  {
  }
}
