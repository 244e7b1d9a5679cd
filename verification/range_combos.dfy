/**
 * Expanding one hand pattern into concrete hole cards (`HandPattern::to_hole_cards`
 * and the three `generate_*_combos` helpers of `range.rs`), away from the dead cards.
 */
module RangeCombos {
  import opened Cards
  import opened CardSets
  import opened Hands
  import opened Ranges

  /** The suit order every generator walks: spades, hearts, diamonds, clubs. */
  const GEN_SUITS: seq<Suit> := [Spades, Hearts, Diamonds, Clubs]

  /** The position of a suit in `GEN_SUITS`. */
  function GenSlot(s: Suit): (i: nat)
    ensures i < 4 && GEN_SUITS[i] == s
  {
    match s
    case Spades => 0
    case Hearts => 1
    case Diamonds => 2
    case Clubs => 3
  }

  /** A combo survives when neither of its cards is dead. */
  predicate Live(h: HoleCards, dead: CardSet)
  {
    !Contains(dead, h.high) && !Contains(dead, h.low)
  }

  /** `generate_pair_combos` visits the suit positions `i < j`, in loop order. */
  const PAIR_SLOTS: seq<(nat, nat)> := [(0, 1), (0, 2), (0, 3), (1, 2), (1, 3), (2, 3)]

  /** `generate_suited_combos` gives both cards the same suit. */
  const SUITED_SLOTS: seq<(nat, nat)> := [(0, 0), (1, 1), (2, 2), (3, 3)]

  /** `generate_offsuit_combos` visits every pair of different suit positions, in loop order. */
  const OFFSUIT_SLOTS: seq<(nat, nat)> :=
    [(0, 1), (0, 2), (0, 3), (1, 0), (1, 2), (1, 3), (2, 0), (2, 1), (2, 3), (3, 0), (3, 1), (3, 2)]

  predicate SuitSlots(slots: seq<(nat, nat)>)
  {
    forall k | 0 <= k < |slots| :: slots[k].0 < 4 && slots[k].1 < 4
  }

  /** The combo a generator builds for one pair of suit positions: `HoleCards::new(c1, c2)`. */
  function Candidate(high: Value, low: Value, slot: (nat, nat)): HoleCards
    requires slot.0 < 4 && slot.1 < 4
  {
    NewHole(Card(high, GEN_SUITS[slot.0]), Card(low, GEN_SUITS[slot.1]))
  }

  /** The body shared by the generators: one candidate per suit-position pair, kept when it is live. */
  function Generate(high: Value, low: Value, slots: seq<(nat, nat)>, dead: CardSet): (r: seq<HoleCards>)
    requires SuitSlots(slots)
    ensures |r| <= |slots|
    ensures forall h :: h in r <==> Live(h, dead) && exists slot :: slot in slots && slot.0 < 4 && slot.1 < 4 && h == Candidate(high, low, slot)
    ensures dead.bits == {} ==> |r| == |slots|
  {
    if slots == [] then []
    else
      var init := Generate(high, low, slots[..|slots| - 1], dead);
      var last := slots[|slots| - 1];
      assert slots == slots[..|slots| - 1] + [last];
      var h := Candidate(high, low, last);
      if Live(h, dead) then init + [h] else init
  }

  /** `generate_pair_combos`. */
  function PairCombos(v: Value, dead: CardSet): seq<HoleCards>
  {
    Generate(v, v, PAIR_SLOTS, dead)
  }

  /** `generate_suited_combos`. */
  function SuitedCombos(high: Value, low: Value, dead: CardSet): seq<HoleCards>
  {
    Generate(high, low, SUITED_SLOTS, dead)
  }

  /** `generate_offsuit_combos`. */
  function OffsuitCombos(high: Value, low: Value, dead: CardSet): seq<HoleCards>
  {
    Generate(high, low, OFFSUIT_SLOTS, dead)
  }

  /**
   * The loop over `Value::all_values()` from position `k` on: every value whose
   * rank lies in `a..b` contributes `gen(value)`, in ascending order.
   */
  function Expand(k: nat, a: nat, b: nat, gen: Value -> seq<HoleCards>): (r: seq<HoleCards>)
    requires k <= 13
    ensures forall h :: h in r <==> exists val :: k <= Rank(val) && a <= Rank(val) < b && h in gen(val)
    decreases 13 - k
  {
    if k == 13 then
      assert forall val :: Rank(val) < 13 by {
        forall val
          ensures Rank(val) < 13
        {
          ValuesRanks(val);
        }
      }
      []
    else
      var val := VALUES[k];
      ValuesRankInverse(k);
      var rest := Expand(k + 1, a, b, gen);
      assert forall w :: k <= Rank(w) ==> w == val || k + 1 <= Rank(w) by {
        forall w | k <= Rank(w) && w != val
          ensures k + 1 <= Rank(w)
        {
          ValuesRanks(w);
        }
      }
      (if a <= k < b then gen(val) else []) + rest
  }

  /** The body of the `PairPlus` loop: the pairs of one value. */
  function PairGen(dead: CardSet): Value -> seq<HoleCards>
  {
    val => PairCombos(val, dead)
  }

  /** The body of the `SuitedPlus` loop: the suited combos of `high` with one lower value. */
  function SuitedGen(high: Value, dead: CardSet): Value -> seq<HoleCards>
  {
    val => SuitedCombos(high, val, dead)
  }

  /** The body of the `OffsuitPlus` loop. */
  function OffsuitGen(high: Value, dead: CardSet): Value -> seq<HoleCards>
  {
    val => OffsuitCombos(high, val, dead)
  }

  /** The body of the `AnyPlus` loop: suited combos, then offsuit ones. */
  function AnyGen(high: Value, dead: CardSet): Value -> seq<HoleCards>
  {
    val => SuitedCombos(high, val, dead) + OffsuitCombos(high, val, dead)
  }

  /** `HandPattern::to_hole_cards`: the combos of one pattern that avoid the dead cards. */
  function PatternCombos(p: HandPattern, dead: CardSet): seq<HoleCards>
  {
    match p
    case Pair(v) => PairCombos(v, dead)
    case PairPlus(v) => Expand(0, Rank(v), 13, PairGen(dead))
    case Suited(h, l) => SuitedCombos(h, l, dead)
    case SuitedPlus(h, l) => Expand(0, Rank(l), Rank(h), SuitedGen(h, dead))
    case Offsuit(h, l) => OffsuitCombos(h, l, dead)
    case OffsuitPlus(h, l) => Expand(0, Rank(l), Rank(h), OffsuitGen(h, dead))
    case Any(h, l) => SuitedCombos(h, l, dead) + OffsuitCombos(h, l, dead)
    case AnyPlus(h, l) => Expand(0, Rank(l), Rank(h), AnyGen(h, dead))
  }

  /** Which hole cards a pattern stands for, stated without the generators. */
  predicate Matches(p: HandPattern, x: HoleCards)
  {
    match p
    case Pair(v) => x.high.value == v && x.low.value == v && x.high != x.low
    case PairPlus(v) => x.high.value == x.low.value && Rank(v) <= Rank(x.high.value) && x.high != x.low
    case Suited(h, l) => x.high.value == h && x.low.value == l && x.high.suit == x.low.suit
    case SuitedPlus(h, l) =>
      x.high.value == h && Rank(l) <= Rank(x.low.value) < Rank(h) && x.high.suit == x.low.suit
    case Offsuit(h, l) => x.high.value == h && x.low.value == l && x.high.suit != x.low.suit
    case OffsuitPlus(h, l) =>
      x.high.value == h && Rank(l) <= Rank(x.low.value) < Rank(h) && x.high.suit != x.low.suit
    case Any(h, l) => x.high.value == h && x.low.value == l
    case AnyPlus(h, l) => x.high.value == h && Rank(l) <= Rank(x.low.value) < Rank(h)
  }

  // ------------------------------------------------------------ membership

  /** With a strictly higher first card, `HoleCards::new` keeps the order given. */
  lemma NewHoleHigher(c1: Card, c2: Card)
    requires Rank(c2.value) < Rank(c1.value)
    ensures NewHole(c1, c2) == HolePair(c1, c2)
  {
  }

  /** The suit positions of the pair generator are the pairs `i < j` below 4. */
  lemma PairSlotsAre()
    ensures SuitSlots(PAIR_SLOTS)
    ensures forall slot: (nat, nat) :: slot in PAIR_SLOTS <==> slot.0 < slot.1 < 4
  {
  }

  /** The suit positions of the suited generator are the pairs `(i, i)` below 4. */
  lemma SuitedSlotsAre()
    ensures SuitSlots(SUITED_SLOTS)
    ensures forall slot: (nat, nat) :: slot in SUITED_SLOTS <==> slot.0 == slot.1 < 4
  {
  }

  /** The suit positions of the offsuit generator are the pairs `i != j` below 4. */
  lemma OffsuitSlotsAre()
    ensures SuitSlots(OFFSUIT_SLOTS)
    ensures forall slot: (nat, nat) :: slot in OFFSUIT_SLOTS <==> slot.0 < 4 && slot.1 < 4 && slot.0 != slot.1
  {
  }

  /** `generate_pair_combos` yields exactly the live pairs of two different cards of the value. */
  lemma PairMembers(v: Value, dead: CardSet, x: HoleCards)
    ensures x in PairCombos(v, dead) <==>
      x.high.value == v && x.low.value == v && x.high != x.low && Live(x, dead)
  {
    PairSlotsAre();
    PairSlotMembers(v, PAIR_SLOTS, dead, x);
  }

  lemma PairSlotMembers(v: Value, slots: seq<(nat, nat)>, dead: CardSet, x: HoleCards)
    requires SuitSlots(slots)
    requires forall slot: (nat, nat) :: slot in slots <==> slot.0 < slot.1 < 4
    ensures x in Generate(v, v, slots, dead) <==>
      x.high.value == v && x.low.value == v && x.high != x.low && Live(x, dead)
  {
    if x in Generate(v, v, slots, dead) {
      var slot :| slot in slots && slot.0 < 4 && slot.1 < 4 && x == Candidate(v, v, slot);
      assert GEN_SUITS[slot.0] != GEN_SUITS[slot.1];
    }
    if x.high.value == v && x.low.value == v && x.high != x.low && Live(x, dead) {
      var i, j := GenSlot(x.high.suit), GenSlot(x.low.suit);
      PairFromSlots(v, x, i, j);
      if i < j {
        assert (i, j) in slots;
      } else {
        assert (j, i) in slots;
      }
    }
  }

  /** A pair of the value is the candidate of its two suit positions, taken in increasing order. */
  lemma PairFromSlots(v: Value, x: HoleCards, i: nat, j: nat)
    requires i < 4 && j < 4 && x.high == Card(v, GEN_SUITS[i]) && x.low == Card(v, GEN_SUITS[j])
    ensures x == Candidate(v, v, (if i < j then i else j, if i < j then j else i))
  {
    NewHoleCanonical(x);
    NewHoleSymmetric(x.high, x.low);
  }

  /** `generate_suited_combos` yields exactly the live same-suit combos of the two values. */
  lemma SuitedMembers(high: Value, low: Value, dead: CardSet, x: HoleCards)
    requires Rank(low) < Rank(high)
    ensures x in SuitedCombos(high, low, dead) <==>
      x.high.value == high && x.low.value == low && x.high.suit == x.low.suit && Live(x, dead)
  {
    SuitedSlotsAre();
    TwoValueMembers(high, low, SUITED_SLOTS, true, dead, x);
  }

  /** `generate_offsuit_combos` yields exactly the live two-suit combos of the two values. */
  lemma OffsuitMembers(high: Value, low: Value, dead: CardSet, x: HoleCards)
    requires Rank(low) < Rank(high)
    ensures x in OffsuitCombos(high, low, dead) <==>
      x.high.value == high && x.low.value == low && x.high.suit != x.low.suit && Live(x, dead)
  {
    OffsuitSlotsAre();
    TwoValueMembers(high, low, OFFSUIT_SLOTS, false, dead, x);
  }

  /** The suited (`same`) or offsuit (`!same`) generator over any list holding exactly its suit positions. */
  lemma TwoValueMembers(high: Value, low: Value, slots: seq<(nat, nat)>, same: bool, dead: CardSet, x: HoleCards)
    requires Rank(low) < Rank(high) && SuitSlots(slots)
    requires forall slot: (nat, nat) :: slot in slots <==> slot.0 < 4 && slot.1 < 4 && (slot.0 == slot.1 <==> same)
    ensures x in Generate(high, low, slots, dead) <==>
      x.high.value == high && x.low.value == low && (x.high.suit == x.low.suit <==> same) && Live(x, dead)
  {
    if x in Generate(high, low, slots, dead) {
      TwoValueSound(high, low, slots, same, dead, x);
    }
    if x.high.value == high && x.low.value == low && (x.high.suit == x.low.suit <==> same) && Live(x, dead) {
      TwoValueComplete(high, low, slots, same, dead, x);
    }
  }

  lemma TwoValueSound(high: Value, low: Value, slots: seq<(nat, nat)>, same: bool, dead: CardSet, x: HoleCards)
    requires Rank(low) < Rank(high) && SuitSlots(slots)
    requires forall slot: (nat, nat) :: slot in slots <==> slot.0 < 4 && slot.1 < 4 && (slot.0 == slot.1 <==> same)
    requires x in Generate(high, low, slots, dead)
    ensures x.high.value == high && x.low.value == low && (x.high.suit == x.low.suit <==> same) && Live(x, dead)
  {
    var slot :| slot in slots && slot.0 < 4 && slot.1 < 4 && x == Candidate(high, low, slot);
    NewHoleHigher(Card(high, GEN_SUITS[slot.0]), Card(low, GEN_SUITS[slot.1]));
    assert GEN_SUITS[slot.0] == GEN_SUITS[slot.1] <==> slot.0 == slot.1;
  }

  lemma TwoValueComplete(high: Value, low: Value, slots: seq<(nat, nat)>, same: bool, dead: CardSet, x: HoleCards)
    requires Rank(low) < Rank(high) && SuitSlots(slots)
    requires forall slot: (nat, nat) :: slot in slots <==> slot.0 < 4 && slot.1 < 4 && (slot.0 == slot.1 <==> same)
    requires x.high.value == high && x.low.value == low && (x.high.suit == x.low.suit <==> same) && Live(x, dead)
    ensures x in Generate(high, low, slots, dead)
  {
    var i, j := GenSlot(x.high.suit), GenSlot(x.low.suit);
    assert (i, j) in slots;
    NewHoleHigher(x.high, x.low);
    assert x == Candidate(high, low, (i, j));
  }

  /**
   * A parsed pattern expands to exactly the live hole cards it stands for:
   * `PairPlus` covers the values from its own up, the other `+` patterns the
   * low values from theirs up to (not including) the high value.
   */
  lemma PatternMembers(p: HandPattern, dead: CardSet, x: HoleCards)
    requires ValidPattern(p)
    ensures x in PatternCombos(p, dead) <==> Matches(p, x) && Live(x, dead)
  {
    match p
    case Pair(v) => PairMembers(v, dead, x);
    case PairPlus(v) => PairPlusMembers(v, dead, x);
    case Suited(h, l) => SuitedMembers(h, l, dead, x);
    case SuitedPlus(h, l) => SuitedPlusMembers(h, l, dead, x);
    case Offsuit(h, l) => OffsuitMembers(h, l, dead, x);
    case OffsuitPlus(h, l) => OffsuitPlusMembers(h, l, dead, x);
    case Any(h, l) =>
      SuitedMembers(h, l, dead, x);
      OffsuitMembers(h, l, dead, x);
    case AnyPlus(h, l) => AnyPlusMembers(h, l, dead, x);
  }

  lemma PairPlusMembers(v: Value, dead: CardSet, x: HoleCards)
    ensures x in PatternCombos(PairPlus(v), dead) <==> Matches(PairPlus(v), x) && Live(x, dead)
  {
    if x in PatternCombos(PairPlus(v), dead) {
      PairPlusSound(v, dead, x);
    }
    if Matches(PairPlus(v), x) && Live(x, dead) {
      PairPlusComplete(v, dead, x);
    }
  }

  lemma PairPlusSound(v: Value, dead: CardSet, x: HoleCards)
    requires x in PatternCombos(PairPlus(v), dead)
    ensures Matches(PairPlus(v), x) && Live(x, dead)
  {
    var val :| Rank(v) <= Rank(val) < 13 && x in PairCombos(val, dead);
    PairMembers(val, dead, x);
  }

  lemma PairPlusComplete(v: Value, dead: CardSet, x: HoleCards)
    requires Matches(PairPlus(v), x) && Live(x, dead)
    ensures x in PatternCombos(PairPlus(v), dead)
  {
    PairMembers(x.high.value, dead, x);
    ExpandHas(0, Rank(v), 13, PairGen(dead), x.high.value, x);
  }

  lemma SuitedPlusMembers(h: Value, l: Value, dead: CardSet, x: HoleCards)
    ensures x in PatternCombos(SuitedPlus(h, l), dead) <==> Matches(SuitedPlus(h, l), x) && Live(x, dead)
  {
    if x in PatternCombos(SuitedPlus(h, l), dead) {
      SuitedPlusSound(h, l, dead, x);
    }
    if Matches(SuitedPlus(h, l), x) && Live(x, dead) {
      SuitedPlusComplete(h, l, dead, x);
    }
  }

  lemma SuitedPlusSound(h: Value, l: Value, dead: CardSet, x: HoleCards)
    requires x in PatternCombos(SuitedPlus(h, l), dead)
    ensures Matches(SuitedPlus(h, l), x) && Live(x, dead)
  {
    var val :| Rank(l) <= Rank(val) < Rank(h) && x in SuitedCombos(h, val, dead);
    SuitedMembers(h, val, dead, x);
  }

  lemma SuitedPlusComplete(h: Value, l: Value, dead: CardSet, x: HoleCards)
    requires Matches(SuitedPlus(h, l), x) && Live(x, dead)
    ensures x in PatternCombos(SuitedPlus(h, l), dead)
  {
    SuitedMembers(h, x.low.value, dead, x);
    ExpandHas(0, Rank(l), Rank(h), SuitedGen(h, dead), x.low.value, x);
  }

  lemma OffsuitPlusMembers(h: Value, l: Value, dead: CardSet, x: HoleCards)
    ensures x in PatternCombos(OffsuitPlus(h, l), dead) <==> Matches(OffsuitPlus(h, l), x) && Live(x, dead)
  {
    if x in PatternCombos(OffsuitPlus(h, l), dead) {
      OffsuitPlusSound(h, l, dead, x);
    }
    if Matches(OffsuitPlus(h, l), x) && Live(x, dead) {
      OffsuitPlusComplete(h, l, dead, x);
    }
  }

  lemma OffsuitPlusSound(h: Value, l: Value, dead: CardSet, x: HoleCards)
    requires x in PatternCombos(OffsuitPlus(h, l), dead)
    ensures Matches(OffsuitPlus(h, l), x) && Live(x, dead)
  {
    var val :| Rank(l) <= Rank(val) < Rank(h) && x in OffsuitCombos(h, val, dead);
    OffsuitMembers(h, val, dead, x);
  }

  lemma OffsuitPlusComplete(h: Value, l: Value, dead: CardSet, x: HoleCards)
    requires Matches(OffsuitPlus(h, l), x) && Live(x, dead)
    ensures x in PatternCombos(OffsuitPlus(h, l), dead)
  {
    OffsuitMembers(h, x.low.value, dead, x);
    ExpandHas(0, Rank(l), Rank(h), OffsuitGen(h, dead), x.low.value, x);
  }

  lemma AnyPlusMembers(h: Value, l: Value, dead: CardSet, x: HoleCards)
    ensures x in PatternCombos(AnyPlus(h, l), dead) <==> Matches(AnyPlus(h, l), x) && Live(x, dead)
  {
    if x in PatternCombos(AnyPlus(h, l), dead) {
      AnyPlusSound(h, l, dead, x);
    }
    if Matches(AnyPlus(h, l), x) && Live(x, dead) {
      AnyPlusComplete(h, l, dead, x);
    }
  }

  lemma AnyPlusSound(h: Value, l: Value, dead: CardSet, x: HoleCards)
    requires x in PatternCombos(AnyPlus(h, l), dead)
    ensures Matches(AnyPlus(h, l), x) && Live(x, dead)
  {
    var val :| Rank(l) <= Rank(val) < Rank(h) && x in SuitedCombos(h, val, dead) + OffsuitCombos(h, val, dead);
    SuitedMembers(h, val, dead, x);
    OffsuitMembers(h, val, dead, x);
  }

  lemma AnyPlusComplete(h: Value, l: Value, dead: CardSet, x: HoleCards)
    requires Matches(AnyPlus(h, l), x) && Live(x, dead)
    ensures x in PatternCombos(AnyPlus(h, l), dead)
  {
    SuitedMembers(h, x.low.value, dead, x);
    OffsuitMembers(h, x.low.value, dead, x);
    ExpandHas(0, Rank(l), Rank(h), AnyGen(h, dead), x.low.value, x);
  }

  /** A combo produced for a value the loop admits is in the loop's output. */
  lemma ExpandHas(k: nat, a: nat, b: nat, gen: Value -> seq<HoleCards>, val: Value, x: HoleCards)
    requires k <= 13 && k <= Rank(val) && a <= Rank(val) < b && x in gen(val)
    ensures x in Expand(k, a, b, gen)
  {
  }

  // ------------------------------------------------------------ counts

  /** How many ranks in `k..13` lie in `a..b`: the values a `+` loop admits from position `k` on. */
  function Span(k: nat, a: nat, b: nat): nat
  {
    var lo := if k < a then a else k;
    if lo < b then b - lo else 0
  }

  /** When every admitted value yields `n` combos, the loop yields `n` per admitted value. */
  lemma {:induction false} ExpandCount(k: nat, a: nat, b: nat, gen: Value -> seq<HoleCards>, n: nat)
    requires k <= 13 && b <= 13
    requires forall val :: |gen(val)| == n
    ensures |Expand(k, a, b, gen)| == n * Span(k, a, b)
    decreases 13 - k
  {
    if k < 13 {
      ExpandCount(k + 1, a, b, gen, n);
      ExpandStep(k, a, b, gen);
      var here := if a <= k < b then 1 else 0;
      assert Span(k, a, b) == here + Span(k + 1, a, b);
      MulSplit(n, here, Span(k + 1, a, b));
    }
  }

  /** One step of the loop: the current value's combos (when admitted), then the rest. */
  lemma ExpandStep(k: nat, a: nat, b: nat, gen: Value -> seq<HoleCards>)
    requires k < 13
    ensures |Expand(k, a, b, gen)| == (if a <= k < b then |gen(VALUES[k])| else 0) + |Expand(k + 1, a, b, gen)|
  {
  }

  lemma MulSplit(n: nat, x: nat, y: nat)
    ensures n * (x + y) == n * x + n * y
  {
  }

  /** The number of combos of a pattern when no card is dead. */
  function PatternSize(p: HandPattern): nat
  {
    match p
    case Pair(_) => 6
    case PairPlus(v) => 6 * (13 - Rank(v))
    case Suited(_, _) => 4
    case SuitedPlus(h, l) => 4 * Span(0, Rank(l), Rank(h))
    case Offsuit(_, _) => 12
    case OffsuitPlus(h, l) => 12 * Span(0, Rank(l), Rank(h))
    case Any(_, _) => 16
    case AnyPlus(h, l) => 16 * Span(0, Rank(l), Rank(h))
  }

  /** Each generator yields one combo per suit-position pair when nothing is dead. */
  lemma GeneratorCounts(high: Value, low: Value, dead: CardSet)
    requires dead.bits == {}
    ensures |PairCombos(high, dead)| == 6
    ensures |SuitedCombos(high, low, dead)| == 4
    ensures |OffsuitCombos(high, low, dead)| == 12
  {
    PairSlotsAre();
    SuitedSlotsAre();
    OffsuitSlotsAre();
  }

  /**
   * With no dead card: a pair has 6 combos, suited 4, offsuit 12, either 16,
   * and a `+` pattern that many per value its loop admits.
   */
  lemma PatternCount(p: HandPattern, dead: CardSet)
    requires dead.bits == {}
    ensures |PatternCombos(p, dead)| == PatternSize(p)
  {
    match p
    case Pair(v) => GeneratorCounts(v, v, dead);
    case PairPlus(v) => PairPlusCount(v, dead);
    case Suited(h, l) => GeneratorCounts(h, l, dead);
    case SuitedPlus(h, l) => SuitedPlusCount(h, l, dead);
    case Offsuit(h, l) => GeneratorCounts(h, l, dead);
    case OffsuitPlus(h, l) => OffsuitPlusCount(h, l, dead);
    case Any(h, l) => GeneratorCounts(h, l, dead);
    case AnyPlus(h, l) => AnyPlusCount(h, l, dead);
  }

  lemma PairPlusCount(v: Value, dead: CardSet)
    requires dead.bits == {}
    ensures |Expand(0, Rank(v), 13, PairGen(dead))| == 6 * (13 - Rank(v))
  {
    forall val
      ensures |PairGen(dead)(val)| == 6
    {
      GeneratorCounts(val, val, dead);
    }
    ValuesRanks(v);
    assert Span(0, Rank(v), 13) == 13 - Rank(v);
    ExpandCount(0, Rank(v), 13, PairGen(dead), 6);
  }

  lemma SuitedPlusCount(h: Value, l: Value, dead: CardSet)
    requires dead.bits == {}
    ensures |Expand(0, Rank(l), Rank(h), SuitedGen(h, dead))| == 4 * Span(0, Rank(l), Rank(h))
  {
    forall val
      ensures |SuitedGen(h, dead)(val)| == 4
    {
      GeneratorCounts(h, val, dead);
    }
    ValuesRanks(h);
    ExpandCount(0, Rank(l), Rank(h), SuitedGen(h, dead), 4);
  }

  lemma OffsuitPlusCount(h: Value, l: Value, dead: CardSet)
    requires dead.bits == {}
    ensures |Expand(0, Rank(l), Rank(h), OffsuitGen(h, dead))| == 12 * Span(0, Rank(l), Rank(h))
  {
    forall val
      ensures |OffsuitGen(h, dead)(val)| == 12
    {
      GeneratorCounts(h, val, dead);
    }
    ValuesRanks(h);
    ExpandCount(0, Rank(l), Rank(h), OffsuitGen(h, dead), 12);
  }

  lemma AnyPlusCount(h: Value, l: Value, dead: CardSet)
    requires dead.bits == {}
    ensures |Expand(0, Rank(l), Rank(h), AnyGen(h, dead))| == 16 * Span(0, Rank(l), Rank(h))
  {
    forall val
      ensures |AnyGen(h, dead)(val)| == 16
    {
      GeneratorCounts(h, val, dead);
    }
    ValuesRanks(h);
    ExpandCount(0, Rank(l), Rank(h), AnyGen(h, dead), 16);
  }

  // ------------------------------------------------------------ no repeats

  predicate Distinct(s: seq<HoleCards>)
  {
    forall i, j | 0 <= i < j < |s| :: s[i] != s[j]
  }

  lemma DistinctConcat(a: seq<HoleCards>, b: seq<HoleCards>)
    requires Distinct(a) && Distinct(b)
    requires forall x | x in a :: x !in b
    ensures Distinct(a + b)
  {
    forall i, j | 0 <= i < j < |a + b|
      ensures (a + b)[i] != (a + b)[j]
    {
      if i < |a| && j >= |a| {
        assert (a + b)[i] in a && (a + b)[j] in b;
      }
    }
  }

  /** A generator repeats nothing when different suit-position pairs give different combos. */
  lemma {:induction false} GenerateDistinct(high: Value, low: Value, slots: seq<(nat, nat)>, dead: CardSet)
    requires SuitSlots(slots)
    requires forall k, l | 0 <= k < l < |slots| :: Candidate(high, low, slots[k]) != Candidate(high, low, slots[l])
    ensures Distinct(Generate(high, low, slots, dead))
  {
    if slots != [] {
      var init := slots[..|slots| - 1];
      var last := slots[|slots| - 1];
      GenerateDistinct(high, low, init, dead);
    }
  }

  /** For two different values the combo fixes its suit positions. */
  lemma CandidateInjective(high: Value, low: Value, s1: (nat, nat), s2: (nat, nat))
    requires Rank(low) < Rank(high) && s1.0 < 4 && s1.1 < 4 && s2.0 < 4 && s2.1 < 4
    ensures Candidate(high, low, s1) == Candidate(high, low, s2) ==> s1 == s2
  {
    NewHoleHigher(Card(high, GEN_SUITS[s1.0]), Card(low, GEN_SUITS[s1.1]));
    NewHoleHigher(Card(high, GEN_SUITS[s2.0]), Card(low, GEN_SUITS[s2.1]));
  }

  /** For a pair, the combo fixes its two suit positions once they are ordered. */
  lemma PairCandidateInjective(v: Value, s1: (nat, nat), s2: (nat, nat))
    requires s1.0 < s1.1 < 4 && s2.0 < s2.1 < 4
    ensures Candidate(v, v, s1) == Candidate(v, v, s2) ==> s1 == s2
  {
    if Candidate(v, v, s1) == Candidate(v, v, s2) {
      var h := Candidate(v, v, s1);
      assert {Card(v, GEN_SUITS[s1.0]), Card(v, GEN_SUITS[s1.1])} == {h.high, h.low};
      assert {Card(v, GEN_SUITS[s2.0]), Card(v, GEN_SUITS[s2.1])} == {h.high, h.low};
      assert Card(v, GEN_SUITS[s1.0]) in {Card(v, GEN_SUITS[s2.0]), Card(v, GEN_SUITS[s2.1])};
      assert Card(v, GEN_SUITS[s1.1]) in {Card(v, GEN_SUITS[s2.0]), Card(v, GEN_SUITS[s2.1])};
    }
  }

  /** None of the three generators repeats a combo. */
  lemma GeneratorsDistinct(high: Value, low: Value, dead: CardSet)
    ensures Distinct(PairCombos(high, dead))
    ensures Rank(low) < Rank(high) ==> Distinct(SuitedCombos(high, low, dead)) && Distinct(OffsuitCombos(high, low, dead))
  {
    SlotListsDistinct();
    PairSlotsAre();
    PairGenerateDistinct(high, PAIR_SLOTS, dead);
    if Rank(low) < Rank(high) {
      SuitedSlotsAre();
      OffsuitSlotsAre();
      TwoValueGenerateDistinct(high, low, SUITED_SLOTS, dead);
      TwoValueGenerateDistinct(high, low, OFFSUIT_SLOTS, dead);
    }
  }

  predicate SlotsDistinct(slots: seq<(nat, nat)>)
  {
    forall k, l | 0 <= k < l < |slots| :: slots[k] != slots[l]
  }

  lemma SlotListsDistinct()
    ensures SlotsDistinct(PAIR_SLOTS) && SlotsDistinct(SUITED_SLOTS) && SlotsDistinct(OFFSUIT_SLOTS)
  {
  }

  lemma PairGenerateDistinct(v: Value, slots: seq<(nat, nat)>, dead: CardSet)
    requires SuitSlots(slots) && SlotsDistinct(slots)
    requires forall k | 0 <= k < |slots| :: slots[k].0 < slots[k].1
    ensures Distinct(Generate(v, v, slots, dead))
  {
    forall k, l | 0 <= k < l < |slots|
      ensures Candidate(v, v, slots[k]) != Candidate(v, v, slots[l])
    {
      PairCandidateInjective(v, slots[k], slots[l]);
    }
    GenerateDistinct(v, v, slots, dead);
  }

  lemma TwoValueGenerateDistinct(high: Value, low: Value, slots: seq<(nat, nat)>, dead: CardSet)
    requires Rank(low) < Rank(high) && SuitSlots(slots) && SlotsDistinct(slots)
    ensures Distinct(Generate(high, low, slots, dead))
  {
    forall k, l | 0 <= k < l < |slots|
      ensures Candidate(high, low, slots[k]) != Candidate(high, low, slots[l])
    {
      CandidateInjective(high, low, slots[k], slots[l]);
    }
    GenerateDistinct(high, low, slots, dead);
  }

  /** The value a loop body's combos carry: the pair value, or the low value of the other loops. */
  function Tag(x: HoleCards, byLow: bool): Value
  {
    if byLow then x.low.value else x.high.value
  }

  /**
   * The loop repeats nothing when each admitted value's combos are distinct
   * and all carry that value.
   */
  lemma {:induction false} ExpandDistinct(k: nat, a: nat, b: nat, gen: Value -> seq<HoleCards>, byLow: bool)
    requires k <= 13
    requires forall val | a <= Rank(val) < b :: Distinct(gen(val))
    requires forall val, x | a <= Rank(val) < b && x in gen(val) :: Tag(x, byLow) == val
    ensures Distinct(Expand(k, a, b, gen))
    decreases 13 - k
  {
    if k < 13 {
      ExpandDistinct(k + 1, a, b, gen, byLow);
      ValuesRankInverse(k);
      var here := if a <= k < b then gen(VALUES[k]) else [];
      var rest := Expand(k + 1, a, b, gen);
      forall x | x in rest
        ensures Tag(x, byLow) != VALUES[k]
      {
        var val :| k + 1 <= Rank(val) && a <= Rank(val) < b && x in gen(val);
        assert Tag(x, byLow) == val;
      }
      assert forall x | x in here :: Tag(x, byLow) == VALUES[k];
      DistinctConcat(here, rest);
    }
  }

  /** A parsed pattern expands to combos without repeats. */
  lemma PatternDistinct(p: HandPattern, dead: CardSet)
    requires ValidPattern(p)
    ensures Distinct(PatternCombos(p, dead))
  {
    match p
    case Pair(v) => GeneratorsDistinct(v, v, dead);
    case PairPlus(v) => PairPlusDistinct(v, dead);
    case Suited(h, l) => GeneratorsDistinct(h, l, dead);
    case SuitedPlus(h, l) => SuitedPlusDistinct(h, l, dead);
    case Offsuit(h, l) => GeneratorsDistinct(h, l, dead);
    case OffsuitPlus(h, l) => OffsuitPlusDistinct(h, l, dead);
    case Any(h, l) => AnyDistinct(h, l, dead);
    case AnyPlus(h, l) => AnyPlusDistinct(h, l, dead);
  }

  lemma PairPlusDistinct(v: Value, dead: CardSet)
    ensures Distinct(Expand(0, Rank(v), 13, PairGen(dead)))
  {
    forall val | Rank(v) <= Rank(val) < 13
      ensures Distinct(PairGen(dead)(val))
    {
      GeneratorsDistinct(val, val, dead);
    }
    forall val, x | Rank(v) <= Rank(val) < 13 && x in PairGen(dead)(val)
      ensures Tag(x, false) == val
    {
      PairMembers(val, dead, x);
    }
    ExpandDistinct(0, Rank(v), 13, PairGen(dead), false);
  }

  lemma SuitedPlusDistinct(h: Value, l: Value, dead: CardSet)
    ensures Distinct(Expand(0, Rank(l), Rank(h), SuitedGen(h, dead)))
  {
    forall val | Rank(l) <= Rank(val) < Rank(h)
      ensures Distinct(SuitedGen(h, dead)(val))
    {
      GeneratorsDistinct(h, val, dead);
    }
    forall val, x | Rank(l) <= Rank(val) < Rank(h) && x in SuitedGen(h, dead)(val)
      ensures Tag(x, true) == val
    {
      SuitedMembers(h, val, dead, x);
    }
    ExpandDistinct(0, Rank(l), Rank(h), SuitedGen(h, dead), true);
  }

  lemma OffsuitPlusDistinct(h: Value, l: Value, dead: CardSet)
    ensures Distinct(Expand(0, Rank(l), Rank(h), OffsuitGen(h, dead)))
  {
    forall val | Rank(l) <= Rank(val) < Rank(h)
      ensures Distinct(OffsuitGen(h, dead)(val))
    {
      GeneratorsDistinct(h, val, dead);
    }
    forall val, x | Rank(l) <= Rank(val) < Rank(h) && x in OffsuitGen(h, dead)(val)
      ensures Tag(x, true) == val
    {
      OffsuitMembers(h, val, dead, x);
    }
    ExpandDistinct(0, Rank(l), Rank(h), OffsuitGen(h, dead), true);
  }

  /** Suited and offsuit combos of two values never coincide. */
  lemma AnyDistinct(h: Value, l: Value, dead: CardSet)
    requires Rank(l) < Rank(h)
    ensures Distinct(SuitedCombos(h, l, dead) + OffsuitCombos(h, l, dead))
  {
    GeneratorsDistinct(h, l, dead);
    forall x | x in SuitedCombos(h, l, dead)
      ensures x !in OffsuitCombos(h, l, dead)
    {
      SuitedMembers(h, l, dead, x);
      OffsuitMembers(h, l, dead, x);
    }
    DistinctConcat(SuitedCombos(h, l, dead), OffsuitCombos(h, l, dead));
  }

  lemma AnyPlusDistinct(h: Value, l: Value, dead: CardSet)
    ensures Distinct(Expand(0, Rank(l), Rank(h), AnyGen(h, dead)))
  {
    forall val | Rank(l) <= Rank(val) < Rank(h)
      ensures Distinct(AnyGen(h, dead)(val))
    {
      AnyDistinct(h, val, dead);
    }
    forall val, x | Rank(l) <= Rank(val) < Rank(h) && x in AnyGen(h, dead)(val)
      ensures Tag(x, true) == val
    {
      SuitedMembers(h, val, dead, x);
      OffsuitMembers(h, val, dead, x);
    }
    ExpandDistinct(0, Rank(l), Rank(h), AnyGen(h, dead), true);
  }

  /** 1 when the combo of one suit-position pair is live, else 0. */
  function LiveBit(high: Value, low: Value, slot: (nat, nat), dead: CardSet): nat
  {
    if slot.0 < 4 && slot.1 < 4 && Live(Candidate(high, low, slot), dead) then 1 else 0
  }

  /** The number of live candidates among the suit-position pairs. */
  function LiveCount(high: Value, low: Value, slots: seq<(nat, nat)>, dead: CardSet): nat
  {
    if slots == [] then 0
    else LiveCount(high, low, slots[..|slots| - 1], dead) + LiveBit(high, low, slots[|slots| - 1], dead)
  }

  /** A generator keeps exactly its live candidates. */
  lemma {:induction false} GenerateLength(high: Value, low: Value, slots: seq<(nat, nat)>, dead: CardSet)
    requires SuitSlots(slots)
    ensures |Generate(high, low, slots, dead)| == LiveCount(high, low, slots, dead)
  {
    if slots != [] {
      GenerateLength(high, low, slots[..|slots| - 1], dead);
    }
  }

  /** The pair generator yields one combo for each pair of suits whose two cards are both live. */
  lemma PairCount(v: Value, dead: CardSet)
    ensures |PairCombos(v, dead)| ==
      LiveBit(v, v, (0, 1), dead) + LiveBit(v, v, (0, 2), dead) + LiveBit(v, v, (0, 3), dead) +
      LiveBit(v, v, (1, 2), dead) + LiveBit(v, v, (1, 3), dead) + LiveBit(v, v, (2, 3), dead)
  {
    assert |PairCombos(v, dead)| == LiveCount(v, v, PAIR_SLOTS, dead) by {
      PairSlotsAre();
      GenerateLength(v, v, PAIR_SLOTS, dead);
    }
    PairLiveCount(v, dead);
  }

  lemma PairLiveCount(v: Value, dead: CardSet)
    ensures LiveCount(v, v, PAIR_SLOTS, dead) ==
      LiveBit(v, v, (0, 1), dead) + LiveBit(v, v, (0, 2), dead) + LiveBit(v, v, (0, 3), dead) +
      LiveBit(v, v, (1, 2), dead) + LiveBit(v, v, (1, 3), dead) + LiveBit(v, v, (2, 3), dead)
  {
    var s6 := PAIR_SLOTS;
    var s5 := [(0, 1), (0, 2), (0, 3), (1, 2), (1, 3)];
    var s4 := [(0, 1), (0, 2), (0, 3), (1, 2)];
    var s3 := [(0, 1), (0, 2), (0, 3)];
    var s2 := [(0, 1), (0, 2)];
    var s1 := [(0, 1)];
    assert s6[..5] == s5 && s5[..4] == s4 && s4[..3] == s3 && s3[..2] == s2 && s2[..1] == s1;
    assert LiveCount(v, v, s6, dead) == LiveCount(v, v, s5, dead) + LiveBit(v, v, (2, 3), dead);
    assert LiveCount(v, v, s5, dead) == LiveCount(v, v, s4, dead) + LiveBit(v, v, (1, 3), dead);
    assert LiveCount(v, v, s4, dead) == LiveCount(v, v, s3, dead) + LiveBit(v, v, (1, 2), dead);
    assert LiveCount(v, v, s3, dead) == LiveCount(v, v, s2, dead) + LiveBit(v, v, (0, 3), dead);
    assert LiveCount(v, v, s2, dead) == LiveCount(v, v, s1, dead) + LiveBit(v, v, (0, 2), dead);
    assert LiveCount(v, v, s1, dead) == LiveBit(v, v, (0, 1), dead);
  }

  /** Pocket aces: six combos, three once the ace of hearts is dead, one once the ace of spades is too. */
  lemma AcesAroundDeadCards()
    ensures |PatternCombos(Pair(Ace), EMPTY)| == 6
    ensures |PatternCombos(Pair(Ace), FromCard(Card(Ace, Hearts)))| == 3
    ensures |PatternCombos(Pair(Ace), Insert(FromCard(Card(Ace, Hearts)), Card(Ace, Spades)))| == 1
  {
    PairCount(Ace, EMPTY);
    AcesHeartsDead();
    AcesHeartsSpadesDead();
  }

  lemma AcesHeartsDead()
    ensures |PatternCombos(Pair(Ace), FromCard(Card(Ace, Hearts)))| == 3
  {
    PairCount(Ace, FromCard(Card(Ace, Hearts)));
  }

  lemma AcesHeartsSpadesDead()
    ensures |PatternCombos(Pair(Ace), Insert(FromCard(Card(Ace, Hearts)), Card(Ace, Spades)))| == 1
  {
    PairCount(Ace, Insert(FromCard(Card(Ace, Hearts)), Card(Ace, Spades)));
  }
}
