/**
 * The lookup evaluator (`evaluator.rs`).  A card word is walked lowest bit
 * first, exactly as the source's `trailing_zeros` loops do, so every step
 * works on the increasing list of set-bit positions; rank masks (`u16`) are
 * sets of ranks 0..12 and the flush table (`[u16; 8192]`) is a map from
 * five-rank masks to their entries (a missing key reads as the array's 0).
 */
module Evaluator {
  import opened Wrappers
  import opened Cards
  import opened HandRank
  import opened CardSets
  import opened Hands
  import Combinations

  /** Ranks listed strictly from high to low. */
  predicate Descending(ranks: seq<int>)
  {
    forall i, j | 0 <= i < j < |ranks| :: ranks[i] > ranks[j]
  }

  predicate RanksBelow(ranks: seq<int>, n: nat)
  {
    forall i | 0 <= i < |ranks| :: ranks[i] < n
  }

  // ---------------------------------------------------------------- straights

  /**
   * The five ranks of the straight whose top card has rank `high`; the wheel
   * A-5-4-3-2 counts as a 5-high straight (rank 3).
   */
  function Window(high: nat): (w: set<nat>)
    requires 3 <= high <= 12
    ensures |w| == 5 && high in w
    ensures forall x | x in w :: x < 13
  {
    if high == 3 then {12, 0, 1, 2, 3}
    else {high - 4, high - 3, high - 2, high - 1, high}
  }

  lemma WindowsDistinct(h1: nat, h2: nat)
    requires 3 <= h1 <= 12 && 3 <= h2 <= 12
    ensures Window(h1) == Window(h2) <==> h1 == h2
  {
    if h1 != h2 {
      if h1 == 3 || h2 == 3 {
        var h := if h1 == 3 then h2 else h1;
        assert 0 in Window(3) && 12 in Window(3);
        assert !(0 in Window(h) && 12 in Window(h));
      } else if h1 < h2 {
        assert h2 !in Window(h1);
      } else {
        assert h1 !in Window(h2);
      }
    }
  }

  /**
   * `is_straight_ranks`: five ranks from high to low.  The `u8` difference
   * `high - low` cannot underflow because the ranks are descending.
   */
  function IsStraightRanks(ranks: seq<nat>): (r: Option<nat>)
    requires |ranks| == 5 && Descending(ranks) && RanksBelow(ranks, 13)
    ensures r.Some? ==> 3 <= r.value <= 12
  {
    if ranks[0] - ranks[4] == 4 then Some(ranks[0])
    else if ranks == [12, 3, 2, 1, 0] then Some(3)
    else None
  }

  /** A descending five-rank list is recognised as a straight exactly when its ranks form a window. */
  lemma StraightRanksWindow(ranks: seq<nat>, h: nat)
    requires |ranks| == 5 && Descending(ranks) && RanksBelow(ranks, 13)
    requires 3 <= h <= 12
    ensures IsStraightRanks(ranks) == Some(h) <==> Combinations.Elements(ranks) == Window(h)
  {
    FiveElements(ranks);
    if IsStraightRanks(ranks) == Some(h) {
      StraightIsWindow(ranks, h);
    }
    if Combinations.Elements(ranks) == Window(h) {
      WindowIsStraight(ranks, h);
    }
  }

  lemma FiveElements(ranks: seq<nat>)
    requires |ranks| == 5
    ensures forall x :: x in Combinations.Elements(ranks) <==>
      x == ranks[0] || x == ranks[1] || x == ranks[2] || x == ranks[3] || x == ranks[4]
  {
    forall x ensures x in ranks <==> x == ranks[0] || x == ranks[1] || x == ranks[2] || x == ranks[3] || x == ranks[4] {
      if x in ranks {
        var i :| 0 <= i < 5 && ranks[i] == x;
      }
    }
  }

  lemma StraightIsWindow(ranks: seq<nat>, h: nat)
    requires |ranks| == 5 && Descending(ranks) && RanksBelow(ranks, 13)
    requires 3 <= h <= 12
    requires forall x :: x in Combinations.Elements(ranks) <==>
      x == ranks[0] || x == ranks[1] || x == ranks[2] || x == ranks[3] || x == ranks[4]
    requires IsStraightRanks(ranks) == Some(h)
    ensures Combinations.Elements(ranks) == Window(h)
  {
    assert ranks[0] > ranks[1] && ranks[1] > ranks[2] && ranks[2] > ranks[3] && ranks[3] > ranks[4];
    if ranks[0] - ranks[4] == 4 {
      assert ranks[1] == h - 1 && ranks[2] == h - 2 && ranks[3] == h - 3 && ranks[4] == h - 4;
    } else {
      assert ranks == [12, 3, 2, 1, 0];
    }
  }

  lemma WindowIsStraight(ranks: seq<nat>, h: nat)
    requires |ranks| == 5 && Descending(ranks) && RanksBelow(ranks, 13)
    requires 3 <= h <= 12
    requires forall x :: x in Combinations.Elements(ranks) <==>
      x == ranks[0] || x == ranks[1] || x == ranks[2] || x == ranks[3] || x == ranks[4]
    requires Combinations.Elements(ranks) == Window(h)
    ensures IsStraightRanks(ranks) == Some(h)
  {
    var e := Combinations.Elements(ranks);
    assert ranks[0] > ranks[1] && ranks[1] > ranks[2] && ranks[2] > ranks[3] && ranks[3] > ranks[4];
    assert ranks[0] in e && ranks[1] in e && ranks[2] in e && ranks[3] in e && ranks[4] in e;
    if h == 3 {
      assert 12 in e && 0 in e;
      assert ranks[0] == 12 && ranks[4] == 0;
      assert ranks[1] <= 3;
      assert ranks == [12, 3, 2, 1, 0];
    } else {
      assert h in e && h - 4 in e;
      assert ranks[0] == h && ranks[4] == h - 4;
    }
  }

  /** `check_straight`'s table, highest window first, with the wheel last. */
  const STRAIGHT_PATTERNS: seq<(set<nat>, nat)> := [
    ({8, 9, 10, 11, 12}, 12),
    ({7, 8, 9, 10, 11}, 11),
    ({6, 7, 8, 9, 10}, 10),
    ({5, 6, 7, 8, 9}, 9),
    ({4, 5, 6, 7, 8}, 8),
    ({3, 4, 5, 6, 7}, 7),
    ({2, 3, 4, 5, 6}, 6),
    ({1, 2, 3, 4, 5}, 5),
    ({0, 1, 2, 3, 4}, 4),
    ({0, 1, 2, 3, 12}, 3)
  ]

  /** The k-th pattern is the window of rank 12 - k: the table lists every straight once, best first. */
  lemma PatternsAreWindows()
    ensures |STRAIGHT_PATTERNS| == 10
    ensures forall k | 0 <= k < 10 :: STRAIGHT_PATTERNS[k].1 == 12 - k && STRAIGHT_PATTERNS[k].0 == Window(12 - k)
  {
  }

  function CheckStraightFrom(rankBits: set<nat>, k: nat): (r: Option<nat>)
    requires k <= 10
    ensures r.Some? ==> 3 <= r.value <= 12 - k && Window(r.value) <= rankBits
    ensures r.Some? ==> forall h | r.value < h <= 12 - k :: !(Window(h) <= rankBits)
    ensures r.None? ==> forall h | 3 <= h <= 12 - k :: !(Window(h) <= rankBits)
    decreases 10 - k
  {
    PatternsAreWindows();
    if k == 10 then None
    else if STRAIGHT_PATTERNS[k].0 <= rankBits then Some(STRAIGHT_PATTERNS[k].1)
    else CheckStraightFrom(rankBits, k + 1)
  }

  /** `check_straight`: the highest straight window contained in the rank mask, if any. */
  function CheckStraight(rankBits: set<nat>): (r: Option<nat>)
    ensures r.Some? ==> 3 <= r.value <= 12 && Window(r.value) <= rankBits
    ensures r.Some? ==> forall h | r.value < h <= 12 :: !(Window(h) <= rankBits)
    ensures r.None? <==> forall h | 3 <= h <= 12 :: !(Window(h) <= rankBits)
  {
    CheckStraightFrom(rankBits, 0)
  }

  // ------------------------------------------------------------- flush table

  const HIGH_CARD_CAP: nat := 999

  /**
   * `encode_high_card_score`: a weighted sum of the five ranks, capped at 999.
   * Ranks below 13 keep the `u16` sum far from overflow (at most 4836).
   */
  function EncodeHighCardScore(ranks: seq<nat>): (r: nat)
    requires |ranks| == 5 && RanksBelow(ranks, 13)
    ensures r <= HIGH_CARD_CAP
  {
    var sum := ranks[0] * 371 + ranks[1] * 28 + ranks[2] * 2 + ranks[3] * 1 + ranks[4] * 1;
    if sum < HIGH_CARD_CAP then sum else HIGH_CARD_CAP
  }

  /** `[c5, c4, c3, c2, c1]`: an increasing five-tuple listed from high to low. */
  function Reverse5(t: seq<nat>): (ranks: seq<nat>)
    requires Combinations.IsTuple(t, 0, 13, 5)
    ensures |ranks| == 5 && Descending(ranks) && RanksBelow(ranks, 13)
    ensures Combinations.Elements(ranks) == Combinations.Elements(t)
  {
    var ranks := [t[4], t[3], t[2], t[1], t[0]];
    FiveElements(ranks);
    FiveElements(t);
    ranks
  }

  /** The table entry for an increasing five-rank tuple `c1 < ... < c5`. */
  function TableEntry(t: seq<nat>): (v: nat)
    requires Combinations.IsTuple(t, 0, 13, 5)
    ensures 5000 <= v
  {
    var ranks := Reverse5(t);
    match IsStraightRanks(ranks)
    case Some(high) => 8000 + high
    case None => 5000 + EncodeHighCardScore(ranks)
  }

  predicate AllTuples(ts: seq<seq<nat>>)
  {
    forall i | 0 <= i < |ts| :: Combinations.IsTuple(ts[i], 0, 13, 5)
  }

  /** The table filled in visiting order (a later tuple with the same key would overwrite). */
  function FillTable(ts: seq<seq<nat>>): map<set<nat>, nat>
    requires AllTuples(ts)
  {
    if ts == [] then map[]
    else FillTable(ts[..|ts| - 1])[Combinations.Elements(ts[|ts| - 1]) := TableEntry(ts[|ts| - 1])]
  }

  /** `generate_flush_table`: five nested loops over 0..13, i.e. the increasing 5-tuples. */
  function FlushTable(): map<set<nat>, nat>
  {
    FillTable(Combinations.Tuples(0, 13, 5))
  }

  /** `LookupEvaluator`: the evaluator owns its precomputed flush table. */
  datatype LookupEvaluator = LookupEvaluator(flushTable: map<set<nat>, nat>)

  /** `LookupEvaluator::new`. */
  function NewEvaluator(): (ev: LookupEvaluator)
    ensures ValidTable(ev.flushTable)
  {
    FlushTableValid();
    LookupEvaluator(FlushTable())
  }

  /**
   * What the evaluation relies on: the table has an entry for exactly the
   * five-rank masks, and each entry is the one computed for that mask.
   */
  ghost predicate ValidTable(table: map<set<nat>, nat>)
  {
    (forall key :: key in table <==> FiveRanks(key)) &&
    (forall key | key in table :: FiveRanks(key) && table[key] == KeyEntry(key))
  }

  lemma {:induction false} FillTableValue(ts: seq<seq<nat>>, key: set<nat>) returns (t: seq<nat>)
    requires AllTuples(ts)
    requires key in FillTable(ts)
    ensures Combinations.IsTuple(t, 0, 13, 5) && Combinations.Elements(t) == key
    ensures FillTable(ts)[key] == TableEntry(t)
    decreases |ts|
  {
    var last := ts[|ts| - 1];
    if Combinations.Elements(last) == key {
      t := last;
    } else {
      var init := ts[..|ts| - 1];
      assert AllTuples(init);
      t := FillTableValue(init, key);
    }
  }

  lemma {:induction false} FillTableHas(ts: seq<seq<nat>>, i: nat)
    requires AllTuples(ts) && i < |ts|
    ensures Combinations.Elements(ts[i]) in FillTable(ts)
    decreases |ts|
  {
    if i < |ts| - 1 {
      FillTableHas(ts[..|ts| - 1], i);
      assert ts[..|ts| - 1][i] == ts[i];
    }
  }

  /** A five-rank mask: five distinct ranks below 13. */
  predicate FiveRanks(key: set<nat>)
  {
    |key| == 5 && forall x | x in key :: x < 13
  }

  /** A five-tuple's element set is a five-rank mask that lists back as the tuple. */
  lemma KeyOfTuple(t: seq<nat>, key: set<nat>)
    requires Combinations.IsTuple(t, 0, 13, 5) && Combinations.Elements(t) == key
    ensures FiveRanks(key) && Combinations.Ascending(key, 13) == t
  {
    Combinations.ElementsCount(t);
    Combinations.AscendingOfElements(t, 13);
  }

  /** The increasing listing of a five-rank mask is one of the enumerated tuples. */
  lemma TupleOfKey(key: set<nat>)
    requires FiveRanks(key)
    ensures Combinations.IsTuple(Combinations.Ascending(key, 13), 0, 13, 5)
    ensures Combinations.Elements(Combinations.Ascending(key, 13)) == key
  {
    Combinations.ElementsOfAscending(key, 13);
  }

  /** The descending rank list of a five-rank mask. */
  function RanksOf(key: set<nat>): (ranks: seq<nat>)
    requires FiveRanks(key)
    ensures |ranks| == 5 && Descending(ranks) && RanksBelow(ranks, 13)
    ensures Combinations.Elements(ranks) == key
  {
    TupleOfKey(key);
    Reverse5(Combinations.Ascending(key, 13))
  }

  /**
   * The entry the table holds for a five-rank mask: 8000 + high exactly for
   * the straight windows, otherwise a plain-flush entry in 5000..5999.
   */
  function KeyEntry(key: set<nat>): (v: nat)
    requires FiveRanks(key)
    ensures forall h | 3 <= h <= 12 :: v == 8000 + h <==> key == Window(h)
    ensures (forall h | 3 <= h <= 12 :: key != Window(h)) ==> v == 5000 + EncodeHighCardScore(RanksOf(key))
    ensures 5000 <= v <= 5999 || 8003 <= v <= 8012
  {
    TupleOfKey(key);
    var ranks := RanksOf(key);
    forall h | 3 <= h <= 12 ensures IsStraightRanks(ranks) == Some(h) <==> key == Window(h) {
      StraightRanksWindow(ranks, h);
    }
    TableEntry(Combinations.Ascending(key, 13))
  }

  /** A table entry marks a straight flush exactly when its five ranks form a window. */
  lemma EntryStraightFlush(key: set<nat>)
    requires FiveRanks(key)
    ensures KeyEntry(key) >= 8000 <==> exists h | 3 <= h <= 12 :: key == Window(h)
  {
    var v := KeyEntry(key);
    if v >= 8000 {
      assert key == Window(v - 8000);
    }
  }

  /** Filling the table from a complete list of the five-tuples gives a valid table. */
  lemma FillTableComplete(ts: seq<seq<nat>>)
    requires AllTuples(ts)
    requires forall t | Combinations.IsTuple(t, 0, 13, 5) :: t in ts
    ensures ValidTable(FillTable(ts))
  {
    var table := FillTable(ts);
    forall key | key in table ensures FiveRanks(key) && table[key] == KeyEntry(key) {
      var t := FillTableValue(ts, key);
      KeyOfTuple(t, key);
    }
    forall key | FiveRanks(key) ensures key in table {
      TupleOfKey(key);
      var t := Combinations.Ascending(key, 13);
      assert t in ts;
      var i :| 0 <= i < |ts| && ts[i] == t;
      FillTableHas(ts, i);
    }
  }

  /** `generate_flush_table` produces a valid table. */
  lemma FlushTableValid()
    ensures ValidTable(FlushTable())
  {
    var ts := Combinations.Tuples(0, 13, 5);
    forall t | Combinations.IsTuple(t, 0, 13, 5) ensures t in ts {
      Combinations.TuplesComplete(0, 13, 5, t);
    }
    FillTableComplete(ts);
  }

  // ------------------------------------------------------ walking the cards

  /** The set-bit positions of a well-formed card word, lowest first. */
  predicate Positions(ps: seq<nat>)
  {
    Combinations.Increasing(ps) && Combinations.InRange(ps, 0, 52)
  }

  lemma PositionsTail(ps: seq<nat>)
    requires Positions(ps) && |ps| > 0
    ensures Positions(ps[1..])
    ensures ps[0] !in ps[1..]
    ensures forall x :: x in ps <==> x == ps[0] || x in ps[1..]
  {
    assert ps == [ps[0]] + ps[1..];
    forall i | 0 <= i < |ps[1..]| ensures ps[1..][i] != ps[0] {
      assert ps[1..][i] == ps[i + 1] > ps[0];
    }
  }

  /** `check_flush`'s `suit_ranks[slot]`: the ranks held in one suit slot. */
  function SuitRanks(ps: seq<nat>, slot: nat): (m: set<nat>)
    requires slot < 4 && Combinations.InRange(ps, 0, 52)
    ensures forall r | r in m :: r < 13
  {
    if ps == [] then {}
    else (if ps[0] % 4 == slot then {ps[0] / 4} else {}) + SuitRanks(ps[1..], slot)
  }

  /** A rank is in a suit's mask exactly when the card of that rank and suit is held. */
  lemma {:induction false} SuitRanksHeld(ps: seq<nat>, slot: nat, r: nat)
    requires slot < 4 && Positions(ps)
    ensures r in SuitRanks(ps, slot) <==> 4 * r + slot in ps
    decreases |ps|
  {
    if ps != [] {
      PositionsTail(ps);
      SuitRanksHeld(ps[1..], slot, r);
    }
  }

  /** The members of `m` below `hi`. */
  function Restrict(m: set<nat>, hi: nat): (r: set<nat>)
    ensures forall x :: x in r <==> x in m && x < hi
  {
    set x | x in m && x < hi
  }

  lemma RestrictStep(m: set<nat>, hi: nat)
    requires hi > 0
    ensures Restrict(m, hi) == Restrict(m, hi - 1) + (if hi - 1 in m then {hi - 1} else {})
    ensures hi - 1 !in Restrict(m, hi - 1)
  {
  }

  /**
   * The `n` highest members of `m` below `hi`, taken one at a time from the
   * top as the `leading_zeros` loop of `check_flush` does.
   */
  function TopRanks(m: set<nat>, hi: nat, n: nat): (r: set<nat>)
    ensures r <= Restrict(m, hi)
    ensures |r| == if |Restrict(m, hi)| < n then |Restrict(m, hi)| else n
    ensures forall x, y | x in Restrict(m, hi) - r && y in r :: x < y
    decreases hi
  {
    if hi == 0 || n == 0 then {}
    else
      RestrictStep(m, hi);
      if hi - 1 in m then
        var t := TopRanks(m, hi - 1, n - 1);
        assert hi - 1 !in t;
        var r := {hi - 1} + t;
        forall x, y | x in Restrict(m, hi) - r && y in r ensures x < y {
          assert x in Restrict(m, hi - 1) - t;
        }
        r
      else TopRanks(m, hi - 1, n)
  }

  /** The ranks held in each of the four suit slots, as `check_flush` gathers them. */
  function SuitMasks(ps: seq<nat>): (suits: seq<set<nat>>)
    requires Positions(ps)
    ensures |suits| == 4
    ensures forall s | 0 <= s < 4 :: suits[s] == SuitRanks(ps, s)
  {
    seq(4, s requires 0 <= s < 4 => SuitRanks(ps, s))
  }

  /** No suit from `slot` on holds five or more ranks. */
  predicate NoFlushFrom(suits: seq<set<nat>>, slot: nat)
  {
    forall s | slot <= s < |suits| :: |suits[s]| < 5
  }

  /** The first suit slot, from `slot` on, holding five or more ranks. */
  function FlushSlot(suits: seq<set<nat>>, slot: nat): (r: Option<nat>)
    requires slot <= |suits|
    ensures r.Some? ==> slot <= r.value < |suits| && |suits[r.value]| >= 5
    ensures r.Some? ==> forall s | slot <= s < r.value :: |suits[s]| < 5
    ensures r.None? <==> NoFlushFrom(suits, slot)
    decreases |suits| - slot
  {
    if slot == |suits| then None
    else if |suits[slot]| >= 5 then Some(slot)
    else FlushSlot(suits, slot + 1)
  }

  /**
   * `check_flush`: the five highest ranks of the first suit (in slot order
   * clubs, diamonds, hearts, spades) holding at least five cards.
   */
  function CheckFlush(ps: seq<nat>): (r: Option<set<nat>>)
    requires Positions(ps)
    ensures r.None? <==> NoFlushFrom(SuitMasks(ps), 0)
    ensures r.Some? ==> FlushSlot(SuitMasks(ps), 0).Some?
    ensures r.Some? ==> FiveRanks(r.value) && r.value <= SuitMasks(ps)[FlushSlot(SuitMasks(ps), 0).value]
    ensures r.Some? ==> forall x, y | x in SuitMasks(ps)[FlushSlot(SuitMasks(ps), 0).value] - r.value && y in r.value :: x < y
  {
    var suits := SuitMasks(ps);
    match FlushSlot(suits, 0)
    case None => None
    case Some(slot) =>
      var m := suits[slot];
      assert Restrict(m, 16) == m;
      var top := TopRanks(m, 16, 5);
      assert |top| == 5;
      assert forall x | x in top :: x in m && x < 13;
      Some(top)
  }

  /** How many of the four cards of rank `r` the positions hold. */
  function SuitsHeld(ps: seq<nat>, r: nat): (n: nat)
    ensures n <= 4
  {
    (if 4 * r in ps then 1 else 0) + (if 4 * r + 1 in ps then 1 else 0) +
    (if 4 * r + 2 in ps then 1 else 0) + (if 4 * r + 3 in ps then 1 else 0)
  }

  lemma SuitsHeldTail(ps: seq<nat>, r: nat)
    requires Positions(ps) && |ps| > 0
    ensures SuitsHeld(ps, r) == SuitsHeld(ps[1..], r) + (if ps[0] / 4 == r then 1 else 0)
  {
    PositionsTail(ps);
  }

  /** `count_ranks`: the number of cards held of each rank. */
  function CountRanks(ps: seq<nat>): (counts: seq<nat>)
    requires Positions(ps)
    ensures |counts| == 13
    ensures forall r | 0 <= r < 13 :: counts[r] == SuitsHeld(ps, r)
  {
    if ps == [] then seq(13, _ => 0)
    else
      PositionsTail(ps);
      var c := CountRanks(ps[1..]);
      c[ps[0] / 4 := c[ps[0] / 4] + 1]
  }

  /** `extract_rank_bits`: the ranks held at all. */
  function RankBits(ps: seq<nat>): (m: set<nat>)
    requires Positions(ps)
    ensures forall r: nat :: r in m <==> r < 13 && SuitsHeld(ps, r) > 0
  {
    if ps == [] then {}
    else
      PositionsTail(ps);
      forall r: nat ensures SuitsHeld(ps, r) == SuitsHeld(ps[1..], r) + (if ps[0] / 4 == r then 1 else 0) {
        SuitsHeldTail(ps, r);
      }
      {ps[0] / 4} + RankBits(ps[1..])
  }

  // ------------------------------------------------------------ paired hands

  /**
   * The ranks below `hi` held exactly `n` times, from high to low: one of the
   * four lists `evaluate_paired` fills walking `(0..13).rev()`.
   */
  function Group(counts: seq<nat>, n: nat, hi: nat): (g: seq<u8>)
    requires |counts| == 13 && hi <= 13
    ensures Descending(g) && RanksBelow(g, hi)
    ensures forall r: u8 :: r in g <==> r < hi && counts[r] == n
    decreases hi
  {
    if hi == 0 then []
    else
      var rest := Group(counts, n, hi - 1);
      if counts[hi - 1] == n then [(hi - 1) as u8] + rest else rest
  }

  /** The first `n` entries (all of them if there are fewer). */
  function Take(s: seq<u8>, n: nat): (r: seq<u8>)
    ensures |r| <= n && r <= s
    ensures |s| >= n ==> |r| == n
    ensures |s| <= n ==> r == s
  {
    if |s| <= n then s else s[..n]
  }

  /** The first entry, or `fallback` for an empty list (`first().copied().unwrap_or`). */
  function FirstOr(s: seq<u8>, fallback: u8): (r: u8)
    ensures |s| > 0 ==> r == s[0]
    ensures |s| == 0 ==> r == fallback
  {
    if |s| > 0 then s[0] else fallback
  }

  /** Rank counts as `count_ranks` produces them. */
  predicate RankCounts(counts: seq<nat>)
  {
    |counts| == 13 && forall r | 0 <= r < 13 :: counts[r] <= 4
  }

  /** The four lists `evaluate_paired` builds, each from high rank to low. */
  datatype Groups = Groups(quads: seq<u8>, trips: seq<u8>, pairs: seq<u8>, singles: seq<u8>)

  predicate ValidGroups(g: Groups)
  {
    RanksBelow(g.quads, 13) && RanksBelow(g.trips, 13) && RanksBelow(g.pairs, 13) && RanksBelow(g.singles, 13)
  }

  function GroupsOf(counts: seq<nat>): (g: Groups)
    requires RankCounts(counts)
    ensures ValidGroups(g)
  {
    Groups(Group(counts, 4, 13), Group(counts, 3, 13), Group(counts, 2, 13), Group(counts, 1, 13))
  }

  /** The choice `evaluate_paired` makes from the four lists. */
  function RankGroups(g: Groups): (r: HandRanking)
    requires ValidGroups(g)
    ensures Category(r) != Straight && Category(r) != Flush && Category(r) != StraightFlush
  {
    if |g.quads| > 0 then
      var kicker := FirstOr(g.trips, FirstOr(g.pairs, FirstOr(g.singles, 0)));
      FourOfAKindRanking(g.quads[0], kicker)
    else if |g.trips| > 0 && (|g.pairs| > 0 || |g.trips| >= 2) then
      FullHouseRanking(g.trips[0], if |g.trips| >= 2 then g.trips[1] else g.pairs[0])
    else if |g.trips| > 0 then
      ThreeOfAKindRanking(g.trips[0], Take(g.pairs + g.singles, 2))
    else if |g.pairs| >= 2 then
      TwoPairRanking(g.pairs[0], g.pairs[1], FirstOr(g.pairs[2..], FirstOr(g.singles, 0)))
    else if |g.pairs| > 0 then
      OnePairRanking(g.pairs[0], Take(g.singles, 3))
    else
      HighCardRanking(Take(g.singles, 5))
  }

  /** `evaluate_paired` on the rank counts. */
  function EvaluatePaired(counts: seq<nat>): (r: HandRanking)
    requires RankCounts(counts)
    ensures Category(r) != Straight && Category(r) != Flush && Category(r) != StraightFlush
  {
    RankGroups(GroupsOf(counts))
  }

  /** Some rank is held exactly `n` times. */
  predicate HeldWith(counts: seq<nat>, n: nat)
    requires |counts| == 13
  {
    exists r | 0 <= r < 13 :: counts[r] == n
  }

  /** Two different ranks are held `n` and `m` times. */
  predicate TwoHeldWith(counts: seq<nat>, n: nat, m: nat)
    requires |counts| == 13
  {
    exists a, b | 0 <= a < 13 && 0 <= b < 13 && a != b :: counts[a] == n && counts[b] == m
  }

  /** `r` is the highest rank held exactly `n` times. */
  predicate TopWith(counts: seq<nat>, n: nat, r: nat)
    requires |counts| == 13
  {
    r < 13 && counts[r] == n && forall q | r < q < 13 :: counts[q] != n
  }

  /** A group list is non-empty exactly when some rank has that count, and it starts with the highest such rank. */
  lemma GroupHead(counts: seq<nat>, n: nat)
    requires |counts| == 13
    ensures |Group(counts, n, 13)| > 0 <==> HeldWith(counts, n)
    ensures |Group(counts, n, 13)| > 0 ==> TopWith(counts, n, Group(counts, n, 13)[0])
  {
    var g := Group(counts, n, 13);
    if HeldWith(counts, n) {
      var r :| 0 <= r < 13 && counts[r] == n;
      assert (r as u8) in g;
    }
    if |g| > 0 {
      assert g[0] in g;
    }
  }

  /** A group list has two entries exactly when two ranks share that count. */
  lemma GroupTwo(counts: seq<nat>, n: nat)
    requires |counts| == 13
    ensures |Group(counts, n, 13)| >= 2 <==> TwoHeldWith(counts, n, n)
  {
    var g := Group(counts, n, 13);
    if |g| >= 2 {
      assert g[0] in g && g[1] in g && g[0] > g[1];
      assert counts[g[0]] == n && counts[g[1]] == n;
    }
    if TwoHeldWith(counts, n, n) {
      var a, b :| 0 <= a < 13 && 0 <= b < 13 && a != b && counts[a] == n && counts[b] == n;
      assert (a as u8) in g && (b as u8) in g;
    }
  }

  /**
   * `evaluate_paired` follows the usual precedence of count shapes: quads,
   * then a full house (trips with a pair or a second trips), trips, two pair,
   * one pair, high card.
   */
  lemma PairedCategory(counts: seq<nat>)
    requires RankCounts(counts)
    ensures var c := Category(EvaluatePaired(counts));
      && (c == FourOfAKind <==> HeldWith(counts, 4))
      && (c == FullHouse <==> !HeldWith(counts, 4) && HeldWith(counts, 3) && (HeldWith(counts, 2) || TwoHeldWith(counts, 3, 3)))
      && (c == ThreeOfAKind <==> !HeldWith(counts, 4) && HeldWith(counts, 3) && !HeldWith(counts, 2) && !TwoHeldWith(counts, 3, 3))
      && (c == TwoPair <==> !HeldWith(counts, 4) && !HeldWith(counts, 3) && TwoHeldWith(counts, 2, 2))
      && (c == OnePair <==> !HeldWith(counts, 4) && !HeldWith(counts, 3) && HeldWith(counts, 2) && !TwoHeldWith(counts, 2, 2))
      && (c == HighCard <==> !HeldWith(counts, 4) && !HeldWith(counts, 3) && !HeldWith(counts, 2))
  {
    GroupHead(counts, 4);
    GroupHead(counts, 3);
    GroupHead(counts, 2);
    GroupTwo(counts, 3);
    GroupTwo(counts, 2);
  }

  /** The leading nibble is the highest rank of the group that decides the category. */
  lemma PairedLeader(counts: seq<nat>)
    requires RankCounts(counts)
    ensures var r := EvaluatePaired(counts);
      && (Category(r) == FourOfAKind ==> TopWith(counts, 4, Nibble(r.score, 0)))
      && (Category(r) == FullHouse || Category(r) == ThreeOfAKind ==> TopWith(counts, 3, Nibble(r.score, 0)))
      && (Category(r) == TwoPair || Category(r) == OnePair ==> TopWith(counts, 2, Nibble(r.score, 0)))
  {
    var g := GroupsOf(counts);
    var r := EvaluatePaired(counts);
    GroupHead(counts, 4);
    GroupHead(counts, 3);
    GroupHead(counts, 2);
    var lead := GroupsLeader(g);
    if |g.quads| > 0 {
      assert Category(r) == FourOfAKind;
    } else if |g.trips| > 0 {
      assert Category(r) == FullHouse || Category(r) == ThreeOfAKind;
    } else if |g.pairs| > 0 {
      assert Category(r) == TwoPair || Category(r) == OnePair;
    }
  }

  /** The leading nibble of `RankGroups` is the head of the first non-empty list among quads, trips, pairs. */
  lemma GroupsLeader(g: Groups) returns (lead: nat)
    requires ValidGroups(g)
    ensures |g.quads| > 0 ==> lead == g.quads[0]
    ensures |g.quads| == 0 && |g.trips| > 0 ==> lead == g.trips[0]
    ensures |g.quads| == 0 && |g.trips| == 0 && |g.pairs| > 0 ==> lead == g.pairs[0]
    ensures Nibble(RankGroups(g).score, 0) == lead
  {
    lead := Nibble(RankGroups(g).score, 0);
  }

  /**
   * The nibbles after the leader, per category: the quads kicker is the top
   * of trips, else of pairs, else of singles; a full house pairs its trips
   * with a second trips before any pair; trips and one pair take the highest
   * singles; two pair takes a third pair before the highest single; high card
   * lists the top five singles.
   */
  lemma PairedKickers(counts: seq<nat>)
    requires RankCounts(counts)
    ensures var r, trips, pairs, singles := EvaluatePaired(counts), Group(counts, 3, 13), Group(counts, 2, 13), Group(counts, 1, 13);
      && (Category(r) == FourOfAKind ==>
            Nibble(r.score, 1) == (if |trips| > 0 then trips[0] as nat else if |pairs| > 0 then pairs[0] as nat else Kicker(singles, 0))
            && Nibble(r.score, 2) == 0 && Nibble(r.score, 3) == 0 && Nibble(r.score, 4) == 0)
      && (Category(r) == FullHouse ==>
            (|trips| >= 2 ==> Nibble(r.score, 1) == trips[1])
            && (|trips| < 2 ==> |pairs| > 0 && Nibble(r.score, 1) == pairs[0])
            && Nibble(r.score, 2) == 0 && Nibble(r.score, 3) == 0 && Nibble(r.score, 4) == 0)
      && (Category(r) == ThreeOfAKind ==>
            Nibble(r.score, 1) == Kicker(singles, 0) && Nibble(r.score, 2) == Kicker(singles, 1)
            && Nibble(r.score, 3) == 0 && Nibble(r.score, 4) == 0)
      && (Category(r) == TwoPair ==>
            |pairs| >= 2 && Nibble(r.score, 1) == pairs[1]
            && Nibble(r.score, 2) == (if |pairs| >= 3 then pairs[2] as nat else Kicker(singles, 0))
            && Nibble(r.score, 3) == 0 && Nibble(r.score, 4) == 0)
      && (Category(r) == OnePair ==>
            Nibble(r.score, 1) == Kicker(singles, 0) && Nibble(r.score, 2) == Kicker(singles, 1)
            && Nibble(r.score, 3) == Kicker(singles, 2) && Nibble(r.score, 4) == 0)
      && (Category(r) == HighCard ==> forall i | 0 <= i < 5 :: Nibble(r.score, i) == Kicker(singles, i))
  {
    GroupsKickers(GroupsOf(counts));
  }

  /** `PairedKickers` on the four lists themselves. */
  lemma GroupsKickers(g: Groups)
    requires ValidGroups(g)
    ensures var r := RankGroups(g);
      && (Category(r) == FourOfAKind ==>
            Nibble(r.score, 1) == (if |g.trips| > 0 then g.trips[0] as nat else if |g.pairs| > 0 then g.pairs[0] as nat else Kicker(g.singles, 0))
            && Nibble(r.score, 2) == 0 && Nibble(r.score, 3) == 0 && Nibble(r.score, 4) == 0)
      && (Category(r) == FullHouse ==>
            (|g.trips| >= 2 ==> Nibble(r.score, 1) == g.trips[1])
            && (|g.trips| < 2 ==> |g.pairs| > 0 && Nibble(r.score, 1) == g.pairs[0])
            && Nibble(r.score, 2) == 0 && Nibble(r.score, 3) == 0 && Nibble(r.score, 4) == 0)
      && (Category(r) == ThreeOfAKind ==>
            Nibble(r.score, 1) == Kicker(g.singles, 0) && Nibble(r.score, 2) == Kicker(g.singles, 1)
            && Nibble(r.score, 3) == 0 && Nibble(r.score, 4) == 0)
      && (Category(r) == TwoPair ==>
            |g.pairs| >= 2 && Nibble(r.score, 1) == g.pairs[1]
            && Nibble(r.score, 2) == (if |g.pairs| >= 3 then g.pairs[2] as nat else Kicker(g.singles, 0))
            && Nibble(r.score, 3) == 0 && Nibble(r.score, 4) == 0)
      && (Category(r) == OnePair ==>
            Nibble(r.score, 1) == Kicker(g.singles, 0) && Nibble(r.score, 2) == Kicker(g.singles, 1)
            && Nibble(r.score, 3) == Kicker(g.singles, 2) && Nibble(r.score, 4) == 0)
      && (Category(r) == HighCard ==> forall i | 0 <= i < 5 :: Nibble(r.score, i) == Kicker(g.singles, i))
  {
    var r := RankGroups(g);
    if |g.quads| > 0 {
    } else if |g.trips| > 0 && (|g.pairs| > 0 || |g.trips| >= 2) {
    } else if |g.trips| > 0 {
      assert g.pairs + g.singles == g.singles;
    } else if |g.pairs| >= 2 {
    } else if |g.pairs| > 0 {
    } else {
    }
  }

  // -------------------------------------------------------------- evaluation

  /** `counts.iter().any(|&c| c >= 2)`. */
  predicate HasPairs(counts: seq<nat>)
    requires |counts| == 13
  {
    exists r | 0 <= r < 13 :: counts[r] >= 2
  }

  /** The ranks below `hi` held at least once, from high to low. */
  function HeldRanks(counts: seq<nat>, hi: nat): (g: seq<u8>)
    requires |counts| == 13 && hi <= 13
    ensures Descending(g) && RanksBelow(g, hi)
    ensures forall r: u8 :: r in g <==> r < hi && counts[r] > 0
    decreases hi
  {
    if hi == 0 then []
    else
      var rest := HeldRanks(counts, hi - 1);
      if counts[hi - 1] > 0 then [(hi - 1) as u8] + rest else rest
  }

  /** The plain-flush score: category 5 over the table's tiebreak. */
  function PlainFlushRanking(tableScore: nat): (r: HandRanking)
    requires 5000 <= tableScore <= 5999
    ensures Category(r) == Flush
    ensures r.score % KICKER_LIMIT == tableScore - 5000
  {
    New(Flush, tableScore - 5000)
  }

  /** The flush branch of `evaluate_u64`: the table entry of the five flush ranks. */
  function FlushScore(ev: LookupEvaluator, key: set<nat>): (r: HandRanking)
    requires ValidTable(ev.flushTable) && FiveRanks(key)
    ensures Category(r) == Flush || Category(r) == StraightFlush
    ensures Category(r) == StraightFlush <==> exists h | 3 <= h <= 12 :: key == Window(h)
    ensures forall h | 3 <= h <= 12 :: (Category(r) == StraightFlush && r.score % KICKER_LIMIT == h <==> key == Window(h))
  {
    var tableScore := ev.flushTable[key];
    FlushEntry(key, tableScore);
    var r := if tableScore >= 8000 then StraightFlushRanking((tableScore - 8000) as u8) else PlainFlushRanking(tableScore);
    FlushRankingWindows(key, tableScore, r);
    r
  }

  /** A ranking that follows the table entry is a straight flush topped by `h` exactly for the window of `h`. */
  lemma FlushRankingWindows(key: set<nat>, e: nat, r: HandRanking)
    requires FiveRanks(key) && e == KeyEntry(key)
    requires e >= 8000 ==> Category(r) == StraightFlush && r.score % KICKER_LIMIT == e - 8000
    requires e < 8000 ==> Category(r) == Flush
    ensures Category(r) == StraightFlush <==> exists h | 3 <= h <= 12 :: key == Window(h)
    ensures forall h | 3 <= h <= 12 :: (Category(r) == StraightFlush && r.score % KICKER_LIMIT == h <==> key == Window(h))
  {
    FlushEntry(key, e);
    if e >= 8000 {
      assert key == Window(e - 8000);
    }
  }

  /** What a table entry says about its key: a straight flush entry names the key's window, any other is a plain flush. */
  lemma FlushEntry(key: set<nat>, e: nat)
    requires FiveRanks(key) && e == KeyEntry(key)
    ensures e >= 8000 ==> 8003 <= e <= 8012 && forall h | 3 <= h <= 12 :: key == Window(h) <==> h == e - 8000
    ensures e < 8000 ==> 5000 <= e <= 5999 && forall h | 3 <= h <= 12 :: key != Window(h)
  {
  }

  /** The branches of `evaluate_u64` after the flush check: paired hands, then straights, then high card. */
  function UnsuitedScore(ps: seq<nat>): (r: HandRanking)
    requires Positions(ps)
    ensures Category(r) != Flush && Category(r) != StraightFlush
    ensures HasPairs(CountRanks(ps)) ==> r == EvaluatePaired(CountRanks(ps))
    ensures Category(r) == Straight <==> !HasPairs(CountRanks(ps)) && exists h | 3 <= h <= 12 :: Window(h) <= RankBits(ps)
  {
    var counts := CountRanks(ps);
    if HasPairs(counts) then EvaluatePaired(counts)
    else match CheckStraight(RankBits(ps))
      case Some(high) => StraightRanking(high as u8)
      case None => HighCardRanking(Take(HeldRanks(counts, 13), 5))
  }

  /**
   * `evaluate_u64` on the increasing list of set-bit positions: the flush
   * table first, then the paired path, then straights, then high card.
   */
  function EvaluatePositions(ev: LookupEvaluator, ps: seq<nat>): (r: HandRanking)
    requires ValidTable(ev.flushTable) && Positions(ps)
    ensures |ps| < 5 ==> r == MIN
    // five or more cards of one suit, and only then, give a flush or a straight flush
    ensures |ps| >= 5 ==> (Category(r) == Flush || Category(r) == StraightFlush <==> !NoFlushFrom(SuitMasks(ps), 0))
    // a straight flush exactly when the five ranks `check_flush` picks form a window, scored by its top rank
    ensures |ps| >= 5 && CheckFlush(ps).Some? ==> forall h | 3 <= h <= 12 ::
      (Category(r) == StraightFlush && r.score % KICKER_LIMIT == h <==> CheckFlush(ps).value == Window(h))
    ensures |ps| >= 5 && CheckFlush(ps).Some? ==>
      (Category(r) == StraightFlush <==> exists h | 3 <= h <= 12 :: CheckFlush(ps).value == Window(h))
    // without a flush, any repeated rank takes the paired path
    ensures |ps| >= 5 && NoFlushFrom(SuitMasks(ps), 0) && HasPairs(CountRanks(ps)) ==> r == EvaluatePaired(CountRanks(ps))
    // without a flush, a straight exactly when no rank repeats and a window lies inside the held ranks
    ensures |ps| >= 5 && NoFlushFrom(SuitMasks(ps), 0) ==>
      (Category(r) == Straight <==> !HasPairs(CountRanks(ps)) && exists h | 3 <= h <= 12 :: Window(h) <= RankBits(ps))
  {
    if |ps| < 5 then MIN
    else match CheckFlush(ps)
      case Some(flushRanks) => FlushScore(ev, flushRanks)
      case None => UnsuitedScore(ps)
  }

  /** `evaluate_u64`: the word's set bits, lowest first, as `trailing_zeros` visits them. */
  function EvaluateU64(ev: LookupEvaluator, w: Word): (r: HandRanking)
    requires ValidTable(ev.flushTable)
    requires forall x | x in w :: x < 52
    ensures |w| < 5 ==> r == MIN
  {
    var ps := Combinations.Ascending(w, 64);
    Combinations.ElementsOfAscending(w, 64);
    assert forall i | 0 <= i < |ps| :: ps[i] in w;
    EvaluatePositions(ev, ps)
  }

  /** The ranks, up to 15, that `check_flush` records for one suit slot of any word. */
  function WordSuitRanks(w: Word, slot: nat): (m: set<nat>)
    requires slot < 4
    ensures forall r :: r in m <==> r < 16 && 4 * r + slot in w
  {
    var m := set x | x in w && x % 4 == slot :: x / 4;
    forall r ensures r in m <==> r < 16 && 4 * r + slot in w {
      if r in m {
        var x :| x in w && x % 4 == slot && x / 4 == r;
        assert x == 4 * r + slot;
      }
      if r < 16 && 4 * r + slot in w {
        assert (4 * r + slot) / 4 == r;
      }
    }
    m
  }

  /**
   * `evaluate_u64` on any 64-bit word, `None` where the source panics. A word
   * of cards is scored as `EvaluateU64` scores it. With five or more bits and
   * a bit at 52 or above, a rank above 12 appears: the flush path still runs
   * over 16-bit suit masks, and its key indexes past the 8192-entry table if
   * it holds such a rank; without a flush, `count_ranks` indexes past its
   * 13 counters.
   */
  function EvaluateWord(ev: LookupEvaluator, w: Word): (r: Option<HandRanking>)
    requires ValidTable(ev.flushTable)
    ensures |w| < 5 ==> r == Some(MIN)
    ensures (forall x | x in w :: x < 52) ==> r == Some(EvaluateU64(ev, w))
  {
    if |w| < 5 then Some(MIN)
    else if forall x | x in w :: x < 52 then Some(EvaluateU64(ev, w))
    else
      var suits := seq(4, s requires 0 <= s < 4 => WordSuitRanks(w, s));
      match FlushSlot(suits, 0)
      case None => None
      case Some(slot) =>
        var top := TopRanks(suits[slot], 16, 5);
        if exists x | x in top :: x >= 13 then None
        else
          assert Restrict(suits[slot], 16) == suits[slot];
          Some(FlushScore(ev, top))
  }

  /**
   * A word with a bit at 52 or above never reaches the rank-count paths: it
   * scores a flush or a straight flush, or it fails.
   */
  lemma HighBitOnlyFlush(ev: LookupEvaluator, w: Word, x: nat)
    requires ValidTable(ev.flushTable) && x in w && x >= 52
    ensures |w| >= 5 && EvaluateWord(ev, w).Some? ==>
      Category(EvaluateWord(ev, w).value) == Flush || Category(EvaluateWord(ev, w).value) == StraightFlush
    ensures |w| >= 5 && (forall slot | 0 <= slot < 4 :: |WordSuitRanks(w, slot)| < 5) ==> EvaluateWord(ev, w).None?
  {
    var suits := seq(4, s requires 0 <= s < 4 => WordSuitRanks(w, s));
    if |w| >= 5 && forall slot | 0 <= slot < 4 :: |WordSuitRanks(w, slot)| < 5 {
      assert NoFlushFrom(suits, 0);
    }
  }

  /**
   * When the first suit holding five ranks also holds a bit at 52 or above,
   * the five ranks taken from the top include a rank above 12 and the table
   * lookup fails.
   */
  lemma HighBitInFlushSuit(ev: LookupEvaluator, w: Word, x: nat)
    requires ValidTable(ev.flushTable) && x in w && x >= 52
    requires FlushSlot(seq(4, s requires 0 <= s < 4 => WordSuitRanks(w, s)), 0) == Some(x % 4)
    ensures EvaluateWord(ev, w).None?
  {
    var suits := seq(4, s requires 0 <= s < 4 => WordSuitRanks(w, s));
    assert x == 4 * (x / 4) + x % 4;
    SuitRanksBound(w, x % 4);
    TopHoldsHigh(suits[x % 4], x / 4);
  }

  /** One suit's ranks come from distinct bits of the word. */
  lemma {:induction false} SuitRanksBound(w: Word, slot: nat)
    requires slot < 4
    ensures |WordSuitRanks(w, slot)| <= |w|
    decreases |w|
  {
    if w != {} {
      var y :| y in w;
      var rest := w - {y};
      SuitRanksBound(rest, slot);
      var m := WordSuitRanks(w, slot);
      assert m <= WordSuitRanks(rest, slot) + {y / 4};
      SubsetCount(m, WordSuitRanks(rest, slot) + {y / 4});
    }
  }

  lemma SubsetCount(a: set<nat>, b: set<nat>)
    requires a <= b
    ensures |a| <= |b|
  {
    assert b == a + (b - a);
  }

  /** The five highest of at least five ranks below 16 include any rank above 12 that is held. */
  lemma TopHoldsHigh(m: set<nat>, v: nat)
    requires v in m && 13 <= v < 16 && |m| >= 5 && forall y | y in m :: y < 16
    ensures exists z | z in TopRanks(m, 16, 5) :: z >= 13
  {
    assert Restrict(m, 16) == m;
    var top := TopRanks(m, 16, 5);
    if v !in top {
      var y :| y in top;
      assert v in Restrict(m, 16) - top;
    } else {
      assert v in top;
    }
  }

  /** `evaluate`: the hand's card word. */
  function Evaluate(ev: LookupEvaluator, h: Hand): (r: HandRanking)
    requires ValidTable(ev.flushTable) && WellFormed(h.cards)
    ensures |h.cards.bits| < 5 ==> r == MIN
  {
    EvaluateU64(ev, h.cards.bits)
  }

  // -------------------------------------------------------------- best of 7

  /** The word of the seven cards with the `i`-th and `j`-th left out. */
  function Without(cards: seq<Card>, i: nat, j: nat): (w: Word)
    ensures forall x | x in w :: x < 52
    ensures forall k | 0 <= k < |cards| && k != i && k != j :: Index(cards[k]) in w
  {
    set k | 0 <= k < |cards| && k != i && k != j :: Index(cards[k])
  }

  /** The evaluation of the five cards left after dropping cards `i` and `j`. */
  function SubsetValue(ev: LookupEvaluator, cards: seq<Card>, i: nat, j: nat): HandRanking
    requires ValidTable(ev.flushTable)
  {
    EvaluateU64(ev, Without(cards, i, j))
  }

  /**
   * The two loops of `evaluate_7_cards` over the dropped pairs `i < j`,
   * keeping the best score seen, for any per-pair score.
   */
  method BestOverPairs(score: (nat, nat) --> HandRanking) returns (best: HandRanking)
    requires forall i, j | 0 <= i < j < 7 :: score.requires(i, j)
    ensures forall i, j | 0 <= i < j < 7 :: !Less(best, score(i, j))
    ensures best == MIN || exists i, j | 0 <= i < j < 7 :: best == score(i, j)
  {
    best := MIN;
    for i := 0 to 7
      invariant forall a, b | 0 <= a < i && a < b < 7 :: !Less(best, score(a, b))
      invariant best == MIN || exists a, b | 0 <= a < b < 7 :: best == score(a, b)
    {
      for j := i + 1 to 7
        invariant forall a, b | 0 <= a < i && a < b < 7 :: !Less(best, score(a, b))
        invariant forall b | i < b < j :: !Less(best, score(i, b))
        invariant best == MIN || exists a, b | 0 <= a < b < 7 :: best == score(a, b)
      {
        var ranking := score(i, j);
        if Less(best, ranking) {
          best := ranking;
        }
      }
    }
  }

  /**
   * `evaluate_7_cards`: the best of the 21 five-card subsets, each obtained by
   * dropping a pair `i < j` of the seven cards (MIN if every subset scores MIN).
   */
  method Evaluate7(ev: LookupEvaluator, cards: seq<Card>) returns (best: HandRanking)
    requires ValidTable(ev.flushTable) && |cards| == 7
    ensures forall i, j | 0 <= i < j < 7 :: !Less(best, SubsetValue(ev, cards, i, j))
    ensures best == MIN || exists i, j | 0 <= i < j < 7 :: best == SubsetValue(ev, cards, i, j)
  {
    var score := (i: nat, j: nat) requires ValidTable(ev.flushTable) => SubsetValue(ev, cards, i, j);
    best := BestOverPairs(score);
    forall i, j | 0 <= i < j < 7 ensures !Less(best, SubsetValue(ev, cards, i, j)) {
      assert score(i, j) == SubsetValue(ev, cards, i, j);
    }
    if best != MIN {
      var i, j :| 0 <= i < j < 7 && best == score(i, j);
      assert best == SubsetValue(ev, cards, i, j);
    }
  }
}
