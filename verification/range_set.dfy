/**
 * `Range` itself (`range.rs`): the set of parsed patterns built by `from_str`,
 * its sorted and de-duplicated combo list (`to_hole_cards`), and the counts
 * read from that list.
 */
module RangeSets {
  import opened Wrappers
  import opened Cards
  import opened CardSets
  import opened Hands
  import opened Text
  import opened Combinations
  import opened Ranges
  import opened RangeCombos

  // ------------------------------------------------------------ sorting combos

  /** The sort key `(high.index(), low.index())`, as one number. */
  function Key(h: HoleCards): (k: nat)
    ensures k < 52 * 52
    ensures k / 52 == Index(h.high) && k % 52 == Index(h.low)
  {
    Index(h.high) * 52 + Index(h.low)
  }

  /** The hole cards a key stands for. */
  function FromKey(k: nat): HoleCards
    requires k < 52 * 52
  {
    NewHole(CardAt(k / 52), CardAt(k % 52))
  }

  /** Keys identify hole cards. */
  lemma KeyRoundTrip(h: HoleCards)
    ensures FromKey(Key(h)) == h
  {
    IndexInjective(CardAt(Key(h) / 52), h.high);
    IndexInjective(CardAt(Key(h) % 52), h.low);
    NewHoleCanonical(h);
  }

  /** `a` sorts strictly before `b` under the key `(high.index(), low.index())`. */
  predicate KeyBefore(a: HoleCards, b: HoleCards)
  {
    Index(a.high) < Index(b.high) || (Index(a.high) == Index(b.high) && Index(a.low) < Index(b.low))
  }

  predicate StrictlySorted(r: seq<HoleCards>)
  {
    forall i, j | 0 <= i < j < |r| :: KeyBefore(r[i], r[j])
  }

  lemma KeyOrder(a: HoleCards, b: HoleCards)
    ensures KeyBefore(a, b) <==> Key(a) < Key(b)
  {
  }

  function KeySet(hs: seq<HoleCards>): set<nat>
  {
    set h | h in hs :: Key(h)
  }

  /**
   * `sort_by_key` followed by `dedup`: every combo once, in increasing key
   * order. Equal keys mean equal hole cards, so the stable sort puts copies
   * next to each other and `dedup` keeps one of each.
   */
  function SortDedup(hs: seq<HoleCards>): (r: seq<HoleCards>)
    ensures forall x :: x in r <==> x in hs
    ensures StrictlySorted(r)
  {
    var ks := Combinations.Ascending(KeySet(hs), 52 * 52);
    var r := seq(|ks|, i requires 0 <= i < |ks| => FromKey(ks[i]));
    SortDedupFacts(hs, ks, r);
    r
  }

  lemma SortDedupFacts(hs: seq<HoleCards>, ks: seq<nat>, r: seq<HoleCards>)
    requires Increasing(ks) && InRange(ks, 0, 52 * 52)
    requires forall x :: x in ks <==> x in KeySet(hs) && x < 52 * 52
    requires |r| == |ks| && forall i | 0 <= i < |ks| :: r[i] == FromKey(ks[i])
    ensures forall i | 0 <= i < |r| :: Key(r[i]) == ks[i]
    ensures forall x :: x in r <==> x in hs
    ensures StrictlySorted(r)
  {
    forall i | 0 <= i < |r|
      ensures Key(r[i]) == ks[i] && r[i] in hs
    {
      assert ks[i] in ks;
      var h :| h in hs && Key(h) == ks[i];
      KeyRoundTrip(h);
    }
    forall x | x in hs
      ensures x in r
    {
      assert Key(x) in ks;
      var i :| 0 <= i < |ks| && ks[i] == Key(x);
      KeyRoundTrip(x);
    }
  }

  /** Nothing else is strictly sorted with the same combos: the result does not depend on the input order. */
  lemma SortDedupUnique(hs: seq<HoleCards>, r: seq<HoleCards>)
    requires StrictlySorted(r)
    requires forall x :: x in r <==> x in hs
    ensures r == SortDedup(hs)
  {
    var t := seq(|r|, i requires 0 <= i < |r| => Key(r[i]));
    assert Increasing(t) && InRange(t, 0, 52 * 52);
    assert Elements(t) == KeySet(hs) by {
      forall k | k in KeySet(hs)
        ensures k in Elements(t)
      {
        var h :| h in hs && Key(h) == k;
        var i :| 0 <= i < |r| && r[i] == h;
        assert t[i] == k;
      }
    }
    AscendingOfElements(t, 52 * 52);
    var s := SortDedup(hs);
    SortDedupFacts(hs, t, s);
    forall i | 0 <= i < |r|
      ensures r[i] == s[i]
    {
      KeyRoundTrip(r[i]);
      KeyRoundTrip(s[i]);
    }
  }

  /** Shuffling the input does not change the sorted list. */
  lemma SortDedupOrderFree(a: seq<HoleCards>, b: seq<HoleCards>)
    requires forall x :: x in a <==> x in b
    ensures SortDedup(a) == SortDedup(b)
  {
    SortDedupUnique(b, SortDedup(a));
  }

  function Members(s: seq<HoleCards>): set<HoleCards>
  {
    set x | x in s
  }

  /** A list without repeats has as many entries as members. */
  lemma {:induction false} DistinctMembers(s: seq<HoleCards>)
    requires Distinct(s)
    ensures |Members(s)| == |s|
  {
    if |s| > 0 {
      var p := s[..|s| - 1];
      DistinctMembers(p);
      assert Members(s) == Members(p) + {s[|s| - 1]};
    }
  }

  lemma SortedDistinct(r: seq<HoleCards>)
    requires StrictlySorted(r)
    ensures Distinct(r)
  {
  }

  /** Sorting a list without repeats keeps its length: `dedup` drops nothing. */
  lemma SortDedupCount(hs: seq<HoleCards>)
    requires Distinct(hs)
    ensures |SortDedup(hs)| == |hs|
  {
    var r := SortDedup(hs);
    SortedDistinct(r);
    DistinctMembers(r);
    DistinctMembers(hs);
    assert Members(r) == Members(hs);
  }

  // ------------------------------------------------------------------ Range

  /**
   * A range: its patterns in some iteration order. The source keeps them in
   * a hash set, so a well-formed range lists each pattern once.
   */
  datatype Range = Range(hands: seq<HandPattern>)

  predicate ValidRange(r: Range)
  {
    (forall i, j | 0 <= i < j < |r.hands| :: r.hands[i] != r.hands[j])
    && forall p | p in r.hands :: ValidPattern(p)
  }

  /** `Range::new`. */
  function NewRange(): (r: Range)
    ensures ValidRange(r) && forall p :: p !in r.hands
  {
    Range([])
  }

  /** `HashSet::insert`: the pattern joins the range unless it is already there. */
  function InsertPattern(r: Range, p: HandPattern): (r': Range)
    requires ValidRange(r) && ValidPattern(p)
    ensures ValidRange(r')
    ensures forall q :: q in r'.hands <==> q in r.hands || q == p
  {
    if p in r.hands then r else Range(r.hands + [p])
  }

  /** What one comma-separated part of a range string does to the range. */
  datatype PartOutcome = Skip | Add(pattern: HandPattern) | Reject(error: RangeParseError)

  /** A part is trimmed; a blank part is skipped, any other is parsed. */
  function Classify(part: string): (o: PartOutcome)
    ensures o.Skip? <==> Trim(part) == []
    ensures o.Add? ==> ValidPattern(o.pattern) && ParsePattern(Trim(part)) == Ok(o.pattern)
    ensures o.Reject? ==> ParsePattern(Trim(part)) == Err(o.error)
    ensures !o.Skip? ==> (o.Add? <==> ParsePattern(Trim(part)).Ok?)
  {
    var t := Trim(part);
    if t == [] then Skip
    else
      match ParsePattern(t)
      case Ok(p) => Add(p)
      case Err(e) => Reject(e)
  }

  predicate ValidOutcomes(os: seq<PartOutcome>)
  {
    forall i | 0 <= i < |os| :: os[i].Add? ==> ValidPattern(os[i].pattern)
  }

  /**
   * The loop of `Range::from_str` from part `k` on: skipped parts change
   * nothing, a pattern is inserted, and the first rejected part ends
   * everything with its error.
   */
  function AddParts(r: Range, os: seq<PartOutcome>, k: nat): (res: Result<Range, RangeParseError>)
    requires ValidRange(r) && ValidOutcomes(os) && k <= |os|
    ensures res.Ok? ==> ValidRange(res.value)
    decreases |os| - k
  {
    if k == |os| then Ok(r)
    else
      match os[k]
      case Skip => AddParts(r, os, k + 1)
      case Add(p) => AddParts(InsertPattern(r, p), os, k + 1)
      case Reject(e) => Err(e)
  }

  /** The loop succeeds exactly when no part from `k` on is rejected. */
  lemma {:induction false} AddPartsOk(r: Range, os: seq<PartOutcome>, k: nat)
    requires ValidRange(r) && ValidOutcomes(os) && k <= |os|
    ensures AddParts(r, os, k).Ok? <==> forall i | k <= i < |os| :: !os[i].Reject?
    decreases |os| - k
  {
    if k < |os| && !os[k].Reject? {
      match os[k]
      case Skip => AddPartsOk(r, os, k + 1);
      case Add(p) => AddPartsOk(InsertPattern(r, p), os, k + 1);
    }
  }

  /** A successful loop holds the patterns it started with and those of the parts, nothing else. */
  lemma {:induction false} AddPartsMembers(r: Range, os: seq<PartOutcome>, k: nat, q: HandPattern)
    requires ValidRange(r) && ValidOutcomes(os) && k <= |os|
    requires AddParts(r, os, k).Ok?
    ensures q in AddParts(r, os, k).value.hands <==> q in r.hands || exists i | k <= i < |os| :: os[i] == Add(q)
    decreases |os| - k
  {
    if k < |os| {
      match os[k]
      case Skip => AddPartsMembers(r, os, k + 1, q);
      case Add(p) => AddPartsMembers(InsertPattern(r, p), os, k + 1, q);
    }
  }

  /** A failed loop reports the error of the first rejected part from `k` on. */
  lemma {:induction false} AddPartsFirstError(r: Range, os: seq<PartOutcome>, k: nat) returns (i: nat)
    requires ValidRange(r) && ValidOutcomes(os) && k <= |os|
    requires AddParts(r, os, k).Err?
    ensures k <= i < |os| && os[i] == Reject(AddParts(r, os, k).error)
    ensures forall j | k <= j < i :: !os[j].Reject?
    decreases |os| - k
  {
    match os[k]
    case Skip => i := AddPartsFirstError(r, os, k + 1);
    case Add(p) => i := AddPartsFirstError(InsertPattern(r, p), os, k + 1);
    case Reject(_) => i := k;
  }

  /** The outcome of every comma-separated part of `s`, in order. */
  function Outcomes(s: string): (os: seq<PartOutcome>)
    ensures ValidOutcomes(os)
    ensures |os| == |Split(s, ',')| && forall i | 0 <= i < |os| :: os[i] == Classify(Split(s, ',')[i])
  {
    var parts := Split(s, ',');
    seq(|parts|, i requires 0 <= i < |parts| => Classify(parts[i]))
  }

  /** `Range::from_str`. */
  function FromStr(s: string): (res: Result<Range, RangeParseError>)
    ensures res.Ok? ==> ValidRange(res.value)
  {
    AddParts(NewRange(), Outcomes(s), 0)
  }

  /**
   * A range string parses exactly when none of its parts is rejected, that is
   * when each comma-separated part is blank or a pattern (`Outcomes` classifies
   * the parts in order).
   */
  lemma FromStrOk(s: string)
    ensures FromStr(s).Ok? <==> forall i | 0 <= i < |Outcomes(s)| :: !Outcomes(s)[i].Reject?
  {
    AddPartsOk(NewRange(), Outcomes(s), 0);
  }

  /** The patterns of a parsed range are exactly those its non-blank parts spell. */
  lemma FromStrMembers(s: string, q: HandPattern)
    requires FromStr(s).Ok?
    ensures q in FromStr(s).value.hands <==> Add(q) in Outcomes(s)
  {
    AddPartsMembers(NewRange(), Outcomes(s), 0, q);
  }

  /** A range string that does not parse fails with the error of its first rejected part. */
  lemma FromStrFirstError(s: string) returns (i: nat)
    requires FromStr(s).Err?
    ensures i < |Split(s, ',')| && Classify(Split(s, ',')[i]) == Reject(FromStr(s).error)
    ensures forall j | 0 <= j < i :: !Classify(Split(s, ',')[j]).Reject?
  {
    i := AddPartsFirstError(NewRange(), Outcomes(s), 0);
  }

  /** `Range::add_pattern`: parse one pattern and insert it, or report why it does not parse. */
  function AddPattern(r: Range, text: string): (res: Result<Range, RangeParseError>)
    requires ValidRange(r)
    ensures res.Ok? <==> ParsePattern(text).Ok?
    ensures res.Err? ==> res.error == ParsePattern(text).error
    ensures res.Ok? ==> ValidRange(res.value)
    ensures res.Ok? ==> forall q :: q in res.value.hands <==> q in r.hands || q == ParsePattern(text).value
  {
    match ParsePattern(text)
    case Err(e) => Err(e)
    case Ok(p) => Ok(InsertPattern(r, p))
  }

  // ------------------------------------------------------------ combo lists

  /** The combos of every pattern, in the range's iteration order, copies included. */
  function AllCombos(hands: seq<HandPattern>, dead: CardSet): (r: seq<HoleCards>)
    ensures forall x :: x in r <==> exists p | p in hands :: x in PatternCombos(p, dead)
  {
    if |hands| == 0 then []
    else
      var r := PatternCombos(hands[0], dead) + AllCombos(hands[1..], dead);
      assert forall p | p in hands :: p == hands[0] || p in hands[1..];
      r
  }

  /** `dead_cards.unwrap_or(CardSet::new())`. */
  function DeadOrEmpty(dead: Option<CardSet>): (d: CardSet)
    ensures dead.None? ==> d.bits == {}
    ensures dead.Some? ==> d == dead.value
  {
    match dead
    case None => EMPTY
    case Some(d) => d
  }

  /** `Range::to_hole_cards`: every combo of every pattern that avoids the dead cards, sorted, without copies. */
  function ToHoleCards(r: Range, dead: Option<CardSet>): (hs: seq<HoleCards>)
    ensures StrictlySorted(hs)
  {
    SortDedup(AllCombos(r.hands, DeadOrEmpty(dead)))
  }

  /** A combo is listed exactly when it avoids the dead cards and some pattern of the range matches it. */
  lemma ToHoleCardsMembers(r: Range, dead: Option<CardSet>, x: HoleCards)
    requires ValidRange(r)
    ensures x in ToHoleCards(r, dead) <==> Live(x, DeadOrEmpty(dead)) && exists p | p in r.hands :: Matches(p, x)
  {
    var d := DeadOrEmpty(dead);
    if x in ToHoleCards(r, dead) {
      var p :| p in r.hands && x in PatternCombos(p, d);
      PatternMembers(p, d, x);
    }
    if Live(x, d) && exists p | p in r.hands :: Matches(p, x) {
      var p :| p in r.hands && Matches(p, x);
      PatternMembers(p, d, x);
    }
  }

  /** The list depends only on which patterns the range holds, not on the order it visits them. */
  lemma ToHoleCardsOrderFree(a: Range, b: Range, dead: Option<CardSet>)
    requires forall p :: p in a.hands <==> p in b.hands
    ensures ToHoleCards(a, dead) == ToHoleCards(b, dead)
  {
    SortDedupOrderFree(AllCombos(a.hands, DeadOrEmpty(dead)), AllCombos(b.hands, DeadOrEmpty(dead)));
  }

  /** `Range::combo_count`. */
  function ComboCount(r: Range, dead: Option<CardSet>): (n: nat)
    ensures n == |Members(ToHoleCards(r, dead))|
  {
    var hs := ToHoleCards(r, dead);
    SortedDistinct(hs);
    DistinctMembers(hs);
    |hs|
  }

  /** A one-pattern range without dead cards has the pattern's full number of combos. */
  lemma SinglePatternCount(p: HandPattern)
    requires ValidPattern(p)
    ensures ComboCount(Range([p]), None) == PatternSize(p)
  {
    assert DeadOrEmpty(None) == EMPTY;
    SingleCount(p, EMPTY);
  }

  lemma SingleCount(p: HandPattern, dead: CardSet)
    requires ValidPattern(p) && dead.bits == {}
    ensures |SortDedup(AllCombos([p], dead))| == PatternSize(p)
  {
    var combos := PatternCombos(p, dead);
    assert AllCombos([p], dead) == combos by {
      assert AllCombos([p], dead) == combos + AllCombos([], dead);
    }
    assert |combos| == PatternSize(p) by {
      PatternCount(p, dead);
    }
    PatternDistinct(p, dead);
    SortDedupCount(combos);
  }

  lemma SubsetCount(a: seq<HoleCards>, b: seq<HoleCards>)
    requires Distinct(a) && Distinct(b)
    requires forall x | x in a :: x in b
    ensures |a| <= |b|
  {
    DistinctMembers(a);
    DistinctMembers(b);
    assert Members(b) == Members(a) + (Members(b) - Members(a));
  }

  /** Dead cards only ever remove combos. */
  lemma DeadCardsRemove(r: Range, dead: CardSet)
    requires ValidRange(r)
    ensures forall x | x in ToHoleCards(r, Some(dead)) :: x in ToHoleCards(r, None)
    ensures ComboCount(r, Some(dead)) <= ComboCount(r, None)
  {
    var a, b := ToHoleCards(r, Some(dead)), ToHoleCards(r, None);
    forall x | x in a
      ensures x in b
    {
      ToHoleCardsMembers(r, Some(dead), x);
      ToHoleCardsMembers(r, None, x);
    }
    SortedDistinct(a);
    SortedDistinct(b);
    SubsetCount(a, b);
  }

  /** `Range::contains`: the combo is in the list with no dead cards. */
  predicate ContainsHand(r: Range, h: HoleCards)
  {
    h in ToHoleCards(r, None)
  }

  /** A range contains exactly the combos one of its patterns matches. */
  lemma ContainsMatches(r: Range, h: HoleCards)
    requires ValidRange(r)
    ensures ContainsHand(r, h) <==> exists p | p in r.hands :: Matches(p, h)
  {
    ToHoleCardsMembers(r, None, h);
  }

  // -------------------------------------------------------------- breakdown

  /** `Range::combo_breakdown`'s counts; `total` is their sum. */
  datatype ComboBreakdown = ComboBreakdown(pairs: nat, suited: nat, offsuit: nat, total: nat)

  /** The three classes the breakdown counts, tested in the source's order. */
  datatype HandClass = PairClass | SuitedClass | OffsuitClass

  function ClassOf(h: HoleCards): HandClass
  {
    if IsPair(h) then PairClass else if IsSuited(h) then SuitedClass else OffsuitClass
  }

  function ClassCount(b: ComboBreakdown, c: HandClass): nat
  {
    match c
    case PairClass => b.pairs
    case SuitedClass => b.suited
    case OffsuitClass => b.offsuit
  }

  /** The counting loop over a combo list. */
  function Tally(hs: seq<HoleCards>): (b: ComboBreakdown)
    ensures b.pairs + b.suited + b.offsuit == |hs|
  {
    if |hs| == 0 then ComboBreakdown(0, 0, 0, 0)
    else
      var b := Tally(hs[1..]);
      match ClassOf(hs[0])
      case PairClass => b.(pairs := b.pairs + 1)
      case SuitedClass => b.(suited := b.suited + 1)
      case OffsuitClass => b.(offsuit := b.offsuit + 1)
  }

  /** The distinct members of `hs` that `keep` selects. */
  function Selected<T>(hs: seq<T>, keep: T -> bool): set<T>
  {
    set x | x in hs && keep(x)
  }

  function InClass(c: HandClass): HoleCards -> bool
  {
    (h: HoleCards) => ClassOf(h) == c
  }

  function ClassMembers(hs: seq<HoleCards>, c: HandClass): (m: set<HoleCards>)
    ensures forall x :: x in m <==> x in hs && ClassOf(x) == c
  {
    Selected(hs, InClass(c))
  }

  /** On a list without copies, each count is the number of distinct combos of its class. */
  lemma {:induction false} TallyClass(hs: seq<HoleCards>, c: HandClass)
    requires Distinct(hs)
    ensures ClassCount(Tally(hs), c) == |ClassMembers(hs, c)|
  {
    if |hs| > 0 {
      var rest := hs[1..];
      assert Distinct(rest);
      TallyClass(rest, c);
      TallyStep(hs, c);
    }
  }

  /** One step of the counting loop: the first combo adds one to its own class. */
  lemma TallyStep(hs: seq<HoleCards>, c: HandClass)
    requires |hs| > 0 && Distinct(hs)
    ensures ClassCount(Tally(hs), c) == ClassCount(Tally(hs[1..]), c) + (if ClassOf(hs[0]) == c then 1 else 0)
    ensures |ClassMembers(hs, c)| == |ClassMembers(hs[1..], c)| + (if ClassOf(hs[0]) == c then 1 else 0)
  {
    assert hs[0] !in hs[1..];
    ClassMembersHead(hs[0], hs[1..], c);
    assert hs == [hs[0]] + hs[1..];
  }

  lemma ClassMembersHead(x: HoleCards, rest: seq<HoleCards>, c: HandClass)
    requires x !in rest
    ensures |ClassMembers([x] + rest, c)| == |ClassMembers(rest, c)| + (if ClassOf(x) == c then 1 else 0)
  {
    SelectedHead(x, rest, InClass(c));
  }

  lemma SelectedHead<T>(x: T, rest: seq<T>, keep: T -> bool)
    requires x !in rest
    ensures |Selected([x] + rest, keep)| == |Selected(rest, keep)| + (if keep(x) then 1 else 0)
  {
    assert x !in Selected(rest, keep);
    assert Selected([x] + rest, keep) == Selected(rest, keep) + (if keep(x) then {x} else {});
  }

  function Breakdown(r: Range, dead: Option<CardSet>): (b: ComboBreakdown)
    ensures b.total == ComboCount(r, dead)
  {
    var t := Tally(ToHoleCards(r, dead));
    ComboBreakdown(t.pairs, t.suited, t.offsuit, t.pairs + t.suited + t.offsuit)
  }

  /** Each count of the breakdown is the number of listed combos of that class. */
  lemma BreakdownClasses(r: Range, dead: Option<CardSet>, c: HandClass)
    ensures ClassCount(Breakdown(r, dead), c) == |ClassMembers(ToHoleCards(r, dead), c)|
  {
    var hs := ToHoleCards(r, dead);
    SortedDistinct(hs);
    TallyClass(hs, c);
  }
}
