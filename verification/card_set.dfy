/** The 64-bit card set of `card_set.rs`: bit `Index(c)` is set exactly when `c` is in the set. */
module CardSets {
  import opened Cards

  /**
   * A `u64` word, represented by the positions of its set bits. The bitwise
   * operators of the source become the set operators on positions.
   */
  type Word = s: set<nat> | forall i | i in s :: i < 64

  datatype CardSet = CardSet(bits: Word)

  /** `CardSet::EMPTY`. */
  const EMPTY: CardSet := CardSet({})

  /** `CardSet::FULL_DECK`, the word `(1 << 52) - 1`: the low 52 bits. */
  const FULL_DECK: CardSet := CardSet(Below(52))

  /** The positions `0..n`. */
  function Below(n: nat): (r: set<nat>)
    requires n <= 64
    ensures forall i: nat :: i in r <==> i < n
    ensures |r| == n
  {
    if n == 0 then {} else Below(n - 1) + {n - 1}
  }

  /** `contains`: the card's bit is set. */
  predicate Contains(s: CardSet, c: Card)
  {
    Index(c) in s.bits
  }

  /** Only the 52 card bits are in use; every set built from cards has this shape. */
  predicate WellFormed(s: CardSet)
  {
    forall i | i in s.bits :: i < 52
  }

  /** `count`: the population count of the word. */
  function Count(s: CardSet): nat
  {
    |s.bits|
  }

  /** `from_card`: the singleton set. */
  function FromCard(c: Card): (r: CardSet)
    ensures forall d :: Contains(r, d) <==> d == c
    ensures WellFormed(r) && Count(r) == 1
  {
    var r := CardSet({Index(c)});
    assert forall d :: Contains(r, d) <==> d == c by {
      forall d
        ensures Contains(r, d) <==> d == c
      {
        IndexInjective(c, d);
      }
    }
    r
  }

  /** `insert`: set the card's bit; every other card keeps its membership. */
  function Insert(s: CardSet, c: Card): (r: CardSet)
    ensures Contains(r, c)
    ensures forall d :: d != c ==> (Contains(r, d) <==> Contains(s, d))
    ensures WellFormed(s) ==> WellFormed(r)
    ensures Count(r) == if Contains(s, c) then Count(s) else Count(s) + 1
  {
    var r := CardSet(s.bits + {Index(c)});
    assert forall d :: d != c ==> (Contains(r, d) <==> Contains(s, d)) by {
      forall d | d != c
        ensures Contains(r, d) <==> Contains(s, d)
      {
        IndexInjective(c, d);
      }
    }
    assert Contains(s, c) ==> r.bits == s.bits;
    r
  }

  /** `remove`: clear the card's bit; every other card keeps its membership. */
  function Remove(s: CardSet, c: Card): (r: CardSet)
    ensures !Contains(r, c)
    ensures forall d :: d != c ==> (Contains(r, d) <==> Contains(s, d))
    ensures WellFormed(s) ==> WellFormed(r)
    ensures Count(r) == if Contains(s, c) then Count(s) - 1 else Count(s)
  {
    var r := CardSet(s.bits - {Index(c)});
    assert forall d :: d != c ==> (Contains(r, d) <==> Contains(s, d)) by {
      forall d | d != c
        ensures Contains(r, d) <==> Contains(s, d)
      {
        IndexInjective(c, d);
      }
    }
    r
  }

  /** `is_empty`: the word is zero. */
  function IsEmpty(s: CardSet): (r: bool)
    ensures r <==> Count(s) == 0
    ensures WellFormed(s) ==> (r <==> forall c :: !Contains(s, c))
  {
    if s.bits == {} then true
    else
      var i :| i in s.bits;
      assert WellFormed(s) ==> Contains(s, CardAt(i));
      false
  }

  /** `union`: bitwise or. */
  function Union(a: CardSet, b: CardSet): (r: CardSet)
    ensures forall c :: Contains(r, c) <==> Contains(a, c) || Contains(b, c)
    ensures WellFormed(a) && WellFormed(b) ==> WellFormed(r)
  {
    CardSet(a.bits + b.bits)
  }

  /** `intersection`: bitwise and. */
  function Intersection(a: CardSet, b: CardSet): (r: CardSet)
    ensures forall c :: Contains(r, c) <==> Contains(a, c) && Contains(b, c)
    ensures WellFormed(a) || WellFormed(b) ==> WellFormed(r)
  {
    CardSet(a.bits * b.bits)
  }

  /** `difference`: `a & !b`. */
  function Difference(a: CardSet, b: CardSet): (r: CardSet)
    ensures forall c :: Contains(r, c) <==> Contains(a, c) && !Contains(b, c)
    ensures WellFormed(a) ==> WellFormed(r)
  {
    CardSet(a.bits - b.bits)
  }

  /** `overlaps`: the two words share a set bit; for card sets, a common card. */
  function Overlaps(a: CardSet, b: CardSet): (r: bool)
    ensures r <==> !IsEmpty(Intersection(a, b))
    ensures WellFormed(a) ==> (r <==> exists c :: Contains(a, c) && Contains(b, c))
  {
    if a.bits * b.bits == {} then false
    else
      var i :| i in a.bits * b.bits;
      assert WellFormed(a) ==> Contains(a, CardAt(i)) && Contains(b, CardAt(i));
      true
  }

  /** Sizes of union and intersection: inclusion-exclusion on the population counts. */
  lemma UnionIntersectionCount(a: CardSet, b: CardSet)
    ensures Count(Union(a, b)) + Count(Intersection(a, b)) == Count(a) + Count(b)
  {
  }

  /** A set is determined by the cards it contains, when only card bits are in use. */
  lemma {:induction false} Extensional(a: CardSet, b: CardSet)
    requires WellFormed(a) && WellFormed(b)
    requires forall c :: Contains(a, c) <==> Contains(b, c)
    ensures a == b
  {
    forall i | i in a.bits
      ensures i in b.bits
    {
      assert Contains(a, CardAt(i));
    }
    forall i | i in b.bits
      ensures i in a.bits
    {
      assert Contains(b, CardAt(i));
    }
    assert a.bits == b.bits;
  }

  /** The full deck holds every card and nothing else: 52 cards. */
  lemma FullDeck()
    ensures WellFormed(FULL_DECK)
    ensures forall c :: Contains(FULL_DECK, c)
    ensures Count(FULL_DECK) == 52
    ensures forall s :: WellFormed(s) <==> Difference(s, FULL_DECK) == EMPTY
  {
    forall s | Difference(s, FULL_DECK) == EMPTY
      ensures WellFormed(s)
    {
      assert forall i | i in s.bits :: i !in s.bits - FULL_DECK.bits;
    }
  }

  /** Card indices strictly increase along `r`. */
  predicate Ascending(r: seq<Card>)
  {
    forall k, l :: 0 <= k < l < |r| ==> Index(r[k]) < Index(r[l])
  }

  /**
   * The iterator from position `i` on: it takes the lowest set bit, clears it,
   * and stops (returns `None`) when that bit is not a card index.
   */
  function IterFrom(bits: Word, i: nat): (r: seq<Card>)
    requires i <= 64
    ensures forall c :: c in r ==> i <= Index(c) && Index(c) in bits
    ensures Ascending(r)
    decreases 64 - i
  {
    if i == 64 then []
    else if i in bits then
      if i >= 52 then []
      else
        var tail := IterFrom(bits, i + 1);
        var r := [CardAt(i)] + tail;
        assert forall k :: 1 <= k < |r| ==> r[k] in tail;
        r
    else IterFrom(bits, i + 1)
  }

  /** The card bits of `bits` at or above `i`. */
  ghost function CardBitsFrom(bits: Word, i: nat): set<nat>
  {
    set j | j in bits && i <= j < 52
  }

  /** Every card bit at or above `i` comes out. */
  lemma {:induction false} IterFromComplete(bits: Word, i: nat)
    requires i <= 64
    ensures forall j :: j in CardBitsFrom(bits, i) ==> CardAt(j) in IterFrom(bits, i)
    decreases 64 - i
  {
    if i < 64 {
      IterFromComplete(bits, i + 1);
      forall j | j in CardBitsFrom(bits, i)
        ensures CardAt(j) in IterFrom(bits, i)
      {
        if j > i {
          assert j in CardBitsFrom(bits, i + 1);
        }
      }
    }
  }

  /** One card comes out per card bit at or above `i`. */
  lemma {:induction false} IterFromLength(bits: Word, i: nat)
    requires i <= 64
    ensures |IterFrom(bits, i)| == |CardBitsFrom(bits, i)|
    decreases 64 - i
  {
    var here := CardBitsFrom(bits, i);
    if i < 64 {
      IterFromLength(bits, i + 1);
      var tail := CardBitsFrom(bits, i + 1);
      if i in bits && i < 52 {
        assert here == tail + {i};
      } else if i in bits {
        assert here == {};
      } else {
        assert here == tail;
      }
    } else {
      assert here == {};
    }
  }

  /** `iter`: the cards of the set, lowest index first. */
  function Iter(s: CardSet): (r: seq<Card>)
    ensures forall c :: c in r <==> Contains(s, c)
    ensures Ascending(r)
    ensures |r| <= Count(s)
    ensures |r| == Count(s) <==> WellFormed(s)
  {
    IterFacts(s);
    IterFrom(s.bits, 0)
  }

  lemma IterFacts(s: CardSet)
    ensures forall c :: c in IterFrom(s.bits, 0) <==> Contains(s, c)
    ensures |IterFrom(s.bits, 0)| <= Count(s)
    ensures |IterFrom(s.bits, 0)| == Count(s) <==> WellFormed(s)
  {
    var r := IterFrom(s.bits, 0);
    IterFromComplete(s.bits, 0);
    IterFromLength(s.bits, 0);
    forall c | Contains(s, c)
      ensures c in r
    {
      IndexInjective(CardAt(Index(c)), c);
      assert Index(c) in CardBitsFrom(s.bits, 0);
    }
    var cards := CardBitsFrom(s.bits, 0);
    assert cards <= s.bits;
    if WellFormed(s) {
      assert cards == s.bits;
    } else {
      var bad :| bad in s.bits && bad >= 52;
      var rest := s.bits - cards;
      assert bad in rest;
      assert s.bits == cards + rest && cards * rest == {};
      assert |s.bits| == |cards| + |rest|;
    }
  }

  /** `from_cards` (and `FromIterator`): insert the cards one after the other. */
  function FromCards(cards: seq<Card>): (r: CardSet)
    ensures forall c :: Contains(r, c) <==> c in cards
    ensures WellFormed(r)
    ensures Count(r) <= |cards|
  {
    if cards == [] then EMPTY
    else
      var init := FromCards(cards[..|cards| - 1]);
      var last := cards[|cards| - 1];
      assert cards == cards[..|cards| - 1] + [last];
      Insert(init, last)
  }

  /** Inserting distinct cards counts each of them once. */
  lemma {:induction false} FromCardsDistinct(cards: seq<Card>)
    requires forall k, l :: 0 <= k < l < |cards| ==> cards[k] != cards[l]
    ensures Count(FromCards(cards)) == |cards|
  {
    if cards != [] {
      var init := cards[..|cards| - 1];
      FromCardsDistinct(init);
      assert cards[|cards| - 1] !in init;
    }
  }

  /** Collecting the iterated cards gives back the set: `iter` and `from_cards` are inverse. */
  lemma IterRoundTrip(s: CardSet)
    requires WellFormed(s)
    ensures FromCards(Iter(s)) == s
  {
    Extensional(FromCards(Iter(s)), s);
  }
}
