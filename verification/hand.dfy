/** Hole cards and hands (`hand.rs`), and the `build_hand` helper (`helpers.rs`). */
module Hands {
  import opened Wrappers
  import opened Cards
  import opened CardSets
  import opened Text

  /** Two hole cards as stored: `cards[0]` and `cards[1]`. */
  datatype HolePair = HolePair(high: Card, low: Card)

  /** The stored order is never ascending: `HoleCards::new` puts the greater card first. */
  type HoleCards = h: HolePair | !CardLess(h.high, h.low)
    witness HolePair(Card(Two, Hearts), Card(Two, Hearts))

  /** `HoleCards::new`: the greater card (by the derived order) first. */
  function NewHole(c1: Card, c2: Card): (h: HoleCards)
    ensures {h.high, h.low} == {c1, c2}
  {
    if !CardLess(c1, c2) then HolePair(c1, c2)
    else
      CardLessTotal(c1, c2, c1);
      HolePair(c2, c1)
  }

  /** The order the cards are given in does not matter. */
  lemma NewHoleSymmetric(c1: Card, c2: Card)
    ensures NewHole(c1, c2) == NewHole(c2, c1)
  {
    CardLessTotal(c1, c2, c1);
  }

  /** Rebuilding stored hole cards gives them back. */
  lemma NewHoleCanonical(h: HoleCards)
    ensures NewHole(h.high, h.low) == h
  {
  }

  /** `is_suited`. */
  predicate IsSuited(h: HoleCards)
  {
    h.high.suit == h.low.suit
  }

  /** `is_pair`. */
  predicate IsPair(h: HoleCards)
  {
    h.high.value == h.low.value
  }

  /** `gap`: `u8::from(high) - u8::from(low)`, which never underflows. */
  function Gap(h: HoleCards): (g: u8)
    ensures g == Rank(h.high.value) - Rank(h.low.value)
    ensures g <= 12
    ensures g == 0 <==> IsPair(h)
  {
    ValuesRanks(h.high.value);
    ValuesRanks(h.low.value);
    ValueNum(h.high.value) - ValueNum(h.low.value)
  }

  /** The gap is the distance between the two ranks, whichever card comes first. */
  lemma GapOfNewHole(c1: Card, c2: Card)
    ensures Gap(NewHole(c1, c2)) == if Rank(c1.value) >= Rank(c2.value) then Rank(c1.value) - Rank(c2.value) else Rank(c2.value) - Rank(c1.value)
  {
  }

  /** `to_card_set`. */
  function HoleToCardSet(h: HoleCards): (s: CardSet)
    ensures forall c :: Contains(s, c) <==> c == h.high || c == h.low
    ensures WellFormed(s)
    ensures Count(s) == if h.high == h.low then 1 else 2
  {
    FromCardsDistinctPair(h.high, h.low);
    FromCards([h.high, h.low])
  }

  lemma FromCardsDistinctPair(a: Card, b: Card)
    ensures Count(FromCards([a, b])) == if a == b then 1 else 2
  {
    if a == b {
      FromCardsDistinct([a]);
      assert [a, b][..1] == [a];
    } else {
      FromCardsDistinct([a, b]);
    }
  }

  /** `Display for HoleCards`: the two cards, greater first. */
  function HoleToString(h: HoleCards): string
  {
    CardToString(h.high) + CardToString(h.low)
  }

  predicate IsAscii(s: string)
  {
    forall k :: 0 <= k < |s| ==> s[k] < '\U{0080}'
  }

  /**
   * `HoleCards::parse`: trim, require exactly four bytes, read a card from
   * bytes 0..2 and another from bytes 2..4.
   */
  function ParseHole(s: string): (r: Option<HoleCards>)
    ensures r.Some? <==>
      var t := Trim(s);
      Utf8Len(t) == 4 && IsAscii(t) && ParseCard(t[..2]).Some? && ParseCard(t[2..]).Some?
    ensures r.Some? ==>
      var t := Trim(s);
      r.value == NewHole(ParseCard(t[..2]).value, ParseCard(t[2..]).value)
  {
    var t := Trim(s);
    if Utf8Len(t) != 4 || !IsAscii(t) then None
    else
      assert |t| == 4;
      match ParseCard(t[..2])
      case None => None
      case Some(c1) =>
        match ParseCard(t[2..])
        case None => None
        case Some(c2) => Some(NewHole(c1, c2))
  }

  lemma CardStringAscii(c: Card)
    ensures IsAscii(CardToString(c))
    ensures !IsWhitespace(CardToString(c)[0]) && !IsWhitespace(CardToString(c)[1])
  {
  }

  /** Printing hole cards and parsing them back gives the same hole cards. */
  lemma {:induction false} HoleStringRoundTrip(h: HoleCards)
    ensures ParseHole(HoleToString(h)) == Some(h)
  {
    var s := HoleToString(h);
    CardStringAscii(h.high);
    CardStringAscii(h.low);
    assert s[0] == CardToString(h.high)[0] && s[3] == CardToString(h.low)[1];
    TrimUnchanged(s);
    assert IsAscii(s);
    assert s[..2] == CardToString(h.high) && s[2..] == CardToString(h.low);
    CardStringRoundTrip(h.high);
    CardStringRoundTrip(h.low);
  }

  /** A set of cards. */
  datatype Hand = Hand(cards: CardSet)

  /** `Hand::new`. */
  const EMPTY_HAND: Hand := Hand(EMPTY)

  /** `Hand::from_cards`. */
  function HandFromCards(cards: seq<Card>): (h: Hand)
    ensures forall c :: Contains(h.cards, c) <==> c in cards
    ensures WellFormed(h.cards)
  {
    Hand(FromCards(cards))
  }

  /** `Hand::add`. */
  function Add(h: Hand, c: Card): (r: Hand)
    ensures Contains(r.cards, c)
    ensures forall d :: d != c ==> (Contains(r.cards, d) <==> Contains(h.cards, d))
    ensures WellFormed(h.cards) ==> WellFormed(r.cards)
  {
    Hand(Insert(h.cards, c))
  }

  /** `Hand::len`: the number of cards. */
  function Len(h: Hand): (n: nat)
    ensures WellFormed(h.cards) ==> n == |Iter(h.cards)| && n <= 52
  {
    IterBound(h.cards);
    Count(h.cards)
  }

  lemma IterBound(s: CardSet)
    ensures WellFormed(s) ==> |Iter(s)| <= 52
  {
    if WellFormed(s) {
      var r := Iter(s);
      var bits := set c | c in r :: Index(c);
      assert forall i | i in bits :: i in FULL_DECK.bits;
      assert bits <= FULL_DECK.bits;
      FullDeck();
      assert |r| == |bits| by {
        AscendingDistinctIndices(r);
      }
    }
  }

  /** The indices of a strictly ascending list are as many as its cards. */
  lemma {:induction false} AscendingDistinctIndices(r: seq<Card>)
    requires Ascending(r)
    ensures |set c | c in r :: Index(c)| == |r|
  {
    if r != [] {
      var last := r[|r| - 1];
      var init := r[..|r| - 1];
      assert Ascending(init);
      AscendingDistinctIndices(init);
      assert (set c | c in r :: Index(c)) == (set c | c in init :: Index(c)) + {Index(last)};
      assert Index(last) !in (set c | c in init :: Index(c));
    }
  }

  /** `with_board`: the hand with the board cards added. */
  function WithBoard(h: Hand, board: seq<Card>): (r: Hand)
    ensures forall c :: Contains(r.cards, c) <==> Contains(h.cards, c) || c in board
    ensures WellFormed(h.cards) ==> WellFormed(r.cards)
  {
    if board == [] then h
    else
      var init := board[..|board| - 1];
      var last := board[|board| - 1];
      assert board == init + [last];
      Add(WithBoard(h, init), last)
  }

  /** `build_hand` (`helpers.rs`, repeated in the equity module): hole cards then board. */
  function BuildHand(hole: HoleCards, board: seq<Card>): (r: Hand)
    ensures forall c :: Contains(r.cards, c) <==> c == hole.high || c == hole.low || c in board
    ensures WellFormed(r.cards)
  {
    WithBoard(Add(Add(EMPTY_HAND, hole.high), hole.low), board)
  }

  /** Building a hand is the hole cards' set with the board added. */
  lemma BuildHandIsWithBoard(hole: HoleCards, board: seq<Card>)
    ensures BuildHand(hole, board) == WithBoard(Hand(HoleToCardSet(hole)), board)
  {
    Extensional(BuildHand(hole, board).cards, WithBoard(Hand(HoleToCardSet(hole)), board).cards);
  }

  /** The hand of two distinct hole cards and a board of fresh distinct cards holds them all. */
  lemma {:induction false} BuildHandCount(hole: HoleCards, board: seq<Card>)
    requires hole.high != hole.low
    requires hole.high !in board && hole.low !in board
    requires forall k, l :: 0 <= k < l < |board| ==> board[k] != board[l]
    ensures Len(BuildHand(hole, board)) == 2 + |board|
  {
    var all := [hole.high, hole.low] + board;
    assert forall k, l :: 0 <= k < l < |all| ==> all[k] != all[l];
    FromCardsDistinct(all);
    Extensional(BuildHand(hole, board).cards, FromCards(all));
  }

  /** The cards read by `Hand::parse`: every whitespace-separated token that starts with a card. */
  function ParsedCards(tokens: seq<string>): (r: seq<Card>)
    ensures forall c :: c in r <==> exists k :: 0 <= k < |tokens| && ParseCard(tokens[k]) == Some(c)
    ensures r == [] <==> forall k :: 0 <= k < |tokens| ==> ParseCard(tokens[k]).None?
  {
    if tokens == [] then []
    else
      var rest := ParsedCards(tokens[1..]);
      var r := match ParseCard(tokens[0]) case Some(c) => [c] + rest case None => rest;
      assert r == [] <==> forall k :: 0 <= k < |tokens| ==> ParseCard(tokens[k]).None? by {
        assert forall k :: 1 <= k < |tokens| ==> tokens[k] == tokens[1..][k - 1];
      }
      assert forall c :: c in r <==> exists k :: 0 <= k < |tokens| && ParseCard(tokens[k]) == Some(c) by {
        forall c
          ensures c in r <==> exists k :: 0 <= k < |tokens| && ParseCard(tokens[k]) == Some(c)
        {
          if c in rest {
            var k :| 0 <= k < |tokens[1..]| && ParseCard(tokens[1..][k]) == Some(c);
            assert ParseCard(tokens[k + 1]) == Some(c);
          }
          if exists k :: 0 <= k < |tokens| && ParseCard(tokens[k]) == Some(c) {
            var k :| 0 <= k < |tokens| && ParseCard(tokens[k]) == Some(c);
            if k > 0 {
              assert ParseCard(tokens[1..][k - 1]) == Some(c);
            }
          }
        }
      }
      r
  }

  /**
   * `Hand::parse`: unreadable tokens are skipped; `None` only when no token
   * yields a card.
   */
  function ParseHand(s: string): (r: Option<Hand>)
    ensures var tokens := SplitWhitespace(s);
      r.None? <==> forall k :: 0 <= k < |tokens| ==> ParseCard(tokens[k]).None?
    ensures r.Some? ==> WellFormed(r.value.cards)
    ensures var tokens := SplitWhitespace(s);
      r.Some? ==> forall c :: Contains(r.value.cards, c) <==> exists k :: 0 <= k < |tokens| && ParseCard(tokens[k]) == Some(c)
  {
    var cards := ParsedCards(SplitWhitespace(s));
    if cards == [] then None else Some(HandFromCards(cards))
  }

  /** `Display for Hand`: the cards in index order, separated by single spaces. */
  function HandToString(h: Hand): string
  {
    JoinSpaces(CardStrings(Iter(h.cards)))
  }

  function CardStrings(cs: seq<Card>): (r: seq<string>)
    ensures |r| == |cs|
    ensures forall k :: 0 <= k < |r| ==> r[k] == CardToString(cs[k])
  {
    if cs == [] then [] else [CardToString(cs[0])] + CardStrings(cs[1..])
  }

  /** Reading back printed cards gives the cards. */
  lemma {:induction false} ParsedCardStrings(cs: seq<Card>)
    ensures ParsedCards(CardStrings(cs)) == cs
  {
    if cs != [] {
      CardStringRoundTrip(cs[0]);
      assert CardStrings(cs)[1..] == CardStrings(cs[1..]);
      ParsedCardStrings(cs[1..]);
    }
  }

  /** Printing a non-empty hand and parsing it back gives the same hand. */
  lemma {:induction false} HandStringRoundTrip(h: Hand)
    requires WellFormed(h.cards) && !IsEmpty(h.cards)
    ensures ParseHand(HandToString(h)) == Some(h)
  {
    var cs := Iter(h.cards);
    assert cs != [];
    CardStringTokens(cs);
    SplitJoinSpaces(CardStrings(cs));
    ParsedCardStrings(cs);
    IterRoundTrip(h.cards);
  }

  /** Printed cards are whitespace-free tokens. */
  lemma CardStringTokens(cs: seq<Card>)
    ensures forall k :: 0 <= k < |CardStrings(cs)| ==> IsToken(CardStrings(cs)[k])
  {
    forall k | 0 <= k < |cs|
      ensures IsToken(CardStrings(cs)[k])
    {
      CardStringAscii(cs[k]);
    }
  }
}
