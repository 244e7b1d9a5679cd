/** Playing cards: values, suits, the dense index in 0..52, text form and order. */
module Cards {
  import opened Wrappers

  /** An unsigned byte, the width the source uses for indices and ranks. */
  type u8 = x: int | 0 <= x < 256

  /** Card values, lowest first; the derived order follows this declaration. */
  datatype Value = Two | Three | Four | Five | Six | Seven | Eight | Nine | Ten | Jack | Queen | King | Ace

  /** Suits in declaration order, which is also their derived order. */
  datatype Suit = Hearts | Diamonds | Clubs | Spades

  datatype Card = Card(value: Value, suit: Suit)

  /** The thirteen values in ascending order. */
  const VALUES: seq<Value> := [Two, Three, Four, Five, Six, Seven, Eight, Nine, Ten, Jack, Queen, King, Ace]

  /** The suits in index-slot order (Clubs, Diamonds, Hearts, Spades). */
  const SUITS: seq<Suit> := [Clubs, Diamonds, Hearts, Spades]

  /** The numeric value of a card value (`u8::from`): 2 for a deuce up to 14 for an ace. */
  function ValueNum(v: Value): (n: u8)
    ensures 2 <= n <= 14
  {
    match v
    case Two => 2
    case Three => 3
    case Four => 4
    case Five => 5
    case Six => 6
    case Seven => 7
    case Eight => 8
    case Nine => 9
    case Ten => 10
    case Jack => 11
    case Queen => 12
    case King => 13
    case Ace => 14
  }

  /** The rank of a value in 0..13, as the evaluator uses it. */
  function Rank(v: Value): nat
  {
    ValueNum(v) - 2
  }

  /** Position of a suit in the derived order (Hearts < Diamonds < Clubs < Spades). */
  function SuitOrder(s: Suit): nat
  {
    match s
    case Hearts => 0
    case Diamonds => 1
    case Clubs => 2
    case Spades => 3
  }

  /** The slot of a suit inside the index (Clubs=0, Diamonds=1, Hearts=2, Spades=3). */
  function Slot(s: Suit): nat
  {
    match s
    case Clubs => 0
    case Diamonds => 1
    case Hearts => 2
    case Spades => 3
  }

  lemma ValuesRanks(v: Value)
    ensures Rank(v) < 13 && VALUES[Rank(v)] == v
  {
  }

  lemma SuitsSlots(s: Suit)
    ensures Slot(s) < 4 && SUITS[Slot(s)] == s
  {
  }

  /** `Card::index`: the dense index of a card. */
  function Index(c: Card): (i: nat)
    ensures i < 52
    ensures i / 4 == Rank(c.value) && i % 4 == Slot(c.suit)
  {
    Rank(c.value) * 4 + Slot(c.suit)
  }

  /** `Card::from_index`. */
  function FromIndex(i: u8): (r: Option<Card>)
    ensures r.None? <==> i >= 52
    ensures r.Some? ==> Index(r.value) == i
  {
    if i >= 52 then None
    else
      var c := Card(VALUES[i / 4], SUITS[i % 4]);
      assert Rank(c.value) == i / 4 && Slot(c.suit) == i % 4 by {
        ValuesRankInverse(i / 4);
        SuitsSlotInverse(i % 4);
      }
      Some(c)
  }

  lemma ValuesRankInverse(r: nat)
    requires r < 13
    ensures Rank(VALUES[r]) == r
  {
  }

  lemma SuitsSlotInverse(k: nat)
    requires k < 4
    ensures Slot(SUITS[k]) == k
  {
  }

  /** The index is injective, and `FromIndex` undoes it. */
  lemma {:induction false} FromIndexOfIndex(c: Card)
    ensures FromIndex(Index(c)) == Some(c)
  {
    var i := Index(c);
    ValuesRanks(c.value);
    SuitsSlots(c.suit);
    assert VALUES[i / 4] == c.value;
    assert SUITS[i % 4] == c.suit;
  }

  lemma IndexInjective(a: Card, b: Card)
    ensures Index(a) == Index(b) <==> a == b
  {
    if Index(a) == Index(b) {
      FromIndexOfIndex(a);
      FromIndexOfIndex(b);
    }
  }

  /** The card with index `i`. */
  function CardAt(i: nat): (c: Card)
    requires i < 52
    ensures Index(c) == i
  {
    FromIndex(i).value
  }

  /** Rust's `char::to_ascii_uppercase`. */
  function ToAsciiUpper(c: char): char
  {
    if 'a' <= c <= 'z' then (c as int - 32) as char else c
  }

  /** Rust's `char::to_ascii_lowercase`. */
  function ToAsciiLower(c: char): char
  {
    if 'A' <= c <= 'Z' then (c as int + 32) as char else c
  }

  /** `Value::to_char`. */
  function ValueToChar(v: Value): char
  {
    match v
    case Two => '2'
    case Three => '3'
    case Four => '4'
    case Five => '5'
    case Six => '6'
    case Seven => '7'
    case Eight => '8'
    case Nine => '9'
    case Ten => 'T'
    case Jack => 'J'
    case Queen => 'Q'
    case King => 'K'
    case Ace => 'A'
  }

  /** `Value::from_char`: the character is upper-cased (ASCII only) before matching. */
  function ValueFromChar(c: char): (r: Option<Value>)
    ensures r.Some? <==> c in "23456789TJQKAtjqka"
    ensures r.Some? ==> ValueToChar(r.value) == ToAsciiUpper(c)
  {
    ValueOfUpper(ToAsciiUpper(c))
  }

  /** The match on an already upper-cased character. */
  function ValueOfUpper(u: char): Option<Value>
  {
    match u
    case '2' => Some(Two)
    case '3' => Some(Three)
    case '4' => Some(Four)
    case '5' => Some(Five)
    case '6' => Some(Six)
    case '7' => Some(Seven)
    case '8' => Some(Eight)
    case '9' => Some(Nine)
    case 'T' => Some(Ten)
    case 'J' => Some(Jack)
    case 'Q' => Some(Queen)
    case 'K' => Some(King)
    case 'A' => Some(Ace)
    case _ => None
  }

  /** `char::from(Suit)`. */
  function SuitToChar(s: Suit): char
  {
    match s
    case Hearts => 'h'
    case Diamonds => 'd'
    case Clubs => 'c'
    case Spades => 's'
  }

  /** `Suit::try_from(char)`: the character is lower-cased (ASCII only) before matching. */
  function SuitFromChar(c: char): (r: Option<Suit>)
    ensures r.Some? <==> c in "hdcsHDCS"
    ensures r.Some? ==> SuitToChar(r.value) == ToAsciiLower(c)
  {
    SuitOfLower(ToAsciiLower(c))
  }

  /** The match on an already lower-cased character. */
  function SuitOfLower(l: char): Option<Suit>
  {
    match l
    case 'h' => Some(Hearts)
    case 'd' => Some(Diamonds)
    case 'c' => Some(Clubs)
    case 's' => Some(Spades)
    case _ => None
  }

  /** Value characters round-trip, and parsing ignores case. */
  lemma ValueCharRoundTrip(v: Value, c: char)
    ensures ValueFromChar(ValueToChar(v)) == Some(v)
    ensures ValueFromChar(ToAsciiLower(c)) == ValueFromChar(c)
  {
    assert ToAsciiUpper(ToAsciiLower(c)) == ToAsciiUpper(c);
  }

  lemma SuitCharRoundTrip(s: Suit, c: char)
    ensures SuitFromChar(SuitToChar(s)) == Some(s)
    ensures SuitFromChar(ToAsciiUpper(c)) == SuitFromChar(c)
  {
    assert ToAsciiLower(ToAsciiUpper(c)) == ToAsciiLower(c);
  }

  /** `Display for Card`: value character then suit character. */
  function CardToString(c: Card): string
  {
    [ValueToChar(c.value), SuitToChar(c.suit)]
  }

  /** `Card::try_from(&str)`: only the first two characters are read. */
  function ParseCard(s: string): (r: Option<Card>)
    ensures r.Some? <==> |s| >= 2 && s[0] in "23456789TJQKAtjqka" && s[1] in "hdcsHDCS"
    ensures r.Some? ==> CardToString(r.value) == [ToAsciiUpper(s[0]), ToAsciiLower(s[1])]
  {
    if |s| < 1 then None
    else match ValueFromChar(s[0])
      case None => None
      case Some(v) =>
        if |s| < 2 then None
        else match SuitFromChar(s[1])
          case None => None
          case Some(st) => Some(Card(v, st))
  }

  /** Printing a card and parsing it back gives the same card. */
  lemma {:induction false} CardStringRoundTrip(c: Card)
    ensures ParseCard(CardToString(c)) == Some(c)
  {
    ValueCharRoundTrip(c.value, 'x');
    SuitCharRoundTrip(c.suit, 'x');
  }

  /** Characters after the first two never change the parse. */
  lemma TrailingCharsIgnored(s: string, rest: string)
    requires |s| >= 2
    ensures ParseCard(s + rest) == ParseCard(s)
  {
    assert (s + rest)[0] == s[0] && (s + rest)[1] == s[1];
  }

  /** The derived card order: by value, then by suit in declaration order. */
  predicate CardLess(a: Card, b: Card)
  {
    Rank(a.value) < Rank(b.value) || (a.value == b.value && SuitOrder(a.suit) < SuitOrder(b.suit))
  }

  lemma CardLessTotal(a: Card, b: Card, c: Card)
    ensures !CardLess(a, a)
    ensures a != b ==> CardLess(a, b) || CardLess(b, a)
    ensures CardLess(a, b) ==> !CardLess(b, a)
    ensures CardLess(a, b) && CardLess(b, c) ==> CardLess(a, c)
  {
    if a != b && a.value == b.value {
      assert a.suit != b.suit;
    }
    if Rank(a.value) == Rank(b.value) {
      ValuesRanks(a.value);
      ValuesRanks(b.value);
    }
  }

  /** Across different values the card order agrees with the index order. */
  lemma CardLessByValue(a: Card, b: Card)
    requires a.value != b.value
    ensures CardLess(a, b) <==> Index(a) < Index(b)
  {
    ValuesRanks(a.value);
    ValuesRanks(b.value);
  }

  /** Within one value the two orders disagree: hearts sort below clubs but index above them. */
  lemma CardOrderIsNotIndexOrder()
    ensures CardLess(Card(Two, Hearts), Card(Two, Clubs))
    ensures Index(Card(Two, Hearts)) > Index(Card(Two, Clubs))
  {
  }

  /** The four cards of one value, in slot order. */
  function CardsOfValue(v: Value): seq<Card>
  {
    [Card(v, Clubs), Card(v, Diamonds), Card(v, Hearts), Card(v, Spades)]
  }

  /** The cards of the given values, value-major and slot-minor, as `all_cards` pushes them. */
  function CardsOfValues(vs: seq<Value>): (r: seq<Card>)
    ensures |r| == 4 * |vs|
    ensures forall i :: 0 <= i < |r| ==> r[i] == Card(vs[i / 4], SUITS[i % 4])
  {
    if vs == [] then []
    else
      var head := CardsOfValue(vs[0]);
      var rest := CardsOfValues(vs[1..]);
      var r := head + rest;
      assert forall i :: 0 <= i < |r| ==> r[i] == Card(vs[i / 4], SUITS[i % 4]) by {
        forall i | 0 <= i < |r|
          ensures r[i] == Card(vs[i / 4], SUITS[i % 4])
        {
          if i >= 4 {
            assert r[i] == rest[i - 4];
            assert (i - 4) / 4 == i / 4 - 1 && (i - 4) % 4 == i % 4;
          }
        }
      }
      r
  }

  /** `all_cards`: the 52 cards in index order. */
  function AllCards(): (r: seq<Card>)
    ensures |r| == 52
    ensures forall i :: 0 <= i < 52 ==> Index(r[i]) == i
  {
    var r := CardsOfValues(VALUES);
    assert forall i :: 0 <= i < 52 ==> Index(r[i]) == i by {
      forall i | 0 <= i < 52
        ensures Index(r[i]) == i
      {
        ValuesRankInverse(i / 4);
        SuitsSlotInverse(i % 4);
        assert r[i] == Card(VALUES[i / 4], SUITS[i % 4]);
        assert Index(r[i]) == (i / 4) * 4 + i % 4;
      }
    }
    r
  }

  /** Every card occurs in `AllCards`, at its own index, and nowhere else. */
  lemma AllCardsDistinct(c: Card)
    ensures AllCards()[Index(c)] == c
    ensures forall i :: 0 <= i < 52 && AllCards()[i] == c ==> i == Index(c)
  {
    var all := AllCards();
    IndexInjective(all[Index(c)], c);
  }
}
