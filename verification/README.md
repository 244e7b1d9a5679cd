# Texas hold'em engine core in Dafny

This project models the core of a Rust Texas hold'em library and proves properties of that model. The core covers:

- cards, their 0..51 index, and their two-character text form;
- the 64-bit card-set word;
- hole cards and hands;
- the packed `HandRanking` score;
- the table-driven `LookupEvaluator` and the best-of-seven search;
- range patterns such as `AKs`, `QQ+` and `T9o+`, and their expansion into concrete hole cards;
- heads-up equity: exact enumeration and Monte Carlo;
- range-versus-hand and range-versus-range equity;
- multiway equity for two to nine players.

Modules follow the source files:

- `Cards` (`card.rs`, `helpers.rs`)
- `CardSets` (`card_set.rs`)
- `Hands` (`hand.rs`)
- `HandRank` (`hand_rank.rs`)
- `Evaluator` (`evaluator.rs`)
- `EvaluatorFindings` and `BestFive`: the evaluator's defects and their corrections
- `Ranges`, `RangeCombos` and `RangeSets` (`range.rs`)
- `Equity` and `RangeEquity` (`equity/mod.rs`)
- `Multiway` (`equity/multiway.rs`)

`Text` models the few `str` operations the parsers rely on:

- `trim`, following the Unicode `White_Space` property;
- `split_whitespace`;
- `split(',')`;
- the UTF-8 byte length.

`Combinations` provides k-subsets of an index range in lexicographic order. That order is the one shared by:

- the nested loops that fill the flush table;
- the recursive board enumeration of exact equity.

`Wrappers` holds `Option` and `Result`.

Modelling choices:

- **Words.** A `u64` card word or a `u16` rank mask is modelled as the set of its set-bit positions.
  - `|`, `&` and `& !` become union, intersection and difference.
  - `count_ones` becomes cardinality.
  - `trailing_zeros` iteration becomes the ascending list of positions.
- **Scores.** A `HandRanking` score is an unbounded integer `category * 2^24 + kickers`. The model keeps the source's 4-bit nibble layout for kickers.
- **Equities.** Every equity is a real number.
  - A division 0/0 in the source produces NaN. The model returns `None` in that case: zero iterations, or zero Monte Carlo draws.
  - A panicking `assert!` in the source (player count outside 2..9, or a board that is not five cards for multiway exact) becomes an `Err` result.
- **Randomness and the evaluator as parameters.**
  - Each Monte Carlo operation takes the sequence of board completions that the shuffles would have produced, one per trial. A shuffle deals an `Equity.LegalDraw`: `5 - |board|` distinct available cards. The proved sums hold for any draws, so the parameter is left unconstrained.
  - The range engines take a `deal` function that gives those completions for each matchup.
  - The equity modules take the evaluator as a `Judge` function from hands to rankings. `Equity.JudgeOf` ties it to `Evaluator.Evaluate`.
- **Hash sets.** A `HashSet<HandPattern>` is a sequence of distinct patterns. Every observable result is proved independent of its order (`RangeSets.ToHoleCardsOrderFree`).

## Model

| member | source | states |
|---|---|---|
| Cards.ValueNum | src/core/card.rs:85-103 | the `u8` of a value lies between 2 (deuce) and 14 (ace) |
| Cards.Index | src/core/card.rs:162-171 | a card's index is below 52; divided by 4 it gives the value's rank 0..12; modulo 4 it gives the suit slot (clubs 0, diamonds 1, hearts 2, spades 3) |
| Cards.FromIndex | src/core/card.rs:173-180 | `from_index` fails exactly for indices of 52 and above; otherwise it returns the card whose index is the input |
| Cards.FromIndexOfIndex | src/core/card.rs:162-180 | `from_index(index(c))` gives back `c` for every card |
| Cards.IndexInjective | src/core/card.rs:162-171 | two cards share an index if and only if they are the same card |
| Cards.ValueFromChar | src/core/card.rs:62-83 | a value character is accepted exactly when it is one of `23456789TJQKA` in either case; the value parsed prints as the upper-case form of the input |
| Cards.SuitFromChar | src/core/card.rs:125-137 | a suit character is accepted exactly when it is one of `hdcs` in either case; the suit parsed prints as the lower-case form of the input |
| Cards.ValueCharRoundTrip | src/core/card.rs:62-123 | parsing a value's printed character gives the value back, and parsing ignores letter case |
| Cards.SuitCharRoundTrip | src/core/card.rs:125-148 | parsing a suit's printed character gives the suit back, and parsing ignores letter case |
| Cards.ParseCard | src/core/card.rs:183-192 | a card parses exactly when the text has a value character then a suit character; printing the card gives those two characters, normalised for case |
| Cards.CardStringRoundTrip | src/core/card.rs:183-198 | parsing a card's printed form gives the card back |
| Cards.TrailingCharsIgnored | src/core/card.rs:186-191 | characters after the first two do not affect card parsing |
| Cards.CardLessTotal | src/core/card.rs:150-154 | the derived card order (value first, then suit in declaration order) is irreflexive, total, asymmetric and transitive |
| Cards.CardLessByValue | src/core/card.rs:150-171 | for cards of different values, the derived order agrees with the order of their indices |
| Cards.CardOrderIsNotIndexOrder | src/core/card.rs:32-38 | within one value the derived order and the index order disagree: 2h is above 2c in the order but below it by index |
| Cards.CardsOfValues | src/core/helpers.rs:4-12 | the value-major, suit-minor listing has four cards per value, with the card at position i being value i/4 in suit slot i%4 |
| Cards.AllCards | src/core/helpers.rs:4-12 | `all_cards` lists 52 cards, the card at position i having index i |
| Cards.AllCardsDistinct | src/core/helpers.rs:4-12 | every card appears in `all_cards` exactly once, at the position equal to its index |
| CardSets.FromCard | src/core/card_set.rs:14-16 | the set of one card contains that card and nothing else, and counts 1 |
| CardSets.Insert | src/core/card_set.rs:26-28 | after insertion the card is present, all other cards are unchanged, and the count rises by one unless the card was already there |
| CardSets.Remove | src/core/card_set.rs:30-32 | after removal the card is absent, all other cards are unchanged, and the count falls by one exactly when the card was present |
| CardSets.IsEmpty | src/core/card_set.rs:38-44 | a set is empty exactly when its count is 0, which for a well-formed word means no card is in it |
| CardSets.Union | src/core/card_set.rs:46-48 | the union holds exactly the cards of either set |
| CardSets.Intersection | src/core/card_set.rs:50-52 | the intersection holds exactly the cards of both sets |
| CardSets.Difference | src/core/card_set.rs:54-56 | the difference holds exactly the cards of the first set that are not in the second |
| CardSets.Overlaps | src/core/card_set.rs:58-60 | two sets overlap exactly when they share a card |
| CardSets.UnionIntersectionCount | src/core/card_set.rs:38-52 | count of union plus count of intersection equals the sum of the two counts (inclusion–exclusion) |
| CardSets.Extensional | src/core/card_set.rs:34-36 | two well-formed sets that contain the same cards are the same word |
| CardSets.FullDeck | src/core/card_set.rs:7-8 | `FULL_DECK` holds all 52 cards, and a word is well formed exactly when nothing outside the deck is set |
| CardSets.Iter | src/core/card_set.rs:62-107 | iteration yields exactly the set's cards, in increasing index order, and yields `count` cards exactly when the word is well formed |
| CardSets.FromCards | src/core/card_set.rs:18-24 | `from_cards` holds exactly the listed cards and counts at most the list's length |
| CardSets.FromCardsDistinct | src/core/card_set.rs:18-24 | a list without repeats gives a set whose count is the list's length |
| CardSets.IterRoundTrip | src/core/card_set.rs:71-102 | collecting the iteration of a well-formed set rebuilds the same set |
| Hands.NewHole | src/core/hand.rs:11-18 | `HoleCards::new` keeps exactly the two given cards, whichever order they come in |
| Hands.NewHoleSymmetric | src/core/hand.rs:11-18 | swapping the arguments of `HoleCards::new` gives the same hole cards |
| Hands.NewHoleCanonical | src/core/hand.rs:11-26 | rebuilding hole cards from `high` and `low` gives them back unchanged |
| Hands.Gap | src/core/hand.rs:36-40 | the gap is the rank distance of the two cards, at most 12, and 0 exactly for a pair |
| Hands.GapOfNewHole | src/core/hand.rs:11-40 | the gap of `new(c1, c2)` is the absolute rank difference of c1 and c2, whichever order they come in |
| Hands.HoleToCardSet | src/core/hand.rs:42-44 | the card set of hole cards holds exactly the two cards, counting 2 (1 if both are the same card) |
| Hands.ParseHole | src/core/hand.rs:50-59 | the trimmed text parses exactly when it is four ASCII bytes forming two cards; the result is `new` of those cards |
| Hands.HoleStringRoundTrip | src/core/hand.rs:50-66 | parsing the printed hole cards gives them back |
| Hands.HandFromCards | src/core/hand.rs:100-104 | a hand built from a list holds exactly the listed cards |
| Hands.Add | src/core/hand.rs:106-108 | adding a card puts it in the hand and leaves every other card unchanged |
| Hands.Len | src/core/hand.rs:110-112 | the length of a well-formed hand is the number of cards iteration yields, at most 52 |
| Hands.WithBoard | src/core/hand.rs:131-137 | a hand with the board holds exactly the hand's cards and the board's cards |
| Hands.BuildHand | src/core/helpers.rs:14-22 | `build_hand` holds exactly the two hole cards and the board cards |
| Hands.BuildHandIsWithBoard | src/core/helpers.rs:14-22 | `build_hand` equals the hole cards' hand combined with the board |
| Hands.BuildHandCount | src/core/helpers.rs:14-22 | with distinct hole cards and board cards, the hand holds 2 + board-length cards |
| Hands.ParsedCards | src/core/hand.rs:143-147 | the cards read are exactly those of the tokens that start with a card, and none are read exactly when no token does |
| Hands.ParseHand | src/core/hand.rs:143-154 | `Hand::parse` fails exactly when no whitespace-separated token reads as a card; otherwise the hand holds exactly the cards read |
| Hands.HandStringRoundTrip | src/core/hand.rs:143-184 | parsing the printed form of a non-empty hand gives the hand back |
| HandRank.New | src/core/hand_rank.rs:53-57 | a ranking built from a category and a kicker field below 2^24 reports that category and keeps the kicker field |
| HandRank.Category | src/core/hand_rank.rs:63-76 | the category is the score's top field when that is 0..8, and `HighCard` above 8 |
| HandRank.TopFieldOverflow | src/core/hand_rank.rs:45-76 | a top field of 9 and `MAX` both read as `HighCard`, yet `MAX` still outranks every straight flush |
| HandRank.CategoryDominance | src/core/hand_rank.rs:39-57 | any ranking of a lower category is below any ranking of a higher category, whatever the kickers |
| HandRank.SameCategoryOrder | src/core/hand_rank.rs:39-57 | within one category, rankings compare as their kicker fields |
| HandRank.CategoryOrder | src/core/hand_rank.rs:39-76 | a ranking of lower reported category, other than high card, is below one of higher reported category |
| HandRank.EncodeKickers | src/core/hand_rank.rs:105-111 | only the first five ranks are read; when each of them fits a nibble, the packed kickers fit in 20 bits |
| HandRank.DecodeScore | src/core/hand_rank.rs:53-57 | from a score one reads back the category field, the kicker field, and each of the five packed ranks |
| HandRank.EncodeNibbles | src/core/hand_rank.rs:105-111 | nibble i of the packed kickers is the i-th rank, or 0 past the end of the list |
| HandRank.EncodeTakesFive | src/core/hand_rank.rs:105-111 | ranks after the fifth are ignored |
| HandRank.EncodeLexicographic | src/core/hand_rank.rs:105-111 | packed kickers of equal-length lists compare as the lists do lexicographically |
| HandRank.HighCardRanking | src/core/hand_rank.rs:114-116 | a high-card ranking carries the first five given ranks as its nibbles |
| HandRank.OnePairRanking | src/core/hand_rank.rs:117-121 | a one-pair ranking carries the pair rank and then at most three kickers |
| HandRank.TwoPairRanking | src/core/hand_rank.rs:122-125 | a two-pair ranking carries the high pair, the low pair and the kicker, then zeros |
| HandRank.ThreeOfAKindRanking | src/core/hand_rank.rs:126-130 | a trips ranking carries the trips rank and then at most two kickers |
| HandRank.StraightRanking | src/core/hand_rank.rs:131-133 | a straight ranking's kicker field is the straight's high card |
| HandRank.FlushRanking | src/core/hand_rank.rs:134-136 | a flush ranking carries the first five given ranks |
| HandRank.FullHouseRanking | src/core/hand_rank.rs:137-140 | a full-house ranking carries the trips rank then the pair rank |
| HandRank.FourOfAKindRanking | src/core/hand_rank.rs:141-144 | a quads ranking carries the quads rank then the kicker |
| HandRank.StraightFlushRanking | src/core/hand_rank.rs:146-148 | a straight flush is reported royal exactly when its high card's low nibble is 12 |
| HandRank.RoyalFlushRanking | src/core/hand_rank.rs:150-152 | `royal_flush` is reported royal |
| HandRank.RoyalFlushFacts | src/core/hand_rank.rs:78-82 | a king-high straight flush is not royal, and no straight flush with a high card of 12 or below, which covers every one the evaluator produces, outranks the royal flush |
| Evaluator.WindowsDistinct | src/core/evaluator.rs:216-238 | the ten straight rank windows are pairwise different |
| Evaluator.StraightRanksWindow | src/core/evaluator.rs:62-76 | on five descending distinct ranks, `is_straight_ranks` reports high card h exactly when the ranks are the straight window topped by h (the wheel topped by 3) |
| Evaluator.CheckStraight | src/core/evaluator.rs:216-238 | `check_straight` returns the highest h whose window lies in the rank mask, and none exactly when no window does |
| Evaluator.EncodeHighCardScore | src/core/evaluator.rs:79-86 | the weighted flush score never exceeds the cap of 999 |
| Evaluator.NewEvaluator | src/core/evaluator.rs:25-60 | the generated table gives every five-rank key its entry: 8000 + h for a straight window topped by h, else 5000 + the capped weighted score |
| Evaluator.KeyEntry | src/core/evaluator.rs:41-51 | a key's entry is 8000 + h exactly for the window topped by h, and otherwise 5000 + the weighted score |
| Evaluator.EntryStraightFlush | src/core/evaluator.rs:44-51 | a table entry is 8000 or more exactly when its five ranks form a straight |
| Evaluator.SuitRanksHeld | src/core/evaluator.rs:118-129 | a rank is in a suit's mask exactly when the card of that rank and suit is held |
| Evaluator.TopRanks | src/core/evaluator.rs:130-145 | keeping the top n ranks of a mask gives n ranks (or all of them if fewer), each above every rank dropped |
| Evaluator.CheckFlush | src/core/evaluator.rs:118-149 | `check_flush` finds nothing exactly when no suit holds five cards; otherwise it gives five ranks of the first such suit, each above every rank it leaves out |
| Evaluator.CountRanks | src/core/evaluator.rs:104-116 | the count of each rank is the number of suits in which it is held |
| Evaluator.RankBits | src/core/evaluator.rs:89-101 | the rank mask holds exactly the ranks held in some suit |
| Evaluator.Group | src/core/evaluator.rs:152-168 | the ranks held exactly n times, in descending order |
| Evaluator.PairedCategory | src/core/evaluator.rs:152-213 | `evaluate_paired` reports quads, full house, trips, two pair, one pair or high card exactly under the conditions on the rank counts that the source tests |
| Evaluator.PairedLeader | src/core/evaluator.rs:152-213 | the leading nibble of a paired ranking is the highest rank held four, three or two times, as its category requires |
| Evaluator.PairedKickers | src/core/evaluator.rs:152-213 | the nibbles after the leader, per category: the quads kicker is the top trips rank, else the top pair, else the top single; a full house takes a second trips before any pair; trips take the top two singles and one pair the top three; two pair takes a third pair before the top single; high card lists the top five singles |
| Evaluator.GroupsKickers | src/core/evaluator.rs:170-212 | the same kicker choices, stated on the four rank lists |
| Evaluator.FlushScore | src/core/evaluator.rs:260-273 | a flush key scores a straight flush topped by h exactly when it is h's window, and a plain flush otherwise |
| Evaluator.UnsuitedScore | src/core/evaluator.rs:275-300 | without a flush, a hand with a repeated rank takes the paired path, and it is a straight exactly when no rank repeats and a window lies in the rank mask |
| Evaluator.EvaluatePositions | src/core/evaluator.rs:252-301 | fewer than five cards score `MIN`; a flush or straight flush exactly when a suit holds five; a straight flush exactly when `check_flush`'s ranks form a window; the paired path on any repeat; a straight exactly when no repeat and a window is held |
| Evaluator.EvaluateWord | src/core/evaluator.rs:252-301 | on any 64-bit word: fewer than five bits score `MIN`, and a word of cards scores as `EvaluateU64` |
| Evaluator.HighBitOnlyFlush | src/core/evaluator.rs:104-149 | a word of five or more bits with a bit at 52 or above scores only a flush or straight flush, or fails; with no suit holding five ranks it fails in `count_ranks` |
| Evaluator.HighBitInFlushSuit | src/core/evaluator.rs:118-149 | when such a bit lies in the first suit holding five ranks, the top five ranks include one above 12 and the flush table lookup at line 261 fails |
| Evaluator.BestOverPairs | src/core/evaluator.rs:305-327 | the two loops over dropped pairs i < j return a score no pair beats, and one some pair attains unless it is `MIN` |
| Evaluator.Evaluate7 | src/core/evaluator.rs:305-327 | `evaluate_7_cards` returns the best of the 21 five-card subsets' `evaluate_u64` scores, attained by one of them unless `MIN` |
| EvaluatorFindings.PlainFlushEntrySaturates | src/core/evaluator.rs:79-86 | every five-rank key that is not a straight reaches the cap, so its table entry is 5999 |
| EvaluatorFindings.PlainFlushesTie | src/core/evaluator.rs:268-272 | every hand scored as a plain flush gets the one score 5·2^24 + 999 |
| EvaluatorFindings.CorrectedFlushOrder | src/core/evaluator.rs:134-136 | ranked with `HandRanking::flush`, plain flushes compare as their descending rank lists |
| EvaluatorFindings.CorrectedFlushesDiffer | src/core/evaluator.rs:134-136 | with the corrected ranking, different flush rank sets never tie |
| EvaluatorFindings.PairHidesStraight | src/core/evaluator.rs:275-287 | a seven-card hand with one pair and a straight among its cards is scored one pair, below the straight its five cards make |
| EvaluatorFindings.QuadsKickerFromPair | src/core/evaluator.rs:170-177 | with quads, a pair and a higher single, the kicker is taken from the pair, below the five cards using the single |
| EvaluatorFindings.TwoPairKickerFromThirdPair | src/core/evaluator.rs:195-201 | with three pairs and a single above the third pair, the kicker is taken from the third pair, below the five cards using the single |
| EvaluatorFindings.TopFiveHidesStraightFlush | src/core/evaluator.rs:130-149 | six suited cards whose top five are not a straight score a plain flush even when five of them form a straight flush |
| EvaluatorFindings.PairHidesStraightWitness | src/core/evaluator.rs:275-287 | 5c 6d 7h 8s 9c 9d Kc scores below its own 5c 6d 7h 8s 9c |
| EvaluatorFindings.QuadsKickerFromPairWitness | src/core/evaluator.rs:170-177 | 2c 2d Kc Ac Ad Ah As scores below its own Kc Ac Ad Ah As |
| EvaluatorFindings.TwoPairKickerFromThirdPairWitness | src/core/evaluator.rs:195-201 | 2c 2d Qc Qd Kc Kd Ah scores below its own Qc Qd Kc Kd Ah |
| EvaluatorFindings.TopFiveHidesStraightFlushWitness | src/core/evaluator.rs:130-149 | 2c 5s 6s 7s 8s 9s As scores below its own 5s 6s 7s 8s 9s |
| BestFive.CorrectedFive | src/core/evaluator.rs:252-301 | the corrected five-card score has the same category as `evaluate_u64`, equals it outside plain flushes, and ranks plain flushes by their five ranks |
| BestFive.CorrectedFiveFlushOrder | src/core/evaluator.rs:252-301 | corrected five-card plain flushes compare as their descending rank lists |
| BestFive.EvaluateBest | src/core/evaluator.rs:329-334 | the corrected seven-card score is no lower than any five-card subset's corrected score and equals one of them |
| BestFive.BestSeesEveryFive | src/core/evaluator.rs:329-334 | corrected, a hand scores at least as well as any five of its cards |
| BestFive.BestSeesStraight | src/core/evaluator.rs:275-287 | corrected, 5c 6d 7h 8s 9c 9d Kc scores at least its straight, strictly above the as-written score |
| BestFive.BestSeesQuadsKicker | src/core/evaluator.rs:170-177 | corrected, 2c 2d Kc Ac Ad Ah As scores at least four aces with a king, strictly above the as-written score |
| BestFive.BestSeesTwoPairKicker | src/core/evaluator.rs:195-201 | corrected, 2c 2d Qc Qd Kc Kd Ah scores at least kings and queens with an ace, strictly above the as-written score |
| BestFive.BestSeesStraightFlush | src/core/evaluator.rs:130-149 | corrected, 2c 5s 6s 7s 8s 9s As scores at least its nine-high straight flush, strictly above the as-written score |
| Ranges.PatternOf | src/core/range.rs:149-186 | the pattern built from two values is a pair exactly when they are equal, suited for marker `s`, offsuit for `o`, and a plus pattern exactly when `+` was given |
| Ranges.ParseFormat | src/core/range.rs:128-139 | parsing fails with `InvalidFormat` of the trimmed text exactly when the part before an optional `+` is not 2 or 3 bytes long |
| Ranges.ParsePlus | src/core/range.rs:131-135 | a parsed pattern is a plus pattern exactly when the trimmed text ends in `+` |
| Ranges.ParseBase | src/core/range.rs:141-186 | a base of 2 or 3 bytes parses to a valid pattern whose plus flag is the one given, or fails with a value or marker error, never a format error |
| Ranges.PatternRoundTrip | src/core/range.rs:128-187 | parsing the printed form of a valid pattern gives the pattern back |
| Ranges.ParseOrderFree | src/core/range.rs:144-153 | swapping the two value characters changes neither the pattern parsed nor whether parsing fails for the format |
| RangeSets.KeyRoundTrip | src/core/range.rs:57 | the sort key (high index, low index) identifies hole cards uniquely |
| RangeSets.SortDedup | src/core/range.rs:57-58 | sort and dedup keep exactly the same hole cards, strictly ordered by key |
| RangeSets.SortDedupUnique | src/core/range.rs:57-58 | any strictly key-ordered list with those members is the sorted, deduplicated result |
| RangeSets.SortDedupOrderFree | src/core/range.rs:57-58 | lists with the same members sort and dedup to the same list |
| RangeSets.NewRange | src/core/range.rs:26-30 | a new range has no patterns |
| RangeSets.InsertPattern | src/core/range.rs:42 | inserting a pattern adds exactly that pattern |
| RangeSets.Classify | src/core/range.rs:35-42 | a comma-separated part is skipped exactly when it trims to nothing; otherwise it is added exactly when it parses, and it rejects with the parse error otherwise |
| RangeSets.AddPartsOk | src/core/range.rs:35-45 | folding the parts succeeds exactly when no part is rejected |
| RangeSets.FromStrOk | src/core/range.rs:32-46 | `Range::from_str` succeeds exactly when none of the comma-separated parts, classified in order, is rejected: each is blank or a valid pattern |
| RangeSets.FromStrMembers | src/core/range.rs:32-46 | the patterns of a parsed range are exactly those that its parts classify as patterns to add |
| RangeSets.FromStrFirstError | src/core/range.rs:41 | a failed parse reports the error of the first rejected part |
| RangeSets.AddPattern | src/core/range.rs:91-95 | `add_pattern` succeeds exactly when the text parses, reports the parse error otherwise, and on success adds exactly that pattern |
| RangeSets.ToHoleCards | src/core/range.rs:49-61 | the combos of a range come strictly ordered by (high index, low index), hence without repeats |
| RangeSets.ToHoleCardsMembers | src/core/range.rs:49-61 | a hole-card pair is listed exactly when some pattern of the range matches it and neither card is dead |
| RangeSets.ToHoleCardsOrderFree | src/core/range.rs:49-61 | the listed combos do not depend on the hash set's iteration order |
| RangeSets.ComboCount | src/core/range.rs:63-65 | `combo_count` is the number of distinct combos listed |
| RangeSets.SinglePatternCount | src/core/range.rs:63-65 | with no dead cards, a one-pattern range counts the pattern's size: 6 per pair, 4 per suited and 12 per offsuit hand, 16 for either, summed over a plus pattern's span |
| RangeSets.DeadCardsRemove | src/core/range.rs:49-65 | dead cards only remove combos: every combo with dead cards is one without, and the count does not grow |
| RangeSets.ContainsMatches | src/core/range.rs:97-99 | a range contains hole cards exactly when one of its patterns matches them |
| RangeSets.Tally | src/core/range.rs:73-81 | pairs, suited and offsuit counts add up to the number of combos |
| RangeSets.Breakdown | src/core/range.rs:67-89 | the breakdown's total is the combo count |
| RangeSets.BreakdownClasses | src/core/range.rs:67-89 | each class count in the breakdown is the number of listed combos of that class (pair, else suited, else offsuit) |
| RangeCombos.Generate | src/core/range.rs:241-295 | the generators list exactly the live candidates of their suit slots, one per slot when no card is dead |
| RangeCombos.PairMembers | src/core/range.rs:241-257 | the pair generator lists exactly the live pairs of two different cards of the value |
| RangeCombos.SuitedMembers | src/core/range.rs:259-273 | the suited generator lists exactly the live same-suit combos of the two values |
| RangeCombos.OffsuitMembers | src/core/range.rs:275-295 | the offsuit generator lists exactly the live different-suit combos of the two values |
| RangeCombos.PatternMembers | src/core/range.rs:189-238 | a pattern expands to exactly the live hole cards it matches |
| RangeCombos.PairPlusMembers | src/core/range.rs:192-200 | `QQ+` expands to exactly the live pairs of that value or higher |
| RangeCombos.SuitedPlusMembers | src/core/range.rs:202-211 | a suited plus pattern expands to exactly the live suited combos with the same high value and a low value from the given one up to below the high |
| RangeCombos.OffsuitPlusMembers | src/core/range.rs:213-221 | an offsuit plus pattern expands to exactly the live offsuit combos with the same high value and a low value from the given one up to below the high |
| RangeCombos.AnyPlusMembers | src/core/range.rs:227-236 | an unmarked plus pattern expands to exactly the live combos of either kind over the same span |
| RangeCombos.GeneratorCounts | src/core/range.rs:241-295 | with no dead cards a pair gives 6 combos, a suited hand 4 and an offsuit hand 12 |
| RangeCombos.PatternCount | src/core/range.rs:189-238 | with no dead cards a pattern expands to its size |
| RangeCombos.PatternDistinct | src/core/range.rs:189-238 | a pattern's expansion lists no combo twice |
| RangeCombos.AcesAroundDeadCards | src/core/range.rs:241-257 | `AA` gives 6 combos, 3 with the ace of hearts dead, and 1 with the aces of hearts and spades dead |
| Equity.NewCalculator | src/core/equity/mod.rs:31-35 | a new calculator's flush table is complete and correct |
| Equity.HeadsUpDead | src/core/equity/mod.rs:86-93 | the dead cards are exactly the four hole cards and the board |
| Equity.AvailableMembers | src/core/equity/mod.rs:95-98 | the available cards are exactly the live ones, each listed once |
| Equity.AvailableCount | src/core/equity/mod.rs:95-98 | 52 minus the number of dead cards are available |
| Equity.Showdown | src/core/equity/mod.rs:202-212 | player 1 wins exactly when their hand ranks higher, player 2 exactly when theirs does, a tie otherwise |
| Equity.ShowdownSwap | src/core/equity/mod.rs:202-212 | swapping the players swaps the showdown's winner |
| Equity.TallyCounts | src/core/equity/mod.rs:208-213 | the wins and ties counted are the number of showdowns with each outcome |
| Equity.TallyFlip | src/core/equity/mod.rs:208-213 | swapping every outcome swaps the two win counts |
| Equity.Shape | src/core/equity/mod.rs:119-124 | the two equities sum to 1, the tie equity is the tie fraction, every equity is in [0, 1], and the trial count is carried |
| Equity.ExactBoards | src/core/equity/mod.rs:100-117 | the enumeration lists C(available, 5 - board) boards, each the given board completed to five cards |
| Equity.ExactBoardsComplete | src/core/equity/mod.rs:188-221 | every choice of distinct available cards appears among the enumerated boards |
| Equity.ExactBoardsLegal | src/core/equity/mod.rs:188-221 | the added board cards are live and pairwise different |
| Equity.CalculateExact | src/core/equity/mod.rs:80-125 | exact equity visits C(52 - dead, 5 - board) boards, at least one, and the two equities sum to 1 |
| Equity.ExactSwap | src/core/equity/mod.rs:80-125 | swapping the players swaps their exact equities and keeps the tie equity |
| Equity.ExactFourCardBoard | src/core/equity/mod.rs:80-125 | on a four-card board with all cards distinct, exact equity visits 44 rivers |
| Equity.MonteCarlo | src/core/equity/mod.rs:134-186 | with no trials the result is undefined; otherwise the two equities sum to 1, each equity is in [0, 1], and the trial count is reported |
| Equity.MonteCarloOfEveryBoard | src/core/equity/mod.rs:134-186 | Monte Carlo that draws each enumerated board once gives exactly the exact equity |
| Equity.CompletionLegal | src/core/equity/mod.rs:150-165 | every completion the exact enumeration visits is a draw a shuffle can deal: distinct available cards, as many as the board lacks |
| RangeEquity.Matchup | src/core/equity/mod.rs:256 | one matchup's Monte Carlo result has equities summing to 1, each in [0, 1] |
| RangeEquity.Accumulate | src/core/equity/mod.rs:260-262 | the summed equities of n matchups add up to n, each sum within [0, n] |
| RangeEquity.Average | src/core/equity/mod.rs:264-273 | averaged equities sum to 1, each lies in [0, 1], each is its sum over the matchup count, and the simulation total is matchups × iterations |
| RangeEquity.RangeVsHand | src/core/equity/mod.rs:230-274 | range against hand is undefined exactly when there are no iterations and some combo; it evaluates every live combo; equities sum to 1; no combo gives the fixed result with opponent equity 1 |
| RangeEquity.VsHandCombosAvoid | src/core/equity/mod.rs:237-242 | the range's combos against a hand are exactly the matching combos sharing no card with the hand or the board |
| RangeEquity.RangeVsHandSingle | src/core/equity/mod.rs:254-273 | a range with one live combo gives exactly that combo's Monte Carlo equities |
| RangeEquity.MatchupsMembers | src/core/equity/mod.rs:308-323 | the matchups are exactly the pairs of combos from the two ranges that share no card |
| RangeEquity.EmptyMatchups | src/core/equity/mod.rs:298-306 | an empty side gives no matchups |
| RangeEquity.RangeVsRange | src/core/equity/mod.rs:283-355 | range against range is undefined exactly when there are no iterations and some matchup; it evaluates every matchup; equities sum to 1; no matchup gives the all-zero result |
| RangeEquity.RangeVsRangeMatchups | src/core/equity/mod.rs:295-323 | a pair is a matchup exactly when each side's pattern matches, no card is on the board, and the two share no card |
| RangeEquity.RangeVsRangeSequential | src/core/equity/mod.rs:358-425 | the sequential nested loops return the same result as the parallel version |
| Multiway.HoleCardList | src/core/equity/multiway.rs:69-72 | the hole cards of n players list 2n cards, exactly the players' cards |
| Multiway.MultiwayDead | src/core/equity/multiway.rs:67-77 | the dead cards are exactly every player's hole cards and the board |
| Multiway.MultiwayDeckMembers | src/core/equity/multiway.rs:100-104 | the deck holds exactly the cards that are in no hand and not on the board, each once |
| Multiway.Best | src/core/equity/multiway.rs:226-230 | the best score is at least every player's and is some player's |
| Multiway.WinnersMembers | src/core/equity/multiway.rs:226-236 | a player is a winner exactly when nobody outranks them; there is at least one winner, listed in seat order |
| Multiway.MultiwayExact | src/core/equity/multiway.rs:206-265 | an invalid player count or a board that is not five cards is an error; otherwise there is one equity and one win count per player, one simulation and at most one tie |
| Multiway.ExactShares | src/core/equity/multiway.rs:238-257 | one tie exactly when several players win; a win for a player exactly when they win alone; equity 1/k for each of k winners and 0 for everyone else |
| Multiway.IndicatorTotal | src/core/equity/multiway.rs:245-257 | giving x to each listed seat and 0 to the others sums to (number listed) × x |
| Multiway.ExactSum | src/core/equity/multiway.rs:245-257 | exact multiway equities sum to 1 |
| Multiway.MultiwayExactShares | src/core/equity/multiway.rs:218-264 | per player, exact equity is 1/k if they are among the k best hands and 0 otherwise; wins and ties likewise; all equities sum to 1 |
| Multiway.Credit | src/core/equity/multiway.rs:274-281 | crediting one trial adds exactly one to the wins-plus-ties total |
| Multiway.Aggregate | src/core/equity/multiway.rs:267-284 | aggregated counters have one win count per player, and wins plus ties equal the number of trials |
| Multiway.AggregateCounts | src/core/equity/multiway.rs:267-284 | a player's win count is the number of trials they won alone, and the tie count is the number of trials with several winners |
| Multiway.BuildResult | src/core/equity/multiway.rs:286-309 | the result carries the counters and the trial count; equities are undefined exactly when there were no trials, and one per player otherwise |
| Multiway.TotalShares | src/core/equity/multiway.rs:298-301 | the equities so built sum to total wins over trials plus players × tie share |
| Multiway.BuildResultSum | src/core/equity/multiway.rs:286-309 | when wins and ties account for every trial, the built equities sum to 1 |
| Multiway.TrialWinners | src/core/equity/multiway.rs:109-139 | one winner list per trial, each the winners of the board completed by that trial's draw |
| Multiway.MultiwayMonteCarlo | src/core/equity/multiway.rs:88-145 | an invalid player count is an error; otherwise one win count per player, wins plus ties equal the trials, and equities are undefined exactly when there are no trials |
| Multiway.MultiwayMonteCarloSum | src/core/equity/multiway.rs:88-145 | with at least one trial, the Monte Carlo equities sum to 1 |
| Multiway.MultiwayMonteCarloShares | src/core/equity/multiway.rs:128-145 | a player's equity is their sole-win fraction plus the tie share; wins and ties count sole wins and shared trials |
| Multiway.FindWinners | src/core/equity/multiway.rs:128-138 | the two loops (maximum, then those matching it) return exactly the winners in seat order |
| Multiway.CreditTrial | src/core/equity/multiway.rs:196-200 | the sequential credit step updates the counters as the aggregation does |
| Multiway.MultiwaySequential | src/core/equity/multiway.rs:147-204 | the sequential loop returns the same result as the parallel version for the same draws |
| Multiway.SequentialTrial | src/core/equity/multiway.rs:171-201 | one pass of the sequential loop extends the counters from the first t trials to the first t + 1 |
| Multiway.Split | src/core/equity/multiway.rs:245-257 | splitting one pot among the winners gives shares that sum to 1 |
| Multiway.FairSharesUpTo | src/core/equity/multiway.rs:267-309 | the per-trial pot splits of k trials sum to k |
| Multiway.FairResult | src/core/equity/multiway.rs:286-309 | corrected build: the same counters, undefined exactly when there are no trials, and equities that sum to 1 |
| Multiway.FairMonteCarlo | src/core/equity/multiway.rs:88-145 | corrected Monte Carlo: the same error and trial count, equities undefined exactly without trials, and summing to 1 otherwise |
| Multiway.FairCounters | src/core/equity/multiway.rs:267-284 | the corrected Monte Carlo reports the same win and tie counters as the as-written one |
| Multiway.FairSingleTrial | src/core/equity/multiway.rs:238-257 | the corrected build of one trial equals the exact result for the same winners |
| Multiway.FairBystander | src/core/equity/multiway.rs:292-301 | corrected, a player who never wins or ties gets equity 0 |
| Multiway.TieShareTotal | src/core/equity/multiway.rs:292-301 | the tie share credited to each of the players, taken over all of them, adds up to the fraction of trials that were tied |
| Multiway.TieShareReachesBystander | src/core/equity/multiway.rs:292-301 | as written, when any trial is tied every player gets positive equity, including players who never won or tied |
| Multiway.TieShareWitness | src/core/equity/multiway.rs:292-301 | one trial among three players, seats 0 and 1 tied: as written the equities are 1/3 each; exact and corrected they are 1/2, 1/2, 0 |

## Left out

- The random shuffles of Monte Carlo, and rayon's parallel iteration: draws and deals are parameters. Every sum is commutative, so the parallel and sequential versions coincide.
- `f64` arithmetic: equities are exact reals. Rounding and the order in which floating sums accumulate are not modelled. NaN from 0/0 is `None`.
- `equity/results.rs` is not part of this model. Its result structs are restated as datatypes.
- The older single-file `equity.rs` next to `equity/mod.rs` is not part of this model. It is a superseded copy.
- The trait wrappers at `equity/mod.rs:429-458` and `MultiwayCalculator::new` only forward to the modelled functions.
- `evaluate_7_cards_fast` is `evaluate_u64` on the seven-card word. The model covers it through `Evaluator.EvaluateWord` and its correction `BestFive.EvaluateBest`.
- Evaluator.EvaluateU64: takes only words of card indices below 52. `Evaluator.EvaluateWord` covers every other `u64` and returns `None` where the source panics.
- HandRank.EncodeKickers: requires each of the first five ranks to fit a nibble. For a rank of 16 or more, the source ORs the shifted rank into the neighbouring fields. The model does not represent that bitwise overlap. The evaluator only passes ranks below 13.
- Display of `HandRanking`, `HandCategory::name`, `ComboBreakdown` and `RangeParseError`, plus the `FromStr`/`TryFrom` shims: these are text only, or delegate to modelled parsers.
- Integer widths `u32`/`usize`: counters and trial counts are unbounded. Nothing in the core can overflow them for realistic inputs.
- Equity.CalculateExact: requires a board of at most five cards. The source computes `5 - board.len()` in `usize`, which fails on a longer board.
- Multiway.MultiwayMonteCarlo: the same underflow for boards over five cards is outside the model, because the completions are given as parameters.
- Equity.MonteCarlo: a board of more than five cards is not rejected. The source computes `5 - board.len()` in `usize` at `equity/mod.rs:154`: a debug build panics there, and a release build panics when the first trial slices `available_cards[..cards_needed]`. The model takes the completions as parameters and still returns equities for such a board.
- RangeEquity.Matchup: inherits the same case from `Equity.MonteCarlo`. It returns a result for a board of more than five cards, where the source panics.
- RangeEquity.RangeVsHand: a board of more than five cards returns equities here. The source panics in `calculate_monte_carlo` on the first combo.
- RangeEquity.RangeVsRange: a board of more than five cards returns equities here. The source panics in `calculate_monte_carlo` on the first matchup.
- Hands.ParseHole: a four-byte text holding a multi-byte character returns `None` here. The source either rejects it or panics when byte 2 is not a character boundary.
- HandRank.New: the `debug_assert!` on kickers of 2^24 or more is a precondition here. Release builds would let such kickers spill into the category bits.

## Findings

| source | as written | input that shows it | evidently intended | confidence | as-written member | corrected member |
|---|---|---|---|---|---|---|
| src/core/evaluator.rs:79-86 | the weighted flush score 371·r0 + 28·r1 + 2·r2 + r3 + r4 is capped at 999, and every non-straight five-rank set reaches the cap | any two plain flushes, e.g. Ah Kh 9h 5h 3h vs 7h 5h 4h 3h 2h | plain flushes compare by their five ranks from high to low | not executed | EvaluatorFindings.PlainFlushesTie | EvaluatorFindings.CorrectedFlushOrder |
| src/core/evaluator.rs:275-287 | any repeated rank goes to the paired path before any straight check | 5c 6d 7h 8s 9c 9d Kc scores one pair | the nine-high straight | not executed | EvaluatorFindings.PairHidesStraightWitness | BestFive.BestSeesStraight |
| src/core/evaluator.rs:170-177 | the quads kicker is taken from the trips or pairs before the singles | 2c 2d Kc Ac Ad Ah As scores four aces with a deuce | four aces with a king | not executed | EvaluatorFindings.QuadsKickerFromPairWitness | BestFive.BestSeesQuadsKicker |
| src/core/evaluator.rs:195-201 | with three pairs the two-pair kicker is the third pair even when a single is higher | 2c 2d Qc Qd Kc Kd Ah scores kings and queens with a deuce | kings and queens with an ace | not executed | EvaluatorFindings.TwoPairKickerFromThirdPairWitness | BestFive.BestSeesTwoPairKicker |
| src/core/evaluator.rs:130-149 | `check_flush` keeps the top five suited ranks, so a lower straight flush among six or seven suited cards is lost | 2c 5s 6s 7s 8s 9s As scores a plain flush | the nine-high straight flush | not executed | EvaluatorFindings.TopFiveHidesStraightFlushWitness | BestFive.BestSeesStraightFlush |
| src/core/equity/multiway.rs:292-301 | the tie share, ties / iterations / players, is added to every player, not only to those who tied | 3 players, 1 trial in which seats 0 and 1 tie: equities 1/3, 1/3, 1/3 | the pot split among the tied players, 1/2, 1/2, 0, as the exact path gives | not executed | Multiway.TieShareWitness | Multiway.FairSingleTrial |
