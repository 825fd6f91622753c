# Poker core: cards, boards, ranges and hand evaluation

This project models the card-handling core of a heads-up poker solver and proves
properties of the model. It has two layers.

- **The game layer** (`game/`):
  - the display card (`Card`, rank 2..14 and suit 0..3, text such as "As");
  - the 52-card deck;
  - the hand evaluator. It finds the strongest category among five or more
    cards, trying them from royal flush down to high card, together with the
    tiebreaker ranks. It also compares the results of two players.
- **The solver layer** (`solver/core/`):
  - the compact card index (`rank * 4 + suit`, 0..51) and the player id;
  - the 64-bit card mask `CardSet`;
  - the adapter between the two card forms;
  - the fixed-size `Board` of three to five cards, with its text form and hashes;
  - the two-card `Hand` with a weight;
  - the `Range` of hands, with its parser for notation such as "QQ-TT, AKs, AK:0.5";
  - `HandRanking`, which packs an evaluation into one `int32` so that a larger
    value means a stronger hand.

Modules follow the source files:

| file | module | source |
|---|---|---|
| `wrappers.dfy` | `Wrappers` | `Option` and `Result`; they stand for the source's exceptions |
| `card.dfy` | `Cards` | `game/Card.h`, `game/Card.cpp` |
| `deck.dfy` | `Deck` | `game/Deck.h`, `game/Deck.cpp` |
| `types.dfy` | `Types` | `solver/core/Types.h` |
| `words.dfy` | `Words` | the 64-bit words behind `CardSet` and `Board::hash` |
| `card_set.dfy` | `CardSets` | `solver/core/CardSet.h` |
| `card_adapter.dfy` | `CardAdapter` | `solver/core/CardAdapter.h`, `.cpp` |
| `board.dfy` | `Boards` | `solver/core/Board.h`, `.cpp` |
| `hand.dfy` | `Hands` | `solver/core/Hand.h` |
| `range.dfy` | `Ranges` | `solver/core/Range.h`, `.cpp` |
| `hand_evaluation.dfy` | `HandEvaluation` | `game/HandEvaluation.h`, `.cpp` |
| `hand_ranking.dfy` | `HandRanking` | `solver/core/HandRanking.h`, `.cpp` |

Value types (`Card`, `CardIndex`, `PlayerId`, `CardSet`, `Hand`, `HandResult`) are
datatypes. `Board` and `Range` update their fields in place, so each is a class:

- `Board` has a five-slot array, a size and a card mask. `Valid()` ties the mask to the
  cards on the board.
- `Range` has a sequence of hands.

Operations that loop in the source are methods with loop invariants, each proved equal
to a specification function. The properties are proved about those functions:

- the deck builder;
- the board parser, printer and hashes;
- the combination generators and the notation parser of `Range`;
- the blocker filters;
- every `check*` function of the evaluator;
- the encoder of `HandRanking`.

Some functions have no row of their own. They are the specifications that methods and
lemmas with rows are proved against:

- `Ranges.ParseNotation` for `Ranges.FromNotation` and the notation lemmas;
- `Ranges.ComponentHands` for `Ranges.ParseComponent`;
- `Ranges.Unblocked` for `Ranges.Range.RemoveBlocked` and `Ranges.Range.WithoutBlocked`;
- `Boards.ParseFrom` for `Boards.ParseBoard` and `Boards.FromString`;
- `HandRanking.DecodedRank`, the category that `HandRanking.DecodeHandType` names, for
  `HandRanking.DecodeEncode`.

A thrown exception becomes the `Err` case of a `Result`. Each error kind the source
distinguishes is its own constructor.

## Model

| member | source | states |
|---|---|---|
| Cards.RankChar | game/Card.cpp:22-39 | the rank character is the rank's entry in "23456789TJQKA" |
| Cards.SuitChar | game/Card.cpp:41-48 | the suit character is the suit's entry in "cdhs" |
| Cards.ToString | game/Card.cpp:22-51 | `toString` gives two characters: the rank character, then the suit character |
| Cards.ParseRank | game/Card.cpp:75-93 | a rank is parsed exactly from "2".."9" and "TJQKA" in either case, and it prints back as the upper-case character |
| Cards.ParseSuit | game/Card.cpp:95-104 | a suit is parsed exactly from "cdhs" in either case, and it prints back as the lower-case character |
| Cards.FromString | game/Card.cpp:68-73 | a string whose length is not 2 is an error; otherwise the result is a card exactly when both characters are valid, and it prints as the normalised text |
| Cards.FromStringToString | game/Card.cpp:68-73 | parsing the text of a card gives back the card |
| Cards.LessIsStrictTotalOrder | game/Card.cpp:53-66 | `operator<` (rank, then suit) is a strict total order whose incomparable pairs are exactly the cards that are `==` |
| Cards.Less | game/Card.cpp:61-66 | `operator<` compares the rank, then the suit, which is the order of the position `rank * 4 + suit` |
| Deck.CardAt | game/Deck.cpp:9-12 | the card built at position i of the nested loop has suit * 13 + (rank - 2) == i |
| Deck.AllCards | game/Deck.h:11 | the deck has SIZE = 52 cards |
| Deck.AllCardsPosition | game/Deck.cpp:9-12 | each rank and suit sits at position suit * 13 + rank - 2: suits outer, ranks inner |
| Deck.AllCardsDistinct | game/Deck.cpp:5-15 | no card appears twice |
| Deck.AllCardsComplete | game/Deck.cpp:5-15 | every card appears |
| Deck.GetAllCards | game/Deck.cpp:5-15 | `getAllCards` fills a fresh array with the deck in that order |
| Deck.GetAllCardsVector | game/Deck.cpp:17-27 | `getAllCardsVector` returns the same cards in the same order |
| Types.ToByte | solver/core/Types.h:27 | the `uint8_t` cast keeps values below 256 and otherwise agrees modulo 256 |
| Types.CardIndex.Rank | solver/core/Types.h:20 | `rank()` is value / 4: value == rank * 4 + suit, and it is below 13 for a card of the deck |
| Types.CardIndex.Suit | solver/core/Types.h:23 | `suit()` is value % 4, below 4 |
| Types.FromRankSuit | solver/core/Types.h:26-28 | `from_rank_suit` of an in-range rank and suit gives the card with that rank and suit |
| Types.FromRankSuitOfParts | solver/core/Types.h:20-28 | every index is rebuilt from its own rank and suit, even above 51 |
| Types.IndexLessIsStrictTotalOrder | solver/core/Types.h:17 | the defaulted `<=>` on card indices is a strict total order consistent with `==` |
| Types.IndexLess | solver/core/Types.h:17 | the defaulted `<=>` on the index value orders card indices by rank, then by suit |
| Types.PlayerId.Opponent | solver/core/Types.h:43-45 | the opponent of a valid player is valid and is the other player |
| Types.PlayerId.IsValid | solver/core/Types.h:47 | a player id is valid exactly when it is OOP (1) or IP (2) |
| Types.OpponentInvolution | solver/core/Types.h:43-47 | the opponent of the opponent of a valid player is that player |
| Types.OpponentSwapsPositions | solver/core/Types.h:40-45 | OOP is player 1, IP is player 2, and each is the other's opponent |
| Types.OpponentWraps | solver/core/Types.h:43-47 | for an invalid id the byte arithmetic wraps: the opponent of 4 is 255, which is invalid |
| Words.Zeros | solver/core/CardSet.h:13 | the all-clear mask of a given width |
| Words.ToWordLowBit | solver/core/Board.h:72 | bit 0 of a 64-bit word is the parity of the number |
| Words.BitWord | solver/core/CardSet.h:16-17 | `1ULL << i` has exactly bit i set |
| Words.Xor | solver/core/Board.h:73 | `^` sets exactly the bits on which its operands differ |
| Words.XorLaws | solver/core/Board.h:67-68 | xor is commutative and associative, zero is its identity, and every word is its own inverse |
| Words.XorSwap | solver/core/Board.h:67-68 | the last two of three xored words can be swapped |
| Words.PopCountIsCardinality | solver/core/CardSet.h:55-57 | the population count of a word is the number of its set bits |
| Words.ZeroIffNoMembers | solver/core/CardSet.h:60-62 | a word is zero exactly when no bit is set |
| CardSets.CardSet.Contains | solver/core/CardSet.h:26-28 | `contains` holds exactly when the card's bit is a member |
| CardSets.CardSet.Add | solver/core/CardSet.h:16-18 | `add` makes the members the old members plus the card, and leaves a set that already holds it unchanged |
| CardSets.CardSet.Remove | solver/core/CardSet.h:21-23 | `remove` makes the members the old members minus the card, and leaves a set without it unchanged |
| CardSets.CardSet.Overlaps | solver/core/CardSet.h:31-33 | two sets overlap exactly when their members intersect |
| CardSets.CardSet.OverlapsCard | solver/core/CardSet.h:36-38 | a set overlaps a card exactly when it holds it |
| CardSets.CardSet.Union | solver/core/CardSet.h:41-45 | the members of the bitwise-or of two sets are the members of either |
| CardSets.CardSet.Intersection | solver/core/CardSet.h:48-52 | the members of `&` are the intersection of the members |
| CardSets.CardSet.Count | solver/core/CardSet.h:55-57 | `count` is the number of members |
| CardSets.CardSet.IsEmpty | solver/core/CardSet.h:60-62 | `empty` holds exactly when there are no members |
| CardSets.CardSet.Clear | solver/core/CardSet.h:65-67 | `clear` leaves no members |
| CardSets.FromBits | solver/core/CardSet.h:75-79 | `from_bits` has as members exactly the set bits |
| CardSets.Single | solver/core/CardSet.h:82-86 | `single` holds exactly the one card, so its count is 1 |
| CardSets.Pair | solver/core/CardSet.h:89-94 | `pair` holds exactly the two cards: count 2, or 1 when they are the same card |
| CardSets.EqualIffSameMembers | solver/core/CardSet.h:96 | the defaulted `==` holds exactly for sets with the same members |
| CardSets.FromBitsOfBits | solver/core/CardSet.h:70-79 | `from_bits(bits())` gives back the set, and the default set is empty with count 0 |
| CardAdapter.ToIndex | solver/core/CardAdapter.h:17-21 | `to_index` gives a deck index whose rank is the card's rank - 2 and whose suit is the card's suit |
| CardAdapter.ToCard | solver/core/CardAdapter.cpp:6-10 | `to_card` gives the card with rank index.rank() + 2 and suit index.suit() |
| CardAdapter.RankChar | solver/core/CardAdapter.h:33-36 | `rank_char` of a rank below 13 is the game's character for rank + 2; rank 13 reads the terminating '\0', which is no rank character |
| CardAdapter.SuitChar | solver/core/CardAdapter.h:39-42 | `suit_char` of a suit below 4 is the game's suit character; suit 4 reads the terminating '\0', which is no suit character |
| CardAdapter.ParseRank | solver/core/CardAdapter.h:45-62 | `parse_rank` returns 255 or a rank below 13 |
| CardAdapter.ParseSuit | solver/core/CardAdapter.h:65-73 | `parse_suit` returns 255 or a suit below 4 |
| CardAdapter.ParseRankSpec | solver/core/CardAdapter.h:45-62 | the result is 255 exactly for a non-rank character; otherwise it prints as the upper-case character and agrees with the game parser |
| CardAdapter.ParseSuitSpec | solver/core/CardAdapter.h:65-73 | the result is 255 exactly for a non-suit character; otherwise it prints as the lower-case character and agrees with the game parser |
| CardAdapter.FromString | solver/core/CardAdapter.cpp:12-22 | fewer than 2 characters is "too short"; otherwise the result is a card exactly when the first two characters are valid, and "invalid card" with the whole text when they are not |
| CardAdapter.ToString | solver/core/CardAdapter.cpp:24-29 | `to_string` gives two characters: for a deck index the game card's `toString` of `to_card`, for indices 52-55 '\0' and the suit character |
| CardAdapter.NonCardTextRejected | solver/core/CardAdapter.cpp:12-29 | the text that `to_string` gives for indices 52-55 is rejected by `from_string` as an invalid card |
| CardAdapter.IndexCardRoundTrips | solver/core/CardAdapter.h:17-21 | `to_card` and `to_index` are inverse on cards of the deck |
| CardAdapter.ParseRankChar | solver/core/CardAdapter.h:33-62 | `parse_rank(rank_char(r)) == r` |
| CardAdapter.ParseSuitChar | solver/core/CardAdapter.h:39-73 | `parse_suit(suit_char(s)) == s` |
| CardAdapter.FromStringToString | solver/core/CardAdapter.cpp:12-29 | parsing the text of a deck index gives it back |
| CardAdapter.FromStringAgreesWithGame | solver/core/CardAdapter.cpp:12-22 | the adapter accepts a text exactly when the game parser accepts its first two characters, and both give the same card |
| CardAdapter.FromStringIgnoresTail | solver/core/CardAdapter.cpp:16-21 | characters after the first two are ignored |
| Boards.ValuesAppend | solver/core/Board.h:27-28 | adding a card adds its value to the board's set of values |
| Boards.InValues | solver/core/Board.h:55-57 | a card's value is among the board's values exactly when the card is on the board |
| Boards.ValuesMeet | solver/core/Board.h:60-62 | the board's values meet a set exactly when some board card is in it |
| Boards.XorAllRemove | solver/core/Board.h:69-74 | any one card's hash can be taken out of the xor of a board's card hashes |
| Boards.XorAllPermutation | solver/core/Board.h:67-74 | the xor of card hashes depends only on the multiset of cards |
| Boards.HashPermutationInvariant | solver/core/Board.h:66-78 | `hash()` of a reordering of the same cards is the same: the order independence its comment promises |
| Boards.DistinctMultiplicity | solver/core/Board.h:66-78 | in a board without repeated cards each card occurs once |
| Boards.EqualDistinctBoardsHashEqually | solver/core/Board.h:66-106 | boards without repeated cards that hold the same cards have the same `hash()` |
| Boards.XorAllSnoc | solver/core/Board.h:70-74 | one more loop step xors in the new card's hash |
| Boards.HashLowBit | solver/core/Board.h:76 | mixing in the size (shifted by 56) leaves bit 0 of the hash unchanged |
| Boards.CardHashLowBit | solver/core/Board.h:72 | bit 0 of a card's hash is the parity of its value, because the multiplier is odd |
| Boards.OddProductParity | solver/core/Board.h:72 | multiplying by 0x9E3779B97F4A7C15 keeps the parity |
| Boards.EqualBoardsMayHashApart | solver/core/Board.h:66-106 | with a repeated card, two boards can be `==` (same size, same card set) yet hash differently: `add` does not reject duplicates, so `hash()` and `operator==` disagree |
| Boards.OrderedFold | solver/core/Board.h:83-85 | the `h * 53 + value` loop stays a 64-bit word |
| Boards.OrderedHashOf | solver/core/Board.h:81-87 | `ordered_hash` is a 64-bit value |
| Boards.OrderedHashDependsOnOrder | solver/core/Board.h:80-87 | unlike `hash()`, `ordered_hash` tells two orders of the same cards apart (5619 against 5671) |
| Boards.StepInjective | solver/core/Board.h:84 | one step `h * 53 + value` modulo 2^64 is one-to-one in `h`, as 53 is invertible modulo 2^64 |
| Boards.OrderedFoldAppend | solver/core/Board.h:83-85 | folding `p + q` continues from the state that folding `p` leaves |
| Boards.OrderedFoldInjective | solver/core/Board.h:83-85 | two different 64-bit states stay different through any further cards |
| Boards.OrderedFoldTwo | solver/core/Board.h:83-85 | the fold over two cards is the two steps one after the other |
| Boards.SwapChangesFold | solver/core/Board.h:83-85 | two different values folded in the two orders give different states |
| Boards.OrderedHashSwapAdjacent | solver/core/Board.h:81-87 | exchanging any two adjacent cards of different values changes `ordered_hash` |
| Boards.Render | solver/core/Board.cpp:40-48 | `to_string` writes two characters per card, for every index below 56 |
| Boards.RenderAppend | solver/core/Board.cpp:43-46 | one more card below 56 appends its `CardAdapter::to_string` |
| Boards.Finish | solver/core/Board.cpp:33-37 | fewer than 3 parsed cards is "too few"; otherwise the cards are the board |
| Boards.ParseCardAt | solver/core/Board.cpp:21-29 | a parsed pair of characters is a deck card |
| Boards.ParseCardAtSpec | solver/core/Board.cpp:21-27 | a pair of characters is accepted exactly when it is a rank character then a suit character |
| Boards.ParseCardAtRendered | solver/core/Board.cpp:21-45 | the characters of a card parse back to the card |
| Boards.ParseCardAtCanonical | solver/core/Board.cpp:21-29 | canonical characters parse to a card that prints as them |
| Boards.ParseFromResult | solver/core/Board.cpp:9-35 | the loop stops at 5 cards, so parsing never raises "board full"; a result extends the cards collected so far, holds 3 to 5 cards, and keeps them deck cards |
| Boards.ParseBoard | solver/core/Board.cpp:5-38 | `from_string` gives 3 to 5 deck cards, and never the "board full" error |
| Boards.ParseFromStep | solver/core/Board.cpp:16-30 | a valid card at position i is appended and the loop continues at i + 2 |
| Boards.RenderedAtRender | solver/core/Board.cpp:40-48 | a rendered board appears card by card in the text |
| Boards.RankCharNotSeparator | solver/core/Board.cpp:11-13 | no rank character is a space or a comma |
| Boards.RenderedHead | solver/core/Board.cpp:16-29 | the first card of a rendered text is read where it stands, without a separator before it |
| Boards.RenderedIsReadable | solver/core/Board.cpp:16-48 | the text of some cards can be read card by card |
| Boards.ParseFromReadable | solver/core/Board.cpp:9-31 | for any card reader, reading over text it accepts card by card appends exactly those cards |
| Boards.ParseRenderedPrefix | solver/core/Board.cpp:9-48 | a text that starts with the rendering of some cards yields those cards first |
| Boards.ParseRender | solver/core/Board.cpp:5-48 | `from_string(to_string())` gives back every board of 3 to 5 cards |
| Boards.ParseStopsAfterFive | solver/core/Board.cpp:9 | after 5 cards the rest of the text is ignored |
| Boards.ParseRejectsIncompleteCard | solver/core/Board.cpp:17-19 | a single trailing character is an "incomplete card" |
| Boards.ParseFromIncomplete | solver/core/Board.cpp:17-19 | one non-separator character left is an "incomplete card" |
| Boards.ParseShift | solver/core/Board.cpp:9-31 | the loop depends only on the text from its position on |
| Boards.ParseSkipsSeparator | solver/core/Board.cpp:11-13 | leading spaces and commas are skipped |
| Boards.ParseRejectsOtherLeadingChar | solver/core/Board.cpp:17-27 | any other leading non-rank character is an invalid card naming the two characters, or an incomplete card when it stands alone |
| Boards.CanonicalCards | solver/core/Board.cpp:40-48 | a canonical text is the rendering of some cards |
| Boards.RenderOfRenderedAt | solver/core/Board.cpp:40-48 | those cards render to exactly that text |
| Boards.RenderParse | solver/core/Board.cpp:5-48 | `to_string(from_string(s)) == s` for canonical text of 3 to 5 cards |
| Boards.Board.constructor | solver/core/Board.h:108-111 | a new board is empty, with an empty card set |
| Boards.Board.Add | solver/core/Board.h:23-29 | on a full board `add` is "board full" and changes nothing; otherwise the card is appended and added to the card set, which keeps matching the cards |
| Boards.Board.OverlapsCard | solver/core/Board.h:55-57 | a card overlaps the board exactly when it is on it |
| Boards.Board.OverlapsSet | solver/core/Board.h:60-62 | a set overlaps the board exactly when it holds a board card |
| Boards.Board.Equals | solver/core/Board.h:102-106 | `==` holds exactly for boards of the same size holding the same set of cards |
| Boards.Board.IsFlop | solver/core/Board.h:35 | `is_flop` holds exactly when the board holds 3 cards |
| Boards.Board.IsTurn | solver/core/Board.h:38 | `is_turn` holds exactly when the board holds 4 cards |
| Boards.Board.IsRiver | solver/core/Board.h:41 | `is_river` holds exactly when the board holds 5 cards |
| Boards.Board.Hash | solver/core/Board.h:66-78 | the loop computes the xor of the card hashes with the size mixed in |
| Boards.Board.OrderedHash | solver/core/Board.h:81-87 | the loop computes the order-dependent fold, seeded with the size |
| Boards.Board.ToString | solver/core/Board.cpp:40-48 | the loop writes the rendering of the cards, for every board of indices below 56 |
| Boards.Board.Copy | solver/core/Board.h:97 | a copy is a fresh board with the same cards and card set |
| Boards.Board.WithCard | solver/core/Board.h:96-100 | `with_card` is "board full" on a full board; otherwise it is a fresh board with the card appended, and the original is left unchanged |
| Boards.FromString | solver/core/Board.cpp:5-38 | the method fails exactly when the specification fails, with the same error; otherwise it builds a fresh board of those cards that is a flop, turn or river |
| Hands.Hand.ToCardSet | solver/core/Hand.h:29-31 | `to_card_set` holds exactly the two cards |
| Hands.Hand.OverlapsCard | solver/core/Hand.h:34-36 | a hand overlaps a card exactly when it is one of its two cards, that is, when its card set holds it |
| Hands.Hand.OverlapsSet | solver/core/Hand.h:44-46 | a hand overlaps a set exactly when its card set overlaps it |
| Hands.Hand.OverlapsHand | solver/core/Hand.h:49-52 | two hands overlap exactly when they share a card |
| Hands.Hand.OverlapsBoard | solver/core/Hand.h:39-41 | a hand overlaps a board exactly when a hole card is on it, that is, when its card set meets the board's |
| Hands.Hand.ToString | solver/core/Hand.h:65-67 | `to_string` is four characters: for deck cards, the game text of card1 then that of card2; an index from 52 to 55 starts its half with '\0' |
| Hands.Hand.IsPair | solver/core/Hand.h:55-57 | `is_pair` holds for deck cards exactly when the two game cards have the same rank |
| Hands.Hand.IsSuited | solver/core/Hand.h:60-62 | `is_suited` holds for deck cards exactly when the two game cards have the same suit |
| Hands.Hand.Equals | solver/core/Hand.h:80-82 | `==` ignores the weight; for hands in canonical order it holds exactly when the card sets are equal |
| Hands.MakeHand | solver/core/Hand.h:20-26 | the constructor keeps the weight and stores the two cards with the higher value first |
| Hands.MakeHandText | solver/core/Hand.h:20-68 | a hand's text shows the higher card first, whichever order the two cards were given in |
| Hands.MakeHandSymmetric | solver/core/Hand.h:20-26 | the constructor gives the same hand whichever order the cards come in |
| Hands.MakeHandOfCanonical | solver/core/Hand.h:20-26 | a hand already in canonical order is rebuilt unchanged |
| Hands.PairedAndSuitedIsOneCard | solver/core/Hand.h:55-62 | a hand is both a pair and suited exactly when its two cards are the same card |
| Hands.PairIsNeverSuited | solver/core/Hand.h:55-62 | two different cards of one rank make a pair that is not suited |
| Hands.OverlapsHandIsSharedCard | solver/core/Hand.h:49-52 | overlap is a non-empty intersection of the two hands' cards |
| Hands.OverlapsAgree | solver/core/Hand.h:29-52 | the per-card overlap tests agree with the card-set tests |
| Hands.FromString | solver/core/Hand.h:70-77 | fewer than 4 characters is "too short"; a parsed hand is canonical, made of deck cards, and has weight 1 |
| Hands.FromStringSpec | solver/core/Hand.h:70-77 | a hand is parsed exactly when both two-character cards are valid; otherwise the error names the first bad card |
| Hands.FromStringToString | solver/core/Hand.h:65-77 | parsing the text of a canonical hand gives it back with weight 1, `==` to the original |
| Hands.ToStringFromString | solver/core/Hand.h:65-77 | canonical text parses to a hand whose text is the two cards in canonical order |
| Hands.FromStringOfCards | solver/core/Hand.h:74-76 | the hand is the constructor applied to the two parsed cards |
| Hands.CanonicalCardText | solver/core/CardAdapter.cpp:12-29 | canonical card text parses and prints back to itself |
| Hands.Compare | solver/core/Hand.h:85-88 | `<=>` gives -1, 0 or 1 |
| Hands.CompareIsTotalOrder | solver/core/Hand.h:80-88 | `<=>` is 0 exactly for hands that are `==`, is antisymmetric and transitive, and ignores the weight |
| Hands.EqualsIsEquivalence | solver/core/Hand.h:80-82 | `==` is an equivalence that ignores the weight |
| Ranges.PairCombos | solver/core/Range.cpp:151-160 | a pair yields 6 hands |
| Ranges.SuitedCombos | solver/core/Range.cpp:162-170 | suited yields 4 hands |
| Ranges.OffsuitCombos | solver/core/Range.cpp:172-184 | offsuit yields 12 hands |
| Ranges.PairSuitsAt | solver/core/Range.cpp:153-154 | each suit pair s1 < s2 has its position in the nested loop |
| Ranges.OffsuitSuitsAt | solver/core/Range.cpp:175-177 | each suit pair s1 != s2 has its position in the nested loop |
| Ranges.AddPair | solver/core/Range.cpp:151-160 | `add_pair` appends exactly the pair combinations to `out` |
| Ranges.AddSuited | solver/core/Range.cpp:162-170 | `add_suited` appends exactly the suited combinations |
| Ranges.AddOffsuit | solver/core/Range.cpp:172-184 | `add_offsuit` appends exactly the offsuit combinations |
| Ranges.ComboCards | solver/core/Range.cpp:155-157 | each combination is a canonical hand of two deck cards with the given ranks and suits |
| Ranges.EqualsByParts | solver/core/Hand.h:80-82 | hand `==` compares both cards |
| Ranges.PairCombosShape | solver/core/Range.cpp:151-160 | every pair combination is a pair of the given rank with the weight, in loop order |
| Ranges.PairCombosSpec | solver/core/Range.cpp:151-160 | 6 distinct pairs of the rank with the weight, including every choice of two suits |
| Ranges.SuitedCombosSpec | solver/core/Range.cpp:162-170 | 4 distinct suited hands of the two ranks with the weight |
| Ranges.OffsuitCombosShape | solver/core/Range.cpp:172-184 | every offsuit combination is unsuited, of the two ranks, in loop order |
| Ranges.OffsuitCombosSpec | solver/core/Range.cpp:172-184 | 12 distinct unsuited hands of the two ranks, including every ordered choice of two different suits |
| Ranges.AddPairRange | solver/core/Range.cpp:186-195 | `add_pair_range` appends the pairs of every rank between the two ends, lowest first, whatever the order of the ends |
| Ranges.AddSuitedRange | solver/core/Range.cpp:197-208 | `add_suited_range` appends the suited hands of every second rank between the ends, skipping the first rank |
| Ranges.AddOffsuitRange | solver/core/Range.cpp:210-221 | `add_offsuit_range` appends the offsuit hands of every second rank between the ends, skipping the first rank |
| Ranges.NextRank | solver/core/Range.cpp:192 | `++rank` on the `uint8_t` counter adds one modulo 256 |
| Ranges.CounterAfterWraps | solver/core/Range.cpp:192 | after k increments the counter is start + k modulo 256 |
| Ranges.TopEndNeverExits | solver/core/Range.cpp:186-195 | with an upper end of 255 the guard holds for every counter value and the counter returns to its start after 256 steps, so the loop never ends |
| Ranges.PairRangeToTop | solver/core/Range.cpp:186-195 | the intended pair range up to 255 is defined, with 6 hands for each of the 256 - low ranks |
| Ranges.PairsUpToLength | solver/core/Range.cpp:192-194 | n ranks of pairs are 6n hands |
| Ranges.SuitedUpToLength | solver/core/Range.cpp:203-220 | n second ranks give 4 (or 12) hands for each of them that is not the first rank |
| Ranges.PairRangeLength | solver/core/Range.cpp:186-195 | a pair range has 6 hands per rank, and swapping its ends changes nothing |
| Ranges.SuitedRangeLength | solver/core/Range.cpp:197-221 | the sizes of suited and offsuit ranges, and swapping their ends changes nothing |
| Ranges.PairRangeQueensToTens | solver/core/Range.h:20 | "QQ-TT" covers queens, jacks and tens |
| Ranges.SuitedRangeAceKingToAceTen | solver/core/Range.h:21 | "AKs-ATs" covers AKs, AQs, AJs and ATs |
| Ranges.FindFrom | solver/core/Range.cpp:21-24 | `find` returns a position at or after the start, or the end |
| Ranges.FindFromSpec | solver/core/Range.cpp:21-24 | a found position holds the character, and none before it does |
| Ranges.ParseComponent | solver/core/Range.cpp:51-149 | `parse_component` appends the component's hands to `out`, or raises its error |
| Ranges.ParseRangeTerm | solver/core/Range.cpp:55-100 | the range branch appends the range's hands or raises its error |
| Ranges.ParseSingleTerm | solver/core/Range.cpp:102-148 | the single-hand branch appends the hand's combinations or raises its error |
| Ranges.FindFromAbsent | solver/core/Range.cpp:21-24 | with no such character, `find` gives npos, the end |
| Ranges.FindFromFirst | solver/core/Range.cpp:21-24 | `find` gives the first occurrence |
| Ranges.SingleTermIsSingle | solver/core/Range.cpp:55-57 | a component without '-' is a single hand |
| Ranges.NoSuffixIsBoth | solver/core/Range.h:19 | "AK" is "AKs" followed by "AKo": 16 hands |
| Ranges.UnknownSuffixIsNoSuffix | solver/core/Range.cpp:114-121 | a third character other than s, S, o or O is ignored |
| Ranges.PairIgnoresSuffix | solver/core/Range.cpp:123-127 | a pair ignores any suffix and yields its 6 combinations |
| Ranges.RankOrderIrrelevant | solver/core/Range.cpp:129-132 | "KA" means the same as "AK" |
| Ranges.OneCharacterTooShort | solver/core/Range.cpp:103-105 | a one-character component is "too short" |
| Ranges.SingleTermInvalidRank | solver/core/Range.cpp:107-112 | a bad rank character is "invalid ranks" |
| Ranges.RangeTermIsRange | solver/core/Range.cpp:56-60 | a '-' after the first character makes the component a range |
| Ranges.RangeEndTooShort | solver/core/Range.cpp:62-64 | an end shorter than 2 characters is "invalid range" |
| Ranges.RangeInvalidRank | solver/core/Range.cpp:66-74 | a bad rank in either end is "invalid range ranks" |
| Ranges.PairTermHands | solver/core/Range.cpp:76-80 | "XX-YY" reads as the pair range from X to Y |
| Ranges.PairRangeTerm | solver/core/Range.cpp:76-80 | "XX-YY" is the pair range between X and Y, in either order |
| Ranges.NonPairRangeTerm | solver/core/Range.cpp:82-97 | with one first rank, the suffix of the start decides suited, offsuit or both, over the second ranks between the ends |
| Ranges.RangeNeedsOneFirstRank | solver/core/Range.cpp:99 | ends with different first ranks, other than two pairs, are "invalid range format" |
| Ranges.SkipSpace | solver/core/Range.cpp:15-17 | skipping white space stops at a non-space character or the end |
| Ranges.TrimEnd | solver/core/Range.cpp:27-30 | trimming stays within the component |
| Ranges.ItemNext | solver/core/Range.cpp:47 | the loop always moves forward |
| Ranges.FromNotation | solver/core/Range.cpp:10-49 | the constructor succeeds exactly when the notation parses, and then holds its hands in order; otherwise it raises the first item's error |
| Ranges.SkipWhiteSpace | solver/core/Range.cpp:15-17 | the loop stops at the first position at or after the start that is not white space |
| Ranges.TrimWhiteSpace | solver/core/Range.cpp:27-30 | the loop stops after the last character of the item that is not white space |
| Ranges.ParseItem | solver/core/Range.cpp:35-44 | one item, with its optional ":weight", appends its hands or raises its error |
| Ranges.ReachProbs | solver/core/Range.cpp:241-251 | one probability per hand: 0 for a blocked hand, its weight otherwise |
| Ranges.Weights | solver/core/Range.cpp:247 | the weights of the hands, in order |
| Ranges.Range.constructor | solver/core/Range.h:27 | a default range is empty |
| Ranges.Range.Size | solver/core/Range.h:33 | `size` is the number of hands |
| Ranges.Range.Empty | solver/core/Range.h:36 | `empty` holds exactly when there are no hands |
| Ranges.Range.Add | solver/core/Range.h:53 | `add(hand)` appends the hand |
| Ranges.Range.AddCards | solver/core/Range.h:54-56 | `add(c1, c2, w)` appends the canonical hand of the two cards |
| Ranges.Range.Clear | solver/core/Range.h:72 | `clear` removes every hand |
| Ranges.Range.RemoveBlocked | solver/core/Range.cpp:223-228 | `remove_blocked` keeps, in order, exactly the hands that do not overlap the board |
| Ranges.Range.WithoutBlocked | solver/core/Range.cpp:230-239 | `without_blocked` returns a fresh range of those hands and leaves this one unchanged |
| Ranges.Range.GetInitialReachProbs | solver/core/Range.cpp:241-251 | the loop computes the reach probabilities |
| Ranges.UnblockedMembers | solver/core/Range.cpp:223-228 | a hand survives the filter exactly when it was there and is not blocked |
| Ranges.UnblockedAppend | solver/core/Range.cpp:230-239 | filtering distributes over concatenation |
| Ranges.UnblockedIdempotent | solver/core/Range.cpp:223-228 | filtering twice is filtering once, and never adds hands |
| Ranges.UnblockedByEmptyBoard | solver/core/Range.cpp:223-228 | an empty board blocks nothing |
| Ranges.ReachProbsOfUnblocked | solver/core/Range.cpp:230-251 | after removing blocked hands, the reach probabilities are just the weights |
| Ranges.ShapeAppend | solver/core/Range.cpp:151-221 | the generated hands stay weighted and made of deck cards under concatenation |
| Ranges.CombosShape | solver/core/Range.cpp:151-184 | every generated combination carries the weight and holds two distinct deck cards |
| Ranges.PairsUpToShape | solver/core/Range.cpp:186-221 | likewise for the pairs of every rank interval |
| Ranges.SuitedUpToShape | solver/core/Range.cpp:186-221 | likewise for the suited hands of every rank interval |
| Ranges.OffsuitUpToShape | solver/core/Range.cpp:186-221 | likewise for the offsuit hands of every rank interval |
| Ranges.IntervalShape | solver/core/Range.cpp:186-221 | likewise for pair, suited and offsuit ranges and their combination |
| Ranges.RangeTermShape | solver/core/Range.cpp:55-100 | every hand of a range term carries the component's weight and is made of deck cards |
| Ranges.SingleTermShape | solver/core/Range.cpp:102-148 | every hand of a single term carries the component's weight and is made of deck cards |
| Ranges.ComponentShape | solver/core/Range.cpp:51-149 | every hand of any component carries its weight and is made of deck cards |
| Ranges.ExtendAppend | solver/core/Range.cpp:44 | appending to `out` in two steps is appending once |
| Ranges.NotationAccumulates | solver/core/Range.cpp:13-48 | the loop's result is the hands found before it plus the rest |
| Ranges.SkipSpaceShift | solver/core/Range.cpp:15-17 | skipping white space depends only on the text from the position on |
| Ranges.FindFromShift | solver/core/Range.cpp:21 | likewise for `find` |
| Ranges.TrimEndShift | solver/core/Range.cpp:27-30 | likewise for trimming |
| Ranges.ItemShift | solver/core/Range.cpp:20-33 | likewise for reading an item |
| Ranges.NotationShift | solver/core/Range.cpp:13-48 | likewise for the whole loop |
| Ranges.SkipSpacePrefix | solver/core/Range.cpp:15-17 | skipping inside a prefix is not affected by what follows |
| Ranges.TrimEndPrefix | solver/core/Range.cpp:27-30 | trimming inside a prefix is not affected by what follows |
| Ranges.ItemWithoutComma | solver/core/Range.cpp:21-30 | the last item runs to the end of the text, trimmed |
| Ranges.ItemBeforeComma | solver/core/Range.cpp:21-30 | an item stops at the first comma |
| Ranges.NotationPrefix | solver/core/Range.cpp:13-48 | a notation "a,b" is read as a, then b |
| Ranges.NotationConcat | solver/core/Range.h:24 | "a,b" yields the hands of a followed by those of b, or a's error |
| Ranges.BlankNotation | solver/core/Range.cpp:13-18 | a notation of spaces and commas yields no hands |
| Ranges.SkipSpaceOver | solver/core/Range.cpp:15-17 | skipping passes exactly the white space |
| Ranges.TrimEndOver | solver/core/Range.cpp:27-30 | trimming removes exactly the trailing white space |
| Ranges.PaddedItem | solver/core/Range.cpp:13-33 | white space around a single item is ignored |
| Ranges.UnweightedItem | solver/core/Range.cpp:36-44 | without a colon the weight is 1 |
| Ranges.WeightedItem | solver/core/Range.cpp:37-42 | "X:w" gives X's hands with weight `stof(w)`, or the weight error |
| Ranges.CardHandsAppend | solver/core/Range.cpp:44 | hands made of deck cards stay so under concatenation |
| Ranges.ItemCardHands | solver/core/Range.cpp:35-44 | every hand an item yields is made of deck cards |
| Ranges.NotationCardHandsFrom | solver/core/Range.cpp:13-48 | the loop yields only hands made of deck cards |
| Ranges.NotationCardHands | solver/core/Range.cpp:10-49 | every hand of a parsed range is made of two distinct deck cards, in canonical order |
| Ranges.PlainItem | solver/core/Range.cpp:13-44 | a notation of one plain item is that component with weight 1 |
| Ranges.TwoRanksArePlain | solver/core/Range.cpp:13-44 | two ranks, with or without a suffix, form a plain item |
| Ranges.NoSuffixIsBothNotation | solver/core/Range.h:19 | the notation "AK" equals the notation "AKs,AKo" |
| Ranges.TwoPairItems | solver/core/Range.h:24 | "AA,KK" yields the aces' combinations followed by the kings' |
| Ranges.QueensToTensTerm | solver/core/Range.h:20 | the component "QQ-TT" yields tens, jacks, then queens |
| Ranges.AceKingToAceTenSuitedTerm | solver/core/Range.h:21 | the component "AKs-ATs" yields ATs, AJs, AQs, then AKs |
| HandEvaluation.HandRank.Value | game/HandEvaluation.h:10-21 | the categories are numbered 1 to 10 |
| HandEvaluation.RankOfValue | game/HandEvaluation.h:10-21 | a number names a category exactly when it is 1 to 10 |
| HandEvaluation.ValueIsInjective | game/HandEvaluation.h:10-21 | distinct categories have distinct numbers |
| HandEvaluation.Name | game/HandEvaluation.cpp:90-104 | `handRankToString` gives each category a non-empty name |
| HandEvaluation.NamesAreDistinct | game/HandEvaluation.cpp:90-104 | the names are distinct, and none is "Unknown" |
| HandEvaluation.CompareResult.Value | game/HandEvaluation.h:33-37 | the outcomes are 1, 0 and -1 |
| HandEvaluation.FirstDifference | game/HandEvaluation.cpp:12-16 | at the first differing tiebreaker, that tiebreaker decides `<` |
| HandEvaluation.NotLessAtGreater | game/HandEvaluation.cpp:12-16 | a larger first differing tiebreaker means not less |
| HandEvaluation.NoDifference | game/HandEvaluation.cpp:12-17 | when the common prefix agrees, neither result is less |
| HandEvaluation.IsLess | game/HandEvaluation.cpp:7-18 | the loop of `operator<` decides the category, then the first differing tiebreaker within the common prefix |
| HandEvaluation.Less | game/HandEvaluation.cpp:7-18 | `operator<`: a weaker category is always less, a stronger one never is, and no result is less than itself |
| HandEvaluation.Greater | game/HandEvaluation.cpp:20-22 | `operator>`: a greater result is not less, and its category is at least as strong |
| HandEvaluation.Equivalent | game/HandEvaluation.cpp:24-26 | `operator==`: equivalent results have the same category, and every result is equivalent to itself |
| HandEvaluation.LessIsStrictOrder | game/HandEvaluation.cpp:7-18 | `operator<` is irreflexive, asymmetric and transitive |
| HandEvaluation.TiebreakIrreflexive | game/HandEvaluation.cpp:12-17 | no tiebreaker list is less than itself |
| HandEvaluation.TiebreakAsymmetric | game/HandEvaluation.cpp:12-17 | the tiebreaker order is asymmetric |
| HandEvaluation.TiebreakTransitive | game/HandEvaluation.cpp:12-17 | the tiebreaker order is transitive |
| HandEvaluation.EquivalentIff | game/HandEvaluation.cpp:20-26 | `==` holds exactly for the same category with agreeing common prefixes, and `>` is `<` reversed |
| HandEvaluation.FirstDisagreement | game/HandEvaluation.cpp:12-13 | a disagreement has a first position |
| HandEvaluation.EquivalentIsNotTransitive | game/HandEvaluation.cpp:12-26 | `==` is not transitive: [9,2] == [9] == [9,3] although [9,2] < [9,3] |
| HandEvaluation.EquivalentAtSameLength | game/HandEvaluation.cpp:7-26 | for one category with equally many tiebreakers, `==` holds exactly when the results are equal |
| HandEvaluation.EquivalentOnEvaluations | game/HandEvaluation.cpp:7-26 | on results of `evaluate`, `==` is equality, and so transitive |
| HandEvaluation.RankCount | game/HandEvaluation.cpp:106-112 | the count of a rank is at most the number of cards |
| HandEvaluation.HasRankAppend | game/HandEvaluation.cpp:108-110 | a rank is present after one more card exactly when it was present before or the new card has it |
| HandEvaluation.RankCountPositive | game/HandEvaluation.cpp:106-112 | a rank has a positive count exactly when some card has it |
| HandEvaluation.RankFrequency | game/HandEvaluation.cpp:106-112 | `getRankFrequency` maps exactly the present ranks to their counts |
| HandEvaluation.SuitCards | game/HandEvaluation.cpp:114-120 | a suit's group is drawn from the cards |
| HandEvaluation.SuitCardsMembers | game/HandEvaluation.cpp:114-120 | a suit's group is exactly the cards of that suit |
| HandEvaluation.SuitCardsPartition | game/HandEvaluation.cpp:114-120 | the four groups together hold every card once |
| HandEvaluation.SuitGroups | game/HandEvaluation.cpp:114-120 | `getSuitGroups` has exactly the non-empty suits, each mapped to its cards in order |
| HandEvaluation.GroupsOfSpec | game/HandEvaluation.cpp:114-120 | the map built card by card holds exactly the non-empty suits, each with its cards in order |
| HandEvaluation.RanksOf | game/HandEvaluation.cpp:136 | one rank per card |
| HandEvaluation.RanksOfCounts | game/HandEvaluation.cpp:106-112 | the ranks list holds each rank as often as the cards do |
| HandEvaluation.Insert | game/HandEvaluation.cpp:122-127 | inserting adds one element |
| HandEvaluation.SortDesc | game/HandEvaluation.cpp:122-127 | sorting keeps the length |
| HandEvaluation.InsertMembers | game/HandEvaluation.cpp:122-127 | inserting adds exactly the element |
| HandEvaluation.InsertKeeps | game/HandEvaluation.cpp:122-127 | inserting into a descending list keeps it descending |
| HandEvaluation.SortDescSpec | game/HandEvaluation.cpp:122-127 | `sortByRankDescending` yields a descending permutation of the ranks |
| HandEvaluation.InsertSmallest | game/HandEvaluation.cpp:122-127 | an element no larger than all others goes last |
| HandEvaluation.SortDescOfDescending | game/HandEvaluation.cpp:122-127 | a descending list is sorted unchanged |
| HandEvaluation.SortDescending | game/HandEvaluation.cpp:122-127 | the sorting loop yields the descending permutation |
| HandEvaluation.Unexcluded | game/HandEvaluation.cpp:135-138 | filtering out excluded ranks does not lengthen the list |
| HandEvaluation.UnexcludedSpec | game/HandEvaluation.cpp:135-138 | the kept ranks are exactly the ones not excluded, still descending |
| HandEvaluation.UnexcludedLength | game/HandEvaluation.cpp:135-138 | excluding one rank removes exactly its occurrences |
| HandEvaluation.Take | game/HandEvaluation.cpp:140 | taking n keeps the first n, or all when fewer |
| HandEvaluation.KickersSpec | game/HandEvaluation.cpp:129-144 | `getKickers` gives at most `count` (at least 1) descending ranks of the cards, none excluded, and every other allowed rank is among them or no higher than the last |
| HandEvaluation.AvailableRanks | game/HandEvaluation.cpp:133-138 | the kicker candidates are the present, not excluded ranks, descending |
| HandEvaluation.PrefixOfDescending | game/HandEvaluation.cpp:135-141 | a prefix of a descending list is its largest elements |
| HandEvaluation.SortedRanksMembers | game/HandEvaluation.cpp:133 | the sorted ranks are descending and are exactly the present ranks |
| HandEvaluation.KickersLength | game/HandEvaluation.cpp:135-141 | with enough other cards, exactly `count` kickers come back |
| HandEvaluation.GetKickers | game/HandEvaluation.cpp:129-144 | the method computes the kickers |
| HandEvaluation.TakeUnexcluded | game/HandEvaluation.cpp:135-142 | the loop with its early `break` takes the first allowed ranks, stopping after `count` (at least 1) |
| HandEvaluation.UnexcludedAppend | game/HandEvaluation.cpp:135-138 | filtering distributes over concatenation |
| HandEvaluation.TakeFive | game/HandEvaluation.cpp:224-226 | the `i < 5 && i < size` loop takes the first five |
| HandEvaluation.HighestMatching | game/HandEvaluation.cpp:197-201 | the reverse walk over the frequency map finds a matching rank (or 0) |
| HandEvaluation.HighestMatchingIsHighest | game/HandEvaluation.cpp:197-201 | no higher rank matches |
| HandEvaluation.LowestMatching | game/HandEvaluation.cpp:181-182 | the forward walk finds a matching rank (or 0) |
| HandEvaluation.LowestMatchingIsLowest | game/HandEvaluation.cpp:181-182 | no lower rank matches |
| HandEvaluation.CheckFourOfAKind | game/HandEvaluation.cpp:178-188 | the method computes `checkFourOfAKind` |
| HandEvaluation.CheckFullHouse | game/HandEvaluation.cpp:190-215 | the method computes `checkFullHouse` |
| HandEvaluation.CheckThreeOfAKind | game/HandEvaluation.cpp:265-277 | the method computes `checkThreeOfAKind` |
| HandEvaluation.CheckTwoPair | game/HandEvaluation.cpp:279-297 | the method computes `checkTwoPair` |
| HandEvaluation.CollectPairs | game/HandEvaluation.cpp:282-287 | the loop collects the ranks held twice or more, highest first |
| HandEvaluation.CheckPair | game/HandEvaluation.cpp:299-311 | the method computes `checkPair` |
| HandEvaluation.GetHighCard | game/HandEvaluation.cpp:313-320 | the method computes `getHighCard` |
| HandEvaluation.CheckFlush | game/HandEvaluation.cpp:217-231 | the method computes `checkFlush` |
| HandEvaluation.RankPresence | game/HandEvaluation.cpp:234-237 | the `hasRank` table marks exactly the present ranks |
| HandEvaluation.StraightHigh | game/HandEvaluation.cpp:241-255 | the downward search finds the high card of a straight (or 0) |
| HandEvaluation.CheckStraight | game/HandEvaluation.cpp:233-263 | the method computes `checkStraight` |
| HandEvaluation.StraightEndsAt | game/HandEvaluation.cpp:242-251 | the inner loop decides whether the five ranks below `high` are present, with an ace standing for rank 1 |
| HandEvaluation.CheckRoyalFlush | game/HandEvaluation.cpp:146-162 | the method computes `checkRoyalFlush` |
| HandEvaluation.CheckStraightFlush | game/HandEvaluation.cpp:164-176 | the method computes `checkStraightFlush` |
| HandEvaluation.Pick | game/HandEvaluation.cpp:36-67 | the category picked, other than high card, found something, and every stronger check found nothing |
| HandEvaluation.PickFirst | game/HandEvaluation.cpp:36-67 | conversely, a category that found something while every stronger one found nothing is the one picked |
| HandEvaluation.PickOrder | game/HandEvaluation.cpp:36-67 | no category whose check found something is passed over for a weaker one |
| HandEvaluation.Category | game/HandEvaluation.cpp:37-67 | the chosen category, other than high card, has a non-empty check |
| HandEvaluation.EvaluateFirstFound | game/HandEvaluation.cpp:28-67 | with every stronger check empty and this one not, `evaluate` reports this category with this check's tiebreakers |
| HandEvaluation.EvaluateSpec | game/HandEvaluation.cpp:28-70 | fewer than 5 cards is an error; otherwise every category above high card carries tiebreakers |
| HandEvaluation.Evaluate | game/HandEvaluation.cpp:28-70 | the method computes `evaluate` |
| HandEvaluation.EvaluateWith | game/HandEvaluation.cpp:72-77 | the two-argument `evaluate` evaluates the hole cards followed by the community cards |
| HandEvaluation.CompareSpec | game/HandEvaluation.cpp:79-88 | `compare` fails exactly when either player has fewer than 5 cards |
| HandEvaluation.Compare | game/HandEvaluation.cpp:79-88 | the method computes `compare` |
| HandEvaluation.StraightHighIsHighest | game/HandEvaluation.cpp:241-255 | no higher straight exists than the one found |
| HandEvaluation.WheelIsStraightAtFive | game/HandEvaluation.cpp:246-258 | the wheel test is the straight test at 5 with the ace low |
| HandEvaluation.WheelCheckIsDead | game/HandEvaluation.cpp:257-260 | the separate wheel check never fires, because the loop already covers high = 5 |
| HandEvaluation.StraightMeaning | game/HandEvaluation.cpp:233-263 | `checkStraight` is empty exactly when there is no straight; otherwise it is [h], the highest straight's top card |
| HandEvaluation.WheelIsFiveHigh | game/HandEvaluation.cpp:246-259 | A-2-3-4-5 alone is a 5-high straight |
| HandEvaluation.RoyalIsStraightAtAce | game/HandEvaluation.cpp:150-158 | a royal flush in a suit is its ace-high straight |
| HandEvaluation.StraightFlushSuit | game/HandEvaluation.cpp:167-173 | the straight flush comes from the first suit with five cards and a straight |
| HandEvaluation.StraightFlushIsNotRoyal | game/HandEvaluation.cpp:37-42 | a royal flush is [14]; a straight flush is [h] with h at most 13, since an ace-high one is caught as royal |
| HandEvaluation.FullHouseMeaning | game/HandEvaluation.cpp:190-215 | a full house is found exactly when one rank is held thrice and another twice; it is the highest trips and the highest other pair |
| HandEvaluation.RankCountRange | game/HandEvaluation.cpp:106-112 | present ranks are 2 to 14 |
| HandEvaluation.KickersBeside | game/HandEvaluation.cpp:129-144 | with enough other cards, the kickers beside a rank are the n best others |
| HandEvaluation.FourOfAKindShape | game/HandEvaluation.cpp:178-188 | [r, k]: r is the lowest rank held four times, and k is the best other rank |
| HandEvaluation.ThreeOfAKindShape | game/HandEvaluation.cpp:265-277 | [r, k1, k2]: r is the highest rank held exactly three times, then the two best others |
| HandEvaluation.PairShape | game/HandEvaluation.cpp:299-311 | [r, k1, k2, k3]: r is the highest rank held exactly twice, then the three best others |
| HandEvaluation.PairRanksMembers | game/HandEvaluation.cpp:282-287 | the collected ranks are exactly those held twice or more |
| HandEvaluation.PairRanksDescending | game/HandEvaluation.cpp:283 | the collected ranks are strictly descending |
| HandEvaluation.AboveSecond | game/HandEvaluation.cpp:290-292 | only the first of a strictly descending list lies above its second |
| HandEvaluation.TwoMembers | game/HandEvaluation.cpp:289 | two distinct members make a list of at least two |
| HandEvaluation.TopTwoPairs | game/HandEvaluation.cpp:289-292 | the first two collected pairs are the two highest |
| HandEvaluation.TwoPairShape | game/HandEvaluation.cpp:279-297 | [hi, lo, k]: the two highest paired ranks, then the best other rank or 0; the sort does not change the order |
| HandEvaluation.FlushSuit | game/HandEvaluation.cpp:220-228 | the flush comes from the first suit with five or more cards |
| HandEvaluation.FlushShape | game/HandEvaluation.cpp:217-231 | a flush is the five highest ranks of one suit, descending |
| HandEvaluation.HighCardShape | game/HandEvaluation.cpp:313-320 | high card is the five highest ranks, descending |
| HandEvaluation.FourOfAKindPresence | game/HandEvaluation.cpp:178-188 | four of a kind is found exactly when some rank is held four times |
| HandEvaluation.ThreeOfAKindPresence | game/HandEvaluation.cpp:265-277 | three of a kind is found exactly when some rank is held exactly three times |
| HandEvaluation.PairPresence | game/HandEvaluation.cpp:299-311 | a pair is found exactly when some rank is held exactly twice |
| HandEvaluation.TwoPairPresence | game/HandEvaluation.cpp:279-297 | two pair is found exactly when two ranks are each held twice or more |
| HandEvaluation.FlushPresence | game/HandEvaluation.cpp:217-231 | a flush is found exactly when some suit has five cards |
| HandEvaluation.EvaluateOrder | game/HandEvaluation.cpp:36-67 | the category is at least as strong as every category whose check succeeds, and it is royal exactly when that check succeeds |
| HandEvaluation.EvaluateShapes | game/HandEvaluation.cpp:28-70 | each category's tiebreakers have the shape that category calls for |
| HandEvaluation.Flip | game/HandEvaluation.h:32-37 | swapping the hands negates the outcome's value |
| HandEvaluation.Outcome | game/HandEvaluation.cpp:85-87 | HAND1_WINS exactly when the first result is greater, HAND2_WINS exactly when it is less, TIE exactly when they are `==` |
| HandEvaluation.OutcomeFlips | game/HandEvaluation.cpp:85-87 | swapping the two results flips the outcome |
| HandEvaluation.CompareSwap | game/HandEvaluation.cpp:79-88 | swapping the two players flips the result of `compare` |
| HandEvaluation.HasRankRange | game/HandEvaluation.cpp:108-110 | a present rank is 2 to 14 |
| HandEvaluation.StraightFlushShape | game/HandEvaluation.cpp:164-176 | a straight flush is one tiebreaker between 5 and 14 |
| HandEvaluation.CheckTiebreakers | game/HandEvaluation.cpp:146-320 | every check gives its category's number of tiebreakers, each at most 14 |
| HandEvaluation.FourOfAKindTiebreakers | game/HandEvaluation.cpp:178-188 | four of a kind has 2 tiebreakers, each at most 14 |
| HandEvaluation.FullHouseTiebreakers | game/HandEvaluation.cpp:190-215 | a full house has 2 tiebreakers, each at most 14 |
| HandEvaluation.ThreeOfAKindTiebreakers | game/HandEvaluation.cpp:265-277 | three of a kind has 3 tiebreakers, each at most 14 |
| HandEvaluation.TwoPairTiebreakers | game/HandEvaluation.cpp:279-297 | two pair has 3 tiebreakers, each at most 14 |
| HandEvaluation.PairTiebreakers | game/HandEvaluation.cpp:299-311 | a pair has 4 tiebreakers, each at most 14 |
| HandEvaluation.FlushTiebreakers | game/HandEvaluation.cpp:217-231 | a flush has 5 tiebreakers, each at most 14 |
| HandEvaluation.HighCardTiebreakers | game/HandEvaluation.cpp:313-320 | high card has 5 tiebreakers, each at most 14 |
| HandEvaluation.EvaluateTiebreakers | game/HandEvaluation.cpp:28-70 | every evaluation has at most 5 tiebreakers, each fitting in 4 bits |
| HandRanking.Pow2 | solver/core/HandRanking.cpp:43-48 | shifts are multiplications by powers of two |
| HandRanking.Pow2Add | solver/core/HandRanking.cpp:43-48 | shifting by m + n is shifting by m, then by n |
| HandRanking.Pow2Nibble | solver/core/HandRanking.cpp:47 | shift amounts are 4 apart |
| HandRanking.OrDisjoint | solver/core/HandRanking.cpp:43-48 | the bitwise-or of a multiple of 2^n and a number below 2^n is their sum |
| HandRanking.Nibble | solver/core/HandRanking.cpp:48 | `& 0xF` keeps a value below 16 and leaves a value below 16 unchanged |
| HandRanking.Unit | solver/core/HandRanking.cpp:47 | each tiebreaker slot is a positive place value |
| HandRanking.UnitIsPow2 | solver/core/HandRanking.cpp:47 | slot i has place value 2^(16 - 4i), counting the category slot as 2^20 |
| HandRanking.PackedBound | solver/core/HandRanking.cpp:45-49 | the packed tiebreakers stay below 2^20, leaving room for the rest |
| HandRanking.PackedMultiple | solver/core/HandRanking.cpp:45-49 | after i slots the packed value is a multiple of the next slot's place value |
| HandRanking.Kept | solver/core/HandRanking.cpp:46 | at most 5 tiebreakers are packed |
| HandRanking.EncodeSpec | solver/core/HandRanking.cpp:37-52 | an encoding lies in [2^20, 11 * 2^20), so it fits in an `int32` |
| HandRanking.CategoryMultiple | solver/core/HandRanking.cpp:43 | the category field is a multiple of every slot's place value |
| HandRanking.EncodeStep | solver/core/HandRanking.cpp:46-49 | each or-assignment step adds the next nibble in its own slot |
| HandRanking.Encode | solver/core/HandRanking.cpp:37-52 | the loop computes the encoding |
| HandRanking.DecodeHandType | solver/core/HandRanking.h:35-37 | the decoded field is a 4-bit value |
| HandRanking.DecodeEncode | solver/core/HandRanking.h:15-37 | `decode_hand_type(encode(r))` is r's category |
| HandRanking.EncodeCategoryOrder | solver/core/HandRanking.h:12-16 | a stronger category always encodes higher |
| HandRanking.PairBeatsHighCardFlushBeatsStraight | solver/core/HandRanking.h:12-16 | a pair outranks high card, and a flush outranks a straight |
| HandRanking.PackedAgree | solver/core/HandRanking.cpp:45-49 | lists that agree on the first n tiebreakers pack alike |
| HandRanking.PackedLess | solver/core/HandRanking.cpp:45-49 | a smaller first differing tiebreaker packs smaller by at least one slot |
| HandRanking.EncodeTiebreakOrder | solver/core/HandRanking.h:12-16 | within a category, encodings order the tiebreakers as `operator<` does, and are equal exactly for equal tiebreakers |
| HandRanking.EncodeOrderAgrees | solver/core/HandRanking.h:12-20 | for evaluated hands, a smaller encoding is exactly a smaller result and an equal one exactly an `==` result |
| HandRanking.Compare | solver/core/HandRanking.h:28-32 | `compare` gives 1, 0 or -1 |
| HandRanking.CompareIsSign | solver/core/HandRanking.h:27-32 | `compare` is positive exactly when the first ranking is higher, zero exactly when they are equal, antisymmetric and transitive |
| HandRanking.ToGameCards | solver/core/HandRanking.cpp:13-15 | every index becomes one game card |
| HandRanking.RankingSpec | solver/core/HandRanking.cpp:21-35 | evaluation fails exactly when the board has fewer than 3 cards |
| HandRanking.GameCards | solver/core/HandRanking.cpp:23-31 | the loop converts the hole cards, then the board cards |
| HandRanking.EvaluateSpan | solver/core/HandRanking.cpp:21-35 | the span overload computes the ranking |
| HandRanking.EvaluateBoard | solver/core/HandRanking.cpp:5-19 | the board overload computes the ranking of the board's cards |
| HandRanking.CompareAgreesWithEvaluator | solver/core/HandRanking.h:27-32 | comparing two players' rankings on a board gives the game's `compare` for their hole cards |

## Left out

- CardSets.CardSet.Add: `add`, `remove` and `clear` change the set in place in C++. Here they return the new set, because `CardSet` is a 64-bit value type that is always copied, so no alias can observe the difference.
- CardSets.CardSet.Remove: returns the new set instead of changing it in place, for the same reason.
- CardSets.CardSet.Clear: returns the empty set instead of changing it in place, for the same reason.
- CardSets.CardSet.Contains: the 64-bit mask is a sequence of 64 booleans rather than a `uint64_t`, with `|`, `&` and population count defined bit by bit. `Contains`, `Add`, `Remove`, `OverlapsCard`, `Single` and `Pair` require a card value below 64, since `1ULL << value` is undefined at 64 and above.
- Boards.Board.Add: requires a card value below 64 for the same reason. The board's `operator[]`, `cards()`, `card_set()` and `size()` accessors read fields that the model exposes directly.
- CardAdapter.ToCard: requires a deck index (0..51), so indices 52..255 of `to_card` are inputs the model drops. The C++ cast is defined for them, because `Rank` has the fixed underlying type `uint8_t`, and gives a card of rank 15 or more. The model's game `Card` holds only ranks 2..14, and the evaluator's 15-entry `hasRank` table would be indexed out of range by such a card.
- CardAdapter.ToString: requires an index below 56, so indices 56..255 of `to_string` are inputs the model drops. For them `rank_char` reads past its array. Indices 52..55 are modelled: rank 13 reads the array's terminating '\0'.
- Boards.Board.ToString: requires every card below 56, so a board holding an index from 56 to 63 is an input the model drops, because `rank_char` would read past its array.
- Boards.Render: requires every index below 56, for the same reason.
- Hands.Hand.ToString: requires both indices below 56, so indices 56..255 are inputs the model drops, for the same reason.
- CardAdapter.RankChar: requires a rank of at most 13, and `SuitChar` a suit of at most 4. Those are the reads within the arrays, terminators included.
- Ranges.AddPairRange: requires both ends below 255, because with an end of 255 the source's loop never ends (see Findings). The parser only passes ranks below 13. `AddSuitedRange` and `AddOffsuitRange` have the same requirement.
- Ranges.FromNotation: `std::stof` is a parameter `parseWeight`. Its failures (`invalid_argument`, `out_of_range`) are one `InvalidWeight` error.
- Weights are real numbers. Single-precision rounding of `float` weights is not modelled.
- `Range::to_string` is left out, because it prints floats through an output stream.
- `Range::reserve`, `hands()`, `operator[]`, `begin()` and `end()` are plain accessors of the `hands` field.
- The `std::hash` specialisations for `Board`, `CardIndex` and `PlayerId` only forward to `hash()` or the stored byte, so they are not modelled.
- `HandIndex` and `ActionIndex` in `solver/core/Types.h` are unused wrappers of one integer, so they are not modelled.
- `Card::getRank`, `getSuit` and `getRankValue` read the card's fields, which the datatype exposes directly.
- Cards.FromString: C++ leaves unspecified whether the rank or the suit parser runs first. When both characters are bad, the model reports the rank error.
- `sortByRankDescending` sorts cards with the unstable `std::sort`. The model sorts their ranks, which is all any caller reads, so ties between cards of one rank do not matter.
- `HandEvaluator::evaluate` and the `HandRanking::evaluate` overloads assume cards without repeats. The model evaluates any sequence, repeats included, as the code does.
- Files of the repository other than the twelve sources cited above are not part of this model.

## Findings

| source | as written | input that shows it | evidently intended | confidence | as-written member | corrected member |
|---|---|---|---|---|---|---|
| solver/core/Board.h:66-106 | `add` accepts a card already on the board. `operator==` compares the size and the card mask, while `hash()` xors one term per slot | the boards [a, a, b] and [a, b, b] for an even card a and an odd card b, such as 2c and 2d: both have size 3 and the card set {a, b}, so they are `==`, yet their hashes differ in bit 0 | `==` boards hash alike, which holds for boards without repeated cards | high; not executed | Boards.EqualBoardsMayHashApart | Boards.EqualDistinctBoardsHashEqually |
| game/HandEvaluation.cpp:7-26 | `operator==` is "neither is less", and `operator<` only compares the common prefix of the tiebreakers | [9,2] == [9] and [9] == [9,3], although [9,2] < [9,3] (all High Card) | `==` is an equivalence; it is one on results of `evaluate`, whose categories have fixed tiebreaker counts | high; not executed | HandEvaluation.EquivalentIsNotTransitive | HandEvaluation.EquivalentOnEvaluations |
| game/HandEvaluation.cpp:241-260 | after the scan from 14 down to 5, a separate test returns [5] for A-2-3-4-5 | the wheel As 2c 3d 4h 5s: the scan already returns [5] at high = 5, where it reads rank 1 as the ace, so the later test never decides anything | the wheel is the five-high straight, which the scan alone gives | high; not executed | HandEvaluation.WheelCheckIsDead | HandEvaluation.StraightMeaning |
| solver/core/Range.cpp:186-221 | the `_range` loops count with a `uint8_t` and test `rank <= high` | a high end of 255: every byte passes the guard and 255 + 1 wraps to 0, so the loop never ends. The notation parser cannot reach this, as it passes ranks below 13 | every rank from the low end to the high end, once each | high; not executed | Ranges.TopEndNeverExits | Ranges.PairRangeToTop |
