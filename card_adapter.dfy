/**
 * Conversion between the game's cards (rank 2-14, suit 0-3) and the
 * solver's dense indices (`rank*4 + suit` with rank 0-12), and the
 * solver's own two-character card text.
 */
module CardAdapter {
  import opened Wrappers
  import opened Types
  import Cards

  /** `to_index`: the game rank shifted down by two, with the same suit. */
  function ToIndex(card: Cards.Card): (i: CardIndex)
    ensures i.IsCard()
    ensures i.Rank() == card.rank - 2 && i.Suit() == card.suit
  {
    FromRankSuit(ToByte(card.rank - 2), card.suit)
  }

  /**
   * `to_card`: the index rank shifted up by two. Only the 52 card indices
   * name a game card.
   */
  function ToCard(index: CardIndex): (c: Cards.Card)
    requires index.IsCard()
    ensures c.rank == index.Rank() + 2 && c.suit == index.Suit()
  {
    Cards.Card(index.Rank() + 2, index.Suit())
  }

  /**
   * `rank_char`: a lookup in "23456789TJQKA". The C++ array also holds the
   * terminating '\0', so rank 13 reads that character; higher ranks read
   * past the array and are not part of this model.
   */
  function RankChar(rank: Byte): (c: char)
    requires rank <= NumRanks
    ensures rank < NumRanks ==> c == Cards.RankChar(rank + 2)
    ensures rank == NumRanks ==> c == '\0' && !Cards.IsRankChar(c)
  {
    if rank == NumRanks then '\0' else Cards.RankChars[rank]
  }

  /** `suit_char`: a lookup in "cdhs"; suit 4 reads the terminating '\0'. */
  function SuitChar(suit: Byte): (c: char)
    requires suit <= NumSuits
    ensures suit < NumSuits ==> c == Cards.SuitChar(suit)
    ensures suit == NumSuits ==> c == '\0' && !Cards.IsSuitChar(c)
  {
    if suit == NumSuits then '\0' else Cards.SuitChars[suit]
  }

  /** The value the two parsers return for a character they do not know. */
  const Invalid: Byte := 255

  /** `parse_rank`: 0-12 for a known rank character, 255 otherwise. */
  function ParseRank(ch: char): (r: Byte)
    ensures r == Invalid || r < NumRanks
  {
    match ch
    case '2' => RankTwo
    case '3' => RankThree
    case '4' => RankFour
    case '5' => RankFive
    case '6' => RankSix
    case '7' => RankSeven
    case '8' => RankEight
    case '9' => RankNine
    case 'T' => RankTen
    case 't' => RankTen
    case 'J' => RankJack
    case 'j' => RankJack
    case 'Q' => RankQueen
    case 'q' => RankQueen
    case 'K' => RankKing
    case 'k' => RankKing
    case 'A' => RankAce
    case 'a' => RankAce
    case _ => Invalid
  }

  /** `parse_suit`: 0-3 for a known suit character, 255 otherwise. */
  function ParseSuit(ch: char): (s: Byte)
    ensures s == Invalid || s < NumSuits
  {
    match ch
    case 'c' => SuitClubs
    case 'C' => SuitClubs
    case 'd' => SuitDiamonds
    case 'D' => SuitDiamonds
    case 'h' => SuitHearts
    case 'H' => SuitHearts
    case 's' => SuitSpades
    case 'S' => SuitSpades
    case _ => Invalid
  }

  /**
   * `parse_rank` accepts exactly the characters the game's parser accepts,
   * gives the game's rank less two, and reads back as the upper-case form.
   */
  lemma ParseRankSpec(ch: char)
    ensures ParseRank(ch) == Invalid <==> !Cards.IsRankChar(ch)
    ensures ParseRank(ch) != Invalid ==> RankChar(ParseRank(ch)) == Cards.UpperRankChar(ch)
    ensures ParseRank(ch) != Invalid ==> Cards.ParseRank(ch) == Some(ParseRank(ch) + 2)
  {
  }

  /** `parse_suit` likewise, reading back as the lower-case form. */
  lemma ParseSuitSpec(ch: char)
    ensures ParseSuit(ch) == Invalid <==> !Cards.IsSuitChar(ch)
    ensures ParseSuit(ch) != Invalid ==> SuitChar(ParseSuit(ch)) == Cards.LowerSuitChar(ch)
    ensures ParseSuit(ch) != Invalid ==> Cards.ParseSuit(ch) == Some(ParseSuit(ch))
  {
  }

  datatype ParseError = TooShort | InvalidCard(text: string)

  /**
   * `from_string`: reads the first two characters and ignores any that
   * follow; a string shorter than two characters, or one whose rank or
   * suit character is unknown, is an error.
   */
  function FromString(s: string): (r: Result<CardIndex, ParseError>)
    ensures |s| < 2 ==> r == Err(TooShort)
    ensures r.Ok? <==> |s| >= 2 && Cards.IsRankChar(s[0]) && Cards.IsSuitChar(s[1])
    ensures r.Err? && |s| >= 2 ==> r == Err(InvalidCard(s))
    ensures r.Ok? ==> r.value.IsCard() && ToString(r.value) == [Cards.UpperRankChar(s[0]), Cards.LowerSuitChar(s[1])]
  {
    if |s| < 2 then Err(TooShort)
    else
      ParseRankSpec(s[0]);
      ParseSuitSpec(s[1]);
      var rank := ParseRank(s[0]);
      var suit := ParseSuit(s[1]);
      if rank == Invalid || suit == Invalid then Err(InvalidCard(s))
      else Ok(FromRankSuit(rank, suit))
  }

  /**
   * `to_string`: the rank character, then the suit character. The text of a
   * card index is the game's text of the card it names; the four indices
   * 52-55 have rank 13 and print as '\0' followed by a suit character.
   */
  function ToString(index: CardIndex): (s: string)
    requires index.value < 56
    ensures |s| == 2
    ensures index.IsCard() ==> s == Cards.ToString(ToCard(index))
    ensures !index.IsCard() ==> s[0] == '\0' && s[1] == Cards.SuitChar(index.Suit())
  {
    [RankChar(index.Rank()), SuitChar(index.Suit())]
  }

  /** The text of the four indices past the deck is rejected by `from_string`. */
  lemma NonCardTextRejected(index: CardIndex)
    requires NumCards <= index.value < 56
    ensures FromString(ToString(index)) == Err(InvalidCard(ToString(index)))
  {
    ParseRankSpec('\0');
  }

  /** The two conversions between game cards and indices are inverse bijections. */
  lemma IndexCardRoundTrips(card: Cards.Card, index: CardIndex)
    ensures ToCard(ToIndex(card)) == card
    ensures index.IsCard() ==> ToIndex(ToCard(index)) == index
  {
    if index.IsCard() {
      FromRankSuitOfParts(index);
    }
  }

  /** Parsing a printed rank or suit character gives it back. */
  lemma ParseRankChar(rank: Byte)
    requires rank < NumRanks
    ensures ParseRank(RankChar(rank)) == rank
  {
    assert Cards.RankChars == "23456789TJQKA";
  }

  lemma ParseSuitChar(suit: Byte)
    requires suit < NumSuits
    ensures ParseSuit(SuitChar(suit)) == suit
  {
    assert Cards.SuitChars == "cdhs";
  }

  /** Every card index survives the text round trip. */
  lemma FromStringToString(index: CardIndex)
    requires index.IsCard()
    ensures FromString(ToString(index)) == Ok(index)
  {
    ParseRankChar(index.Rank());
    ParseSuitChar(index.Suit());
    FromRankSuitOfParts(index);
  }

  /**
   * The solver's parser agrees with the game's on every accepted text: it
   * reads the same card as the game parser does from the first two
   * characters.
   */
  lemma FromStringAgreesWithGame(s: string)
    requires |s| >= 2
    ensures FromString(s).Ok? <==> Cards.FromString(s[..2]).Ok?
    ensures FromString(s).Ok? ==> FromString(s).value == ToIndex(Cards.FromString(s[..2]).value)
  {
    ParseRankSpec(s[0]);
    ParseSuitSpec(s[1]);
    assert s[..2] == [s[0], s[1]];
  }

  /** Characters after the first two make no difference to a successful parse. */
  lemma FromStringIgnoresTail(s: string, tail: string)
    requires |s| == 2
    ensures FromString(s + tail).Ok? == FromString(s).Ok?
    ensures FromString(s).Ok? ==> FromString(s + tail) == FromString(s)
  {
    assert (s + tail)[0] == s[0] && (s + tail)[1] == s[1];
  }
}
