/**
 * The display-side card model: a rank 2..14 (Ace = 14) and a suit 0..3,
 * with the two-character text form "As", "Kh", "2c".
 */
module Cards {
  import opened Wrappers

  /** Rank values run TWO = 2 up to ACE = 14, increasing with strength. */
  type Rank = r: int | 2 <= r <= 14 witness 2
  /** Suit values CLUBS = 0, DIAMONDS = 1, HEARTS = 2, SPADES = 3. */
  type Suit = s: int | 0 <= s <= 3

  const Two: Rank := 2
  const Three: Rank := 3
  const Four: Rank := 4
  const Five: Rank := 5
  const Six: Rank := 6
  const Seven: Rank := 7
  const Eight: Rank := 8
  const Nine: Rank := 9
  const Ten: Rank := 10
  const Jack: Rank := 11
  const Queen: Rank := 12
  const King: Rank := 13
  const Ace: Rank := 14

  const Clubs: Suit := 0
  const Diamonds: Suit := 1
  const Hearts: Suit := 2
  const Spades: Suit := 3

  /** The rank characters in rank order, and the suit characters in suit order. */
  const RankChars: string := "23456789TJQKA"
  const SuitChars: string := "cdhs"

  /** `getRankValue` is the rank itself: the enum's numeric value. */
  datatype Card = Card(rank: Rank, suit: Suit)

  /** A default-constructed card is the two of clubs. */
  const DefaultCard: Card := Card(Two, Clubs)

  datatype CardError = WrongLength | InvalidRank(c: char) | InvalidSuit(c: char)

  function RankChar(r: Rank): (c: char)
    ensures c == RankChars[r - 2]
  {
    if r == Two then '2'
    else if r == Three then '3'
    else if r == Four then '4'
    else if r == Five then '5'
    else if r == Six then '6'
    else if r == Seven then '7'
    else if r == Eight then '8'
    else if r == Nine then '9'
    else if r == Ten then 'T'
    else if r == Jack then 'J'
    else if r == Queen then 'Q'
    else if r == King then 'K'
    else 'A'
  }

  function SuitChar(s: Suit): (c: char)
    ensures c == SuitChars[s]
  {
    if s == Clubs then 'c'
    else if s == Diamonds then 'd'
    else if s == Hearts then 'h'
    else 's'
  }

  /** The card as two characters: rank character, then suit character. */
  function ToString(c: Card): (s: string)
    ensures |s| == 2 && s[0] in RankChars && s[1] in SuitChars
    ensures s[0] == RankChars[c.rank - 2] && s[1] == SuitChars[c.suit]
  {
    [RankChar(c.rank), SuitChar(c.suit)]
  }

  /** The characters `parseRank` accepts: digits 2-9 and T, J, Q, K, A in either case. */
  predicate IsRankChar(ch: char) {
    ch in "23456789TJQKAtjqka"
  }

  predicate IsSuitChar(ch: char) {
    ch in "cdhsCDHS"
  }

  /** The upper-case form of a rank letter; digits are left alone. */
  function UpperRankChar(ch: char): char {
    if 'a' <= ch <= 'z' then (ch as int - 32) as char else ch
  }

  function LowerSuitChar(ch: char): char {
    if 'A' <= ch <= 'Z' then (ch as int + 32) as char else ch
  }

  function ParseRank(ch: char): (r: Option<Rank>)
    ensures r.Some? <==> IsRankChar(ch)
    ensures r.Some? ==> RankChar(r.value) == UpperRankChar(ch)
  {
    match ch
    case '2' => Some(Two)
    case '3' => Some(Three)
    case '4' => Some(Four)
    case '5' => Some(Five)
    case '6' => Some(Six)
    case '7' => Some(Seven)
    case '8' => Some(Eight)
    case '9' => Some(Nine)
    case 'T' => Some(Ten)
    case 't' => Some(Ten)
    case 'J' => Some(Jack)
    case 'j' => Some(Jack)
    case 'Q' => Some(Queen)
    case 'q' => Some(Queen)
    case 'K' => Some(King)
    case 'k' => Some(King)
    case 'A' => Some(Ace)
    case 'a' => Some(Ace)
    case _ => None
  }

  function ParseSuit(ch: char): (s: Option<Suit>)
    ensures s.Some? <==> IsSuitChar(ch)
    ensures s.Some? ==> SuitChar(s.value) == LowerSuitChar(ch)
  {
    match ch
    case 'c' => Some(Clubs)
    case 'C' => Some(Clubs)
    case 'd' => Some(Diamonds)
    case 'D' => Some(Diamonds)
    case 'h' => Some(Hearts)
    case 'H' => Some(Hearts)
    case 's' => Some(Spades)
    case 'S' => Some(Spades)
    case _ => None
  }

  /**
   * Parses exactly two characters. C++ leaves the order in which the two
   * character parsers run unspecified; this model reports the rank first.
   */
  function FromString(s: string): (r: Result<Card, CardError>)
    ensures |s| != 2 ==> r == Err(WrongLength)
    ensures r.Ok? <==> |s| == 2 && IsRankChar(s[0]) && IsSuitChar(s[1])
    ensures r.Ok? ==> ToString(r.value) == [UpperRankChar(s[0]), LowerSuitChar(s[1])]
  {
    if |s| != 2 then Err(WrongLength)
    else match ParseRank(s[0])
      case None => Err(InvalidRank(s[0]))
      case Some(rank) =>
        match ParseSuit(s[1])
        case None => Err(InvalidSuit(s[1]))
        case Some(suit) => Ok(Card(rank, suit))
  }

  /**
   * `operator<`: by rank, then by suit. This is the order of the dense
   * position `rank * 4 + suit`.
   */
  predicate Less(a: Card, b: Card)
    ensures Less(a, b) <==> a.rank * 4 + a.suit < b.rank * 4 + b.suit
  {
    if a.rank != b.rank then a.rank < b.rank else a.suit < b.suit
  }

  /** Every card survives the text round trip. */
  lemma FromStringToString(c: Card)
    ensures FromString(ToString(c)) == Ok(c)
  {
  }

  /** `operator<` is a strict total order, and `==` holds exactly when neither card is less. */
  lemma LessIsStrictTotalOrder(a: Card, b: Card, c: Card)
    ensures !Less(a, a)
    ensures Less(a, b) ==> !Less(b, a)
    ensures Less(a, b) && Less(b, c) ==> Less(a, c)
    ensures a == b <==> !Less(a, b) && !Less(b, a)
  {
  }
}
