/**
 * The solver's strong types: a dense card index `rank*4 + suit` held in a
 * byte, and a player id. All byte arithmetic wraps modulo 256 as the C++
 * `uint8_t` casts do.
 */
module Types {

  type Byte = x: int | 0 <= x < 256

  /** The C++ cast of an int to `uint8_t`: reduction modulo 256. */
  function ToByte(x: int): (b: Byte)
    ensures 0 <= x < 256 ==> b == x
    ensures (b - x) % 256 == 0
  {
    x % 256
  }

  const NumCards: nat := 52
  const NumRanks: nat := 13
  const NumSuits: nat := 4

  /** Rank constants: TWO = 0 up to ACE = 12. */
  const RankTwo: Byte := 0
  const RankThree: Byte := 1
  const RankFour: Byte := 2
  const RankFive: Byte := 3
  const RankSix: Byte := 4
  const RankSeven: Byte := 5
  const RankEight: Byte := 6
  const RankNine: Byte := 7
  const RankTen: Byte := 8
  const RankJack: Byte := 9
  const RankQueen: Byte := 10
  const RankKing: Byte := 11
  const RankAce: Byte := 12

  /** Suit constants: CLUBS = 0 up to SPADES = 3. */
  const SuitClubs: Byte := 0
  const SuitDiamonds: Byte := 1
  const SuitHearts: Byte := 2
  const SuitSpades: Byte := 3

  /** A card index. The default-constructed index has value 0. */
  datatype CardIndex = CardIndex(value: Byte) {
    function Rank(): (r: Byte)
      ensures r < 64 && (value < NumCards ==> r < NumRanks)
      ensures value == r * 4 + Suit()
    {
      value / 4
    }

    function Suit(): (s: Byte)
      ensures s < NumSuits
    {
      value % 4
    }

    /** The index denotes one of the 52 cards. */
    predicate IsCard() {
      value < NumCards
    }
  }

  /** `from_rank_suit`: `rank*4 + suit`, truncated to a byte. */
  function FromRankSuit(rank: Byte, suit: Byte): (c: CardIndex)
    ensures rank < NumRanks && suit < NumSuits ==>
      c.value == rank * 4 + suit && c.IsCard() && c.Rank() == rank && c.Suit() == suit
  {
    CardIndex(ToByte(rank * 4 + suit))
  }

  /** Every index is rebuilt from its own rank and suit. */
  lemma FromRankSuitOfParts(c: CardIndex)
    ensures FromRankSuit(c.Rank(), c.Suit()) == c
  {
  }

  /** The defaulted `operator<=>` of CardIndex: comparison of `value`. */
  predicate IndexLess(a: CardIndex, b: CardIndex)
    ensures IndexLess(a, b) <==> a.Rank() < b.Rank() || (a.Rank() == b.Rank() && a.Suit() < b.Suit())
  {
    a.value < b.value
  }

  lemma IndexLessIsStrictTotalOrder(a: CardIndex, b: CardIndex, c: CardIndex)
    ensures !IndexLess(a, a)
    ensures IndexLess(a, b) && IndexLess(b, c) ==> IndexLess(a, c)
    ensures a == b <==> !IndexLess(a, b) && !IndexLess(b, a)
  {
  }

  /** A player id; 1 is out of position, 2 is in position. The default id is 1. */
  datatype PlayerId = PlayerId(id: Byte) {
    /** `is_valid`: one of the two seats. */
    predicate IsValid()
      ensures IsValid() <==> this == OOP || this == IP
    {
      id == 1 || id == 2
    }

    /** `3 - id`, cast back to a byte. */
    function Opponent(): (p: PlayerId)
      ensures IsValid() ==> p.IsValid() && p != this
    {
      PlayerId(ToByte(3 - id))
    }
  }

  /** `opponent` is an involution on valid ids. */
  lemma OpponentInvolution(p: PlayerId)
    requires p.IsValid()
    ensures p.Opponent().Opponent() == p
  {
  }

  const OOP: PlayerId := PlayerId(1)
  const IP: PlayerId := PlayerId(2)

  /** The two positions are swapped by `opponent`. */
  lemma OpponentSwapsPositions()
    ensures OOP.Opponent() == IP && IP.Opponent() == OOP
    ensures OOP.id == 1 && IP.id == 2
  {
  }

  /** On every byte, `opponent` wraps like `uint8_t`: an id of 4 has opponent 255. */
  lemma OpponentWraps()
    ensures PlayerId(4).Opponent() == PlayerId(255) && !PlayerId(4).Opponent().IsValid()
  {
  }
}
