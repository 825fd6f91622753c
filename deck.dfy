/** The 52-card deck in suit-major, rank-ascending order. */
module Deck {
  import opened Cards

  const Size: nat := 52

  /** The card the deck enumeration puts at position `i`. */
  function CardAt(i: nat): (c: Card)
    requires i < Size
    ensures c.suit * 13 + (c.rank - 2) == i
  {
    Card(i % 13 + 2, i / 13)
  }

  function AllCards(): (deck: seq<Card>)
    ensures |deck| == Size
  {
    seq(Size, i requires 0 <= i < Size => CardAt(i))
  }

  /** Position `s*13 + (r-2)` holds the card of rank `r` and suit `s`. */
  lemma AllCardsPosition(r: Rank, s: Suit)
    ensures s * 13 + (r - 2) < Size && AllCards()[s * 13 + (r - 2)] == Card(r, s)
  {
    var i := s * 13 + (r - 2);
    assert i / 13 == s && i % 13 == r - 2;
  }

  /** The 52 cards are pairwise distinct. */
  lemma AllCardsDistinct(i: nat, j: nat)
    requires i < Size && j < Size && i != j
    ensures AllCards()[i] != AllCards()[j]
  {
    var a, b := AllCards()[i], AllCards()[j];
    assert a.suit * 13 + (a.rank - 2) == i;
    assert b.suit * 13 + (b.rank - 2) == j;
  }

  /** Every rank/suit combination appears in the deck. */
  lemma AllCardsComplete(c: Card)
    ensures c in AllCards()
  {
    AllCardsPosition(c.rank, c.suit);
  }

  /** `getAllCards`: fills a 52-slot array through a running index. */
  method GetAllCards() returns (cards: array<Card>)
    ensures fresh(cards)
    ensures cards[..] == AllCards()
  {
    cards := new Card[Size](_ => DefaultCard);
    var idx := 0;
    for s := 0 to 4
      invariant idx == s * 13
      invariant forall k :: 0 <= k < idx ==> cards[k] == CardAt(k)
    {
      for r := 2 to 15
        invariant idx == s * 13 + (r - 2)
        invariant forall k :: 0 <= k < idx ==> cards[k] == CardAt(k)
      {
        AllCardsPosition(r, s);
        cards[idx] := Card(r, s);
        idx := idx + 1;
      }
    }
  }

  /** `getAllCardsVector`: the same enumeration, appended to a growing vector. */
  method GetAllCardsVector() returns (cards: seq<Card>)
    ensures cards == AllCards()
  {
    cards := [];
    for s := 0 to 4
      invariant cards == AllCards()[..s * 13]
    {
      for r := 2 to 15
        invariant cards == AllCards()[..s * 13 + (r - 2)]
      {
        AllCardsPosition(r, s);
        cards := cards + [Card(r, s)];
      }
    }
  }
}
