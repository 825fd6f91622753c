/**
 * A hole-card hand of the solver: two card indices, stored higher index
 * first, and a probability weight. Equality and ordering look at the two
 * cards only. The weight is a C++ `float`; it is modelled as a `real` that
 * is copied, never computed with.
 */
module Hands {
  import opened Wrappers
  import opened Types
  import opened CardSets
  import CardAdapter
  import Cards
  import Boards

  datatype Hand = Hand(card1: CardIndex, card2: CardIndex, weight: real) {

    /** The order every constructed hand is in: the higher index first. */
    predicate Canonical() {
      card1.value >= card2.value
    }

    /** Both indices lie below 64, where the card-set mask has a bit for them. */
    predicate InMask() {
      card1.value < 64 && card2.value < 64
    }

    /** Both indices denote one of the 52 cards. */
    predicate AreCards() {
      card1.IsCard() && card2.IsCard()
    }

    /** `to_card_set`: the pair set of the two cards. */
    function ToCardSet(): (s: CardSet)
      requires InMask()
      ensures s.Members() == {card1.value as int, card2.value as int}
    {
      Pair(card1, card2)
    }

    /** `overlaps(CardIndex)`: the card is one of the two. */
    predicate OverlapsCard(card: CardIndex)
      ensures OverlapsCard(card) <==> card in {card1, card2}
      ensures InMask() && card.value < 64 ==>
        (OverlapsCard(card) <==> card.value as int in ToCardSet().Members())
    {
      card1 == card || card2 == card
    }

    /** `overlaps(CardSet)`: the set contains one of the two cards. */
    predicate OverlapsSet(cards: CardSet)
      requires InMask()
      ensures OverlapsSet(cards) <==> ToCardSet().Overlaps(cards)
    {
      cards.Contains(card1) || cards.Contains(card2)
    }

    /** `overlaps(Hand)`: the two hands share a card. */
    predicate OverlapsHand(other: Hand)
      ensures OverlapsHand(other) <==> card1 in {other.card1, other.card2} || card2 in {other.card1, other.card2}
    {
      card1 == other.card1 || card1 == other.card2 ||
      card2 == other.card1 || card2 == other.card2
    }

    /** `overlaps(Board)`: the board holds one of the two cards. */
    predicate OverlapsBoard(board: Boards.Board)
      reads board, board.cards
      requires board.Valid() && InMask()
      ensures OverlapsBoard(board) <==> card1 in board.Contents() || card2 in board.Contents()
      ensures OverlapsBoard(board) <==> ToCardSet().Members() * Boards.Values(board.Contents()) != {}
    {
      Boards.InValues(board.Contents(), card1);
      Boards.InValues(board.Contents(), card2);
      board.OverlapsCard(card1) || board.OverlapsCard(card2)
    }

    /** `is_pair`: the same rank twice, which is the same game rank. */
    predicate IsPair()
      ensures AreCards() ==> (IsPair() <==> CardAdapter.ToCard(card1).rank == CardAdapter.ToCard(card2).rank)
    {
      card1.Rank() == card2.Rank()
    }

    /** `is_suited`: the same suit twice, which is the same game suit. */
    predicate IsSuited()
      ensures AreCards() ==> (IsSuited() <==> CardAdapter.ToCard(card1).suit == CardAdapter.ToCard(card2).suit)
    {
      card1.Suit() == card2.Suit()
    }

    /**
     * `to_string`: the text of card1 followed by the text of card2. For deck
     * cards that is the game's text of the two cards; an index from 52 to 55
     * prints as '\0' and its suit character.
     */
    function ToString(): (s: string)
      requires card1.value < 56 && card2.value < 56
      ensures |s| == 4
      ensures AreCards() ==>
        s == Cards.ToString(CardAdapter.ToCard(card1)) + Cards.ToString(CardAdapter.ToCard(card2))
      ensures !card1.IsCard() ==> s[0] == '\0'
      ensures !card2.IsCard() ==> s[2] == '\0'
    {
      CardAdapter.ToString(card1) + CardAdapter.ToString(card2)
    }

    /**
     * `operator==`: the same two cards; the weights are not compared. For
     * hands in canonical order this is equality of their card sets.
     */
    predicate Equals(other: Hand)
      ensures Canonical() && other.Canonical() && InMask() && other.InMask() ==>
        (Equals(other) <==> ToCardSet().Members() == other.ToCardSet().Members())
    {
      card1 == other.card1 && card2 == other.card2
    }
  }

  /** The constructor's default weight. */
  const DefaultWeight: real := 1.0

  /** A default-constructed hand: index 0 twice, weight 1. */
  const DefaultHand: Hand := Hand(CardIndex(0), CardIndex(0), DefaultWeight)

  /**
   * The constructor `Hand(c1, c2, w)`: the two cards in canonical order,
   * higher index first, and the weight as given.
   */
  function MakeHand(c1: CardIndex, c2: CardIndex, w: real): (h: Hand)
    ensures h.Canonical() && h.weight == w
    ensures (h.card1, h.card2) == (c1, c2) || (h.card1, h.card2) == (c2, c1)
  {
    if c1.value < c2.value then Hand(c2, c1, w) else Hand(c1, c2, w)
  }

  /** The order the two cards are given in makes no difference. */
  lemma MakeHandSymmetric(c1: CardIndex, c2: CardIndex, w: real)
    ensures MakeHand(c1, c2, w) == MakeHand(c2, c1, w)
    ensures MakeHand(c1, c2, w).Equals(MakeHand(c2, c1, DefaultWeight))
  {
  }

  /** A canonical hand is rebuilt from its own cards by the constructor. */
  lemma MakeHandOfCanonical(h: Hand)
    requires h.Canonical()
    ensures MakeHand(h.card1, h.card2, h.weight) == h
  {
  }

  /** A hand both paired and suited is one card twice: rank and suit fix the index. */
  lemma PairedAndSuitedIsOneCard(h: Hand)
    ensures h.IsPair() && h.IsSuited() <==> h.card1 == h.card2
  {
  }

  /** Two distinct cards of one rank make a pair that is never suited. */
  lemma PairIsNeverSuited(c1: CardIndex, c2: CardIndex, w: real)
    requires c1 != c2 && c1.Rank() == c2.Rank()
    ensures MakeHand(c1, c2, w).IsPair() && !MakeHand(c1, c2, w).IsSuited()
  {
  }

  /** Two hands overlap exactly when their sets of cards meet. */
  lemma OverlapsHandIsSharedCard(h: Hand, other: Hand)
    ensures h.OverlapsHand(other) <==> {h.card1, h.card2} * {other.card1, other.card2} != {}
  {
    var both := {h.card1, h.card2} * {other.card1, other.card2};
    if both != {} {
      var x :| x in both;
      assert x == h.card1 || x == h.card2;
    }
    if h.card1 in {other.card1, other.card2} {
      assert h.card1 in both;
    }
    if h.card2 in {other.card1, other.card2} {
      assert h.card2 in both;
    }
  }

  /**
   * The four overlap tests agree with one another: each is the meeting of
   * the hand's card set with the other operand's.
   */
  lemma OverlapsAgree(h: Hand, other: Hand, card: CardIndex)
    requires h.InMask() && other.InMask() && card.value < 64
    ensures h.OverlapsHand(other) <==> h.ToCardSet().Overlaps(other.ToCardSet())
    ensures h.OverlapsHand(other) <==> h.OverlapsSet(other.ToCardSet())
    ensures h.OverlapsCard(card) <==> h.OverlapsSet(Single(card))
  {
    var a, b := h.ToCardSet().Members(), other.ToCardSet().Members();
    if h.OverlapsHand(other) {
      if h.card1 in {other.card1, other.card2} {
        assert h.card1.value as int in a * b;
      } else {
        assert h.card2.value as int in a * b;
      }
    } else {
      assert a * b == {};
    }
  }

  datatype HandError = TooShort | InvalidCard(text: string)

  /**
   * `from_string`: the first four characters as two cards, canonicalised
   * and weighted 1; fewer than four characters, or an unreadable card, is
   * an error. The first card is read first, so its error is the one reported.
   */
  function FromString(s: string): (r: Result<Hand, HandError>)
    ensures |s| < 4 ==> r == Err(TooShort)
    ensures r.Ok? ==> r.value.Canonical() && r.value.AreCards() && r.value.weight == DefaultWeight
  {
    if |s| < 4 then Err(TooShort)
    else
      match CardAdapter.FromString(s[..2])
      case Err(_) => Err(InvalidCard(s[..2]))
      case Ok(c1) =>
        match CardAdapter.FromString(s[2..4])
        case Err(_) => Err(InvalidCard(s[2..4]))
        case Ok(c2) => Ok(MakeHand(c1, c2, DefaultWeight))
  }

  /**
   * `from_string` succeeds exactly when both cards are readable, and reports
   * the first unreadable one.
   */
  lemma FromStringSpec(s: string)
    requires |s| >= 4
    ensures FromString(s).Ok? <==> (Cards.IsRankChar(s[0]) && Cards.IsSuitChar(s[1])
                                 && Cards.IsRankChar(s[2]) && Cards.IsSuitChar(s[3]))
    ensures !(Cards.IsRankChar(s[0]) && Cards.IsSuitChar(s[1])) ==> FromString(s) == Err(InvalidCard(s[..2]))
    ensures Cards.IsRankChar(s[0]) && Cards.IsSuitChar(s[1]) && !(Cards.IsRankChar(s[2]) && Cards.IsSuitChar(s[3])) ==>
      FromString(s) == Err(InvalidCard(s[2..4]))
  {
    assert s[..2][0] == s[0] && s[..2][1] == s[1];
    assert s[2..4][0] == s[2] && s[2..4][1] == s[3];
  }

  /** Every constructed hand is read back from its text, with the default weight. */
  lemma FromStringToString(h: Hand)
    requires h.Canonical() && h.AreCards()
    ensures FromString(h.ToString()) == Ok(h.(weight := DefaultWeight))
    ensures FromString(h.ToString()).value.Equals(h)
  {
    var s := h.ToString();
    assert s[..2] == CardAdapter.ToString(h.card1);
    assert s[2..4] == CardAdapter.ToString(h.card2);
    CardAdapter.FromStringToString(h.card1);
    CardAdapter.FromStringToString(h.card2);
  }

  /**
   * A canonical-case text is printed back as it was exactly when it names
   * the higher index first; otherwise the two cards come back swapped.
   */
  lemma ToStringFromString(s: string)
    requires |s| == 4
    requires s[0] in Cards.RankChars && s[1] in Cards.SuitChars
    requires s[2] in Cards.RankChars && s[3] in Cards.SuitChars
    ensures FromString(s).Ok?
    ensures var c1 := CardAdapter.FromString(s[..2]).value;
            var c2 := CardAdapter.FromString(s[2..4]).value;
            FromString(s).value.ToString() == (if c1.value >= c2.value then s else s[2..4] + s[..2])
  {
    var t1, t2 := s[..2], s[2..4];
    CanonicalCardText(t1);
    CanonicalCardText(t2);
    var c1, c2 := CardAdapter.FromString(t1).value, CardAdapter.FromString(t2).value;
    FromStringOfCards(s);
    MakeHandText(c1, c2, DefaultWeight);
    assert s[2..] == t2;
    assert s == t1 + s[2..];
  }

  /** A hand prints its higher card first, whatever order its cards were given in. */
  lemma MakeHandText(c1: CardIndex, c2: CardIndex, w: real)
    requires c1.IsCard() && c2.IsCard()
    ensures MakeHand(c1, c2, w).ToString() ==
      if c1.value >= c2.value then CardAdapter.ToString(c1) + CardAdapter.ToString(c2)
      else CardAdapter.ToString(c2) + CardAdapter.ToString(c1)
  {
  }

  /** With both cards readable, `from_string` builds the hand of the two. */
  lemma FromStringOfCards(s: string)
    requires |s| >= 4
    requires CardAdapter.FromString(s[..2]).Ok? && CardAdapter.FromString(s[2..4]).Ok?
    ensures FromString(s) == Ok(MakeHand(CardAdapter.FromString(s[..2]).value, CardAdapter.FromString(s[2..4]).value, DefaultWeight))
  {
  }

  /** A two-character text in canonical case is printed back unchanged. */
  lemma CanonicalCardText(t: string)
    requires |t| == 2 && t[0] in Cards.RankChars && t[1] in Cards.SuitChars
    ensures CardAdapter.FromString(t).Ok?
    ensures CardAdapter.ToString(CardAdapter.FromString(t).value) == t
  {
    assert Cards.RankChars == "23456789TJQKA" && Cards.SuitChars == "cdhs";
    assert Cards.UpperRankChar(t[0]) == t[0] && Cards.LowerSuitChar(t[1]) == t[1];
  }

  /** `operator<=>`: by card1, then by card2, comparing index values; -1, 0 or 1. */
  function Compare(a: Hand, b: Hand): (r: int)
    ensures r == -1 || r == 0 || r == 1
  {
    if a.card1 != b.card1 then (if a.card1.value < b.card1.value then -1 else 1)
    else if a.card2 != b.card2 then (if a.card2.value < b.card2.value then -1 else 1)
    else 0
  }

  /**
   * The ordering is a total order on the cards alone: it ignores the
   * weight, reports 0 exactly on equal hands, and is antisymmetric and
   * transitive.
   */
  lemma CompareIsTotalOrder(a: Hand, b: Hand, c: Hand, w: real)
    ensures Compare(a, b) == 0 <==> a.Equals(b)
    ensures Compare(a, b) == -Compare(b, a)
    ensures Compare(a, b) < 0 && Compare(b, c) < 0 ==> Compare(a, c) < 0
    ensures Compare(a.(weight := w), b) == Compare(a, b)
  {
  }

  /** `operator==` is an equivalence that does not see the weight. */
  lemma EqualsIsEquivalence(a: Hand, b: Hand, c: Hand, w: real)
    ensures a.Equals(a) && a.Equals(a.(weight := w))
    ensures a.Equals(b) ==> b.Equals(a)
    ensures a.Equals(b) && b.Equals(c) ==> a.Equals(c)
    ensures a.Equals(b) <==> a.(weight := w) == b.(weight := w)
  {
  }
}
