/**
 * A set of card indices held as a 64-bit mask: bit i is set exactly when
 * index i is a member. The mask is modelled as its 64 bits, bit i at
 * position i. The C++ class is a value type whose `add`, `remove` and
 * `clear` rewrite its one field; here they return the rewritten value.
 */
module CardSets {
  import opened Types
  import opened Words

  datatype CardSet = CardSet(bits: Word) {

    /** The member indices. */
    function Members(): set<int> {
      WordMembers(bits)
    }

    /** `contains`: bit `card.value` is set. The shift is undefined from 64 on. */
    predicate Contains(card: CardIndex)
      requires card.value < 64
      ensures Contains(card) <==> card.value in Members()
    {
      bits[card.value]
    }

    /** `add`: sets the card's bit; a card already present leaves the set as it was. */
    function Add(card: CardIndex): (r: CardSet)
      requires card.value < 64
      ensures r.Members() == Members() + {card.value}
      ensures r.Contains(card)
      ensures Contains(card) ==> r == this
    {
      var m := BitWord(card.value);
      var w: Word := seq(64, i requires 0 <= i < 64 => bits[i] || m[i]);
      assert Contains(card) ==> w == bits;
      CardSet(w)
    }

    /** `remove`: clears the card's bit; an absent card leaves the set as it was. */
    function Remove(card: CardIndex): (r: CardSet)
      requires card.value < 64
      ensures r.Members() == Members() - {card.value}
      ensures !r.Contains(card)
      ensures !Contains(card) ==> r == this
    {
      var m := BitWord(card.value);
      var w: Word := seq(64, i requires 0 <= i < 64 => bits[i] && !m[i]);
      assert !Contains(card) ==> w == bits;
      CardSet(w)
    }

    /** `overlaps(CardSet)`: the two sets share a member. */
    predicate Overlaps(other: CardSet)
      ensures Overlaps(other) <==> Members() * other.Members() != {}
    {
      var both := Intersection(other);
      ZeroIffNoMembers(both.bits);
      both.bits != ZeroWord
    }

    /** `overlaps(CardIndex)`: the same as `contains`. */
    predicate OverlapsCard(card: CardIndex)
      requires card.value < 64
      ensures OverlapsCard(card) <==> card.value in Members()
    {
      Contains(card)
    }

    /** `operator|`. */
    function Union(other: CardSet): (r: CardSet)
      ensures r.Members() == Members() + other.Members()
    {
      CardSet(seq(64, i requires 0 <= i < 64 => bits[i] || other.bits[i]))
    }

    /** `operator&`. */
    function Intersection(other: CardSet): (r: CardSet)
      ensures r.Members() == Members() * other.Members()
    {
      CardSet(seq(64, i requires 0 <= i < 64 => bits[i] && other.bits[i]))
    }

    /** `count`: the population count of the mask. */
    function Count(): (n: nat)
      ensures n == |Members()|
    {
      PopCountIsCardinality(bits);
      PopCount(bits)
    }

    /** `empty`. */
    predicate IsEmpty()
      ensures IsEmpty() <==> Members() == {}
    {
      ZeroIffNoMembers(bits);
      bits == ZeroWord
    }

    /** `clear`: the set with no member. */
    function Clear(): (r: CardSet)
      ensures r.Members() == {} && r.IsEmpty()
    {
      ZeroIffNoMembers(ZeroWord);
      CardSet(ZeroWord)
    }
  }

  /** The default-constructed set. */
  const EmptySet: CardSet := CardSet(ZeroWord)

  /** `from_bits`: the members are exactly the set bits of the given word. */
  function FromBits(w: Word): (r: CardSet)
    ensures forall i :: 0 <= i < 64 ==> (i in r.Members() <==> w[i])
  {
    CardSet(w)
  }

  /** `single`: the empty set with one card added. */
  function Single(card: CardIndex): (r: CardSet)
    requires card.value < 64
    ensures r.Members() == {card.value}
    ensures r.Count() == 1
  {
    ZeroIffNoMembers(ZeroWord);
    EmptySet.Add(card)
  }

  /** `pair`: the empty set with two cards added. */
  function Pair(card1: CardIndex, card2: CardIndex): (r: CardSet)
    requires card1.value < 64 && card2.value < 64
    ensures r.Members() == {card1.value, card2.value}
    ensures r.Contains(card1) && r.Contains(card2)
    ensures r.Count() == (if card1 == card2 then 1 else 2)
  {
    ZeroIffNoMembers(ZeroWord);
    EmptySet.Add(card1).Add(card2)
  }

  /** The defaulted `operator==` compares masks, which is equality of the member sets. */
  lemma EqualIffSameMembers(a: CardSet, b: CardSet)
    ensures a == b <==> a.Members() == b.Members()
  {
    if a.Members() == b.Members() {
      forall i | 0 <= i < 64
        ensures a.bits[i] == b.bits[i]
      {
        assert (i in a.Members()) == (i in b.Members());
      }
    }
  }

  /** `from_bits(s.bits())` gives back `s`; the default set is empty. */
  lemma FromBitsOfBits(s: CardSet)
    ensures FromBits(s.bits) == s
    ensures EmptySet.IsEmpty() && EmptySet.Count() == 0
  {
    ZeroIffNoMembers(ZeroWord);
  }
}
