/**
 * A poker range: an ordered sequence of weighted hands, built from the
 * shorthand notation "AA", "AKs", "AKo", "AK", "QQ-TT", "AKs-ATs",
 * "AA:0.5" and comma-separated lists of these. Ranks are the solver's
 * 0-12 (two to ace); suits 0-3.
 */
module Ranges {
  import opened Wrappers
  import opened Types
  import opened Hands
  import CardAdapter
  import Boards

  /** The hand of rank r1 in suit s1 and rank r2 in suit s2, canonicalised. */
  function Combo(r1: Byte, s1: Byte, r2: Byte, s2: Byte, w: real): Hand {
    MakeHand(FromRankSuit(r1, s1), FromRankSuit(r2, s2), w)
  }

  // ---------------------------------------------------------------------
  // The combinations one token stands for, in the order they are emitted.
  // ---------------------------------------------------------------------

  /** The suit pairs of `add_pair`'s two loops, s1 < s2, in loop order. */
  function PairFirstSuit(k: nat): Byte
    requires k < 6
  {
    if k < 3 then 0 else if k < 5 then 1 else 2
  }

  function PairSecondSuit(k: nat): Byte
    requires k < 6
  {
    if k < 3 then k + 1 else if k < 5 then k - 1 else 3
  }

  /** Where the row of first suit s1 starts among the six pair combinations. */
  function PairRowStart(s1: nat): nat
    requires s1 <= 4
  {
    if s1 == 0 then 0 else if s1 == 1 then 3 else if s1 == 2 then 5 else 6
  }

  /** `add_pair`: the six suit pairs s1 < s2 of one rank, s1 outer. */
  function PairCombos(rank: Byte, w: real): (hs: seq<Hand>)
    ensures |hs| == 6
  {
    seq(6, k requires 0 <= k < 6 => Combo(rank, PairFirstSuit(k), rank, PairSecondSuit(k), w))
  }

  /** `add_suited`: one hand per suit, both cards in it. */
  function SuitedCombos(r1: Byte, r2: Byte, w: real): (hs: seq<Hand>)
    ensures |hs| == 4
  {
    seq(4, s requires 0 <= s < 4 => Combo(r1, s, r2, s, w))
  }

  /** The suit pairs of `add_offsuit`'s two loops, s1 != s2, in loop order. */
  function OffsuitFirstSuit(k: nat): Byte
    requires k < 12
  {
    if k < 3 then 0 else if k < 6 then 1 else if k < 9 then 2 else 3
  }

  function OffsuitSecondSuit(k: nat): Byte
    requires k < 12
  {
    var column := k - 3 * OffsuitFirstSuit(k);
    if column < OffsuitFirstSuit(k) then column else column + 1
  }

  /** The position of suit s2 in the inner loop of row s1, which skips s1. */
  function OffsuitColumn(s1: nat, s2: nat): nat {
    if s2 <= s1 then s2 else s2 - 1
  }

  /** `add_offsuit`: the twelve suit pairs s1 != s2, s1 outer, s2 inner. */
  function OffsuitCombos(r1: Byte, r2: Byte, w: real): (hs: seq<Hand>)
    ensures |hs| == 12
  {
    seq(12, k requires 0 <= k < 12 => Combo(r1, OffsuitFirstSuit(k), r2, OffsuitSecondSuit(k), w))
  }

  /** The two tables enumerate the suit pairs s1 < s2 exactly once each. */
  lemma PairSuitsAt(s1: nat, s2: nat)
    requires s1 < s2 < 4
    ensures PairRowStart(s1) + s2 - s1 - 1 < 6
    ensures PairFirstSuit(PairRowStart(s1) + s2 - s1 - 1) == s1
    ensures PairSecondSuit(PairRowStart(s1) + s2 - s1 - 1) == s2
  {
  }

  /** The two tables enumerate the suit pairs s1 != s2 exactly once each. */
  lemma OffsuitSuitsAt(s1: nat, s2: nat)
    requires s1 < 4 && s2 < 4 && s1 != s2
    ensures 3 * s1 + OffsuitColumn(s1, s2) < 12
    ensures OffsuitFirstSuit(3 * s1 + OffsuitColumn(s1, s2)) == s1
    ensures OffsuitSecondSuit(3 * s1 + OffsuitColumn(s1, s2)) == s2
  {
  }

  /** `add_pair`: appends the six combinations of the rank to `out`. */
  method AddPair(rank: Byte, weight: real, out: seq<Hand>) returns (res: seq<Hand>)
    ensures res == out + PairCombos(rank, weight)
  {
    ghost var all := PairCombos(rank, weight);
    res := out;
    var s1: Byte := 0;
    while s1 < 4
      invariant s1 <= 4
      invariant res == out + all[..PairRowStart(s1)]
    {
      var s2: Byte := s1 + 1;
      while s2 < 4
        invariant s1 + 1 <= s2 <= 4
        invariant res == out + all[..PairRowStart(s1) + s2 - s1 - 1]
      {
        var c1 := FromRankSuit(rank, s1);
        var c2 := FromRankSuit(rank, s2);
        PairSuitsAt(s1, s2);
        ghost var k := PairRowStart(s1) + s2 - s1 - 1;
        assert all[k] == MakeHand(c1, c2, weight);
        assert all[..k + 1] == all[..k] + [all[k]];
        res := res + [MakeHand(c1, c2, weight)];
        s2 := s2 + 1;
      }
      s1 := s1 + 1;
    }
    assert all[..6] == all;
  }

  /** `add_suited`: appends the four suited combinations to `out`. */
  method AddSuited(rank1: Byte, rank2: Byte, weight: real, out: seq<Hand>) returns (res: seq<Hand>)
    ensures res == out + SuitedCombos(rank1, rank2, weight)
  {
    ghost var all := SuitedCombos(rank1, rank2, weight);
    res := out;
    var suit: Byte := 0;
    while suit < 4
      invariant suit <= 4
      invariant res == out + all[..suit]
    {
      var c1 := FromRankSuit(rank1, suit);
      var c2 := FromRankSuit(rank2, suit);
      assert all[suit] == MakeHand(c1, c2, weight);
      assert all[..suit + 1] == all[..suit] + [all[suit]];
      res := res + [MakeHand(c1, c2, weight)];
      suit := suit + 1;
    }
    assert all[..4] == all;
  }

  /** `add_offsuit`: appends the twelve offsuit combinations to `out`. */
  method AddOffsuit(rank1: Byte, rank2: Byte, weight: real, out: seq<Hand>) returns (res: seq<Hand>)
    ensures res == out + OffsuitCombos(rank1, rank2, weight)
  {
    ghost var all := OffsuitCombos(rank1, rank2, weight);
    res := out;
    var s1: Byte := 0;
    while s1 < 4
      invariant s1 <= 4
      invariant res == out + all[..3 * s1]
    {
      var s2: Byte := 0;
      while s2 < 4
        invariant s2 <= 4
        invariant res == out + all[..3 * s1 + OffsuitColumn(s1, s2)]
      {
        if s1 != s2 {
          var c1 := FromRankSuit(rank1, s1);
          var c2 := FromRankSuit(rank2, s2);
          OffsuitSuitsAt(s1, s2);
          ghost var k := 3 * s1 + OffsuitColumn(s1, s2);
          assert all[k] == MakeHand(c1, c2, weight);
          assert all[..k + 1] == all[..k] + [all[k]];
          res := res + [MakeHand(c1, c2, weight)];
        }
        s2 := s2 + 1;
      }
      s1 := s1 + 1;
    }
    assert all[..12] == all;
  }

  // ---------------------------------------------------------------------
  // What the combination lists contain.
  // ---------------------------------------------------------------------

  /** Every hand of the list carries the weight w. */
  predicate AllWeighted(hs: seq<Hand>, w: real) {
    forall i :: 0 <= i < |hs| ==> hs[i].weight == w
  }

  /** No two hands of the list are equal (by their cards). */
  predicate NoRepeats(hs: seq<Hand>) {
    forall i, j :: 0 <= i < j < |hs| ==> !hs[i].Equals(hs[j])
  }

  /** Every hand of the list is made of two distinct cards of the deck. */
  predicate AllCardHands(hs: seq<Hand>) {
    forall i :: 0 <= i < |hs| ==> hs[i].AreCards() && hs[i].Canonical() && hs[i].card1 != hs[i].card2
  }

  /** The two cards of a combination, higher index first, and its weight. */
  lemma ComboCards(r1: Byte, s1: Byte, r2: Byte, s2: Byte, w: real)
    requires r1 < NumRanks && r2 < NumRanks && s1 < 4 && s2 < 4
    ensures var h := Combo(r1, s1, r2, s2, w);
      h.weight == w && h.AreCards() && h.Canonical() &&
      (h.card1.Rank(), h.card1.Suit(), h.card2.Rank(), h.card2.Suit()) ==
        (if r1 * 4 + s1 >= r2 * 4 + s2 then (r1, s1, r2, s2) else (r2, s2, r1, s1))
  {
  }

  /** Equal hands have equal ranks and suits, card by card. */
  lemma EqualsByParts(a: Hand, b: Hand)
    ensures a.Equals(b) <==>
      (a.card1.Rank(), a.card1.Suit(), a.card2.Rank(), a.card2.Suit()) ==
      (b.card1.Rank(), b.card1.Suit(), b.card2.Rank(), b.card2.Suit())
  {
    FromRankSuitOfParts(a.card1);
    FromRankSuitOfParts(a.card2);
    FromRankSuitOfParts(b.card1);
    FromRankSuitOfParts(b.card2);
  }

  /** The six pair combinations: each a pair of the rank, of two distinct cards, weighted w. */
  lemma PairCombosShape(rank: Byte, w: real)
    requires rank < NumRanks
    ensures var hs := PairCombos(rank, w);
      AllWeighted(hs, w) && AllCardHands(hs) &&
      forall i :: 0 <= i < |hs| ==> (hs[i].IsPair() && hs[i].card1.Rank() == rank &&
        hs[i].card1.Suit() == PairSecondSuit(i) && hs[i].card2.Suit() == PairFirstSuit(i))
  {
    var hs := PairCombos(rank, w);
    forall i | 0 <= i < 6
      ensures hs[i].weight == w && hs[i].AreCards() && hs[i].Canonical() && hs[i].card1 != hs[i].card2
      ensures hs[i].IsPair() && hs[i].card1.Rank() == rank
      ensures hs[i].card1.Suit() == PairSecondSuit(i) && hs[i].card2.Suit() == PairFirstSuit(i)
    {
      ComboCards(rank, PairFirstSuit(i), rank, PairSecondSuit(i), w);
    }
  }

  /** A pair token stands for six distinct pairs of the rank, every two-suit choice among them. */
  lemma PairCombosSpec(rank: Byte, w: real, s1: Byte, s2: Byte)
    requires rank < NumRanks
    requires s1 < 4 && s2 < 4 && s1 != s2
    ensures var hs := PairCombos(rank, w);
      |hs| == 6 && AllWeighted(hs, w) && AllCardHands(hs) && NoRepeats(hs) &&
      (forall i :: 0 <= i < |hs| ==> hs[i].IsPair() && hs[i].card1.Rank() == rank) &&
      Combo(rank, s1, rank, s2, w) in hs
  {
    var hs := PairCombos(rank, w);
    PairCombosShape(rank, w);
    forall i, j | 0 <= i < j < 6
      ensures !hs[i].Equals(hs[j])
    {
      EqualsByParts(hs[i], hs[j]);
    }
    if s1 < s2 {
      PairSuitsAt(s1, s2);
      assert hs[PairRowStart(s1) + s2 - s1 - 1] == Combo(rank, s1, rank, s2, w);
    } else {
      PairSuitsAt(s2, s1);
      MakeHandSymmetric(FromRankSuit(rank, s1), FromRankSuit(rank, s2), w);
      assert hs[PairRowStart(s2) + s1 - s2 - 1] == Combo(rank, s1, rank, s2, w);
    }
  }

  /** A suited token stands for four distinct suited hands of the two ranks. */
  lemma SuitedCombosSpec(r1: Byte, r2: Byte, w: real)
    requires r2 < r1 < NumRanks
    ensures var hs := SuitedCombos(r1, r2, w);
      |hs| == 4 && AllWeighted(hs, w) && AllCardHands(hs) && NoRepeats(hs) &&
      forall i :: 0 <= i < |hs| ==> hs[i].IsSuited() && hs[i].card1.Rank() == r1 && hs[i].card2.Rank() == r2
  {
    var hs := SuitedCombos(r1, r2, w);
    forall i | 0 <= i < 4
      ensures hs[i].weight == w && hs[i].AreCards() && hs[i].Canonical() && hs[i].card1 != hs[i].card2
      ensures hs[i].IsSuited() && hs[i].card1.Rank() == r1 && hs[i].card2.Rank() == r2
      ensures hs[i].card1.Suit() == i
    {
      ComboCards(r1, i, r2, i, w);
    }
    forall i, j | 0 <= i < j < 4
      ensures !hs[i].Equals(hs[j])
    {
      EqualsByParts(hs[i], hs[j]);
    }
  }

  /** The twelve offsuit combinations: rank r1 over rank r2 in two different suits, weighted w. */
  lemma OffsuitCombosShape(r1: Byte, r2: Byte, w: real)
    requires r2 < r1 < NumRanks
    ensures var hs := OffsuitCombos(r1, r2, w);
      AllWeighted(hs, w) && AllCardHands(hs) &&
      forall i :: 0 <= i < |hs| ==> (!hs[i].IsSuited() && hs[i].card1.Rank() == r1 && hs[i].card2.Rank() == r2 &&
        hs[i].card1.Suit() == OffsuitFirstSuit(i) && hs[i].card2.Suit() == OffsuitSecondSuit(i))
  {
    var hs := OffsuitCombos(r1, r2, w);
    forall i | 0 <= i < 12
      ensures hs[i].weight == w && hs[i].AreCards() && hs[i].Canonical() && hs[i].card1 != hs[i].card2
      ensures !hs[i].IsSuited() && hs[i].card1.Rank() == r1 && hs[i].card2.Rank() == r2
      ensures hs[i].card1.Suit() == OffsuitFirstSuit(i) && hs[i].card2.Suit() == OffsuitSecondSuit(i)
    {
      ComboCards(r1, OffsuitFirstSuit(i), r2, OffsuitSecondSuit(i), w);
    }
  }

  /** An offsuit token stands for twelve distinct hands of the two ranks, none suited. */
  lemma OffsuitCombosSpec(r1: Byte, r2: Byte, w: real, s1: Byte, s2: Byte)
    requires r2 < r1 < NumRanks
    requires s1 < 4 && s2 < 4 && s1 != s2
    ensures var hs := OffsuitCombos(r1, r2, w);
      |hs| == 12 && AllWeighted(hs, w) && AllCardHands(hs) && NoRepeats(hs) &&
      (forall i :: 0 <= i < |hs| ==> !hs[i].IsSuited() && hs[i].card1.Rank() == r1 && hs[i].card2.Rank() == r2) &&
      Combo(r1, s1, r2, s2, w) in hs
  {
    var hs := OffsuitCombos(r1, r2, w);
    OffsuitCombosShape(r1, r2, w);
    forall i, j | 0 <= i < j < 12
      ensures !hs[i].Equals(hs[j])
    {
      EqualsByParts(hs[i], hs[j]);
    }
    OffsuitSuitsAt(s1, s2);
    assert hs[3 * s1 + OffsuitColumn(s1, s2)] == Combo(r1, s1, r2, s2, w);
  }

  // ---------------------------------------------------------------------
  // Rank intervals: the `_range` helpers.
  // ---------------------------------------------------------------------

  /** The pair combinations of the n ranks lo, lo+1, ..., lowest first. */
  function PairsUpTo(lo: Byte, n: nat, w: real): seq<Hand>
    requires lo + n <= 256
  {
    if n == 0 then [] else PairsUpTo(lo, n - 1, w) + PairCombos(lo + n - 1, w)
  }

  /** The suited combinations of rank r1 with each of the n ranks from lo on, except r1 itself. */
  function SuitedUpTo(r1: Byte, lo: Byte, n: nat, w: real): seq<Hand>
    requires lo + n <= 256
  {
    if n == 0 then []
    else SuitedUpTo(r1, lo, n - 1, w) + (if lo + n - 1 != r1 then SuitedCombos(r1, lo + n - 1, w) else [])
  }

  /** The offsuit combinations likewise. */
  function OffsuitUpTo(r1: Byte, lo: Byte, n: nat, w: real): seq<Hand>
    requires lo + n <= 256
  {
    if n == 0 then []
    else OffsuitUpTo(r1, lo, n - 1, w) + (if lo + n - 1 != r1 then OffsuitCombos(r1, lo + n - 1, w) else [])
  }

  /** The smaller and the larger of two ranks: the helpers' swap into order. */
  function Low(a: Byte, b: Byte): Byte { if a < b then a else b }
  function High(a: Byte, b: Byte): Byte { if a < b then b else a }

  /** `add_pair_range`: the pairs of every rank between the two, inclusive, lowest first. */
  function PairRange(highRank: Byte, lowRank: Byte, w: real): seq<Hand> {
    PairsUpTo(Low(highRank, lowRank), High(highRank, lowRank) - Low(highRank, lowRank) + 1, w)
  }

  /** `add_suited_range`: rank1 suited with every second rank between the two, inclusive. */
  function SuitedRange(rank1: Byte, highRank2: Byte, lowRank2: Byte, w: real): seq<Hand> {
    SuitedUpTo(rank1, Low(highRank2, lowRank2), High(highRank2, lowRank2) - Low(highRank2, lowRank2) + 1, w)
  }

  /** `add_offsuit_range`: rank1 offsuit with every second rank between the two, inclusive. */
  function OffsuitRange(rank1: Byte, highRank2: Byte, lowRank2: Byte, w: real): seq<Hand> {
    OffsuitUpTo(rank1, Low(highRank2, lowRank2), High(highRank2, lowRank2) - Low(highRank2, lowRank2) + 1, w)
  }

  /**
   * `add_pair_range`. The C++ counter is a `uint8_t` compared with `<=`, so
   * a bound of 255 would never end the loop; the parser only passes 0-12.
   */
  method AddPairRange(highRank: Byte, lowRank: Byte, weight: real, out: seq<Hand>) returns (res: seq<Hand>)
    requires highRank < 255 && lowRank < 255
    ensures res == out + PairRange(highRank, lowRank, weight)
  {
    var high, low := highRank, lowRank;
    if high < low {
      high, low := low, high;
    }
    res := out;
    var rank: Byte := low;
    while rank <= high
      invariant low <= rank <= high + 1
      invariant res == out + PairsUpTo(low, rank - low, weight)
    {
      res := AddPair(rank, weight, res);
      rank := rank + 1;
    }
  }

  /** `add_suited_range`; the same bound on the counter applies. */
  method AddSuitedRange(rank1: Byte, highRank2: Byte, lowRank2: Byte, weight: real, out: seq<Hand>) returns (res: seq<Hand>)
    requires highRank2 < 255 && lowRank2 < 255
    ensures res == out + SuitedRange(rank1, highRank2, lowRank2, weight)
  {
    var high, low := highRank2, lowRank2;
    if high < low {
      high, low := low, high;
    }
    res := out;
    var rank2: Byte := low;
    while rank2 <= high
      invariant low <= rank2 <= high + 1
      invariant res == out + SuitedUpTo(rank1, low, rank2 - low, weight)
    {
      if rank2 != rank1 {
        res := AddSuited(rank1, rank2, weight, res);
      }
      rank2 := rank2 + 1;
    }
  }

  /** `add_offsuit_range`; the same bound on the counter applies. */
  method AddOffsuitRange(rank1: Byte, highRank2: Byte, lowRank2: Byte, weight: real, out: seq<Hand>) returns (res: seq<Hand>)
    requires highRank2 < 255 && lowRank2 < 255
    ensures res == out + OffsuitRange(rank1, highRank2, lowRank2, weight)
  {
    var high, low := highRank2, lowRank2;
    if high < low {
      high, low := low, high;
    }
    res := out;
    var rank2: Byte := low;
    while rank2 <= high
      invariant low <= rank2 <= high + 1
      invariant res == out + OffsuitUpTo(rank1, low, rank2 - low, weight)
    {
      if rank2 != rank1 {
        res := AddOffsuit(rank1, rank2, weight, res);
      }
      rank2 := rank2 + 1;
    }
  }

  /** The C++ `++rank` on the `uint8_t` loop counter: 255 wraps to 0. */
  function NextRank(rank: Byte): (next: Byte)
    ensures next == (rank + 1) % 256
  {
    ToByte(rank + 1)
  }

  /** The loop counter after `k` increments from `start`. */
  function CounterAfter(start: Byte, k: nat): Byte {
    if k == 0 then start else NextRank(CounterAfter(start, k - 1))
  }

  lemma {:induction false} CounterAfterWraps(start: Byte, k: nat)
    ensures CounterAfter(start, k) == (start + k) % 256
  {
    if k > 0 {
      CounterAfterWraps(start, k - 1);
      var p := CounterAfter(start, k - 1);
      var q := (start + k - 1) / 256;
      assert start + k - 1 == 256 * q + p;
      if p < 255 {
        assert (start + k) % 256 == p + 1 by {
          assert start + k == 256 * q + (p + 1);
        }
      } else {
        assert (start + k) % 256 == 0 by {
          assert start + k == 256 * (q + 1);
        }
      }
    }
  }

  /**
   * The `_range` loops as written, with an upper end of 255: the guard
   * `rank <= 255` holds for every byte, the increment of 255 gives 0, and
   * after 256 increments the counter is back at its start, so the loop
   * never ends.
   */
  lemma TopEndNeverExits(start: Byte)
    ensures NextRank(255) == 0
    ensures CounterAfter(start, 256) == start
    ensures forall k: nat :: CounterAfter(start, k) <= 255
  {
    CounterAfterWraps(start, 256);
  }

  /**
   * The intended intervals are defined for every pair of byte ends: the
   * range from `lo` to 255 holds the pairs of the 256 - `lo` ranks up to 255.
   */
  lemma PairRangeToTop(lo: Byte, w: real)
    ensures |PairRange(255, lo, w)| == 6 * (256 - lo)
    ensures PairRange(255, lo, w) == PairsUpTo(lo, 256 - lo, w)
  {
    PairsUpToLength(lo, 256 - lo, w);
  }

  lemma {:induction false} PairsUpToLength(lo: Byte, n: nat, w: real)
    requires lo + n <= 256
    ensures |PairsUpTo(lo, n, w)| == 6 * n
  {
    if n > 0 {
      PairsUpToLength(lo, n - 1, w);
    }
  }

  /** 1 when r lies among the n ranks from lo on, else 0. */
  function Among(r: int, lo: int, n: nat): nat {
    if lo <= r < lo + n then 1 else 0
  }

  lemma {:induction false} SuitedUpToLength(r1: Byte, lo: Byte, n: nat, w: real)
    requires lo + n <= 256
    ensures |SuitedUpTo(r1, lo, n, w)| == 4 * (n - Among(r1, lo, n))
    ensures |OffsuitUpTo(r1, lo, n, w)| == 12 * (n - Among(r1, lo, n))
  {
    if n > 0 {
      SuitedUpToLength(r1, lo, n - 1, w);
    }
  }

  /** A pair range gives six combinations per rank of the interval, whichever end comes first. */
  lemma PairRangeLength(highRank: Byte, lowRank: Byte, w: real)
    ensures |PairRange(highRank, lowRank, w)| == 6 * (High(highRank, lowRank) - Low(highRank, lowRank) + 1)
    ensures PairRange(highRank, lowRank, w) == PairRange(lowRank, highRank, w)
  {
    PairsUpToLength(Low(highRank, lowRank), High(highRank, lowRank) - Low(highRank, lowRank) + 1, w);
  }

  /**
   * A suited or offsuit range gives four or twelve combinations per second
   * rank of the interval other than the first rank, whichever end comes first.
   */
  lemma SuitedRangeLength(rank1: Byte, highRank2: Byte, lowRank2: Byte, w: real)
    ensures var lo, hi := Low(highRank2, lowRank2), High(highRank2, lowRank2);
      |SuitedRange(rank1, highRank2, lowRank2, w)| == 4 * (hi - lo + 1 - Among(rank1, lo, hi - lo + 1)) &&
      |OffsuitRange(rank1, highRank2, lowRank2, w)| == 12 * (hi - lo + 1 - Among(rank1, lo, hi - lo + 1))
    ensures SuitedRange(rank1, highRank2, lowRank2, w) == SuitedRange(rank1, lowRank2, highRank2, w)
    ensures OffsuitRange(rank1, highRank2, lowRank2, w) == OffsuitRange(rank1, lowRank2, highRank2, w)
  {
    var lo := Low(highRank2, lowRank2);
    var n: nat := High(highRank2, lowRank2) as int - lo as int + 1;
    SuitedUpToLength(rank1, lo, n, w);
  }

  /** "QQ-TT" stands for tens, jacks and queens, emitted lowest first. */
  lemma PairRangeQueensToTens(w: real)
    ensures PairRange(RankQueen, RankTen, w) ==
      PairCombos(RankTen, w) + PairCombos(RankJack, w) + PairCombos(RankQueen, w)
  {
    assert PairsUpTo(RankTen, 1, w) == PairCombos(RankTen, w);
    assert PairsUpTo(RankTen, 2, w) == PairsUpTo(RankTen, 1, w) + PairCombos(RankJack, w);
    assert PairsUpTo(RankTen, 3, w) == PairsUpTo(RankTen, 2, w) + PairCombos(RankQueen, w);
  }

  /** "AKs-ATs" stands for ace-ten up to ace-king suited, emitted lowest first. */
  lemma SuitedRangeAceKingToAceTen(w: real)
    ensures SuitedRange(RankAce, RankKing, RankTen, w) ==
      SuitedCombos(RankAce, RankTen, w) + SuitedCombos(RankAce, RankJack, w) +
      SuitedCombos(RankAce, RankQueen, w) + SuitedCombos(RankAce, RankKing, w)
  {
    assert SuitedUpTo(RankAce, RankTen, 1, w) == SuitedCombos(RankAce, RankTen, w);
    assert SuitedUpTo(RankAce, RankTen, 2, w) == SuitedUpTo(RankAce, RankTen, 1, w) + SuitedCombos(RankAce, RankJack, w);
    assert SuitedUpTo(RankAce, RankTen, 3, w) == SuitedUpTo(RankAce, RankTen, 2, w) + SuitedCombos(RankAce, RankQueen, w);
    assert SuitedUpTo(RankAce, RankTen, 4, w) == SuitedUpTo(RankAce, RankTen, 3, w) + SuitedCombos(RankAce, RankKing, w);
  }

  // ---------------------------------------------------------------------
  // One term of the notation: `parse_component`.
  // ---------------------------------------------------------------------

  datatype RangeError =
    | RangeTooShort(text: string)       // a range end shorter than two characters
    | InvalidRangeRanks(text: string)   // a range end with an unknown rank character
    | InvalidRangeFormat(text: string)  // a range that is neither pairs nor one fixed first rank
    | HandTooShort(text: string)        // a single hand shorter than two characters
    | InvalidRanks(text: string)        // a single hand with an unknown rank character
    | InvalidWeight(text: string)       // a weight the float parser rejects

  /** `find`: the first position at or after i holding ch, or |s| when there is none. */
  function FindFrom(s: string, ch: char, i: nat): (j: nat)
    requires i <= |s|
    ensures i <= j <= |s|
    decreases |s| - i
  {
    if i == |s| then i else if s[i] == ch then i else FindFrom(s, ch, i + 1)
  }

  /** `find` on a whole string, with `npos` as None. */
  function IndexOf(s: string, ch: char): Option<nat> {
    var j := FindFrom(s, ch, 0);
    if j < |s| then Some(j) else None
  }

  /** FindFrom finds the first occurrence and nothing before it. */
  lemma {:induction false} FindFromSpec(s: string, ch: char, i: nat)
    requires i <= |s|
    ensures FindFrom(s, ch, i) < |s| ==> s[FindFrom(s, ch, i)] == ch
    ensures forall k :: i <= k < FindFrom(s, ch, i) ==> s[k] != ch
    decreases |s| - i
  {
    if i < |s| && s[i] != ch {
      FindFromSpec(s, ch, i + 1);
    }
  }

  /** The third character is an `s` or `S` suffix. */
  predicate SuitedSuffix(t: string) {
    |t| > 2 && (t[2] == 's' || t[2] == 'S')
  }

  /** The third character is an `o` or `O` suffix. */
  predicate OffsuitSuffix(t: string) {
    |t| > 2 && (t[2] == 'o' || t[2] == 'O')
  }

  /** The suited, the offsuit, or (with no suffix) both lists of combinations, suited first. */
  function BySuffix(suited: bool, offsuit: bool, s: seq<Hand>, o: seq<Hand>): seq<Hand> {
    if suited then s else if offsuit then o else s + o
  }

  /** A range term `start-end`, the dash at position d > 0 of `comp`. */
  function RangeTermHands(comp: string, d: nat, w: real): Result<seq<Hand>, RangeError>
    requires 0 < d < |comp|
  {
    var startHand, endHand := comp[..d], comp[d + 1..];
    if |startHand| < 2 || |endHand| < 2 then Err(RangeTooShort(comp))
    else
      var startRank1, startRank2 := CardAdapter.ParseRank(startHand[0]), CardAdapter.ParseRank(startHand[1]);
      var endRank1, endRank2 := CardAdapter.ParseRank(endHand[0]), CardAdapter.ParseRank(endHand[1]);
      if startRank1 == CardAdapter.Invalid || startRank2 == CardAdapter.Invalid ||
         endRank1 == CardAdapter.Invalid || endRank2 == CardAdapter.Invalid
      then Err(InvalidRangeRanks(comp))
      else if startRank1 == startRank2 && endRank1 == endRank2 then Ok(PairRange(startRank1, endRank1, w))
      else if startRank1 == endRank1 then
        Ok(BySuffix(SuitedSuffix(startHand), OffsuitSuffix(startHand),
                    SuitedRange(startRank1, startRank2, endRank2, w),
                    OffsuitRange(startRank1, startRank2, endRank2, w)))
      else Err(InvalidRangeFormat(comp))
  }

  /** A single-hand term such as "AA", "AKs", "KAo" or "AK". */
  function SingleTermHands(comp: string, w: real): Result<seq<Hand>, RangeError> {
    if |comp| < 2 then Err(HandTooShort(comp))
    else
      var rank1, rank2 := CardAdapter.ParseRank(comp[0]), CardAdapter.ParseRank(comp[1]);
      if rank1 == CardAdapter.Invalid || rank2 == CardAdapter.Invalid then Err(InvalidRanks(comp))
      else if rank1 == rank2 then Ok(PairCombos(rank1, w))
      else
        var high, low := High(rank1, rank2), Low(rank1, rank2);
        Ok(BySuffix(SuitedSuffix(comp), OffsuitSuffix(comp),
                    SuitedCombos(high, low, w), OffsuitCombos(high, low, w)))
  }

  /**
   * `parse_component`: nothing for an empty term; a range when a dash
   * follows at least one character; a single hand otherwise.
   */
  function ComponentHands(comp: string, w: real): Result<seq<Hand>, RangeError> {
    if |comp| == 0 then Ok([])
    else match IndexOf(comp, '-')
      case Some(d) =>
        if d > 0 then RangeTermHands(comp, d, w) else SingleTermHands(comp, w)
      case None => SingleTermHands(comp, w)
  }

  /** The C++ appends to `out`; a failure throws before anything is appended. */
  function Extend(out: seq<Hand>, r: Result<seq<Hand>, RangeError>): Result<seq<Hand>, RangeError> {
    match r
    case Ok(hs) => Ok(out + hs)
    case Err(e) => Err(e)
  }

  /** `parse_component`: appends the hands of one term to `out`, or fails. */
  method ParseComponent(component: string, weight: real, out: seq<Hand>) returns (r: Result<seq<Hand>, RangeError>)
    ensures r == Extend(out, ComponentHands(component, weight))
  {
    if |component| == 0 {
      assert out + [] == out;
      return Ok(out);
    }
    var dash := IndexOf(component, '-');
    if dash.Some? && dash.value > 0 {
      r := ParseRangeTerm(component, dash.value, weight, out);
    } else {
      r := ParseSingleTerm(component, weight, out);
    }
  }

  /** The range branch of `parse_component`, the dash at position d. */
  method ParseRangeTerm(component: string, d: nat, weight: real, out: seq<Hand>) returns (r: Result<seq<Hand>, RangeError>)
    requires 0 < d < |component|
    ensures r == Extend(out, RangeTermHands(component, d, weight))
  {
    var startHand := component[..d];
    var endHand := component[d + 1..];
    if |startHand| < 2 || |endHand| < 2 {
      return Err(RangeTooShort(component));
    }
    var startRank1 := CardAdapter.ParseRank(startHand[0]);
    var startRank2 := CardAdapter.ParseRank(startHand[1]);
    var endRank1 := CardAdapter.ParseRank(endHand[0]);
    var endRank2 := CardAdapter.ParseRank(endHand[1]);
    if startRank1 == CardAdapter.Invalid || startRank2 == CardAdapter.Invalid ||
       endRank1 == CardAdapter.Invalid || endRank2 == CardAdapter.Invalid {
      return Err(InvalidRangeRanks(component));
    }
    if startRank1 == startRank2 && endRank1 == endRank2 {
      var res := AddPairRange(startRank1, endRank1, weight, out);
      return Ok(res);
    }
    if startRank1 == endRank1 {
      var suited := |startHand| > 2 && (startHand[2] == 's' || startHand[2] == 'S');
      var offsuit := |startHand| > 2 && (startHand[2] == 'o' || startHand[2] == 'O');
      var res;
      if suited {
        res := AddSuitedRange(startRank1, startRank2, endRank2, weight, out);
      } else if offsuit {
        res := AddOffsuitRange(startRank1, startRank2, endRank2, weight, out);
      } else {
        res := AddSuitedRange(startRank1, startRank2, endRank2, weight, out);
        res := AddOffsuitRange(startRank1, startRank2, endRank2, weight, res);
        assert res == out + (SuitedRange(startRank1, startRank2, endRank2, weight) +
                             OffsuitRange(startRank1, startRank2, endRank2, weight));
      }
      return Ok(res);
    }
    return Err(InvalidRangeFormat(component));
  }

  /** The single-hand branch of `parse_component`. */
  method ParseSingleTerm(component: string, weight: real, out: seq<Hand>) returns (r: Result<seq<Hand>, RangeError>)
    ensures r == Extend(out, SingleTermHands(component, weight))
  {
    if |component| < 2 {
      return Err(HandTooShort(component));
    }
    var rank1 := CardAdapter.ParseRank(component[0]);
    var rank2 := CardAdapter.ParseRank(component[1]);
    if rank1 == CardAdapter.Invalid || rank2 == CardAdapter.Invalid {
      return Err(InvalidRanks(component));
    }
    var suited := false;
    var offsuit := false;
    if |component| > 2 {
      var suffix := component[2];
      if suffix == 's' || suffix == 'S' {
        suited := true;
      } else if suffix == 'o' || suffix == 'O' {
        offsuit := true;
      }
    }
    if rank1 == rank2 {
      var res := AddPair(rank1, weight, out);
      return Ok(res);
    }
    if rank1 < rank2 {
      rank1, rank2 := rank2, rank1;
    }
    var res;
    if suited {
      res := AddSuited(rank1, rank2, weight, out);
    } else if offsuit {
      res := AddOffsuit(rank1, rank2, weight, out);
    } else {
      res := AddSuited(rank1, rank2, weight, out);
      res := AddOffsuit(rank1, rank2, weight, res);
      assert res == out + (SuitedCombos(rank1, rank2, weight) + OffsuitCombos(rank1, rank2, weight));
    }
    return Ok(res);
  }

  // ---------------------------------------------------------------------
  // What a term means.
  // ---------------------------------------------------------------------

  lemma {:induction false} FindFromAbsent(s: string, ch: char, i: nat)
    requires i <= |s|
    requires forall k :: i <= k < |s| ==> s[k] != ch
    ensures FindFrom(s, ch, i) == |s|
    decreases |s| - i
  {
    if i < |s| {
      FindFromAbsent(s, ch, i + 1);
    }
  }

  lemma {:induction false} FindFromFirst(s: string, ch: char, i: nat, j: nat)
    requires i <= j < |s| && s[j] == ch
    requires forall k :: i <= k < j ==> s[k] != ch
    ensures FindFrom(s, ch, i) == j
    decreases j - i
  {
    if i < j {
      FindFromFirst(s, ch, i + 1, j);
    }
  }

  /** A term of two rank characters and an optional third, with no dash anywhere. */
  lemma SingleTermIsSingle(comp: string, w: real)
    requires |comp| > 0 && '-' !in comp
    ensures ComponentHands(comp, w) == SingleTermHands(comp, w)
  {
    FindFromAbsent(comp, '-', 0);
  }

  /** The validity test on a rank character, by the parser's own answer. */
  predicate IsRank(ch: char) {
    CardAdapter.ParseRank(ch) != CardAdapter.Invalid
  }

  /** A two-rank token without a suffix, such as "AK", is its suited and its offsuit hands, in that order. */
  lemma NoSuffixIsBoth(a: char, b: char, w: real)
    requires IsRank(a) && IsRank(b) && CardAdapter.ParseRank(a) != CardAdapter.ParseRank(b)
    ensures ComponentHands([a, b], w).Ok? && ComponentHands([a, b, 's'], w).Ok? && ComponentHands([a, b, 'o'], w).Ok?
    ensures ComponentHands([a, b], w).value ==
      ComponentHands([a, b, 's'], w).value + ComponentHands([a, b, 'o'], w).value
    ensures |ComponentHands([a, b], w).value| == 16
  {
    SingleTermIsSingle([a, b], w);
    SingleTermIsSingle([a, b, 's'], w);
    SingleTermIsSingle([a, b, 'o'], w);
  }

  /** A third character other than s, S, o, O counts as no suffix. */
  lemma UnknownSuffixIsNoSuffix(a: char, b: char, x: char, w: real)
    requires IsRank(a) && IsRank(b) && x !in "sSoO-"
    ensures ComponentHands([a, b, x], w) == ComponentHands([a, b], w)
  {
    assert x != '-' && x != 's' && x != 'S' && x != 'o' && x != 'O';
    SingleTermIsSingle([a, b, x], w);
    SingleTermIsSingle([a, b], w);
  }

  /** A pair token gives its six pairs, and a suffix on it is ignored. */
  lemma PairIgnoresSuffix(a: char, b: char, t: string, w: real)
    requires IsRank(a) && CardAdapter.ParseRank(a) == CardAdapter.ParseRank(b) && '-' !in t
    ensures ComponentHands([a, b] + t, w) == Ok(PairCombos(CardAdapter.ParseRank(a), w))
  {
    assert forall k :: 0 <= k < |t| ==> t[k] != '-';
    var comp := [a, b] + t;
    assert a != '-' && b != '-';
    forall k | 0 <= k < |comp|
      ensures comp[k] != '-'
    {
      if k >= 2 {
        assert comp[k] == t[k - 2];
      }
    }
    FindFromAbsent(comp, '-', 0);
  }

  /** The order of the two ranks in a token does not matter: "KA" is "AK". */
  lemma RankOrderIrrelevant(a: char, b: char, t: string, w: real)
    requires IsRank(a) && IsRank(b) && '-' !in t
    ensures ComponentHands([a, b] + t, w) == ComponentHands([b, a] + t, w)
  {
    assert forall k :: 0 <= k < |t| ==> t[k] != '-';
    var ab, ba := [a, b] + t, [b, a] + t;
    assert a != '-' && b != '-';
    forall k | 0 <= k < |ab|
      ensures ab[k] != '-' && ba[k] != '-'
    {
      if k >= 2 {
        assert ab[k] == t[k - 2] && ba[k] == t[k - 2];
      }
    }
    FindFromAbsent(ab, '-', 0);
    FindFromAbsent(ba, '-', 0);
    assert SuitedSuffix(ab) == SuitedSuffix(ba) && OffsuitSuffix(ab) == OffsuitSuffix(ba);
  }

  /** A term of one character is too short, whatever the character. */
  lemma OneCharacterTooShort(c: char, w: real)
    ensures ComponentHands([c], w) == Err(HandTooShort([c]))
  {
  }

  /** A single hand with an unknown rank character fails. */
  lemma SingleTermInvalidRank(comp: string, w: real)
    requires |comp| >= 2 && '-' !in comp && !(IsRank(comp[0]) && IsRank(comp[1]))
    ensures ComponentHands(comp, w) == Err(InvalidRanks(comp))
  {
    SingleTermIsSingle(comp, w);
  }

  /** A range term `start-end` with the first dash after `start`. */
  lemma RangeTermIsRange(start: string, end: string, w: real)
    requires |start| > 0 && '-' !in start
    ensures ComponentHands(start + ['-'] + end, w) == RangeTermHands(start + ['-'] + end, |start|, w)
  {
    var comp := start + ['-'] + end;
    forall k | 0 <= k < |start|
      ensures comp[k] != '-'
    {
      assert comp[k] == start[k];
    }
    FindFromFirst(comp, '-', 0, |start|);
    assert comp[..|start|] == start && comp[|start| + 1..] == end;
  }

  /** A range with an end shorter than two characters fails. */
  lemma RangeEndTooShort(start: string, end: string, w: real)
    requires |start| > 0 && '-' !in start && (|start| < 2 || |end| < 2)
    ensures ComponentHands(start + ['-'] + end, w) == Err(RangeTooShort(start + ['-'] + end))
  {
    RangeTermIsRange(start, end, w);
    var comp := start + ['-'] + end;
    assert comp[..|start|] == start && comp[|start| + 1..] == end;
  }

  /** A range with an unknown rank character among the first two of either end fails. */
  lemma RangeInvalidRank(start: string, end: string, w: real)
    requires |start| >= 2 && |end| >= 2 && '-' !in start
    requires !(IsRank(start[0]) && IsRank(start[1]) && IsRank(end[0]) && IsRank(end[1]))
    ensures ComponentHands(start + ['-'] + end, w) == Err(InvalidRangeRanks(start + ['-'] + end))
  {
    RangeTermIsRange(start, end, w);
    var comp := start + ['-'] + end;
    assert comp[..|start|] == start && comp[|start| + 1..] == end;
  }

  /** "QQ-TT": a range between two pairs is every pair between them, in either direction. */
  lemma PairRangeTerm(a: char, b: char, w: real)
    requires IsRank(a) && IsRank(b)
    ensures var ra, rb := CardAdapter.ParseRank(a), CardAdapter.ParseRank(b);
      ComponentHands([a, a, '-', b, b], w) == Ok(PairRange(ra, rb, w)) &&
      ComponentHands([b, b, '-', a, a], w) == Ok(PairRange(ra, rb, w)) &&
      |PairRange(ra, rb, w)| == 6 * (High(ra, rb) - Low(ra, rb) + 1)
  {
    var ra, rb := CardAdapter.ParseRank(a), CardAdapter.ParseRank(b);
    PairTermHands(a, b, w);
    PairTermHands(b, a, w);
    assert PairRange(rb, ra, w) == PairRange(ra, rb, w);
    PairRangeLength(ra, rb, w);
  }

  /** The term "xx-yy" of two pairs reads as the pair range between them. */
  lemma PairTermHands(x: char, y: char, w: real)
    requires IsRank(x) && IsRank(y)
    ensures ComponentHands([x, x, '-', y, y], w) == Ok(PairRange(CardAdapter.ParseRank(x), CardAdapter.ParseRank(y), w))
  {
    var comp := [x, x, '-', y, y];
    assert comp == [x, x] + ['-'] + [y, y];
    RangeTermIsRange([x, x], [y, y], w);
    assert comp[..2] == [x, x] && comp[3..] == [y, y];
  }

  /**
   * "AKs-ATs": a range with one first rank takes its suffix from the start
   * token only and covers every second rank between the two ends.
   */
  lemma NonPairRangeTerm(start: string, end: string, w: real)
    requires |start| >= 2 && |end| >= 2 && '-' !in start
    requires IsRank(start[0]) && IsRank(start[1]) && IsRank(end[0]) && IsRank(end[1])
    requires var r1, r2, e2 := CardAdapter.ParseRank(start[0]), CardAdapter.ParseRank(start[1]), CardAdapter.ParseRank(end[1]);
      CardAdapter.ParseRank(end[0]) == r1 && !(r2 == r1 && e2 == r1)
    ensures var r1, r2, e2 := CardAdapter.ParseRank(start[0]), CardAdapter.ParseRank(start[1]), CardAdapter.ParseRank(end[1]);
      ComponentHands(start + ['-'] + end, w) ==
        Ok(BySuffix(SuitedSuffix(start), OffsuitSuffix(start), SuitedRange(r1, r2, e2, w), OffsuitRange(r1, r2, e2, w)))
  {
    RangeTermIsRange(start, end, w);
    var comp := start + ['-'] + end;
    assert comp[..|start|] == start && comp[|start| + 1..] == end;
  }

  /** A range whose two ends have different first ranks, and are not both pairs, fails. */
  lemma RangeNeedsOneFirstRank(start: string, end: string, w: real)
    requires |start| >= 2 && |end| >= 2 && '-' !in start
    requires IsRank(start[0]) && IsRank(start[1]) && IsRank(end[0]) && IsRank(end[1])
    requires CardAdapter.ParseRank(start[0]) != CardAdapter.ParseRank(end[0])
    requires !(CardAdapter.ParseRank(start[0]) == CardAdapter.ParseRank(start[1]) &&
               CardAdapter.ParseRank(end[0]) == CardAdapter.ParseRank(end[1]))
    ensures ComponentHands(start + ['-'] + end, w) == Err(InvalidRangeFormat(start + ['-'] + end))
  {
    RangeTermIsRange(start, end, w);
    var comp := start + ['-'] + end;
    assert comp[..|start|] == start && comp[|start| + 1..] == end;
  }

  // ---------------------------------------------------------------------
  // The whole notation: the `Range(notation)` constructor.
  // ---------------------------------------------------------------------

  /** `isspace` in the C locale. */
  predicate IsSpace(ch: char) {
    ch == ' ' || ch == '\t' || ch == '\n' || ch == '\U{0B}' || ch == '\U{0C}' || ch == '\r'
  }

  /** The first position at or after i that is not white space, or |s|. */
  function SkipSpace(s: string, i: nat): (j: nat)
    requires i <= |s|
    ensures i <= j <= |s|
    ensures j < |s| ==> !IsSpace(s[j])
    decreases |s| - i
  {
    if i < |s| && IsSpace(s[i]) then SkipSpace(s, i + 1) else i
  }

  /** The end of s[lo..hi] once trailing white space is dropped. */
  function TrimEnd(s: string, lo: nat, hi: nat): (j: nat)
    requires lo <= hi <= |s|
    ensures lo <= j <= hi
    decreases hi - lo
  {
    if hi > lo && IsSpace(s[hi - 1]) then TrimEnd(s, lo, hi - 1) else hi
  }

  /**
   * One comma-separated item, trimmed: the text after its first colon is a
   * weight read by `parseWeight`, which stands for `std::stof` (None where
   * `stof` throws); without a colon the weight is 1.
   */
  function TermHands(comp: string, parseWeight: string -> Option<real>): Result<seq<Hand>, RangeError> {
    match IndexOf(comp, ':')
    case None => ComponentHands(comp, DefaultWeight)
    case Some(k) =>
      match parseWeight(comp[k + 1..])
      case None => Err(InvalidWeight(comp[k + 1..]))
      case Some(w) => ComponentHands(comp[..k], w)
  }

  /** What the constructor does with one trimmed, non-empty item. */
  type ItemReader = string -> Result<seq<Hand>, RangeError>

  /** The constructor's item reader for a given float parser. */
  function ReadItem(parseWeight: string -> Option<real>): ItemReader {
    t => TermHands(t, parseWeight)
  }

  /** The item that starts at `first`: up to the next comma, trailing white space dropped. */
  function ItemText(s: string, first: nat): string
    requires first <= |s|
  {
    s[first..TrimEnd(s, first, FindFrom(s, ',', first))]
  }

  /** Where the loop goes on after that item: past its comma, or past the end. */
  function ItemNext(s: string, first: nat): (n: nat)
    requires first <= |s|
    ensures n > first
  {
    FindFrom(s, ',', first) + 1
  }

  /** An empty item yields nothing; any other is read. */
  function ReadNonEmpty(t: string, read: ItemReader): Result<seq<Hand>, RangeError> {
    if |t| == 0 then Ok([]) else read(t)
  }

  /**
   * The constructor's loop from position `start`, with the hands found so
   * far in `acc`: skip white space, then read the item up to the next comma.
   */
  function NotationFrom(s: string, start: nat, read: ItemReader, acc: seq<Hand>): Result<seq<Hand>, RangeError>
    decreases |s| - start
  {
    if start >= |s| || SkipSpace(s, start) >= |s| then Ok(acc)
    else
      var first := SkipSpace(s, start);
      match ReadNonEmpty(ItemText(s, first), read)
      case Err(e) => Err(e)
      case Ok(hs) => NotationFrom(s, ItemNext(s, first), read, acc + hs)
  }

  /** The hands of a whole notation string, in the order the constructor appends them. */
  function ParseNotation(s: string, parseWeight: string -> Option<real>): Result<seq<Hand>, RangeError> {
    NotationFrom(s, 0, ReadItem(parseWeight), [])
  }

  /**
   * `Range(notation)`: a new range holding the hands of the notation, or the
   * error the first bad item raises.
   */
  method FromNotation(notation: string, parseWeight: string -> Option<real>) returns (r: Result<Range, RangeError>)
    ensures r.Ok? <==> ParseNotation(notation, parseWeight).Ok?
    ensures r.Ok? ==> fresh(r.value) && r.value.hands == ParseNotation(notation, parseWeight).value
    ensures r.Err? ==> r.error == ParseNotation(notation, parseWeight).error
  {
    var hands: seq<Hand> := [];
    var start: nat := 0;
    while start < |notation|
      invariant NotationFrom(notation, start, ReadItem(parseWeight), hands) == ParseNotation(notation, parseWeight)
      decreases |notation| - start
    {
      var first := SkipWhiteSpace(notation, start);
      if first >= |notation| {
        break;
      }
      var end := FindFrom(notation, ',', first);
      var compEnd := TrimWhiteSpace(notation, first, end);
      ghost var step := ReadNonEmpty(ItemText(notation, first), ReadItem(parseWeight));
      ghost var before := hands;
      NotationStep(notation, start, ReadItem(parseWeight), hands);
      assert notation[first..compEnd] == ItemText(notation, first);
      assert ItemNext(notation, first) == end + 1;
      if compEnd > first {
        assert step == TermHands(notation[first..compEnd], parseWeight);
        var res := ParseItem(notation[first..compEnd], parseWeight, hands);
        if res.Err? {
          return Err(res.error);
        }
        hands := res.value;
      } else {
        assert step == Ok([]) && hands + [] == hands;
      }
      assert step.Ok? && hands == before + step.value;
      start := end + 1;
    }
    var range := new Range();
    range.hands := hands;
    return Ok(range);
  }

  /** The constructor's loop that steps over leading white space. */
  method SkipWhiteSpace(s: string, i: nat) returns (j: nat)
    requires i <= |s|
    ensures j == SkipSpace(s, i)
  {
    j := i;
    while j < |s| && IsSpace(s[j])
      invariant i <= j <= |s|
      invariant SkipSpace(s, j) == SkipSpace(s, i)
    {
      j := j + 1;
    }
  }

  /** The constructor's loop that steps back over trailing white space, not below `lo`. */
  method TrimWhiteSpace(s: string, lo: nat, hi: nat) returns (j: nat)
    requires lo <= hi <= |s|
    ensures j == TrimEnd(s, lo, hi)
  {
    j := hi;
    while j > lo && IsSpace(s[j - 1])
      invariant lo <= j <= hi
      invariant TrimEnd(s, lo, j) == TrimEnd(s, lo, hi)
    {
      j := j - 1;
    }
  }

  /** One turn of the constructor's loop: the item after the white space is read, then the rest. */
  lemma NotationStep(s: string, start: nat, read: ItemReader, acc: seq<Hand>)
    requires start < |s| && SkipSpace(s, start) < |s|
    ensures var first := SkipSpace(s, start);
            var step := ReadNonEmpty(ItemText(s, first), read);
            NotationFrom(s, start, read, acc) ==
              if step.Err? then Err(step.error) else NotationFrom(s, ItemNext(s, first), read, acc + step.value)
  {
  }

  /** One trimmed item of the constructor's loop: its weight suffix read, its term appended to `out`. */
  method ParseItem(item: string, parseWeight: string -> Option<real>, out: seq<Hand>) returns (r: Result<seq<Hand>, RangeError>)
    ensures r == Extend(out, TermHands(item, parseWeight))
  {
    var component := item;
    var weight := DefaultWeight;
    var colon := IndexOf(item, ':');
    if colon.Some? {
      var weightText := item[colon.value + 1..];
      var parsed := parseWeight(weightText);
      if parsed.None? {
        return Err(InvalidWeight(weightText));
      }
      weight := parsed.value;
      component := item[..colon.value];
    }
    r := ParseComponent(component, weight, out);
  }

  // ---------------------------------------------------------------------
  // The range object and the board filters.
  // ---------------------------------------------------------------------

  /** The hand shares a card with the board's cards. */
  predicate Blocked(h: Hand, board: seq<CardIndex>) {
    h.card1 in board || h.card2 in board
  }

  /** The hands that share no card with the board, in their order. */
  function Unblocked(hs: seq<Hand>, board: seq<CardIndex>): seq<Hand>
    decreases |hs|
  {
    if hs == [] then []
    else Unblocked(hs[..|hs| - 1], board) + (if Blocked(hs[|hs| - 1], board) then [] else [hs[|hs| - 1]])
  }

  /** A weight per hand: 0 for a blocked hand, its own weight otherwise. */
  function ReachProbs(hs: seq<Hand>, board: seq<CardIndex>): (p: seq<real>)
    ensures |p| == |hs|
    ensures forall i :: 0 <= i < |hs| ==> p[i] == (if Blocked(hs[i], board) then 0.0 else hs[i].weight)
  {
    seq(|hs|, i requires 0 <= i < |hs| => if Blocked(hs[i], board) then 0.0 else hs[i].weight)
  }

  /** The weights of the hands, in order. */
  function Weights(hs: seq<Hand>): (ws: seq<real>)
    ensures |ws| == |hs| && forall i :: 0 <= i < |hs| ==> ws[i] == hs[i].weight
  {
    seq(|hs|, i requires 0 <= i < |hs| => hs[i].weight)
  }

  /** `Range`: a sequence of weighted hands. */
  class Range {
    var hands: seq<Hand>

    /** The default constructor: no hands. */
    constructor ()
      ensures hands == []
    {
      hands := [];
    }

    /** `size`. */
    function Size(): (n: nat)
      reads this
      ensures n == |hands|
    {
      |hands|
    }

    /** `empty`: no hand at all. */
    predicate Empty()
      reads this
      ensures Empty() <==> Size() == 0
      ensures Empty() <==> hands == []
    {
      |hands| == 0
    }

    /** `add(hand)`: appends the hand as it is. */
    method Add(hand: Hand)
      modifies this
      ensures hands == old(hands) + [hand]
    {
      hands := hands + [hand];
    }

    /** `add(c1, c2, weight)`: appends the canonical hand of the two cards. */
    method AddCards(c1: CardIndex, c2: CardIndex, weight: real)
      modifies this
      ensures hands == old(hands) + [MakeHand(c1, c2, weight)]
      ensures hands[|hands| - 1].Canonical()
    {
      hands := hands + [MakeHand(c1, c2, weight)];
    }

    /** `clear`. */
    method Clear()
      modifies this
      ensures hands == []
    {
      hands := [];
    }

    /** Every hand's cards have a bit in the card-set mask, as `overlaps` needs. */
    predicate AllInMask()
      reads this
    {
      forall i :: 0 <= i < |hands| ==> hands[i].InMask()
    }

    /** `remove_blocked`: keeps, in order, the hands that share no card with the board. */
    method RemoveBlocked(board: Boards.Board)
      requires board.Valid() && AllInMask()
      modifies this
      ensures hands == Unblocked(old(hands), board.Contents())
    {
      var kept: seq<Hand> := [];
      var i := 0;
      while i < |hands|
        invariant 0 <= i <= |hands|
        invariant kept == Unblocked(hands[..i], board.Contents())
      {
        var h := hands[i];
        assert hands[..i + 1][..i] == hands[..i];
        if !h.OverlapsBoard(board) {
          kept := kept + [h];
        }
        i := i + 1;
      }
      assert hands[..i] == hands;
      hands := kept;
    }

    /** `without_blocked`: a new range of the unblocked hands; this one is unchanged. */
    method WithoutBlocked(board: Boards.Board) returns (result: Range)
      requires board.Valid() && AllInMask()
      ensures fresh(result)
      ensures result.hands == Unblocked(hands, board.Contents())
    {
      result := new Range();
      var i := 0;
      while i < |hands|
        invariant 0 <= i <= |hands|
        invariant result.hands == Unblocked(hands[..i], board.Contents())
      {
        var h := hands[i];
        assert hands[..i + 1][..i] == hands[..i];
        if !h.OverlapsBoard(board) {
          result.Add(h);
        }
        i := i + 1;
      }
      assert hands[..i] == hands;
    }

    /** `get_initial_reach_probs`: one probability per hand, 0 where the board blocks it. */
    method GetInitialReachProbs(board: Boards.Board) returns (probs: seq<real>)
      requires board.Valid() && AllInMask()
      ensures probs == ReachProbs(hands, board.Contents())
    {
      var a := new real[|hands|];
      var i := 0;
      while i < |hands|
        invariant 0 <= i <= |hands|
        invariant forall k :: 0 <= k < i ==> a[k] == ReachProbs(hands, board.Contents())[k]
      {
        if hands[i].OverlapsBoard(board) {
          a[i] := 0.0;
        } else {
          a[i] := hands[i].weight;
        }
        i := i + 1;
      }
      probs := a[..];
    }
  }

  // ---------------------------------------------------------------------
  // What the filters keep.
  // ---------------------------------------------------------------------

  /** A hand is kept exactly when it was there and the board does not block it. */
  lemma {:induction false} UnblockedMembers(hs: seq<Hand>, board: seq<CardIndex>, x: Hand)
    ensures x in Unblocked(hs, board) <==> x in hs && !Blocked(x, board)
    decreases |hs|
  {
    if hs != [] {
      var init := hs[..|hs| - 1];
      UnblockedMembers(init, board, x);
      assert hs == init + [hs[|hs| - 1]];
    }
  }

  /** Filtering commutes with concatenation, so it keeps the order of the hands. */
  lemma {:induction false} UnblockedAppend(a: seq<Hand>, b: seq<Hand>, board: seq<CardIndex>)
    ensures Unblocked(a + b, board) == Unblocked(a, board) + Unblocked(b, board)
    decreases |b|
  {
    if b == [] {
      assert a + b == a;
    } else {
      var init := b[..|b| - 1];
      UnblockedAppend(a, init, board);
      assert (a + b)[..|a + b| - 1] == a + init;
    }
  }

  /** Filtering twice is filtering once. */
  lemma {:induction false} UnblockedIdempotent(hs: seq<Hand>, board: seq<CardIndex>)
    ensures Unblocked(Unblocked(hs, board), board) == Unblocked(hs, board)
    ensures |Unblocked(hs, board)| <= |hs|
    decreases |hs|
  {
    if hs != [] {
      var init := hs[..|hs| - 1];
      var last := hs[|hs| - 1];
      UnblockedIdempotent(init, board);
      UnblockedAppend(Unblocked(init, board), if Blocked(last, board) then [] else [last], board);
      assert Unblocked([last], board) == (if Blocked(last, board) then [] else [last]) by {
        assert [last][..0] == [];
      }
      assert Unblocked([], board) == [];
    }
  }

  /** An empty board blocks nothing. */
  lemma {:induction false} UnblockedByEmptyBoard(hs: seq<Hand>)
    ensures Unblocked(hs, []) == hs
    decreases |hs|
  {
    if hs != [] {
      UnblockedByEmptyBoard(hs[..|hs| - 1]);
    }
  }

  /** On the unblocked hands the reach probabilities are exactly the weights. */
  lemma ReachProbsOfUnblocked(hs: seq<Hand>, board: seq<CardIndex>)
    ensures ReachProbs(Unblocked(hs, board), board) == Weights(Unblocked(hs, board))
  {
    var u := Unblocked(hs, board);
    forall i | 0 <= i < |u|
      ensures !Blocked(u[i], board)
    {
      UnblockedMembers(hs, board, u[i]);
    }
  }

  // ---------------------------------------------------------------------
  // Every hand a term produces: two distinct deck cards, the term's weight.
  // ---------------------------------------------------------------------

  lemma ShapeAppend(a: seq<Hand>, b: seq<Hand>, w: real)
    requires AllWeighted(a, w) && AllCardHands(a) && AllWeighted(b, w) && AllCardHands(b)
    ensures AllWeighted(a + b, w) && AllCardHands(a + b)
  {
    forall i | |a| <= i < |a + b|
      ensures (a + b)[i] == b[i - |a|]
    {
    }
  }

  lemma CombosShape(r1: Byte, r2: Byte, w: real)
    requires r1 < NumRanks && r2 < NumRanks
    ensures AllWeighted(PairCombos(r1, w), w) && AllCardHands(PairCombos(r1, w))
    ensures r1 != r2 ==> AllWeighted(SuitedCombos(r1, r2, w), w) && AllCardHands(SuitedCombos(r1, r2, w))
    ensures r1 != r2 ==> AllWeighted(OffsuitCombos(r1, r2, w), w) && AllCardHands(OffsuitCombos(r1, r2, w))
  {
    PairCombosShape(r1, w);
    if r1 != r2 {
      var s, o := SuitedCombos(r1, r2, w), OffsuitCombos(r1, r2, w);
      forall i | 0 <= i < 4
        ensures s[i].weight == w && s[i].AreCards() && s[i].Canonical() && s[i].card1 != s[i].card2
      {
        ComboCards(r1, i, r2, i, w);
      }
      forall i | 0 <= i < 12
        ensures o[i].weight == w && o[i].AreCards() && o[i].Canonical() && o[i].card1 != o[i].card2
      {
        ComboCards(r1, OffsuitFirstSuit(i), r2, OffsuitSecondSuit(i), w);
      }
    }
  }

  lemma {:induction false} PairsUpToShape(lo: Byte, n: nat, w: real)
    requires lo + n <= NumRanks
    ensures AllWeighted(PairsUpTo(lo, n, w), w) && AllCardHands(PairsUpTo(lo, n, w))
  {
    if n > 0 {
      var r2: Byte := lo + n - 1;
      PairsUpToShape(lo, n - 1, w);
      PairCombosShape(r2, w);
      ShapeAppend(PairsUpTo(lo, n - 1, w), PairCombos(r2, w), w);
    }
  }

  lemma {:induction false} SuitedUpToShape(r1: Byte, lo: Byte, n: nat, w: real)
    requires r1 < NumRanks && lo + n <= NumRanks
    ensures AllWeighted(SuitedUpTo(r1, lo, n, w), w) && AllCardHands(SuitedUpTo(r1, lo, n, w))
  {
    if n > 0 {
      var r2: Byte := lo + n - 1;
      var prev, step := SuitedUpTo(r1, lo, n - 1, w), if r2 != r1 then SuitedCombos(r1, r2, w) else [];
      SuitedUpToShape(r1, lo, n - 1, w);
      assert AllWeighted(step, w) && AllCardHands(step) by {
        if r2 != r1 { CombosShape(r1, r2, w); }
      }
      ShapeAppend(prev, step, w);
      assert SuitedUpTo(r1, lo, n, w) == prev + step;
    }
  }

  lemma {:induction false} OffsuitUpToShape(r1: Byte, lo: Byte, n: nat, w: real)
    requires r1 < NumRanks && lo + n <= NumRanks
    ensures AllWeighted(OffsuitUpTo(r1, lo, n, w), w) && AllCardHands(OffsuitUpTo(r1, lo, n, w))
  {
    if n > 0 {
      var r2: Byte := lo + n - 1;
      var prev, step := OffsuitUpTo(r1, lo, n - 1, w), if r2 != r1 then OffsuitCombos(r1, r2, w) else [];
      OffsuitUpToShape(r1, lo, n - 1, w);
      assert AllWeighted(step, w) && AllCardHands(step) by {
        if r2 != r1 { CombosShape(r1, r2, w); }
      }
      ShapeAppend(prev, step, w);
      assert OffsuitUpTo(r1, lo, n, w) == prev + step;
    }
  }

  lemma IntervalShape(r1: Byte, a: Byte, b: Byte, suited: bool, offsuit: bool, w: real)
    requires r1 < NumRanks && a < NumRanks && b < NumRanks
    ensures AllWeighted(PairRange(a, b, w), w) && AllCardHands(PairRange(a, b, w))
    ensures var hs := BySuffix(suited, offsuit, SuitedRange(r1, a, b, w), OffsuitRange(r1, a, b, w));
      AllWeighted(hs, w) && AllCardHands(hs)
  {
    var lo := Low(a, b);
    var n: nat := High(a, b) as int - lo as int + 1;
    PairsUpToShape(lo, n, w);
    SuitedUpToShape(r1, lo, n, w);
    OffsuitUpToShape(r1, lo, n, w);
    ShapeAppend(SuitedRange(r1, a, b, w), OffsuitRange(r1, a, b, w), w);
  }

  lemma RangeTermShape(comp: string, d: nat, w: real)
    requires 0 < d < |comp|
    ensures RangeTermHands(comp, d, w).Ok? ==>
      AllWeighted(RangeTermHands(comp, d, w).value, w) && AllCardHands(RangeTermHands(comp, d, w).value)
  {
    var startHand, endHand := comp[..d], comp[d + 1..];
    if RangeTermHands(comp, d, w).Ok? {
      var r1, r2 := CardAdapter.ParseRank(startHand[0]), CardAdapter.ParseRank(startHand[1]);
      var e1, e2 := CardAdapter.ParseRank(endHand[0]), CardAdapter.ParseRank(endHand[1]);
      IntervalShape(r1, r1, e1, false, false, w);
      IntervalShape(r1, r2, e2, SuitedSuffix(startHand), OffsuitSuffix(startHand), w);
    }
  }

  lemma SingleTermShape(comp: string, w: real)
    ensures SingleTermHands(comp, w).Ok? ==>
      AllWeighted(SingleTermHands(comp, w).value, w) && AllCardHands(SingleTermHands(comp, w).value)
  {
    if SingleTermHands(comp, w).Ok? {
      var r1, r2 := CardAdapter.ParseRank(comp[0]), CardAdapter.ParseRank(comp[1]);
      if r1 == r2 {
        CombosShape(r1, r1, w);
      } else {
        CombosShape(High(r1, r2), Low(r1, r2), w);
        ShapeAppend(SuitedCombos(High(r1, r2), Low(r1, r2), w), OffsuitCombos(High(r1, r2), Low(r1, r2), w), w);
      }
    }
  }

  /**
   * Every hand a term yields is made of two distinct cards of the deck, in
   * canonical order, and carries the term's weight.
   */
  lemma ComponentShape(comp: string, w: real)
    ensures ComponentHands(comp, w).Ok? ==>
      AllWeighted(ComponentHands(comp, w).value, w) && AllCardHands(ComponentHands(comp, w).value)
  {
    if |comp| > 0 {
      var d := IndexOf(comp, '-');
      if d.Some? && d.value > 0 {
        RangeTermShape(comp, d.value, w);
      } else {
        SingleTermShape(comp, w);
      }
    }
  }

  // ---------------------------------------------------------------------
  // What a whole notation means.
  // ---------------------------------------------------------------------

  lemma ExtendAppend(acc: seq<Hand>, hs: seq<Hand>, r: Result<seq<Hand>, RangeError>)
    ensures Extend(acc, Extend(hs, r)) == Extend(acc + hs, r)
  {
    if r.Ok? {
      assert acc + (hs + r.value) == acc + hs + r.value;
    }
  }

  /** The loop's result is its accumulator followed by what the rest of the string yields. */
  lemma {:induction false} NotationAccumulates(s: string, i: nat, read: ItemReader, acc: seq<Hand>)
    ensures NotationFrom(s, i, read, acc) == Extend(acc, NotationFrom(s, i, read, []))
    decreases |s| - i
  {
    if i >= |s| || SkipSpace(s, i) >= |s| {
      assert acc + [] == acc;
    } else {
      var first := SkipSpace(s, i);
      var r := ReadNonEmpty(ItemText(s, first), read);
      if r.Ok? {
        var hs := r.value;
        NotationAccumulates(s, ItemNext(s, first), read, acc + hs);
        NotationAccumulates(s, ItemNext(s, first), read, [] + hs);
        ExtendAppend(acc, hs, NotationFrom(s, ItemNext(s, first), read, []));
        assert [] + hs == hs;
      }
    }
  }

  /** `b` stands at offset `off` of `s` and runs to its end. */
  predicate SuffixAt(s: string, off: nat, b: string) {
    off + |b| == |s| && forall k :: 0 <= k < |b| ==> s[off + k] == b[k]
  }

  lemma {:induction false} SkipSpaceShift(s: string, off: nat, b: string, i: nat)
    requires SuffixAt(s, off, b) && i <= |b|
    ensures SkipSpace(s, off + i) == off + SkipSpace(b, i)
    decreases |b| - i
  {
    if i < |b| {
      assert s[off + i] == b[i];
      SkipSpaceShift(s, off, b, i + 1);
    }
  }

  lemma {:induction false} FindFromShift(s: string, off: nat, b: string, ch: char, i: nat)
    requires SuffixAt(s, off, b) && i <= |b|
    ensures FindFrom(s, ch, off + i) == off + FindFrom(b, ch, i)
    decreases |b| - i
  {
    if i < |b| {
      assert s[off + i] == b[i];
      FindFromShift(s, off, b, ch, i + 1);
    }
  }

  lemma {:induction false} TrimEndShift(s: string, off: nat, b: string, lo: nat, hi: nat)
    requires SuffixAt(s, off, b) && lo <= hi <= |b|
    ensures TrimEnd(s, off + lo, off + hi) == off + TrimEnd(b, lo, hi)
    decreases hi - lo
  {
    if hi > lo {
      assert s[off + hi - 1] == b[hi - 1];
      TrimEndShift(s, off, b, lo, hi - 1);
    }
  }

  lemma ItemShift(s: string, off: nat, b: string, first: nat)
    requires SuffixAt(s, off, b) && first <= |b|
    ensures ItemText(s, off + first) == ItemText(b, first)
    ensures ItemNext(s, off + first) == off + ItemNext(b, first)
  {
    FindFromShift(s, off, b, ',', first);
    var end := FindFrom(b, ',', first);
    TrimEndShift(s, off, b, first, end);
    var lo, hi := first, TrimEnd(b, first, end);
    forall k | 0 <= k < hi - lo
      ensures s[off + lo..off + hi][k] == b[lo..hi][k]
    {
      assert s[off + lo + k] == b[lo + k];
    }
  }

  /** Text placed before a position does not change what the loop reads from there on. */
  lemma {:induction false} NotationShift(s: string, off: nat, b: string, i: nat, read: ItemReader, acc: seq<Hand>)
    requires SuffixAt(s, off, b)
    ensures NotationFrom(s, off + i, read, acc) == NotationFrom(b, i, read, acc)
    decreases |b| - i
  {
    if i < |b| {
      SkipSpaceShift(s, off, b, i);
      var first := SkipSpace(b, i);
      if first < |b| {
        ItemShift(s, off, b, first);
        var r := ReadNonEmpty(ItemText(b, first), read);
        if r.Ok? {
          NotationShift(s, off, b, ItemNext(b, first), read, acc + r.value);
        }
      }
    }
  }

  lemma {:induction false} SkipSpacePrefix(a: string, c: string, i: nat)
    requires i <= |a|
    ensures SkipSpace(a, i) < |a| ==> SkipSpace(a + c, i) == SkipSpace(a, i)
    ensures SkipSpace(a, i) == |a| ==> SkipSpace(a + c, i) == SkipSpace(a + c, |a|)
    decreases |a| - i
  {
    if i < |a| {
      assert (a + c)[i] == a[i];
      SkipSpacePrefix(a, c, i + 1);
    }
  }

  lemma {:induction false} TrimEndPrefix(a: string, c: string, lo: nat, hi: nat)
    requires lo <= hi <= |a|
    ensures TrimEnd(a + c, lo, hi) == TrimEnd(a, lo, hi)
    decreases hi - lo
  {
    if hi > lo {
      assert (a + c)[hi - 1] == a[hi - 1];
      TrimEndPrefix(a, c, lo, hi - 1);
    }
  }

  /** An item of a string with no comma runs to the end of the string. */
  lemma ItemWithoutComma(a: string, first: nat)
    requires ',' !in a && first <= |a|
    ensures ItemText(a, first) == a[first..TrimEnd(a, first, |a|)]
    ensures ItemNext(a, first) == |a| + 1
  {
    assert forall k :: 0 <= k < |a| ==> a[k] != ',';
    FindFromAbsent(a, ',', first);
  }

  /** An item followed by a comma: it is the same item as in the text before the comma. */
  lemma ItemBeforeComma(a: string, b: string, first: nat)
    requires ',' !in a && first <= |a|
    ensures ItemText(a + [','] + b, first) == ItemText(a, first)
    ensures ItemNext(a + [','] + b, first) == |a| + 1
  {
    var s := a + [','] + b;
    var c := [','] + b;
    assert s == a + c;
    assert forall k :: 0 <= k < |a| ==> s[k] == a[k] && a[k] != ',';
    assert s[|a|] == ',';
    ItemWithoutComma(a, first);
    FindFromFirst(s, ',', first, |a|);
    TrimEndPrefix(a, c, first, |a|);
    var hi := TrimEnd(a, first, |a|);
    assert s[first..hi] == a[first..hi];
  }

  /** Reading up to the first comma: the item before it is read as if it stood alone. */
  lemma NotationPrefix(a: string, b: string, i: nat, read: ItemReader, acc: seq<Hand>)
    requires ',' !in a && i <= |a|
    ensures NotationFrom(a + [','] + b, i, read, acc) ==
      if NotationFrom(a, i, read, acc).Err? then NotationFrom(a, i, read, acc)
      else NotationFrom(a + [','] + b, |a| + 1, read, NotationFrom(a, i, read, acc).value)
  {
    var s := a + [','] + b;
    assert s == a + ([','] + b);
    assert s[|a|] == ',';
    SkipSpacePrefix(a, [','] + b, i);
    var first := SkipSpace(a, i);
    if first < |a| {
      ItemBeforeComma(a, b, first);
      ItemWithoutComma(a, first);
    } else {
      assert SkipSpace(s, |a|) == |a|;
      ItemBeforeComma(a, b, |a|);
      assert ItemText(s, |a|) == [];
      assert acc + [] == acc;
    }
  }

  /**
   * A comma joins two lists: the hands of `a,b` are the hands of `a`
   * followed by those of `b`, and an error in `a` is reported first.
   */
  lemma NotationConcat(a: string, b: string, read: ItemReader)
    requires ',' !in a
    ensures NotationFrom(a + [','] + b, 0, read, []) ==
      if NotationFrom(a, 0, read, []).Err? then NotationFrom(a, 0, read, [])
      else Extend(NotationFrom(a, 0, read, []).value, NotationFrom(b, 0, read, []))
  {
    NotationPrefix(a, b, 0, read, []);
    var r := NotationFrom(a, 0, read, []);
    if r.Ok? {
      var s := a + [','] + b;
      assert forall k :: 0 <= k < |b| ==> s[|a| + 1 + k] == b[k];
      NotationShift(s, |a| + 1, b, 0, read, r.value);
      NotationAccumulates(b, 0, read, r.value);
    }
  }

  /** A notation of nothing but white space and commas holds no hand. */
  lemma {:induction false} BlankNotation(s: string, i: nat, read: ItemReader, acc: seq<Hand>)
    requires forall k :: i <= k < |s| ==> IsSpace(s[k]) || s[k] == ','
    ensures NotationFrom(s, i, read, acc) == Ok(acc)
    decreases |s| - i
  {
    if i < |s| {
      var first := SkipSpace(s, i);
      if first < |s| {
        FindFromFirst(s, ',', first, first);
        assert ItemText(s, first) == [];
        assert acc + [] == acc;
        BlankNotation(s, first + 1, read, acc);
      }
    }
  }

  /** All white space: SkipSpace reaches the first other character. */
  lemma {:induction false} SkipSpaceOver(s: string, i: nat, j: nat)
    requires i <= j <= |s| && (j < |s| ==> !IsSpace(s[j]))
    requires forall k :: i <= k < j ==> IsSpace(s[k])
    ensures SkipSpace(s, i) == j
    decreases j - i
  {
    if i < j {
      SkipSpaceOver(s, i + 1, j);
    }
  }

  /** Trailing white space is dropped back to the last other character. */
  lemma {:induction false} TrimEndOver(s: string, lo: nat, k: nat, hi: nat)
    requires lo < k <= hi <= |s| && !IsSpace(s[k - 1])
    requires forall m :: k <= m < hi ==> IsSpace(s[m])
    ensures TrimEnd(s, lo, hi) == k
    decreases hi - k
  {
    if hi > k {
      TrimEndOver(s, lo, k, hi - 1);
    }
  }

  /** An all-white-space string. */
  predicate Blank(s: string) {
    forall k :: 0 <= k < |s| ==> IsSpace(s[k])
  }

  /** One item with white space around it is read as the item alone. */
  lemma PaddedItem(before: string, t: string, after: string, read: ItemReader)
    requires Blank(before) && Blank(after)
    requires |t| > 0 && !IsSpace(t[0]) && !IsSpace(t[|t| - 1]) && ',' !in t
    ensures NotationFrom(before + t + after, 0, read, []) == read(t)
  {
    var s := before + t + after;
    var lo, hi := |before|, |before| + |t|;
    assert forall k :: 0 <= k < lo ==> s[k] == before[k];
    assert forall k :: lo <= k < hi ==> s[k] == t[k - lo];
    assert forall k :: hi <= k < |s| ==> s[k] == after[k - hi];
    SkipSpaceOver(s, 0, lo);
    forall k | 0 <= k < |s|
      ensures s[k] != ','
    {
      if k < lo {
        assert IsSpace(before[k]);
      } else if k < hi {
        assert s[k] == t[k - lo];
      } else {
        assert IsSpace(after[k - hi]);
      }
    }
    ItemWithoutComma(s, lo);
    TrimEndOver(s, lo, hi, |s|);
    assert s[lo..hi] == t;
    var r := read(t);
    if r.Ok? {
      assert [] + r.value == r.value;
    }
  }

  /** Without a colon an item has the weight 1. */
  lemma UnweightedItem(t: string, pw: string -> Option<real>)
    requires ':' !in t
    ensures ReadItem(pw)(t) == ComponentHands(t, DefaultWeight)
  {
    assert forall k :: 0 <= k < |t| ==> t[k] != ':';
    FindFromAbsent(t, ':', 0);
  }

  /** "AA:0.5": the text after the colon is the weight of every hand of the term before it. */
  lemma WeightedItem(t: string, weightText: string, pw: string -> Option<real>)
    requires ':' !in t
    ensures ReadItem(pw)(t + [':'] + weightText) ==
      match pw(weightText)
      case None => Err(InvalidWeight(weightText))
      case Some(w) => ComponentHands(t, w)
  {
    var item := t + [':'] + weightText;
    assert forall k :: 0 <= k < |t| ==> item[k] == t[k] && t[k] != ':';
    FindFromFirst(item, ':', 0, |t|);
    assert item[..|t|] == t && item[|t| + 1..] == weightText;
  }

  lemma CardHandsAppend(a: seq<Hand>, b: seq<Hand>)
    requires AllCardHands(a) && AllCardHands(b)
    ensures AllCardHands(a + b)
  {
    forall i | |a| <= i < |a + b|
      ensures (a + b)[i] == b[i - |a|]
    {
    }
  }

  /** Every hand an item yields is made of two distinct deck cards. */
  lemma ItemCardHands(t: string, pw: string -> Option<real>)
    ensures ReadItem(pw)(t).Ok? ==> AllCardHands(ReadItem(pw)(t).value)
  {
    match IndexOf(t, ':')
    case None => ComponentShape(t, DefaultWeight);
    case Some(k) =>
      match pw(t[k + 1..])
      case None =>
      case Some(w) => ComponentShape(t[..k], w);
  }

  lemma {:induction false} NotationCardHandsFrom(s: string, i: nat, read: ItemReader, acc: seq<Hand>)
    requires AllCardHands(acc)
    requires forall t :: read(t).Ok? ==> AllCardHands(read(t).value)
    ensures NotationFrom(s, i, read, acc).Ok? ==> AllCardHands(NotationFrom(s, i, read, acc).value)
    decreases |s| - i
  {
    if i < |s| && SkipSpace(s, i) < |s| {
      var first := SkipSpace(s, i);
      var r := ReadNonEmpty(ItemText(s, first), read);
      if r.Ok? {
        CardHandsAppend(acc, r.value);
        NotationCardHandsFrom(s, ItemNext(s, first), read, acc + r.value);
      }
    }
  }

  /** Every hand of a parsed notation is made of two distinct cards of the deck, in canonical order. */
  lemma NotationCardHands(s: string, pw: string -> Option<real>)
    ensures ParseNotation(s, pw).Ok? ==> AllCardHands(ParseNotation(s, pw).value)
  {
    forall t
      ensures ReadItem(pw)(t).Ok? ==> AllCardHands(ReadItem(pw)(t).value)
    {
      ItemCardHands(t, pw);
    }
    NotationCardHandsFrom(s, 0, ReadItem(pw), []);
  }

  /** No white space, comma or colon anywhere. */
  predicate Plain(t: string) {
    forall k :: 0 <= k < |t| ==> !IsSpace(t[k]) && t[k] != ',' && t[k] != ':'
  }

  /** A lone plain item is one term of weight 1. */
  lemma PlainItem(t: string, pw: string -> Option<real>)
    requires |t| > 0 && Plain(t)
    ensures NotationFrom(t, 0, ReadItem(pw), []) == ComponentHands(t, DefaultWeight)
  {
    assert ',' !in t && ':' !in t by {
      forall k | 0 <= k < |t|
        ensures t[k] != ',' && t[k] != ':'
      {
      }
    }
    assert !IsSpace(t[0]) && !IsSpace(t[|t| - 1]);
    PaddedItem([], t, [], ReadItem(pw));
    assert [] + t + [] == t;
    UnweightedItem(t, pw);
  }

  /** Two rank characters, with or without an s or o suffix, make a plain item. */
  lemma TwoRanksArePlain(ab: string)
    requires |ab| == 2 && IsRank(ab[0]) && IsRank(ab[1])
    ensures Plain(ab) && Plain(ab + ['s']) && Plain(ab + ['o'])
  {
  }

  /** "AK" and "AKs,AKo" are the same range. */
  lemma NoSuffixIsBothNotation(ab: string, pw: string -> Option<real>)
    requires |ab| == 2 && IsRank(ab[0]) && IsRank(ab[1])
    requires CardAdapter.ParseRank(ab[0]) != CardAdapter.ParseRank(ab[1])
    ensures ParseNotation(ab, pw) == ParseNotation(ab + ['s', ','] + ab + ['o'], pw)
  {
    var abs, abo := ab + ['s'], ab + ['o'];
    assert ab + ['s', ','] + ab + ['o'] == abs + [','] + abo;
    TwoRanksArePlain(ab);
    assert ',' !in abs by {
      assert forall k :: 0 <= k < |abs| ==> abs[k] != ',';
    }
    NotationConcat(abs, abo, ReadItem(pw));
    PlainItem(ab, pw);
    PlainItem(abs, pw);
    PlainItem(abo, pw);
    assert ab == [ab[0], ab[1]] && abs == [ab[0], ab[1], 's'] && abo == [ab[0], ab[1], 'o'];
    NoSuffixIsBoth(ab[0], ab[1], DefaultWeight);
  }

  /** "AA,KK": the first pair's six hands, then the second's, all of weight 1. */
  lemma TwoPairItems(p: string, q: string, pw: string -> Option<real>)
    requires |p| == 2 && IsRank(p[0]) && CardAdapter.ParseRank(p[0]) == CardAdapter.ParseRank(p[1])
    requires |q| == 2 && IsRank(q[0]) && CardAdapter.ParseRank(q[0]) == CardAdapter.ParseRank(q[1])
    ensures ParseNotation(p + [','] + q, pw) ==
      Ok(PairCombos(CardAdapter.ParseRank(p[0]), DefaultWeight) + PairCombos(CardAdapter.ParseRank(q[0]), DefaultWeight))
  {
    TwoRanksArePlain(p);
    TwoRanksArePlain(q);
    assert ',' !in p by {
      assert forall k :: 0 <= k < |p| ==> p[k] != ',';
    }
    NotationConcat(p, q, ReadItem(pw));
    PlainItem(p, pw);
    PlainItem(q, pw);
    assert ComponentHands(p, DefaultWeight) == Ok(PairCombos(CardAdapter.ParseRank(p[0]), DefaultWeight)) by {
      assert p == [p[0], p[1]] + [];
      PairIgnoresSuffix(p[0], p[1], [], DefaultWeight);
    }
    assert ComponentHands(q, DefaultWeight) == Ok(PairCombos(CardAdapter.ParseRank(q[0]), DefaultWeight)) by {
      assert q == [q[0], q[1]] + [];
      PairIgnoresSuffix(q[0], q[1], [], DefaultWeight);
    }
  }

  /** "QQ-TT" yields tens, then jacks, then queens: the lowest rank first. */
  lemma QueensToTensTerm(w: real)
    ensures ComponentHands("QQ-TT", w) ==
      Ok(PairCombos(RankTen, w) + PairCombos(RankJack, w) + PairCombos(RankQueen, w))
  {
    assert "QQ-TT" == ['Q', 'Q', '-', 'T', 'T'];
    PairRangeTerm('Q', 'T', w);
    PairRangeQueensToTens(w);
  }

  /** "AKs-ATs" yields ace-ten, ace-jack, ace-queen, then ace-king suited. */
  lemma AceKingToAceTenSuitedTerm(w: real)
    ensures ComponentHands("AKs-ATs", w) ==
      Ok(SuitedCombos(RankAce, RankTen, w) + SuitedCombos(RankAce, RankJack, w) +
         SuitedCombos(RankAce, RankQueen, w) + SuitedCombos(RankAce, RankKing, w))
  {
    var st, en := ['A', 'K', 's'], ['A', 'T', 's'];
    assert "AKs-ATs" == st + ['-'] + en;
    assert '-' !in st;
    assert CardAdapter.ParseRank('A') == RankAce && CardAdapter.ParseRank('K') == RankKing;
    assert CardAdapter.ParseRank('T') == RankTen;
    assert SuitedSuffix(st);
    NonPairRangeTerm(st, en, w);
    SuitedRangeAceKingToAceTen(w);
  }
}
