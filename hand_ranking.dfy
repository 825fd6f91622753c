/**
 * The solver's single-integer hand ranking: a hand evaluation packed into
 * a 32-bit signed integer, category in bits 20-23, then up to five
 * tiebreakers of four bits each, so that a larger integer is a better hand.
 */
module HandRanking {
  import opened Wrappers
  import opened Types
  import Cards
  import CardAdapter
  import Boards
  import HandEvaluation

  /** `int32_t`. */
  type Int32 = x: int | -0x8000_0000 <= x < 0x8000_0000

  /** `1 << 20`, where the category starts. */
  const TwoTo20: nat := 0x10_0000

  /** `1 << n`. */
  function Pow2(n: nat): (p: nat)
    ensures p >= 1
  {
    if n == 0 then 1 else 2 * Pow2(n - 1)
  }

  /** `x << n`. */
  function ShiftLeft(x: nat, n: nat): nat {
    x * Pow2(n)
  }

  lemma {:induction false} Pow2Add(m: nat, n: nat)
    ensures Pow2(m + n) == Pow2(m) * Pow2(n)
    decreases m
  {
    if m > 0 {
      Pow2Add(m - 1, n);
      assert Pow2(m + n) == 2 * Pow2(m - 1 + n);
    }
  }

  /** Four bits further up is sixteen times as much. */
  lemma Pow2Nibble(n: nat)
    ensures Pow2(n + 4) == 16 * Pow2(n)
  {
    Pow2Add(4, n);
  }

  // ---------------------------------------------------------------------
  // Bitwise OR on non-negative integers
  // ---------------------------------------------------------------------

  /** `|` on non-negative integers, bit by bit from the lowest. */
  function Or(a: nat, b: nat): nat
    decreases a + b
  {
    if a == 0 then b
    else if b == 0 then a
    else 2 * Or(a / 2, b / 2) + (if a % 2 == 1 || b % 2 == 1 then 1 else 0)
  }

  /**
   * OR with a value below bit `n` into a multiple of `2^n` sets bits that
   * were clear: it is addition.
   */
  lemma {:induction false} OrDisjoint(a: nat, b: nat, k: nat, n: nat)
    requires a == k * Pow2(n) && b < Pow2(n)
    ensures Or(a, b) == a + b
    decreases n
  {
    if n > 0 && a != 0 && b != 0 {
      assert a == 2 * (k * Pow2(n - 1));
      assert a / 2 == k * Pow2(n - 1) && a % 2 == 0;
      assert b / 2 < Pow2(n - 1);
      OrDisjoint(a / 2, b / 2, k, n - 1);
    }
  }

  // ---------------------------------------------------------------------
  // The encoding
  // ---------------------------------------------------------------------

  /** `tb & 0xF`: a tiebreaker's low four bits. */
  function Nibble(x: Byte): (v: nat)
    ensures v < 16 && (x < 16 ==> v == x)
  {
    x % 16
  }

  /**
   * The weight of the lowest bit of the `n`-th nibble slot counted from bit
   * 20 downwards: `1 << (20 - 4 * n)`. Tiebreaker `i` lands in slot `i + 1`.
   */
  function Unit(n: nat): (u: nat)
    requires n <= 5
    ensures u >= 1
  {
    match n
    case 0 => 0x10_0000
    case 1 => 0x1_0000
    case 2 => 0x1000
    case 3 => 0x100
    case 4 => 0x10
    case _ => 1
  }

  /** A slot's unit is the power of two the source shifts by. */
  lemma {:induction false} UnitIsPow2(n: nat)
    requires n <= 5
    ensures Unit(n) == Pow2(20 - 4 * n)
    decreases 5 - n
  {
    if n == 5 {
      assert Pow2(0) == 1;
    } else {
      UnitIsPow2(n + 1);
      Pow2Nibble(20 - 4 * (n + 1));
    }
  }

  /** The nibbles of the first `n` tiebreakers, the first at bits 16-19, the next four bits lower, and so on. */
  function Packed(tb: seq<Byte>, n: nat): nat
    requires n <= |tb| && n <= 5
  {
    if n == 0 then 0 else Packed(tb, n - 1) + Nibble(tb[n - 1]) * Unit(n)
  }

  /** The first `n` nibbles stay below bit 20 and leave the bits under the last one clear. */
  lemma {:induction false} PackedBound(tb: seq<Byte>, n: nat)
    requires n <= |tb| && n <= 5
    ensures Packed(tb, n) + Unit(n) <= TwoTo20
  {
    if n > 0 {
      PackedBound(tb, n - 1);
      var u, d := Unit(n), Nibble(tb[n - 1]);
      assert Unit(n - 1) == 16 * u;
      assert d * u <= 15 * u;
    }
  }

  /** The first `n` nibbles are a multiple of the last slot's unit. */
  lemma {:induction false} PackedMultiple(tb: seq<Byte>, n: nat) returns (k: nat)
    requires n <= |tb| && n <= 5
    ensures Packed(tb, n) == k * Unit(n)
  {
    if n == 0 {
      k := 0;
    } else {
      var k0 := PackedMultiple(tb, n - 1);
      var u, d := Unit(n), Nibble(tb[n - 1]);
      assert Unit(n - 1) == 16 * u;
      k := 16 * k0 + d;
      calc {
        Packed(tb, n);
        k0 * (16 * u) + d * u;
        (16 * k0 + d) * u;
      }
    }
  }

  /** How many tiebreakers the encoding keeps: at most five. */
  function Kept(tb: seq<Byte>): (n: nat)
    ensures n <= |tb| && n <= 5
  {
    if |tb| < 5 then |tb| else 5
  }

  /**
   * `encode`: the category's number shifted to bit 20, joined with the kept
   * tiebreakers' nibbles. It never overflows: it lies in [1<<20, 11<<20).
   */
  function EncodeSpec(result: HandEvaluation.HandResult): (e: Int32)
    ensures TwoTo20 <= e < 11 * TwoTo20
  {
    PackedBound(result.tiebreakers, Kept(result.tiebreakers));
    result.rank.Value() * TwoTo20 + Packed(result.tiebreakers, Kept(result.tiebreakers))
  }

  /** The category bits are a multiple of every slot's unit. */
  lemma CategoryMultiple(v: nat, i: nat) returns (q: nat)
    requires i <= 5
    ensures v * TwoTo20 == q * Unit(i)
  {
    q := v * (TwoTo20 / Unit(i));
    assert TwoTo20 == (TwoTo20 / Unit(i)) * Unit(i);
  }

  /** One round of `encode`'s loop: the next nibble ORed in lands on clear bits. */
  lemma EncodeStep(v: nat, tb: seq<Byte>, i: nat)
    requires i < |tb| && i < 5
    ensures Or(v * TwoTo20 + Packed(tb, i), ShiftLeft(Nibble(tb[i]), 16 - 4 * i)) == v * TwoTo20 + Packed(tb, i + 1)
  {
    var a := v * TwoTo20 + Packed(tb, i);
    var u, u1 := Unit(i), Unit(i + 1);
    var d := Nibble(tb[i]);
    var k := PackedMultiple(tb, i);
    var q := CategoryMultiple(v, i);
    assert a == (q + k) * u;
    assert u == 16 * u1 && d * u1 < u;
    UnitIsPow2(i);
    UnitIsPow2(i + 1);
    assert ShiftLeft(d, 16 - 4 * i) == d * u1;
    OrDisjoint(a, d * u1, q + k, 20 - 4 * i);
    assert Packed(tb, i + 1) == Packed(tb, i) + d * u1;
  }

  /**
   * `encode`: the category shifted into place, then one OR per kept
   * tiebreaker; the result is the packing `EncodeSpec` describes.
   */
  method Encode(result: HandEvaluation.HandResult) returns (encoded: Int32)
    ensures encoded == EncodeSpec(result)
  {
    var tb := result.tiebreakers;
    var e: nat := result.rank.Value() * TwoTo20;
    ghost var category := e;
    var i := 0;
    while i < |tb| && i < 5
      invariant i <= |tb| && i <= 5
      invariant e == category + Packed(tb, i)
    {
      var shift: nat := 16 - 4 * i;
      EncodeStep(result.rank.Value(), tb, i);
      e := Or(e, ShiftLeft(Nibble(tb[i]), shift));
      i := i + 1;
    }
    PackedBound(tb, i);
    encoded := e;
  }

  /**
   * `decode_hand_type`: bits 20-23. The shift is arithmetic, which is
   * division rounding down, and the mask keeps the non-negative remainder
   * modulo 16, for negative rankings too. The C++ cast gives a value
   * outside the enumeration for 0 and 11-15; `DecodedRank` says `None`.
   */
  function DecodeHandType(ranking: Int32): (code: int)
    ensures 0 <= code < 16
  {
    (ranking / TwoTo20) % 16
  }

  /** The category whose enumeration value `decode_hand_type` gives, if there is one. */
  function DecodedRank(ranking: Int32): Option<HandEvaluation.HandRank> {
    HandEvaluation.RankOfValue(DecodeHandType(ranking))
  }

  /** Decoding an encoding gives back its category. */
  lemma DecodeEncode(result: HandEvaluation.HandResult)
    ensures DecodeHandType(EncodeSpec(result)) == result.rank.Value()
    ensures DecodedRank(EncodeSpec(result)) == Some(result.rank)
  {
    var tb := result.tiebreakers;
    PackedBound(tb, Kept(tb));
    var v, p := result.rank.Value(), Packed(tb, Kept(tb));
    assert (v * TwoTo20 + p) / TwoTo20 == v;
    HandEvaluation.ValueIsInjective(DecodedRank(EncodeSpec(result)).value, result.rank);
  }

  /** A higher category always encodes larger, whatever the tiebreakers. */
  lemma EncodeCategoryOrder(r1: HandEvaluation.HandResult, r2: HandEvaluation.HandResult)
    requires r1.rank.Value() < r2.rank.Value()
    ensures EncodeSpec(r1) < EncodeSpec(r2)
  {
    var tb1 := r1.tiebreakers;
    PackedBound(tb1, Kept(tb1));
  }

  /** An encoded pair beats an encoded high card, and an encoded flush an encoded straight. */
  lemma PairBeatsHighCardFlushBeatsStraight(pair: HandEvaluation.HandResult, high: HandEvaluation.HandResult,
                                            flush: HandEvaluation.HandResult, straight: HandEvaluation.HandResult)
    requires pair.rank == HandEvaluation.OnePair && high.rank == HandEvaluation.HighCard
    requires flush.rank == HandEvaluation.Flush && straight.rank == HandEvaluation.Straight
    ensures EncodeSpec(pair) > EncodeSpec(high) && EncodeSpec(flush) > EncodeSpec(straight)
  {
    EncodeCategoryOrder(high, pair);
    EncodeCategoryOrder(straight, flush);
  }

  /** Equal prefixes pack alike. */
  lemma {:induction false} PackedAgree(a: seq<Byte>, b: seq<Byte>, n: nat)
    requires n <= |a| && n <= |b| && n <= 5 && HandEvaluation.AgreeBelow(a, b, n)
    ensures Packed(a, n) == Packed(b, n)
  {
    if n > 0 {
      PackedAgree(a, b, n - 1);
    }
  }

  /**
   * A first difference at `i`, with that tiebreaker of `b` the larger and
   * below 16, makes `b`'s packing larger by at least the last nibble's unit.
   */
  lemma {:induction false} PackedLess(a: seq<Byte>, b: seq<Byte>, i: nat, n: nat)
    requires i < n <= 5 && n <= |a| && n <= |b|
    requires a[i] < b[i] < 16 && HandEvaluation.AgreeBelow(a, b, i)
    ensures Packed(a, n) + Unit(n) <= Packed(b, n)
    decreases n
  {
    var u := Unit(n);
    if n == i + 1 {
      PackedAgree(a, b, i);
      assert Nibble(b[i]) * u >= Nibble(a[i]) * u + u;
    } else {
      PackedLess(a, b, i, n - 1);
      assert Unit(n - 1) == 16 * u;
      assert Nibble(a[n - 1]) * u <= 15 * u;
    }
  }

  /**
   * Within one category, with equally many tiebreakers, at most five and
   * each below 16, the encoding orders results as `operator<` does, and
   * encodes alike exactly the results with the same tiebreakers.
   */
  lemma EncodeTiebreakOrder(r1: HandEvaluation.HandResult, r2: HandEvaluation.HandResult)
    requires r1.rank == r2.rank && |r1.tiebreakers| == |r2.tiebreakers| <= 5
    requires forall i :: 0 <= i < |r1.tiebreakers| ==> r1.tiebreakers[i] < 16 && r2.tiebreakers[i] < 16
    ensures HandEvaluation.Less(r1, r2) <==> EncodeSpec(r1) < EncodeSpec(r2)
    ensures r1.tiebreakers == r2.tiebreakers <==> EncodeSpec(r1) == EncodeSpec(r2)
  {
    var a, b := r1.tiebreakers, r2.tiebreakers;
    var n := |a|;
    if HandEvaluation.AgreeBelow(a, b, n) {
      assert a == b;
      HandEvaluation.NoDifference(a, b);
    } else {
      var i := HandEvaluation.FirstDisagreement(a, b, n);
      HandEvaluation.FirstDifference(a, b, i);
      if a[i] < b[i] {
        PackedLess(a, b, i, n);
      } else {
        assert HandEvaluation.AgreeBelow(b, a, i);
        PackedLess(b, a, i, n);
      }
    }
  }

  /**
   * The ranking orders evaluated hands exactly as the evaluator does: a
   * smaller encoding is a `operator<`-smaller result, an equal encoding an
   * `operator==`-equal one. Higher values are better hands.
   */
  lemma EncodeOrderAgrees(cards1: seq<Cards.Card>, cards2: seq<Cards.Card>)
    requires |cards1| >= 5 && |cards2| >= 5
    ensures var r1, r2 := HandEvaluation.EvaluateSpec(cards1).value, HandEvaluation.EvaluateSpec(cards2).value;
            (HandEvaluation.Less(r1, r2) <==> EncodeSpec(r1) < EncodeSpec(r2)) &&
            (HandEvaluation.Equivalent(r1, r2) <==> EncodeSpec(r1) == EncodeSpec(r2))
  {
    var r1, r2 := HandEvaluation.EvaluateSpec(cards1).value, HandEvaluation.EvaluateSpec(cards2).value;
    HandEvaluation.EvaluateTiebreakers(cards1);
    HandEvaluation.EvaluateTiebreakers(cards2);
    if r1.rank != r2.rank {
      if r1.rank.Value() < r2.rank.Value() {
        EncodeCategoryOrder(r1, r2);
      } else {
        HandEvaluation.ValueIsInjective(r1.rank, r2.rank);
        EncodeCategoryOrder(r2, r1);
      }
    } else {
      EncodeTiebreakOrder(r1, r2);
      EncodeTiebreakOrder(r2, r1);
      if r1.tiebreakers == r2.tiebreakers {
        assert r1 == r2;
        HandEvaluation.LessIsStrictOrder(r1, r1, r1);
      }
    }
  }

  // ---------------------------------------------------------------------
  // Comparison
  // ---------------------------------------------------------------------

  /** `compare`: 1, -1 or 0 by which ranking is larger. */
  function Compare(rank1: Int32, rank2: Int32): (c: int)
    ensures c == 1 || c == 0 || c == -1
  {
    if rank1 > rank2 then 1
    else if rank1 < rank2 then -1
    else 0
  }

  /** `compare` is the sign of the difference: antisymmetric, zero on equal rankings, transitive. */
  lemma CompareIsSign(a: Int32, b: Int32, c: Int32)
    ensures Compare(a, b) == -Compare(b, a)
    ensures Compare(a, b) == 0 <==> a == b
    ensures Compare(a, a) == 0
    ensures Compare(a, b) > 0 <==> a > b
    ensures Compare(a, b) > 0 && Compare(b, c) > 0 ==> Compare(a, c) > 0
  {
  }

  // ---------------------------------------------------------------------
  // Evaluation
  // ---------------------------------------------------------------------

  /** `to_card` over a sequence of indices. */
  function ToGameCards(indices: seq<CardIndex>): (cards: seq<Cards.Card>)
    requires Boards.AllCards(indices)
    ensures |cards| == |indices|
  {
    seq(|indices|, i requires 0 <= i < |indices| => CardAdapter.ToCard(indices[i]))
  }

  /**
   * `evaluate`: the two hole cards, then the board's, converted to game
   * cards and evaluated; the evaluator's failure below five cards, which is
   * a board of fewer than three, propagates.
   */
  function RankingSpec(hole1: CardIndex, hole2: CardIndex, boardCards: seq<CardIndex>): (r: Result<Int32, HandEvaluation.EvalError>)
    requires hole1.IsCard() && hole2.IsCard() && Boards.AllCards(boardCards)
    ensures r.Err? <==> |boardCards| < 3
  {
    match HandEvaluation.EvaluateSpec(ToGameCards([hole1, hole2] + boardCards))
    case Err(e) => Err(e)
    case Ok(result) => Ok(EncodeSpec(result))
  }

  /** The loop of both overloads: the hole cards pushed, then each board card. */
  method GameCards(hole1: CardIndex, hole2: CardIndex, boardCards: seq<CardIndex>) returns (cards: seq<Cards.Card>)
    requires hole1.IsCard() && hole2.IsCard() && Boards.AllCards(boardCards)
    ensures cards == ToGameCards([hole1, hole2] + boardCards)
  {
    ghost var all := [hole1, hole2] + boardCards;
    cards := [CardAdapter.ToCard(hole1), CardAdapter.ToCard(hole2)];
    var i := 0;
    while i < |boardCards|
      invariant 0 <= i <= |boardCards|
      invariant |cards| == i + 2
      invariant forall j :: 0 <= j < i + 2 ==> cards[j] == CardAdapter.ToCard(all[j])
    {
      cards := cards + [CardAdapter.ToCard(boardCards[i])];
      i := i + 1;
    }
  }

  /** `evaluate(hole1, hole2, span)`. */
  method EvaluateSpan(hole1: CardIndex, hole2: CardIndex, boardCards: seq<CardIndex>) returns (r: Result<Int32, HandEvaluation.EvalError>)
    requires hole1.IsCard() && hole2.IsCard() && Boards.AllCards(boardCards)
    ensures r == RankingSpec(hole1, hole2, boardCards)
  {
    var cards := GameCards(hole1, hole2, boardCards);
    var result := HandEvaluation.Evaluate(cards);
    if result.Err? {
      return Err(result.error);
    }
    var encoded := Encode(result.value);
    return Ok(encoded);
  }

  /** `evaluate(hole1, hole2, board)`: the same on the board's cards in use. */
  method EvaluateBoard(hole1: CardIndex, hole2: CardIndex, board: Boards.Board) returns (r: Result<Int32, HandEvaluation.EvalError>)
    requires board.Valid() && hole1.IsCard() && hole2.IsCard() && Boards.AllCards(board.Contents())
    ensures r == RankingSpec(hole1, hole2, board.Contents())
  {
    var cards := GameCards(hole1, hole2, board.cards[..board.size]);
    var result := HandEvaluation.Evaluate(cards);
    if result.Err? {
      return Err(result.error);
    }
    var encoded := Encode(result.value);
    return Ok(encoded);
  }

  /**
   * Comparing two players' rankings on one board gives what the game's
   * `compare` gives for their hole cards and that board.
   */
  lemma CompareAgreesWithEvaluator(a1: CardIndex, a2: CardIndex, b1: CardIndex, b2: CardIndex, boardCards: seq<CardIndex>)
    requires a1.IsCard() && a2.IsCard() && b1.IsCard() && b2.IsCard() && Boards.AllCards(boardCards)
    requires |boardCards| >= 3
    ensures var community := ToGameCards(boardCards);
            var game := HandEvaluation.CompareSpec([CardAdapter.ToCard(a1), CardAdapter.ToCard(a2)],
                                                   [CardAdapter.ToCard(b1), CardAdapter.ToCard(b2)], community);
            game.Ok? && Compare(RankingSpec(a1, a2, boardCards).value, RankingSpec(b1, b2, boardCards).value) == game.value.Value()
  {
    var community := ToGameCards(boardCards);
    var cardsA := [CardAdapter.ToCard(a1), CardAdapter.ToCard(a2)] + community;
    var cardsB := [CardAdapter.ToCard(b1), CardAdapter.ToCard(b2)] + community;
    assert ToGameCards([a1, a2] + boardCards) == cardsA;
    assert ToGameCards([b1, b2] + boardCards) == cardsB;
    EncodeOrderAgrees(cardsA, cardsB);
    EncodeOrderAgrees(cardsB, cardsA);
  }
}
