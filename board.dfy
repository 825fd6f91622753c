/**
 * The solver's board: up to five community cards kept in insertion order,
 * together with a card set that mirrors them. Equality and the main hash
 * ignore the order of the cards; a second hash depends on it. Boards are
 * read from and written to text such as "AhKsQd".
 */
module Boards {
  import opened Wrappers
  import opened Types
  import opened Words
  import opened CardSets
  import Cards
  import CardAdapter

  const MaxCards: nat := 5

  datatype BoardError =
    | BoardFull
    | IncompleteCard
    | InvalidCard(text: string)
    | TooFewCards

  /** The index values of a sequence of cards. */
  function Values(cs: seq<CardIndex>): set<int> {
    set c | c in cs :: c.value as int
  }

  lemma ValuesAppend(cs: seq<CardIndex>, c: CardIndex)
    ensures Values(cs + [c]) == Values(cs) + {c.value as int}
  {
    assert forall d :: d in cs + [c] <==> d in cs || d == c;
  }

  /** Two indices with the same value are the same index. */
  lemma InValues(cs: seq<CardIndex>, c: CardIndex)
    ensures c.value as int in Values(cs) <==> c in cs
  {
  }

  /** `cs` shares a value with `m` exactly when one of its cards has a value in `m`. */
  lemma ValuesMeet(cs: seq<CardIndex>, m: set<int>)
    ensures Values(cs) * m != {} <==> exists c :: c in cs && c.value as int in m
  {
    if Values(cs) * m != {} {
      var v :| v in Values(cs) * m;
      var c :| c in cs && c.value as int == v;
    }
    if exists c :: c in cs && c.value as int in m {
      var c :| c in cs && c.value as int in m;
      assert c.value as int in Values(cs) * m;
    }
  }

  predicate Below64(cs: seq<CardIndex>) {
    forall i :: 0 <= i < |cs| ==> cs[i].value < 64
  }

  predicate AllCards(cs: seq<CardIndex>) {
    forall i :: 0 <= i < |cs| ==> cs[i].IsCard()
  }

  /**
   * Every index has a text: its rank is at most 13, so `rank_char` reads
   * within its array (rank 13 reads the terminating '\0').
   */
  predicate Printable(cs: seq<CardIndex>) {
    forall i :: 0 <= i < |cs| ==> cs[i].value < 56
  }

  // ---------------------------------------------------------------------
  // Order-independent hash
  // ---------------------------------------------------------------------

  /** The multiplicative constant of the per-card hash. */
  const GoldenRatio64: nat := 0x9E37_79B9_7F4A_7C15

  /** The hash of one card: its value times the constant, modulo 2^64. */
  function CardHash(c: CardIndex): Word {
    ToWord(c.value * GoldenRatio64)
  }

  /** The exclusive or of the card hashes, folded from the left. */
  function XorAll(cs: seq<CardIndex>): Word {
    if cs == [] then ZeroWord else Xor(XorAll(cs[..|cs| - 1]), CardHash(cs[|cs| - 1]))
  }

  /** `hash()` of a board holding `cs`: the fold, then the size shifted left by 56. */
  function HashOf(cs: seq<CardIndex>): Word {
    Xor(XorAll(cs), ToWord(|cs| * 0x100_0000_0000_0000))
  }

  /** Taking one card out of the middle of the fold and xoring it in last changes nothing. */
  lemma {:induction false} XorAllRemove(cs: seq<CardIndex>, k: nat)
    requires k < |cs|
    ensures XorAll(cs) == Xor(XorAll(cs[..k] + cs[k + 1..]), CardHash(cs[k]))
  {
    var n := |cs| - 1;
    if k == n {
      assert cs[..k] + cs[k + 1..] == cs[..n];
    } else {
      var init := cs[..n];
      var rest := init[..k] + init[k + 1..];
      XorAllRemove(init, k);
      assert init[..k] == cs[..k] && init[k] == cs[k];
      assert cs[..k] + cs[k + 1..] == rest + [cs[n]];
      XorAllSnoc(rest, cs[n]);
      XorSwap(XorAll(rest), CardHash(cs[k]), CardHash(cs[n]));
    }
  }

  /** The fold, and so the hash, depends on the multiset of cards only. */
  lemma {:induction false} XorAllPermutation(a: seq<CardIndex>, b: seq<CardIndex>)
    requires multiset(a) == multiset(b)
    ensures XorAll(a) == XorAll(b)
    decreases |a|
  {
    if a == [] {
      assert |b| == |multiset(b)| == 0;
    } else {
      var n := |a| - 1;
      var x := a[n];
      assert a == a[..n] + [x];
      assert x in multiset(b);
      var k :| 0 <= k < |b| && b[k] == x;
      var rest := b[..k] + b[k + 1..];
      assert b == b[..k] + [x] + b[k + 1..];
      assert multiset(rest) == multiset(b) - multiset{x};
      assert multiset(a[..n]) == multiset(a) - multiset{x};
      XorAllPermutation(a[..n], rest);
      XorAllRemove(b, k);
    }
  }

  lemma HashPermutationInvariant(a: seq<CardIndex>, b: seq<CardIndex>)
    requires multiset(a) == multiset(b)
    ensures HashOf(a) == HashOf(b)
  {
    XorAllPermutation(a, b);
    assert |a| == |multiset(a)| == |multiset(b)| == |b|;
  }

  predicate Distinct(cs: seq<CardIndex>) {
    forall i, j :: 0 <= i < j < |cs| ==> cs[i] != cs[j]
  }

  /** A sequence without repeats holds each of its cards once. */
  lemma {:induction false} DistinctMultiplicity(cs: seq<CardIndex>, x: CardIndex)
    requires Distinct(cs)
    ensures multiset(cs)[x] == if x in cs then 1 else 0
  {
    if cs != [] {
      var n := |cs| - 1;
      assert cs == cs[..n] + [cs[n]];
      assert Distinct(cs[..n]);
      DistinctMultiplicity(cs[..n], x);
      assert cs[n] !in cs[..n];
    }
  }

  /**
   * Boards without repeated cards that `==` considers equal (same set of
   * values) have the same hash.
   */
  lemma EqualDistinctBoardsHashEqually(a: seq<CardIndex>, b: seq<CardIndex>)
    requires Distinct(a) && Distinct(b) && Values(a) == Values(b)
    ensures HashOf(a) == HashOf(b)
  {
    forall x: CardIndex
      ensures multiset(a)[x] == multiset(b)[x]
    {
      DistinctMultiplicity(a, x);
      DistinctMultiplicity(b, x);
      InValues(a, x);
      InValues(b, x);
    }
    assert multiset(a) == multiset(b);
    HashPermutationInvariant(a, b);
  }

  lemma XorAllSnoc(cs: seq<CardIndex>, c: CardIndex)
    ensures XorAll(cs + [c]) == Xor(XorAll(cs), CardHash(c))
  {
    assert (cs + [c])[..|cs|] == cs;
  }

  /** The size term has bit 0 clear, so bit 0 of the hash is bit 0 of the fold. */
  lemma HashLowBit(cs: seq<CardIndex>)
    ensures HashOf(cs)[0] == XorAll(cs)[0]
  {
    ToWordLowBit(|cs| * 0x100_0000_0000_0000);
  }

  /** Bit 0 of a card's hash is the parity of its value, the constant being odd. */
  lemma CardHashLowBit(c: CardIndex)
    ensures CardHash(c)[0] <==> c.value % 2 == 1
  {
    OddProductParity(c.value);
    ToWordLowBit(c.value * GoldenRatio64);
  }

  lemma OddProductParity(v: nat)
    ensures (v * GoldenRatio64) % 2 == v % 2
  {
    assert v * GoldenRatio64 == 2 * (v * (GoldenRatio64 / 2)) + v;
  }

  /**
   * `add` accepts repeated cards, so `==` and `hash()` can disagree: with a
   * of even value and b of odd value, the boards a a b and a b b have the
   * same size and card set, but hashes that differ in bit 0.
   */
  lemma EqualBoardsMayHashApart(a: CardIndex, b: CardIndex)
    requires a.value % 2 == 0 && b.value % 2 == 1
    ensures Values([a, a, b]) == Values([a, b, b])
    ensures HashOf([a, a, b]) != HashOf([a, b, b])
  {
    CardHashLowBit(a);
    CardHashLowBit(b);
    var x, y := [a, a, b], [a, b, b];
    XorAllSnoc([], a);
    XorAllSnoc([a], a);
    XorAllSnoc([a], b);
    XorAllSnoc([a, a], b);
    XorAllSnoc([a, b], b);
    assert [] + [a] == [a] && [a] + [a] == [a, a] && [a] + [b] == [a, b];
    assert [a, a] + [b] == x && [a, b] + [b] == y;
    assert XorAll(x)[0];
    assert !XorAll(y)[0];
    HashLowBit(x);
    HashLowBit(y);
  }

  // ---------------------------------------------------------------------
  // Order-dependent hash
  // ---------------------------------------------------------------------

  /** `h = h * 53 + value` over the cards, modulo 2^64, starting from `seed`. */
  function OrderedFold(seed: nat, cs: seq<CardIndex>): (h: nat)
    ensures seed < TwoTo64 ==> h < TwoTo64
  {
    if cs == [] then seed
    else (OrderedFold(seed, cs[..|cs| - 1]) * 53 + cs[|cs| - 1].value) % TwoTo64
  }

  /** `ordered_hash()` of a board holding `cs`: the fold seeded with the size. */
  function OrderedHashOf(cs: seq<CardIndex>): (h: nat)
    requires |cs| <= MaxCards
    ensures h < TwoTo64
  {
    OrderedFold(|cs|, cs)
  }

  /** Unlike `hash()`, the ordered hash tells 2c 2d from 2d 2c. */
  lemma OrderedHashDependsOnOrder()
    ensures OrderedHashOf([CardIndex(0), CardIndex(1)]) == 5619
    ensures OrderedHashOf([CardIndex(1), CardIndex(0)]) == 5671
  {
    assert [CardIndex(0), CardIndex(1)][..1] == [CardIndex(0)] && [CardIndex(0)][..0] == [];
    assert [CardIndex(1), CardIndex(0)][..1] == [CardIndex(1)] && [CardIndex(1)][..0] == [];
    assert OrderedFold(2, [CardIndex(0)]) == 106;
    assert OrderedFold(2, [CardIndex(1)]) == 107;
  }

  /** 53 times this constant is 1 modulo 2^64: the multiplier is invertible. */
  const InverseOf53: nat := 0x21cf_b2b7_8c13_521d

  /** One step of the fold loses nothing: equal results come from equal states. */
  lemma StepInjective(h1: nat, h2: nat, v: int)
    requires h1 < TwoTo64 && h2 < TwoTo64
    requires (h1 * 53 + v) % TwoTo64 == (h2 * 53 + v) % TwoTo64
    ensures h1 == h2
  {
    var d := h1 - h2;
    var k := (h1 * 53 + v) / TwoTo64 - (h2 * 53 + v) / TwoTo64;
    assert 53 * d == k * TwoTo64;
    assert 53 * InverseOf53 == 1 + 7 * TwoTo64;
    assert d == (k * InverseOf53 - 7 * d) * TwoTo64 by {
      assert d * (53 * InverseOf53) == d + 7 * TwoTo64 * d;
      assert (53 * d) * InverseOf53 == (k * InverseOf53) * TwoTo64;
    }
  }

  /** Folding `p + q` is folding `q` from where `p` left off. */
  lemma {:induction false} OrderedFoldAppend(seed: nat, p: seq<CardIndex>, q: seq<CardIndex>)
    ensures OrderedFold(seed, p + q) == OrderedFold(OrderedFold(seed, p), q)
    decreases |q|
  {
    if q != [] {
      var init, last := q[..|q| - 1], q[|q| - 1];
      assert (p + q)[..|p + q| - 1] == p + init;
      assert (p + q)[|p + q| - 1] == last;
      OrderedFoldAppend(seed, p, init);
      assert OrderedFold(seed, p + q) == (OrderedFold(seed, p + init) * 53 + last.value) % TwoTo64;
      assert OrderedFold(OrderedFold(seed, p), q) == (OrderedFold(OrderedFold(seed, p), init) * 53 + last.value) % TwoTo64;
    } else {
      assert p + q == p;
    }
  }

  /** Distinct 64-bit states stay distinct through any further cards. */
  lemma {:induction false} OrderedFoldInjective(x: nat, y: nat, q: seq<CardIndex>)
    requires x < TwoTo64 && y < TwoTo64 && x != y
    ensures OrderedFold(x, q) != OrderedFold(y, q)
  {
    if q != [] {
      var init := q[..|q| - 1];
      OrderedFoldInjective(x, y, init);
      if OrderedFold(x, q) == OrderedFold(y, q) {
        StepInjective(OrderedFold(x, init), OrderedFold(y, init), q[|q| - 1].value);
      }
    }
  }

  /** The fold over two cards, one step at a time. */
  lemma OrderedFoldTwo(h: nat, a: CardIndex, b: CardIndex)
    ensures OrderedFold(h, [a, b]) == ((h * 53 + a.value) % TwoTo64 * 53 + b.value) % TwoTo64
  {
    var x := OrderedFold(h, [a]);
    assert x == (h * 53 + a.value) % TwoTo64 by {
      assert [a][..0] == [];
      assert OrderedFold(h, []) == h;
      assert x == (OrderedFold(h, []) * 53 + a.value) % TwoTo64;
    }
    assert OrderedFold(h, [a, b]) == (x * 53 + b.value) % TwoTo64 by {
      assert [a, b][..1] == [a];
    }
  }

  /** Two distinct values folded in either order give different states. */
  lemma SwapChangesFold(h: nat, a: CardIndex, b: CardIndex)
    requires h < TwoTo64 && a.value != b.value
    ensures ((h * 53 + a.value) % TwoTo64 * 53 + b.value) % TwoTo64 !=
            ((h * 53 + b.value) % TwoTo64 * 53 + a.value) % TwoTo64
  {
    var x1, x2 := (h * 53 + a.value) % TwoTo64, (h * 53 + b.value) % TwoTo64;
    var k1, k2 := (h * 53 + a.value) / TwoTo64, (h * 53 + b.value) / TwoTo64;
    var j1, j2 := (x1 * 53 + b.value) / TwoTo64, (x2 * 53 + a.value) / TwoTo64;
    var r1, r2 := (x1 * 53 + b.value) % TwoTo64, (x2 * 53 + a.value) % TwoTo64;
    assert h * 53 + a.value == k1 * TwoTo64 + x1 && h * 53 + b.value == k2 * TwoTo64 + x2;
    assert x1 * 53 + b.value == j1 * TwoTo64 + r1 && x2 * 53 + a.value == j2 * TwoTo64 + r2;
    var n := 53 * k1 + j1 - 53 * k2 - j2;
    var d: int := a.value as int - b.value as int;
    assert r1 - r2 == 52 * d - n * TwoTo64;
    assert 0 < 52 * d + TwoTo64 && 52 * d < TwoTo64 && 52 * d != 0;
    if n > 0 {
      assert n * TwoTo64 == (n - 1) * TwoTo64 + TwoTo64;
      assert r1 - r2 < 0;
    } else if n < 0 {
      assert n * TwoTo64 == (n + 1) * TwoTo64 - TwoTo64;
      assert r1 - r2 > 0;
    }
  }

  /**
   * `ordered_hash` depends on the order of the cards: exchanging two
   * adjacent cards of different values always changes it.
   */
  lemma OrderedHashSwapAdjacent(p: seq<CardIndex>, a: CardIndex, b: CardIndex, q: seq<CardIndex>)
    requires |p| + 2 + |q| <= MaxCards && a.value != b.value
    ensures OrderedHashOf(p + [a, b] + q) != OrderedHashOf(p + [b, a] + q)
  {
    var n := |p| + 2 + |q|;
    var h := OrderedFold(n, p);
    OrderedFoldAppend(n, p + [a, b], q);
    OrderedFoldAppend(n, p + [b, a], q);
    OrderedFoldAppend(n, p, [a, b]);
    OrderedFoldAppend(n, p, [b, a]);
    OrderedFoldTwo(h, a, b);
    OrderedFoldTwo(h, b, a);
    SwapChangesFold(h, a, b);
    OrderedFoldInjective(OrderedFold(n, p + [a, b]), OrderedFold(n, p + [b, a]), q);
  }

  // ---------------------------------------------------------------------
  // Text
  // ---------------------------------------------------------------------

  /** `to_string()` of a board holding `cs`: the two-character cards in order. */
  function Render(cs: seq<CardIndex>): (s: string)
    requires Printable(cs)
    ensures |s| == 2 * |cs|
  {
    if cs == [] then [] else CardAdapter.ToString(cs[0]) + Render(cs[1..])
  }

  lemma {:induction false} RenderAppend(cs: seq<CardIndex>, c: CardIndex)
    requires Printable(cs) && c.value < 56
    ensures Printable(cs + [c]) && Render(cs + [c]) == Render(cs) + CardAdapter.ToString(c)
  {
    if cs != [] {
      assert (cs + [c])[1..] == cs[1..] + [c];
      RenderAppend(cs[1..], c);
    }
  }

  predicate IsSeparator(ch: char) {
    ch == ' ' || ch == ','
  }

  /** The final check of `from_string`. */
  function Finish(cs: seq<CardIndex>): (r: Result<seq<CardIndex>, BoardError>)
    ensures r.Ok? <==> |cs| >= 3
    ensures r.Ok? ==> r.value == cs
    ensures r.Err? ==> r.error == TooFewCards
  {
    if |cs| < 3 then Err(TooFewCards) else Ok(cs)
  }

  /** One card from its rank and suit characters, or nothing when either is unknown. */
  function ParseCardAt(rankChar: char, suitChar: char): (r: Option<CardIndex>)
    ensures r.Some? ==> r.value.IsCard()
  {
    var rank := CardAdapter.ParseRank(rankChar);
    var suit := CardAdapter.ParseSuit(suitChar);
    if rank == CardAdapter.Invalid || suit == CardAdapter.Invalid then None
    else Some(FromRankSuit(rank, suit))
  }

  /** A card is read exactly when both characters are known to the game's parsers. */
  lemma ParseCardAtSpec(rankChar: char, suitChar: char)
    ensures ParseCardAt(rankChar, suitChar).Some? <==> Cards.IsRankChar(rankChar) && Cards.IsSuitChar(suitChar)
  {
    CardAdapter.ParseRankSpec(rankChar);
    CardAdapter.ParseSuitSpec(suitChar);
  }

  lemma ParseCardAtRendered(c: CardIndex)
    requires c.IsCard()
    ensures ParseCardAt(CardAdapter.RankChar(c.Rank()), CardAdapter.SuitChar(c.Suit())) == Some(c)
  {
    CardAdapter.ParseRankChar(c.Rank());
    CardAdapter.ParseSuitChar(c.Suit());
    FromRankSuitOfParts(c);
  }

  lemma ParseCardAtCanonical(rankChar: char, suitChar: char)
    requires rankChar in Cards.RankChars && suitChar in Cards.SuitChars
    ensures ParseCardAt(rankChar, suitChar).Some?
    ensures var c := ParseCardAt(rankChar, suitChar).value;
      CardAdapter.RankChar(c.Rank()) == rankChar && CardAdapter.SuitChar(c.Suit()) == suitChar
  {
    CardAdapter.ParseRankSpec(rankChar);
    CardAdapter.ParseSuitSpec(suitChar);
    assert Cards.RankChars == "23456789TJQKA" && Cards.SuitChars == "cdhs";
    assert Cards.UpperRankChar(rankChar) == rankChar && Cards.LowerSuitChar(suitChar) == suitChar;
  }

  /** Reads one card from its rank and suit characters, or nothing. */
  type CardReader = (char, char) -> Option<CardIndex>

  /**
   * The loop of `from_string` from position i, with the cards `acc` read so
   * far. Each separator skipped is one step here; the C++ inner loop skips
   * the whole run of them before a card, which comes to the same. The
   * card reader is a parameter: `from_string` reads with `ParseCardAt`, and
   * the lemmas about the loop's course hold for any reader.
   */
  function ParseFrom(read: CardReader, s: string, i: nat, acc: seq<CardIndex>): Result<seq<CardIndex>, BoardError>
    requires i <= |s| && |acc| <= MaxCards
    decreases |s| - i
  {
    if i < |s| && |acc| < MaxCards then
      if IsSeparator(s[i]) then ParseFrom(read, s, i + 1, acc)
      else if i + 1 >= |s| then Err(IncompleteCard)
      else match read(s[i], s[i + 1])
        case None => Err(InvalidCard(s[i..i + 2]))
        case Some(c) => ParseFrom(read, s, i + 2, acc + [c])
    else Finish(acc)
  }

  /** What a successful parse extends, and which errors a parse can give. */
  lemma {:induction false} ParseFromResult(s: string, i: nat, acc: seq<CardIndex>)
    requires i <= |s| && |acc| <= MaxCards
    ensures ParseFrom(ParseCardAt, s, i, acc).Ok? ==>
      var cs := ParseFrom(ParseCardAt, s, i, acc).value;
      3 <= |cs| <= MaxCards && |acc| <= |cs| && cs[..|acc|] == acc && (AllCards(acc) ==> AllCards(cs))
    ensures ParseFrom(ParseCardAt, s, i, acc).Err? ==> ParseFrom(ParseCardAt, s, i, acc).error != BoardFull
    decreases |s| - i
  {
    if i < |s| && |acc| < MaxCards {
      if IsSeparator(s[i]) {
        ParseFromResult(s, i + 1, acc);
      } else if i + 1 < |s| && ParseCardAt(s[i], s[i + 1]).Some? {
        var c := ParseCardAt(s[i], s[i + 1]).value;
        ParseFromResult(s, i + 2, acc + [c]);
        if ParseFrom(ParseCardAt, s, i, acc).Ok? {
          var cs := ParseFrom(ParseCardAt, s, i, acc).value;
          assert cs[..|acc|] == cs[..|acc| + 1][..|acc|];
        }
      }
    }
  }

  /** `from_string`: three to five valid cards, or the first error met. */
  function ParseBoard(s: string): (r: Result<seq<CardIndex>, BoardError>)
    ensures r.Ok? ==> 3 <= |r.value| <= MaxCards && AllCards(r.value)
    ensures r.Err? ==> r.error != BoardFull
  {
    ParseFromResult(s, 0, []);
    ParseFrom(ParseCardAt, s, 0, [])
  }

  /** No rank character is a separator. */
  lemma RankCharNotSeparator(rank: Byte)
    requires rank < NumRanks
    ensures !IsSeparator(CardAdapter.RankChar(rank))
  {
    CardAdapter.ParseRankChar(rank);
    assert CardAdapter.ParseRank(' ') == CardAdapter.Invalid && CardAdapter.ParseRank(',') == CardAdapter.Invalid;
  }

  /** One card read at position i, where no separator stands. */
  lemma ParseFromStep(read: CardReader, s: string, i: nat, acc: seq<CardIndex>, c: CardIndex)
    requires i + 1 < |s| && |acc| < MaxCards && !IsSeparator(s[i])
    requires read(s[i], s[i + 1]) == Some(c)
    ensures ParseFrom(read, s, i, acc) == ParseFrom(read, s, i + 2, acc + [c])
  {
  }

  /** The text of `cs` stands in `s` from position i, card by card. */
  predicate RenderedAt(s: string, i: nat, cs: seq<CardIndex>)
    requires AllCards(cs)
    decreases cs
  {
    cs == [] ||
    (i + 1 < |s| && s[i] == CardAdapter.RankChar(cs[0].Rank()) && s[i + 1] == CardAdapter.SuitChar(cs[0].Suit())
     && RenderedAt(s, i + 2, cs[1..]))
  }

  lemma {:induction false} RenderedAtRender(s: string, i: nat, cs: seq<CardIndex>)
    requires AllCards(cs) && i + 2 * |cs| <= |s| && s[i..i + 2 * |cs|] == Render(cs)
    ensures RenderedAt(s, i, cs)
    decreases cs
  {
    if cs != [] {
      var t := s[i..i + 2 * |cs|];
      assert t == CardAdapter.ToString(cs[0]) + Render(cs[1..]);
      assert s[i] == t[0] && s[i + 1] == t[1];
      assert s[i + 2..i + 2 * |cs|] == t[2..];
      RenderedAtRender(s, i + 2, cs[1..]);
    }
  }

  /** The first card of a rendered text is read where it stands. */
  lemma RenderedHead(s: string, i: nat, cs: seq<CardIndex>)
    requires AllCards(cs) && cs != [] && RenderedAt(s, i, cs)
    ensures i + 1 < |s| && !IsSeparator(s[i]) && ParseCardAt(s[i], s[i + 1]) == Some(cs[0])
    ensures RenderedAt(s, i + 2, cs[1..])
  {
    ParseCardAtRendered(cs[0]);
    RankCharNotSeparator(cs[0].Rank());
  }

  /** The cards `cs` can be read one by one from position i: no separator, both characters known. */
  predicate ReadableAt(read: CardReader, s: string, i: nat, cs: seq<CardIndex>)
    decreases cs
  {
    cs == [] ||
    (i + 1 < |s| && !IsSeparator(s[i]) && read(s[i], s[i + 1]) == Some(cs[0])
     && ReadableAt(read, s, i + 2, cs[1..]))
  }

  lemma {:induction false} RenderedIsReadable(s: string, i: nat, cs: seq<CardIndex>)
    requires AllCards(cs) && RenderedAt(s, i, cs)
    ensures ReadableAt(ParseCardAt, s, i, cs)
    decreases cs
  {
    if cs != [] {
      RenderedHead(s, i, cs);
      RenderedIsReadable(s, i + 2, cs[1..]);
    }
  }

  /** Reading readable cards at position i appends them to the cards read. */
  lemma {:induction false} ParseFromReadable(read: CardReader, s: string, i: nat, acc: seq<CardIndex>, cs: seq<CardIndex>)
    requires |acc| + |cs| <= MaxCards
    requires i + 2 * |cs| <= |s| && ReadableAt(read, s, i, cs)
    ensures ParseFrom(read, s, i, acc) == ParseFrom(read, s, i + 2 * |cs|, acc + cs)
    decreases cs
  {
    if cs == [] {
      assert acc + cs == acc;
    } else {
      var c, rest := cs[0], cs[1..];
      ParseFromStep(read, s, i, acc, c);
      ParseFromReadable(read, s, i + 2, acc + [c], rest);
      assert acc + [c] + rest == acc + cs;
    }
  }

  /** Reading a text that starts with the rendering of `cs` reads `cs` first. */
  lemma ParseRenderedPrefix(s: string, cs: seq<CardIndex>)
    requires AllCards(cs) && |cs| <= MaxCards && 2 * |cs| <= |s| && s[..2 * |cs|] == Render(cs)
    ensures ParseFrom(ParseCardAt, s, 0, []) == ParseFrom(ParseCardAt, s, 2 * |cs|, cs)
  {
    assert ReadableAt(ParseCardAt, s, 0, cs) by {
      assert s[0..2 * |cs|] == s[..2 * |cs|];
      RenderedAtRender(s, 0, cs);
      RenderedIsReadable(s, 0, cs);
    }
    ParseFromReadable(ParseCardAt, s, 0, [], cs);
    assert [] + cs == cs;
  }

  /** Every board of 3-5 cards is read back from its text. */
  lemma ParseRender(cs: seq<CardIndex>)
    requires AllCards(cs) && 3 <= |cs| <= MaxCards
    ensures ParseBoard(Render(cs)) == Ok(cs)
  {
    var s := Render(cs);
    assert s[..2 * |cs|] == s;
    ParseRenderedPrefix(s, cs);
  }

  /** After five cards the rest of the text is not looked at. */
  lemma ParseStopsAfterFive(cs: seq<CardIndex>, tail: string)
    requires AllCards(cs) && |cs| == MaxCards
    ensures ParseBoard(Render(cs) + tail) == Ok(cs)
  {
    var s := Render(cs) + tail;
    assert s[..2 * |cs|] == Render(cs);
    ParseRenderedPrefix(s, cs);
  }

  /** One character left over after fewer than five cards is an incomplete card. */
  lemma ParseRejectsIncompleteCard(cs: seq<CardIndex>, ch: char)
    requires AllCards(cs) && |cs| < MaxCards && !IsSeparator(ch)
    ensures ParseBoard(Render(cs) + [ch]) == Err(IncompleteCard)
  {
    var s := Render(cs) + [ch];
    var n := 2 * |cs|;
    assert ParseFrom(ParseCardAt, s, 0, []) == ParseFrom(ParseCardAt, s, n, cs) by {
      assert s[..n] == Render(cs);
      ParseRenderedPrefix(s, cs);
    }
    assert ParseFrom(ParseCardAt, s, n, cs) == Err(IncompleteCard) by {
      assert |s| == n + 1 && s[n] == ch;
      ParseFromIncomplete(ParseCardAt, s, n, cs);
    }
  }

  lemma ParseFromIncomplete(read: CardReader, s: string, i: nat, acc: seq<CardIndex>)
    requires i + 1 == |s| && |acc| < MaxCards && !IsSeparator(s[i])
    ensures ParseFrom(read, s, i, acc) == Err(IncompleteCard)
  {
  }

  lemma {:induction false} ParseShift(read: CardReader, sep: char, s: string, i: nat, acc: seq<CardIndex>)
    requires i <= |s| && |acc| <= MaxCards
    ensures ParseFrom(read, [sep] + s, i + 1, acc) == ParseFrom(read, s, i, acc)
    decreases |s| - i
  {
    var t := [sep] + s;
    if i < |s| && |acc| < MaxCards {
      assert t[i + 1] == s[i];
      if IsSeparator(s[i]) {
        ParseShift(read, sep, s, i + 1, acc);
      } else if i + 1 < |s| {
        assert t[i + 2] == s[i + 1];
        assert t[i + 1..i + 3] == s[i..i + 2];
        if read(s[i], s[i + 1]).Some? {
          ParseShift(read, sep, s, i + 2, acc + [read(s[i], s[i + 1]).value]);
        }
      }
    }
  }

  /** Separators in front of a card are skipped. */
  lemma ParseSkipsSeparator(sep: char, s: string)
    requires IsSeparator(sep)
    ensures ParseBoard([sep] + s) == ParseBoard(s)
  {
    ParseShift(ParseCardAt, sep, s, 0, []);
  }

  /** Any other character where a card should start is an invalid card, or an incomplete one at the end. */
  lemma ParseRejectsOtherLeadingChar(ch: char, s: string)
    requires !IsSeparator(ch) && !Cards.IsRankChar(ch)
    ensures |s| >= 1 ==> ParseBoard([ch] + s) == Err(InvalidCard([ch, s[0]]))
    ensures |s| == 0 ==> ParseBoard([ch] + s) == Err(IncompleteCard)
  {
    var t := [ch] + s;
    if |s| >= 1 {
      CardAdapter.ParseRankSpec(ch);
      assert t[0..2] == [ch, s[0]];
    }
  }

  /** Text in the canonical case with no separators: rank characters at even positions, suit characters at odd ones. */
  predicate IsCanonical(s: string) {
    |s| % 2 == 0 &&
    forall k :: 0 <= k < |s| ==> if k % 2 == 0 then s[k] in Cards.RankChars else s[k] in Cards.SuitChars
  }

  /** The cards whose text canonical text is, from position i on. */
  lemma {:induction false} CanonicalCards(s: string, i: nat) returns (cs: seq<CardIndex>)
    requires IsCanonical(s) && i <= |s| && i % 2 == 0
    ensures AllCards(cs) && 2 * |cs| == |s| - i && RenderedAt(s, i, cs)
    decreases |s| - i
  {
    if i == |s| {
      cs := [];
    } else {
      assert s[i] in Cards.RankChars && s[i + 1] in Cards.SuitChars by {
        assert i % 2 == 0 && (i + 1) % 2 == 1;
      }
      ParseCardAtCanonical(s[i], s[i + 1]);
      var c := ParseCardAt(s[i], s[i + 1]).value;
      var rest := CanonicalCards(s, i + 2);
      cs := [c] + rest;
      assert RenderedAt(s, i, cs) by {
        assert cs[0] == c && cs[1..] == rest;
      }
    }
  }

  lemma {:induction false} RenderOfRenderedAt(s: string, i: nat, cs: seq<CardIndex>)
    requires AllCards(cs) && i + 2 * |cs| == |s| && RenderedAt(s, i, cs)
    ensures Render(cs) == s[i..]
    decreases cs
  {
    if cs != [] {
      RenderOfRenderedAt(s, i + 2, cs[1..]);
      assert s[i..] == [s[i], s[i + 1]] + s[i + 2..];
    }
  }

  /** Canonical text of three to five cards is written back exactly as it was read. */
  lemma RenderParse(s: string)
    requires IsCanonical(s) && 6 <= |s| <= 10
    ensures ParseBoard(s).Ok? && Render(ParseBoard(s).value) == s
  {
    var cs := CanonicalCards(s, 0);
    RenderedIsReadable(s, 0, cs);
    ParseFromReadable(ParseCardAt, s, 0, [], cs);
    assert [] + cs == cs;
    RenderOfRenderedAt(s, 0, cs);
    assert s[0..] == s;
  }

  // ---------------------------------------------------------------------
  // The board
  // ---------------------------------------------------------------------

  class Board {
    /** `cards_`: five slots, of which the first `size` are in use. */
    const cards: array<CardIndex>
    var size: nat
    var cardSet: CardSet

    /** `card_set_` holds exactly the cards in use. */
    predicate Valid()
      reads this, cards
    {
      cards.Length == MaxCards && size <= MaxCards &&
      Below64(cards[..size]) && cardSet.Members() == Values(cards[..size])
    }

    /** The cards in use, in insertion order. */
    function Contents(): seq<CardIndex>
      reads this, cards
      requires Valid()
    {
      cards[..size]
    }

    /** The default board: no cards. */
    constructor()
      ensures Valid() && size == 0 && cardSet == EmptySet
      ensures fresh(cards)
    {
      cards := new CardIndex[MaxCards](_ => CardIndex(0));
      size := 0;
      cardSet := EmptySet;
      ZeroIffNoMembers(ZeroWord);
    }

    /**
     * `add`: fails on a full board and then changes nothing; otherwise
     * appends the card and adds it to the set. A card already on the board
     * is appended again.
     */
    method Add(card: CardIndex) returns (r: Result<(), BoardError>)
      requires Valid() && card.value < 64
      modifies this, cards
      ensures Valid()
      ensures old(size) >= MaxCards ==> r == Err(BoardFull)
      ensures old(size) >= MaxCards ==> size == old(size) && cardSet == old(cardSet) && cards[..] == old(cards[..])
      ensures old(size) < MaxCards ==> r == Ok(())
      ensures old(size) < MaxCards ==> Contents() == old(Contents()) + [card] && cardSet == old(cardSet).Add(card)
      ensures old(size) < MaxCards && card in old(Contents()) ==> cardSet == old(cardSet)
    {
      if size >= MaxCards {
        return Err(BoardFull);
      }
      ghost var before := cards[..size];
      cards[size] := card;
      assert cards[..size + 1] == before + [card];
      ValuesAppend(before, card);
      InValues(before, card);
      size := size + 1;
      cardSet := cardSet.Add(card);
      r := Ok(());
    }

    /** `is_flop`: the board holds 3 cards. */
    predicate IsFlop()
      reads this, cards
      requires Valid()
      ensures IsFlop() <==> |Contents()| == 3
    {
      size == 3
    }

    /** `is_turn`: the board holds 4 cards. */
    predicate IsTurn()
      reads this, cards
      requires Valid()
      ensures IsTurn() <==> |Contents()| == 4
    {
      size == 4
    }

    /** `is_river`: the board holds 5 cards. */
    predicate IsRiver()
      reads this, cards
      requires Valid()
      ensures IsRiver() <==> |Contents()| == 5
    {
      size == 5
    }

    /** `overlaps(CardIndex)`: the card is on the board. */
    predicate OverlapsCard(card: CardIndex)
      reads this, cards
      requires Valid() && card.value < 64
      ensures OverlapsCard(card) <==> card in Contents()
    {
      InValues(Contents(), card);
      cardSet.OverlapsCard(card)
    }

    /** `overlaps(CardSet)`: some card of the board is in the set. */
    predicate OverlapsSet(other: CardSet)
      reads this, cards
      requires Valid()
      ensures OverlapsSet(other) <==> exists c :: c in Contents() && c.value as int in other.Members()
    {
      ValuesMeet(Contents(), other.Members());
      cardSet.Overlaps(other)
    }

    /** `operator==`: the same number of cards and the same card set, in any order. */
    predicate Equals(other: Board)
      reads this, cards, other, other.cards
      requires Valid() && other.Valid()
      ensures Equals(other) <==> size == other.size && Values(Contents()) == Values(other.Contents())
    {
      EqualIffSameMembers(cardSet, other.cardSet);
      size == other.size && cardSet == other.cardSet
    }

    /** `hash()`. */
    method Hash() returns (h: Word)
      requires Valid()
      ensures h == HashOf(Contents())
    {
      h := ZeroWord;
      for i := 0 to size
        invariant h == XorAll(cards[..i])
      {
        assert cards[..i + 1][..i] == cards[..i];
        h := Xor(h, CardHash(cards[i]));
      }
      h := Xor(h, ToWord(size * 0x100_0000_0000_0000));
    }

    /** `ordered_hash()`. */
    method OrderedHash() returns (h: nat)
      requires Valid()
      ensures h == OrderedHashOf(Contents())
    {
      h := size;
      for i := 0 to size
        invariant h == OrderedFold(size, cards[..i])
      {
        assert cards[..i + 1][..i] == cards[..i];
        h := (h * 53 + cards[i].value) % TwoTo64;
      }
    }

    /** `to_string()`. */
    method ToString() returns (s: string)
      requires Valid() && Printable(Contents())
      ensures s == Render(Contents())
    {
      s := "";
      for i := 0 to size
        invariant Printable(cards[..i]) && s == Render(cards[..i])
      {
        assert cards[..i + 1] == cards[..i] + [cards[i]];
        RenderAppend(cards[..i], cards[i]);
        s := s + [CardAdapter.RankChar(cards[i].Rank()), CardAdapter.SuitChar(cards[i].Suit())];
      }
    }

    /** A copy of the board. */
    method Copy() returns (b: Board)
      requires Valid()
      ensures fresh(b) && fresh(b.cards) && b.Valid()
      ensures b.Contents() == Contents() && b.cardSet == cardSet
    {
      b := new Board();
      for i := 0 to MaxCards
        invariant forall j :: 0 <= j < i ==> b.cards[j] == cards[j]
      {
        b.cards[i] := cards[i];
      }
      b.size := size;
      b.cardSet := cardSet;
      assert b.cards[..size] == cards[..size];
    }

    /**
     * `with_card`: a copy with the card added. The receiver is not
     * modified; a full board fails as `add` does.
     */
    method WithCard(card: CardIndex) returns (r: Result<Board, BoardError>)
      requires Valid() && card.value < 64
      ensures size >= MaxCards ==> r == Err(BoardFull)
      ensures size < MaxCards ==> r.Ok? && fresh(r.value) && fresh(r.value.cards) && r.value.Valid()
      ensures size < MaxCards ==> r.value.Contents() == Contents() + [card] && r.value.cardSet == cardSet.Add(card)
    {
      var b := Copy();
      var added := b.Add(card);
      if added.Err? {
        return Err(added.error);
      }
      r := Ok(b);
    }
  }

  /**
   * `Board::from_string`: the cards of `ParseBoard(s)` on a new board,
   * or its error.
   */
  method FromString(s: string) returns (r: Result<Board, BoardError>)
    ensures r.Err? <==> ParseBoard(s).Err?
    ensures r.Err? ==> r.error == ParseBoard(s).error
    ensures r.Ok? ==> fresh(r.value) && fresh(r.value.cards) && r.value.Valid()
    ensures r.Ok? ==> r.value.Contents() == ParseBoard(s).value
    ensures r.Ok? ==> r.value.IsFlop() || r.value.IsTurn() || r.value.IsRiver()
  {
    var board := new Board();
    var i := 0;
    while i < |s| && board.size < MaxCards
      invariant i <= |s| && board.Valid() && fresh(board) && fresh(board.cards)
      invariant AllCards(board.Contents())
      invariant ParseFrom(ParseCardAt, s, i, board.Contents()) == ParseBoard(s)
      decreases |s| - i
    {
      while i < |s| && IsSeparator(s[i])
        invariant i <= |s|
        invariant ParseFrom(ParseCardAt, s, i, board.Contents()) == ParseBoard(s)
      {
        i := i + 1;
      }
      if i >= |s| {
        break;
      }
      if i + 1 >= |s| {
        return Err(IncompleteCard);
      }
      var parsed := ParseCardAt(s[i], s[i + 1]);
      if parsed.None? {
        return Err(InvalidCard(s[i..i + 2]));
      }
      var card := parsed.value;
      var added := board.Add(card);
      i := i + 2;
    }
    if board.size < 3 {
      return Err(TooFewCards);
    }
    r := Ok(board);
  }
}
