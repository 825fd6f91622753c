/**
 * The game's hand evaluator: from five or more cards it finds the
 * strongest poker category, trying the categories strongest first, and
 * the tiebreaker ranks that order hands within a category. Results are
 * compared by category, then by tiebreakers over their common prefix.
 */
module HandEvaluation {
  import opened Wrappers
  import opened Types
  import Cards

  /** The ten categories, HIGH_CARD = 1 up to ROYAL_FLUSH = 10. */
  datatype HandRank =
    | HighCard | OnePair | TwoPair | ThreeOfAKind | Straight
    | Flush | FullHouse | FourOfAKind | StraightFlush | RoyalFlush
  {
    /** The enumerator's value; a higher value is a stronger category. */
    function Value(): (v: int)
      ensures 1 <= v <= 10
    {
      match this
      case HighCard => 1
      case OnePair => 2
      case TwoPair => 3
      case ThreeOfAKind => 4
      case Straight => 5
      case Flush => 6
      case FullHouse => 7
      case FourOfAKind => 8
      case StraightFlush => 9
      case RoyalFlush => 10
    }
  }

  /** The category an enumerator value names, if it names one. */
  function RankOfValue(v: int): (h: Option<HandRank>)
    ensures h.Some? <==> 1 <= v <= 10
    ensures h.Some? ==> h.value.Value() == v
  {
    if v == 1 then Some(HighCard)
    else if v == 2 then Some(OnePair)
    else if v == 3 then Some(TwoPair)
    else if v == 4 then Some(ThreeOfAKind)
    else if v == 5 then Some(Straight)
    else if v == 6 then Some(Flush)
    else if v == 7 then Some(FullHouse)
    else if v == 8 then Some(FourOfAKind)
    else if v == 9 then Some(StraightFlush)
    else if v == 10 then Some(RoyalFlush)
    else None
  }

  /** Distinct categories have distinct values, and each value reads back as its category. */
  lemma ValueIsInjective(a: HandRank, b: HandRank)
    ensures a.Value() == b.Value() <==> a == b
    ensures RankOfValue(a.Value()) == Some(a)
  {
  }

  /** `handRankToString`: the category's display name. */
  function Name(rank: HandRank): (s: string)
    ensures |s| > 0
  {
    match rank
    case HighCard => "High Card"
    case OnePair => "Pair"
    case TwoPair => "Two Pair"
    case ThreeOfAKind => "Three of a Kind"
    case Straight => "Straight"
    case Flush => "Flush"
    case FullHouse => "Full House"
    case FourOfAKind => "Four of a Kind"
    case StraightFlush => "Straight Flush"
    case RoyalFlush => "Royal Flush"
  }

  /** Every category has its own name, and none is the fallback "Unknown". */
  lemma NamesAreDistinct(a: HandRank, b: HandRank)
    ensures Name(a) == Name(b) <==> a == b
    ensures Name(a) != "Unknown"
  {
  }

  /** The outcome of comparing two hands: HAND1_WINS = 1, TIE = 0, HAND2_WINS = -1. */
  datatype CompareResult = Hand1Wins | Tie | Hand2Wins {
    function Value(): (v: int)
      ensures -1 <= v <= 1
    {
      match this
      case Hand1Wins => 1
      case Tie => 0
      case Hand2Wins => -1
    }
  }

  /** A category and the tiebreaker values that order hands within it. */
  datatype HandResult = HandResult(rank: HandRank, tiebreakers: seq<Byte>)

  // ---------------------------------------------------------------------
  // Ordering of results
  // ---------------------------------------------------------------------

  /** The first `n` tiebreakers of the two sequences agree. */
  predicate AgreeBelow(a: seq<Byte>, b: seq<Byte>, n: int)
    requires n <= |a| && n <= |b|
  {
    forall j :: 0 <= j < n ==> a[j] == b[j]
  }

  /**
   * `a` comes first over the common prefix: at the first position where the
   * two differ, `a` is smaller. A sequence that is a prefix of the other is
   * never smaller.
   */
  predicate TiebreakLess(a: seq<Byte>, b: seq<Byte>) {
    exists i :: 0 <= i < |a| && i < |b| && a[i] < b[i] && AgreeBelow(a, b, i)
  }

  /**
   * `operator<`: the weaker category, or the same category and smaller
   * tiebreakers. The category decides first, and no result is less than
   * itself.
   */
  predicate Less(x: HandResult, y: HandResult)
    ensures x.rank.Value() < y.rank.Value() ==> Less(x, y)
    ensures Less(x, y) ==> x.rank.Value() <= y.rank.Value()
    ensures x == y ==> !Less(x, y)
  {
    if x.rank != y.rank then x.rank.Value() < y.rank.Value()
    else TiebreakLess(x.tiebreakers, y.tiebreakers)
  }

  /** `operator>`: the other result is less; a greater result is never less. */
  predicate Greater(x: HandResult, y: HandResult)
    ensures Greater(x, y) ==> !Less(x, y) && y.rank.Value() <= x.rank.Value()
  {
    LessIsStrictOrder(y, x, y);
    Less(y, x)
  }

  /**
   * `operator==`: neither result is less than the other. Equivalent results
   * have the same category, and every result is equivalent to itself.
   */
  predicate Equivalent(x: HandResult, y: HandResult)
    ensures Equivalent(x, y) ==> x.rank == y.rank
    ensures x == y ==> Equivalent(x, y)
  {
    ValueIsInjective(x.rank, y.rank);
    !Less(x, y) && !Less(y, x)
  }

  /** At the first differing position, the comparison of that position decides. */
  lemma FirstDifference(a: seq<Byte>, b: seq<Byte>, i: nat)
    requires i < |a| && i < |b| && AgreeBelow(a, b, i) && a[i] != b[i]
    ensures TiebreakLess(a, b) <==> a[i] < b[i]
    ensures TiebreakLess(b, a) <==> b[i] < a[i]
  {
    if a[i] > b[i] {
      NotLessAtGreater(a, b, i);
    } else {
      NotLessAtGreater(b, a, i);
    }
  }

  /** A sequence larger at the first difference is not the smaller one. */
  lemma NotLessAtGreater(a: seq<Byte>, b: seq<Byte>, i: nat)
    requires i < |a| && i < |b| && AgreeBelow(a, b, i) && a[i] > b[i]
    ensures !TiebreakLess(a, b)
  {
  }

  /** Sequences that agree over their common prefix are not ordered either way. */
  lemma NoDifference(a: seq<Byte>, b: seq<Byte>)
    requires AgreeBelow(a, b, if |a| < |b| then |a| else |b|)
    ensures !TiebreakLess(a, b) && !TiebreakLess(b, a)
  {
  }

  /**
   * `operator<` as a loop: the categories first, then the tiebreakers up to
   * the shorter length; the first difference decides, and no difference
   * means not less.
   */
  method IsLess(x: HandResult, y: HandResult) returns (r: bool)
    ensures r == Less(x, y)
  {
    if x.rank != y.rank {
      return x.rank.Value() < y.rank.Value();
    }
    var a, b := x.tiebreakers, y.tiebreakers;
    var n := if |a| < |b| then |a| else |b|;
    var i := 0;
    while i < n
      invariant 0 <= i <= n
      invariant AgreeBelow(a, b, i)
    {
      if a[i] != b[i] {
        FirstDifference(a, b, i);
        return a[i] < b[i];
      }
      i := i + 1;
    }
    NoDifference(a, b);
    return false;
  }

  /** `operator<` is a strict order: irreflexive, asymmetric and transitive. */
  lemma LessIsStrictOrder(x: HandResult, y: HandResult, z: HandResult)
    ensures !Less(x, x)
    ensures Less(x, y) ==> !Less(y, x)
    ensures Less(x, y) && Less(y, z) ==> Less(x, z)
  {
    TiebreakIrreflexive(x.tiebreakers);
    if Less(x, y) && x.rank == y.rank {
      TiebreakAsymmetric(x.tiebreakers, y.tiebreakers);
    }
    if Less(x, y) && Less(y, z) && x.rank == y.rank && y.rank == z.rank {
      TiebreakTransitive(x.tiebreakers, y.tiebreakers, z.tiebreakers);
    }
  }

  lemma TiebreakIrreflexive(a: seq<Byte>)
    ensures !TiebreakLess(a, a)
  {
  }

  lemma TiebreakAsymmetric(a: seq<Byte>, b: seq<Byte>)
    requires TiebreakLess(a, b)
    ensures !TiebreakLess(b, a)
  {
    var i :| 0 <= i < |a| && i < |b| && a[i] < b[i] && AgreeBelow(a, b, i);
    FirstDifference(a, b, i);
  }

  lemma TiebreakTransitive(a: seq<Byte>, b: seq<Byte>, c: seq<Byte>)
    requires TiebreakLess(a, b) && TiebreakLess(b, c)
    ensures TiebreakLess(a, c)
  {
    var i :| 0 <= i < |a| && i < |b| && a[i] < b[i] && AgreeBelow(a, b, i);
    var j :| 0 <= j < |b| && j < |c| && b[j] < c[j] && AgreeBelow(b, c, j);
    if i < j {
      assert a[i] < c[i] && AgreeBelow(a, c, i);
    } else if j < i {
      assert a[j] < c[j] && AgreeBelow(a, c, j);
    } else {
      assert a[i] < c[i] && AgreeBelow(a, c, i);
    }
  }

  /**
   * `operator==` holds exactly for results of the same category whose
   * tiebreakers agree over their common prefix, and `>` is `<` turned round.
   */
  lemma EquivalentIff(x: HandResult, y: HandResult)
    ensures Equivalent(x, y) <==>
      x.rank == y.rank &&
      AgreeBelow(x.tiebreakers, y.tiebreakers,
                 if |x.tiebreakers| < |y.tiebreakers| then |x.tiebreakers| else |y.tiebreakers|)
    ensures Greater(x, y) <==> Less(y, x)
  {
    var a, b := x.tiebreakers, y.tiebreakers;
    var n := if |a| < |b| then |a| else |b|;
    if x.rank == y.rank && !AgreeBelow(a, b, n) {
      var i := FirstDisagreement(a, b, n);
      FirstDifference(a, b, i);
    }
  }

  /** Where two sequences disagree below `n`, there is a first position where they do. */
  lemma FirstDisagreement(a: seq<Byte>, b: seq<Byte>, n: nat) returns (i: nat)
    requires n <= |a| && n <= |b| && !AgreeBelow(a, b, n)
    ensures i < n && AgreeBelow(a, b, i) && a[i] != b[i]
  {
    i := 0;
    while a[i] == b[i]
      invariant i < n && AgreeBelow(a, b, i)
      decreases n - i
    {
      i := i + 1;
      if i == n {
        assert AgreeBelow(a, b, n);
        assert false;
      }
    }
  }

  /**
   * `operator==` is not transitive: a result is equivalent to its own
   * prefix, so two results with different tiebreakers are both equivalent
   * to their common prefix.
   */
  lemma EquivalentIsNotTransitive()
    ensures var x, y, z := HandResult(HighCard, [9, 2]), HandResult(HighCard, [9]), HandResult(HighCard, [9, 3]);
            Equivalent(x, y) && Equivalent(y, z) && Less(x, z)
  {
    var x, y, z := HandResult(HighCard, [9, 2]), HandResult(HighCard, [9]), HandResult(HighCard, [9, 3]);
    assert x.tiebreakers[1] < z.tiebreakers[1] && AgreeBelow(x.tiebreakers, z.tiebreakers, 1);
  }

  // ---------------------------------------------------------------------
  // Rank counts and suit groups
  // ---------------------------------------------------------------------

  /** The number of cards of rank `r`. */
  function RankCount(cards: seq<Cards.Card>, r: int): (n: nat)
    ensures n <= |cards|
  {
    if |cards| == 0 then 0
    else RankCount(cards[..|cards| - 1], r) + (if cards[|cards| - 1].rank == r then 1 else 0)
  }

  /** Some card has rank `r`. */
  predicate HasRank(cards: seq<Cards.Card>, r: int) {
    exists c :: c in cards && c.rank == r
  }

  lemma HasRankAppend(cards: seq<Cards.Card>, c: Cards.Card, r: int)
    ensures HasRank(cards + [c], r) <==> HasRank(cards, r) || c.rank == r
  {
    if HasRank(cards + [c], r) {
      var d :| d in cards + [c] && d.rank == r;
      assert d in cards || d == c;
    }
    if HasRank(cards, r) {
      var d :| d in cards && d.rank == r;
      assert d in cards + [c];
    }
    assert c in cards + [c];
  }

  /** A rank is counted at least once exactly when some card has it. */
  lemma {:induction false} RankCountPositive(cards: seq<Cards.Card>, r: int)
    ensures RankCount(cards, r) > 0 <==> HasRank(cards, r)
  {
    if |cards| > 0 {
      var n := |cards| - 1;
      RankCountPositive(cards[..n], r);
      assert cards == cards[..n] + [cards[n]];
      HasRankAppend(cards[..n], cards[n], r);
    }
  }

  /**
   * `getRankFrequency`: a map from every rank that occurs to the number of
   * cards of that rank.
   */
  method RankFrequency(cards: seq<Cards.Card>) returns (freq: map<int, nat>)
    ensures forall r :: r in freq <==> RankCount(cards, r) > 0
    ensures forall r :: r in freq ==> freq[r] == RankCount(cards, r)
  {
    freq := map[];
    var i := 0;
    while i < |cards|
      invariant 0 <= i <= |cards|
      invariant forall r :: r in freq <==> RankCount(cards[..i], r) > 0
      invariant forall r :: r in freq ==> freq[r] == RankCount(cards[..i], r)
    {
      var r := cards[i].rank;
      freq := freq[r := (if r in freq then freq[r] else 0) + 1];
      assert cards[..i + 1][..i] == cards[..i];
      i := i + 1;
    }
    assert cards[..i] == cards;
  }

  /** The cards of suit `s`, in their original order. */
  function SuitCards(cards: seq<Cards.Card>, s: int): (g: seq<Cards.Card>)
    ensures |g| <= |cards|
  {
    if |cards| == 0 then []
    else SuitCards(cards[..|cards| - 1], s) + (if cards[|cards| - 1].suit == s then [cards[|cards| - 1]] else [])
  }

  /** A suit group holds exactly the cards of its suit. */
  lemma {:induction false} SuitCardsMembers(cards: seq<Cards.Card>, s: int)
    ensures forall c :: c in SuitCards(cards, s) <==> c in cards && c.suit == s
  {
    if |cards| > 0 {
      var n := |cards| - 1;
      SuitCardsMembers(cards[..n], s);
      assert cards == cards[..n] + [cards[n]];
    }
  }

  /** The four suit groups share the cards out between them. */
  lemma {:induction false} SuitCardsPartition(cards: seq<Cards.Card>)
    ensures |SuitCards(cards, 0)| + |SuitCards(cards, 1)| + |SuitCards(cards, 2)| + |SuitCards(cards, 3)| == |cards|
  {
    if |cards| > 0 {
      SuitCardsPartition(cards[..|cards| - 1]);
    }
  }

  /**
   * `getSuitGroups`: a map from every suit that occurs to its cards, in the
   * order they were given.
   */
  method SuitGroups(cards: seq<Cards.Card>) returns (groups: map<int, seq<Cards.Card>>)
    ensures forall s :: s in groups <==> |SuitCards(cards, s)| > 0
    ensures forall s :: s in groups ==> groups[s] == SuitCards(cards, s)
  {
    groups := map[];
    var i := 0;
    while i < |cards|
      invariant 0 <= i <= |cards|
      invariant groups == GroupsOf(cards[..i])
    {
      var s := cards[i].suit;
      groups := groups[s := (if s in groups then groups[s] else []) + [cards[i]]];
      assert cards[..i + 1][..i] == cards[..i];
      i := i + 1;
    }
    assert cards[..i] == cards;
    GroupsOfSpec(cards);
  }

  /** The map the loop of `getSuitGroups` builds, one card at a time. */
  function GroupsOf(cards: seq<Cards.Card>): map<int, seq<Cards.Card>> {
    if |cards| == 0 then map[]
    else
      var groups, c := GroupsOf(cards[..|cards| - 1]), cards[|cards| - 1];
      groups[c.suit := (if c.suit in groups then groups[c.suit] else []) + [c]]
  }

  /** The map holds the non-empty suit groups, each with its cards. */
  lemma {:induction false} GroupsOfSpec(cards: seq<Cards.Card>)
    ensures forall s :: s in GroupsOf(cards) <==> |SuitCards(cards, s)| > 0
    ensures forall s :: s in GroupsOf(cards) ==> GroupsOf(cards)[s] == SuitCards(cards, s)
  {
    if |cards| > 0 {
      GroupsOfSpec(cards[..|cards| - 1]);
    }
  }

  // ---------------------------------------------------------------------
  // Sorting ranks, and kickers
  // ---------------------------------------------------------------------

  /** The ranks of the cards, in card order. */
  function RanksOf(cards: seq<Cards.Card>): (rs: seq<Byte>)
    ensures |rs| == |cards|
  {
    if |cards| == 0 then [] else RanksOf(cards[..|cards| - 1]) + [cards[|cards| - 1].rank]
  }

  /** A rank occurs among the ranks exactly as often as among the cards. */
  lemma {:induction false} RanksOfCounts(cards: seq<Cards.Card>, r: int)
    ensures multiset(RanksOf(cards))[r] == RankCount(cards, r)
    ensures r in RanksOf(cards) <==> HasRank(cards, r)
  {
    if |cards| > 0 {
      RanksOfCounts(cards[..|cards| - 1], r);
    }
    RankCountPositive(cards, r);
  }

  /** Non-increasing order. */
  predicate Descending(s: seq<Byte>) {
    forall i, j :: 0 <= i < j < |s| ==> s[i] >= s[j]
  }

  /** Places `x` before the first element smaller than it. */
  function Insert(x: Byte, s: seq<Byte>): (r: seq<Byte>)
    ensures |r| == |s| + 1
  {
    if |s| == 0 || s[0] < x then [x] + s else [s[0]] + Insert(x, s[1..])
  }

  /**
   * The ranks sorted from high to low. Cards of equal rank may be ordered
   * either way by the C++ sort; only their ranks are observable.
   */
  function SortDesc(s: seq<Byte>): (r: seq<Byte>)
    ensures |r| == |s|
  {
    if |s| == 0 then [] else Insert(s[|s| - 1], SortDesc(s[..|s| - 1]))
  }

  lemma {:induction false} InsertMembers(x: Byte, s: seq<Byte>)
    ensures multiset(Insert(x, s)) == multiset(s) + multiset{x}
    ensures forall y :: y in Insert(x, s) <==> y == x || y in s
  {
    if |s| > 0 && s[0] >= x {
      InsertMembers(x, s[1..]);
      assert s == [s[0]] + s[1..];
    }
  }

  lemma {:induction false} InsertKeeps(x: Byte, s: seq<Byte>)
    ensures multiset(Insert(x, s)) == multiset(s) + multiset{x}
    ensures Descending(s) ==> Descending(Insert(x, s))
  {
    InsertMembers(x, s);
    if |s| > 0 && s[0] >= x && Descending(s) {
      InsertKeeps(x, s[1..]);
      var t := Insert(x, s[1..]);
      InsertMembers(x, s[1..]);
      forall i | 0 <= i < |t|
        ensures t[i] <= s[0]
      {
        assert t[i] in t;
      }
      assert Insert(x, s) == [s[0]] + t;
    }
  }

  /** Sorting gives a descending permutation of the ranks. */
  lemma {:induction false} SortDescSpec(s: seq<Byte>)
    ensures Descending(SortDesc(s))
    ensures multiset(SortDesc(s)) == multiset(s)
  {
    if |s| > 0 {
      var n := |s| - 1;
      SortDescSpec(s[..n]);
      InsertKeeps(s[n], SortDesc(s[..n]));
      assert s == s[..n] + [s[n]];
    }
  }

  /** `x` no larger than every element of a descending sequence goes at its end. */
  lemma {:induction false} InsertSmallest(x: Byte, s: seq<Byte>)
    requires forall i :: 0 <= i < |s| ==> s[i] >= x
    ensures Insert(x, s) == s + [x]
  {
    if |s| > 0 {
      InsertSmallest(x, s[1..]);
      assert s == [s[0]] + s[1..];
    }
  }

  /** Sorting an already descending sequence leaves it as it is. */
  lemma {:induction false} SortDescOfDescending(s: seq<Byte>)
    requires Descending(s)
    ensures SortDesc(s) == s
  {
    if |s| > 0 {
      var n := |s| - 1;
      assert Descending(s[..n]);
      SortDescOfDescending(s[..n]);
      InsertSmallest(s[n], s[..n]);
      assert s == s[..n] + [s[n]];
    }
  }

  /**
   * `sortByRankDescending` followed by reading each card's rank: the ranks
   * in descending order, a permutation of the cards' ranks.
   */
  method SortDescending(s: seq<Byte>) returns (t: seq<Byte>)
    ensures t == SortDesc(s)
    ensures Descending(t) && multiset(t) == multiset(s)
  {
    t := [];
    var i := 0;
    while i < |s|
      invariant 0 <= i <= |s|
      invariant t == SortDesc(s[..i])
    {
      assert s[..i + 1][..i] == s[..i];
      t := Insert(s[i], t);
      i := i + 1;
    }
    assert s[..i] == s;
    SortDescSpec(s);
  }

  /** The elements of `s` not in `exclude`, in order. */
  function Unexcluded(s: seq<Byte>, exclude: seq<Byte>): (r: seq<Byte>)
    ensures |r| <= |s|
  {
    if |s| == 0 then []
    else Unexcluded(s[..|s| - 1], exclude) + (if s[|s| - 1] in exclude then [] else [s[|s| - 1]])
  }

  lemma {:induction false} UnexcludedSpec(s: seq<Byte>, exclude: seq<Byte>)
    ensures forall x :: x in Unexcluded(s, exclude) <==> x in s && x !in exclude
    ensures Descending(s) ==> Descending(Unexcluded(s, exclude))
  {
    if |s| > 0 {
      var n := |s| - 1;
      UnexcludedSpec(s[..n], exclude);
      assert s == s[..n] + [s[n]];
      if Descending(s) {
        assert Descending(s[..n]);
        var u := Unexcluded(s[..n], exclude);
        forall i | 0 <= i < |u|
          ensures u[i] >= s[n]
        {
          assert u[i] in s[..n];
        }
      }
    }
  }

  /** With one value excluded, every occurrence of it is dropped and nothing else. */
  lemma {:induction false} UnexcludedLength(s: seq<Byte>, r: Byte)
    ensures |Unexcluded(s, [r])| == |s| - multiset(s)[r]
  {
    if |s| > 0 {
      var n := |s| - 1;
      UnexcludedLength(s[..n], r);
      assert s == s[..n] + [s[n]];
    }
  }

  /** At most `n` leading elements. */
  function Take(s: seq<Byte>, n: nat): (r: seq<Byte>)
    ensures |r| == (if |s| < n then |s| else n)
  {
    if |s| < n then s else s[..n]
  }

  /**
   * `getKickers`' result: the highest ranks of the cards that are not
   * excluded, at most `count` of them but at least one when one is
   * available, since the loop stops only after an append.
   */
  function Kickers(cards: seq<Cards.Card>, exclude: seq<Byte>, count: nat): seq<Byte> {
    Take(Unexcluded(SortDesc(RanksOf(cards)), exclude), if count == 0 then 1 else count)
  }

  /**
   * Kickers are descending, come from the cards, avoid the excluded ranks,
   * number `count` (or one for a count of 0) unless fewer are available,
   * and are the largest available: any available rank left out is no
   * higher than the lowest kicker.
   */
  lemma KickersSpec(cards: seq<Cards.Card>, exclude: seq<Byte>, count: nat)
    ensures var k := Kickers(cards, exclude, count);
            var n := if count == 0 then 1 else count;
            |k| <= n && Descending(k) &&
            (forall i :: 0 <= i < |k| ==> k[i] !in exclude && HasRank(cards, k[i])) &&
            (forall c :: c in cards && c.rank !in exclude ==>
               c.rank in k || (|k| == n && c.rank <= k[|k| - 1]))
  {
    var avail := Unexcluded(SortDesc(RanksOf(cards)), exclude);
    var n := if count == 0 then 1 else count;
    var k := Take(avail, n);
    assert Kickers(cards, exclude, count) == k;
    AvailableRanks(cards, exclude);
    PrefixOfDescending(avail, n);
    forall i | 0 <= i < |k|
      ensures k[i] !in exclude && HasRank(cards, k[i])
    {
      assert k[i] == avail[i] && avail[i] in avail;
    }
    forall c | c in cards && c.rank !in exclude
      ensures c.rank in k || (|k| == n && c.rank <= k[|k| - 1])
    {
      assert HasRank(cards, c.rank);
      assert c.rank in avail;
    }
  }

  /** The ranks `getKickers` draws from: descending, present, and not excluded. */
  lemma AvailableRanks(cards: seq<Cards.Card>, exclude: seq<Byte>)
    ensures var avail := Unexcluded(SortDesc(RanksOf(cards)), exclude);
            Descending(avail) &&
            forall x :: x in avail <==> HasRank(cards, x) && x !in exclude
  {
    SortedRanksMembers(cards);
    UnexcludedSpec(SortDesc(RanksOf(cards)), exclude);
  }

  /**
   * The first `n` of a descending sequence are descending, and any element
   * not among them is no larger than the last of them.
   */
  lemma PrefixOfDescending(s: seq<Byte>, n: nat)
    requires Descending(s) && n > 0
    ensures var k := Take(s, n);
            Descending(k) && k == s[..|k|] &&
            forall x :: x in s ==> x in k || (|k| == n && x <= k[|k| - 1])
  {
    var k := Take(s, n);
    forall x | x in s
      ensures x in k || (|k| == n && x <= k[|k| - 1])
    {
      var j :| 0 <= j < |s| && s[j] == x;
      if j >= |k| {
        assert s[|k| - 1] >= s[j];
      } else {
        assert k[j] == x;
      }
    }
  }

  /** The sorted ranks are descending and hold exactly the ranks that occur. */
  lemma SortedRanksMembers(cards: seq<Cards.Card>)
    ensures Descending(SortDesc(RanksOf(cards)))
    ensures forall x :: x in SortDesc(RanksOf(cards)) <==> HasRank(cards, x)
  {
    var s := SortDesc(RanksOf(cards));
    SortDescSpec(RanksOf(cards));
    forall x
      ensures x in s <==> HasRank(cards, x)
    {
      assert x in s <==> x in multiset(s);
      RanksOfCounts(cards, x);
    }
  }

  /**
   * With a single rank excluded, the kickers fill up to `count` (or one)
   * whenever enough other cards are present.
   */
  lemma KickersLength(cards: seq<Cards.Card>, r: Byte, count: nat)
    ensures var n := if count == 0 then 1 else count;
            |Kickers(cards, [r], count)| == (if |cards| - RankCount(cards, r) < n then |cards| - RankCount(cards, r) else n)
  {
    var s := SortDesc(RanksOf(cards));
    SortDescSpec(RanksOf(cards));
    UnexcludedLength(s, r);
    RanksOfCounts(cards, r);
  }

  /**
   * `getKickers`: sorts the ranks from high to low, then walks them,
   * appending each one not in `exclude` and stopping once `count` have
   * been appended.
   */
  method GetKickers(cards: seq<Cards.Card>, exclude: seq<Byte>, count: nat) returns (kickers: seq<Byte>)
    ensures kickers == Kickers(cards, exclude, count)
  {
    var sorted := SortDescending(RanksOf(cards));
    kickers := TakeUnexcluded(sorted, exclude, count);
  }

  /** The walk of `getKickers` over the sorted ranks. */
  method TakeUnexcluded(sorted: seq<Byte>, exclude: seq<Byte>, count: nat) returns (kickers: seq<Byte>)
    ensures kickers == Take(Unexcluded(sorted, exclude), if count == 0 then 1 else count)
  {
    ghost var n := if count == 0 then 1 else count;
    kickers := [];
    var i := 0;
    while i < |sorted|
      invariant 0 <= i <= |sorted|
      invariant kickers == Unexcluded(sorted[..i], exclude)
      invariant |kickers| < n
    {
      assert sorted[..i + 1][..i] == sorted[..i];
      var rank := sorted[i];
      if rank !in exclude {
        kickers := kickers + [rank];
        if |kickers| >= count {
          UnexcludedAppend(sorted[..i + 1], sorted[i + 1..], exclude);
          assert sorted == sorted[..i + 1] + sorted[i + 1..];
          return;
        }
      }
      i := i + 1;
    }
    assert sorted[..i] == sorted;
  }

  /** Filtering distributes over concatenation. */
  lemma {:induction false} UnexcludedAppend(a: seq<Byte>, b: seq<Byte>, exclude: seq<Byte>)
    ensures Unexcluded(a + b, exclude) == Unexcluded(a, exclude) + Unexcluded(b, exclude)
  {
    if |b| > 0 {
      var n := |b| - 1;
      UnexcludedAppend(a, b[..n], exclude);
      assert (a + b)[..|a + b| - 1] == a + b[..n];
    } else {
      assert a + b == a;
    }
  }

  /** `n` leading elements where there are that many: the five-card loops of the flush and high-card checks. */
  method TakeFive(s: seq<Byte>) returns (r: seq<Byte>)
    ensures r == Take(s, 5)
  {
    r := [];
    var i := 0;
    while i < 5 && i < |s|
      invariant 0 <= i <= 5 && i <= |s|
      invariant r == s[..i]
    {
      r := r + [s[i]];
      i := i + 1;
    }
  }

  // ---------------------------------------------------------------------
  // Searching the rank frequencies
  // ---------------------------------------------------------------------

  /** A test on the number of cards of a rank. */
  datatype CountTest = Exactly(n: nat) | AtLeast(n: nat) {
    predicate Holds(c: nat) {
      match this
      case Exactly(n) => c == n
      case AtLeast(n) => c >= n
    }
  }

  /** Rank `q` occurs, is not `skip`, and its count passes the test. */
  predicate Matches(cards: seq<Cards.Card>, t: CountTest, skip: int, q: int) {
    q != skip && RankCount(cards, q) > 0 && t.Holds(RankCount(cards, q))
  }

  /**
   * The first matching rank met when walking the frequency map from its
   * high end, starting at `r`; 0 when none matches.
   */
  function HighestMatching(cards: seq<Cards.Card>, t: CountTest, skip: int, r: int): (q: int)
    requires r <= 14
    ensures q == 0 || (2 <= q <= r && Matches(cards, t, skip, q))
    decreases r
  {
    if r < 2 then 0
    else if Matches(cards, t, skip, r) then r
    else HighestMatching(cards, t, skip, r - 1)
  }

  /** No rank above the one found, up to `r`, matches; and none at all when 0 is found. */
  lemma {:induction false} HighestMatchingIsHighest(cards: seq<Cards.Card>, t: CountTest, skip: int, r: int)
    requires r <= 14
    ensures forall p :: HighestMatching(cards, t, skip, r) < p <= r && 2 <= p ==> !Matches(cards, t, skip, p)
  {
    if r >= 2 && !Matches(cards, t, skip, r) {
      HighestMatchingIsHighest(cards, t, skip, r - 1);
    }
  }

  /** The first matching rank met when walking the map from its low end; 0 when none matches. */
  function LowestMatching(cards: seq<Cards.Card>, t: CountTest, r: int): (q: int)
    requires r >= 2
    ensures q == 0 || (r <= q <= 14 && Matches(cards, t, 0, q))
    decreases 15 - r
  {
    if r > 14 then 0
    else if Matches(cards, t, 0, r) then r
    else LowestMatching(cards, t, r + 1)
  }

  lemma {:induction false} LowestMatchingIsLowest(cards: seq<Cards.Card>, t: CountTest, r: int)
    requires r >= 2
    ensures var q := LowestMatching(cards, t, r);
            forall p :: r <= p <= 14 && (q == 0 || p < q) ==> !Matches(cards, t, 0, p)
    decreases 15 - r
  {
    if r <= 14 && !Matches(cards, t, 0, r) {
      LowestMatchingIsLowest(cards, t, r + 1);
    }
  }

  // ---------------------------------------------------------------------
  // The category checks; each gives the tiebreakers, or [] for no match
  // ---------------------------------------------------------------------

  /** `checkFourOfAKind`: the lowest rank held four times, then the best other rank or 0. */
  function FourOfAKindSpec(cards: seq<Cards.Card>): seq<Byte> {
    var q := LowestMatching(cards, Exactly(4), 2);
    if q == 0 then []
    else
      var k := Kickers(cards, [q], 1);
      [q, if |k| == 0 then 0 else k[0]]
  }

  method CheckFourOfAKind(cards: seq<Cards.Card>) returns (tb: seq<Byte>)
    ensures tb == FourOfAKindSpec(cards)
  {
    var freq := RankFrequency(cards);
    var r := 2;
    while r <= 14
      invariant 2 <= r <= 15
      invariant LowestMatching(cards, Exactly(4), r) == LowestMatching(cards, Exactly(4), 2)
    {
      if r in freq && freq[r] == 4 {
        var kickers := GetKickers(cards, [r], 1);
        return [r, if |kickers| == 0 then 0 else kickers[0]];
      }
      r := r + 1;
    }
    return [];
  }

  /**
   * `checkFullHouse`: the highest rank held three or more times, then the
   * highest other rank held two or more times.
   */
  function FullHouseSpec(cards: seq<Cards.Card>): seq<Byte> {
    var t := HighestMatching(cards, AtLeast(3), 0, 14);
    if t == 0 then []
    else
      var p := HighestMatching(cards, AtLeast(2), t, 14);
      if p == 0 then [] else [t, p]
  }

  method CheckFullHouse(cards: seq<Cards.Card>) returns (tb: seq<Byte>)
    ensures tb == FullHouseSpec(cards)
  {
    var freq := RankFrequency(cards);
    var threeRank := 0;
    var r := 14;
    while r >= 2
      invariant 1 <= r <= 14
      invariant threeRank == 0 ==> HighestMatching(cards, AtLeast(3), 0, r) == HighestMatching(cards, AtLeast(3), 0, 14)
      invariant threeRank != 0 ==> threeRank == HighestMatching(cards, AtLeast(3), 0, 14)
    {
      if r in freq && freq[r] >= 3 && threeRank == 0 {
        threeRank := r;
      }
      r := r - 1;
    }
    if threeRank == 0 {
      return [];
    }
    var pairRank := 0;
    r := 14;
    while r >= 2
      invariant 1 <= r <= 14
      invariant pairRank == 0 ==> HighestMatching(cards, AtLeast(2), threeRank, r) == HighestMatching(cards, AtLeast(2), threeRank, 14)
      invariant pairRank != 0 ==> pairRank == HighestMatching(cards, AtLeast(2), threeRank, 14)
    {
      if r in freq && freq[r] >= 2 && r != threeRank && pairRank == 0 {
        pairRank := r;
      }
      r := r - 1;
    }
    if pairRank == 0 {
      return [];
    }
    return [threeRank, pairRank];
  }

  /** `checkThreeOfAKind`: the highest rank held exactly three times, then two kickers. */
  function ThreeOfAKindSpec(cards: seq<Cards.Card>): seq<Byte> {
    var q := HighestMatching(cards, Exactly(3), 0, 14);
    if q == 0 then [] else [q] + Kickers(cards, [q], 2)
  }

  method CheckThreeOfAKind(cards: seq<Cards.Card>) returns (tb: seq<Byte>)
    ensures tb == ThreeOfAKindSpec(cards)
  {
    var freq := RankFrequency(cards);
    var r := 14;
    while r >= 2
      invariant 1 <= r <= 14
      invariant HighestMatching(cards, Exactly(3), 0, r) == HighestMatching(cards, Exactly(3), 0, 14)
    {
      if r in freq && freq[r] == 3 {
        var kickers := GetKickers(cards, [r], 2);
        return [r] + kickers;
      }
      r := r - 1;
    }
    return [];
  }

  /** The ranks from 14 down to `r` held two or more times, highest first. */
  function PairRanks(cards: seq<Cards.Card>, r: int): seq<Byte>
    requires r >= 2
    decreases 15 - r
  {
    if r > 14 then []
    else PairRanks(cards, r + 1) + (if Matches(cards, AtLeast(2), 0, r) then [r] else [])
  }

  /**
   * `checkTwoPair`: the ranks held two or more times, sorted high to low;
   * with two of them, the top two and the best other rank or 0.
   */
  function TwoPairSpec(cards: seq<Cards.Card>): seq<Byte> {
    var pairs := PairRanks(cards, 2);
    if |pairs| < 2 then []
    else
      var sorted := SortDesc(pairs);
      var k := Kickers(cards, [sorted[0], sorted[1]], 1);
      [sorted[0], sorted[1], if |k| == 0 then 0 else k[0]]
  }

  method CheckTwoPair(cards: seq<Cards.Card>) returns (tb: seq<Byte>)
    ensures tb == TwoPairSpec(cards)
  {
    var pairs := CollectPairs(cards);
    if |pairs| >= 2 {
      pairs := SortDescending(pairs);
      var highPair, lowPair := pairs[0], pairs[1];
      var kickers := GetKickers(cards, [highPair, lowPair], 1);
      return [highPair, lowPair, if |kickers| == 0 then 0 else kickers[0]];
    }
    return [];
  }

  /** The walk of `checkTwoPair` over the frequency map, from its high end. */
  method CollectPairs(cards: seq<Cards.Card>) returns (pairs: seq<Byte>)
    ensures pairs == PairRanks(cards, 2)
  {
    var freq := RankFrequency(cards);
    pairs := [];
    var r := 14;
    while r >= 2
      invariant 1 <= r <= 14
      invariant pairs == PairRanks(cards, r + 1)
    {
      if r in freq && freq[r] >= 2 {
        pairs := pairs + [r];
      }
      r := r - 1;
    }
  }

  /** `checkPair`: the highest rank held exactly twice, then three kickers. */
  function PairSpec(cards: seq<Cards.Card>): seq<Byte> {
    var q := HighestMatching(cards, Exactly(2), 0, 14);
    if q == 0 then [] else [q] + Kickers(cards, [q], 3)
  }

  method CheckPair(cards: seq<Cards.Card>) returns (tb: seq<Byte>)
    ensures tb == PairSpec(cards)
  {
    var freq := RankFrequency(cards);
    var r := 14;
    while r >= 2
      invariant 1 <= r <= 14
      invariant HighestMatching(cards, Exactly(2), 0, r) == HighestMatching(cards, Exactly(2), 0, 14)
    {
      if r in freq && freq[r] == 2 {
        var kickers := GetKickers(cards, [r], 3);
        return [r] + kickers;
      }
      r := r - 1;
    }
    return [];
  }

  /** `getHighCard`: the five highest ranks, high to low. */
  function HighCardSpec(cards: seq<Cards.Card>): seq<Byte> {
    Take(SortDesc(RanksOf(cards)), 5)
  }

  method GetHighCard(cards: seq<Cards.Card>) returns (tb: seq<Byte>)
    ensures tb == HighCardSpec(cards)
  {
    var sorted := SortDescending(RanksOf(cards));
    tb := TakeFive(sorted);
  }

  /**
   * `checkFlush`: the five highest ranks of the first suit, in suit order,
   * with five or more cards, taken as `getHighCard` takes them.
   */
  function FlushFrom(cards: seq<Cards.Card>, s: int): seq<Byte>
    requires 0 <= s <= 4
    decreases 4 - s
  {
    if s == 4 then []
    else
      var g := SuitCards(cards, s);
      if |g| >= 5 then HighCardSpec(g) else FlushFrom(cards, s + 1)
  }

  function FlushSpec(cards: seq<Cards.Card>): seq<Byte> {
    FlushFrom(cards, 0)
  }

  method CheckFlush(cards: seq<Cards.Card>) returns (tb: seq<Byte>)
    ensures tb == FlushSpec(cards)
  {
    var groups := SuitGroups(cards);
    var s := 0;
    while s < 4
      invariant 0 <= s <= 4
      invariant FlushFrom(cards, s) == FlushFrom(cards, 0)
    {
      if s in groups && |groups[s]| >= 5 {
        var sorted := SortDescending(RanksOf(groups[s]));
        tb := TakeFive(sorted);
        return;
      }
      s := s + 1;
    }
    return [];
  }

  /**
   * The `hasRank` table of the straight and royal-flush checks: entry `r`
   * says whether some card has rank `r`.
   */
  method RankPresence(cards: seq<Cards.Card>) returns (has: array<bool>)
    ensures fresh(has) && has.Length == 15
    ensures forall r :: 0 <= r < 15 ==> (has[r] <==> HasRank(cards, r))
  {
    has := new bool[15](_ => false);
    var i := 0;
    while i < |cards|
      invariant 0 <= i <= |cards|
      invariant forall r :: 0 <= r < 15 ==> (has[r] <==> HasRank(cards[..i], r))
    {
      assert cards[..i + 1] == cards[..i] + [cards[i]];
      forall r | 0 <= r < 15
        ensures HasRank(cards[..i + 1], r) <==> HasRank(cards[..i], r) || cards[i].rank == r
      {
        HasRankAppend(cards[..i], cards[i], r);
      }
      has[cards[i].rank] := true;
      i := i + 1;
    }
    assert cards[..i] == cards;
  }

  /** Rank 1 stands for the ace, so that A-2-3-4-5 is the straight ending at 5. */
  function LowAce(r: int): int {
    if r == 1 then 14 else r
  }

  /** The `j`-th rank of the straight ending at `high`, rank 1 read as the ace. */
  function StraightRank(high: int, j: int): int {
    LowAce(high - j)
  }

  /** The five ranks `high` down to `high - 4` all occur, rank 1 read as the ace. */
  predicate StraightAt(cards: seq<Cards.Card>, high: int) {
    forall j :: 0 <= j < 5 ==> HasRank(cards, StraightRank(high, j))
  }

  /** The highest `h` from `high` down to 5 with a straight ending at `h`, or 0. */
  function StraightHigh(cards: seq<Cards.Card>, high: int): (h: int)
    requires high <= 14
    ensures h == 0 || (5 <= h <= high && StraightAt(cards, h))
    decreases high
  {
    if high < 5 then 0
    else if StraightAt(cards, high) then high
    else StraightHigh(cards, high - 1)
  }

  /** Ace, two, three, four and five all occur. */
  predicate HasWheel(cards: seq<Cards.Card>) {
    HasRank(cards, 14) && HasRank(cards, 2) && HasRank(cards, 3) && HasRank(cards, 4) && HasRank(cards, 5)
  }

  /**
   * `checkStraight`: the top rank of the highest straight, scanning from
   * 14 down to 5; then the separate wheel test, and [] for no straight.
   */
  function StraightSpec(cards: seq<Cards.Card>): seq<Byte> {
    var h := StraightHigh(cards, 14);
    if h != 0 then [h]
    else if HasWheel(cards) then [5]
    else []
  }

  method CheckStraight(cards: seq<Cards.Card>) returns (tb: seq<Byte>)
    ensures tb == StraightSpec(cards)
  {
    var has := RankPresence(cards);
    var high := 14;
    while high >= 5
      invariant 4 <= high <= 14
      invariant StraightHigh(cards, high) == StraightHigh(cards, 14)
      invariant forall r :: 0 <= r < 15 ==> (has[r] <==> HasRank(cards, r))
    {
      var isStraight := StraightEndsAt(cards, has, high);
      if isStraight {
        return [high];
      }
      high := high - 1;
    }
    if has[14] && has[2] && has[3] && has[4] && has[5] {
      return [5];
    }
    return [];
  }

  /** The inner loop of `checkStraight`: ranks `high` down to `high - 4`, stopping at the first missing one. */
  method StraightEndsAt(cards: seq<Cards.Card>, has: array<bool>, high: int) returns (isStraight: bool)
    requires has.Length == 15 && 5 <= high <= 14
    requires forall r :: 0 <= r < 15 ==> (has[r] <==> HasRank(cards, r))
    ensures isStraight == StraightAt(cards, high)
  {
    isStraight := true;
    var i := 0;
    while i < 5
      invariant 0 <= i <= 5
      invariant isStraight ==> forall j :: 0 <= j < i ==> HasRank(cards, StraightRank(high, j))
      invariant !isStraight ==> !StraightAt(cards, high)
    {
      var rank := high - i;
      if rank == 1 {
        rank := 14;
      }
      assert rank == StraightRank(high, i);
      if !has[rank] {
        isStraight := false;
        break;
      }
      i := i + 1;
    }
  }

  /** A suit group of five or more cards holding T, J, Q, K and A. */
  predicate RoyalIn(g: seq<Cards.Card>) {
    |g| >= 5 && HasRank(g, 14) && HasRank(g, 13) && HasRank(g, 12) && HasRank(g, 11) && HasRank(g, 10)
  }

  /** `checkRoyalFlush`: [14] when some suit holds a royal flush. */
  function RoyalFlushSpec(cards: seq<Cards.Card>): seq<Byte> {
    if exists s :: 0 <= s < 4 && RoyalIn(SuitCards(cards, s)) then [14] else []
  }

  method CheckRoyalFlush(cards: seq<Cards.Card>) returns (tb: seq<Byte>)
    ensures tb == RoyalFlushSpec(cards)
  {
    var groups := SuitGroups(cards);
    var s := 0;
    while s < 4
      invariant 0 <= s <= 4
      invariant forall t :: 0 <= t < s ==> !RoyalIn(SuitCards(cards, t))
    {
      if s in groups && |groups[s]| >= 5 {
        var has := RankPresence(groups[s]);
        if has[14] && has[13] && has[12] && has[11] && has[10] {
          assert RoyalIn(SuitCards(cards, s));
          return [14];
        }
      }
      s := s + 1;
    }
    return [];
  }

  /**
   * `checkStraightFlush`: the straight of the first suit, in suit order,
   * with five or more cards and a straight among them.
   */
  function StraightFlushFrom(cards: seq<Cards.Card>, s: int): seq<Byte>
    requires 0 <= s <= 4
    decreases 4 - s
  {
    if s == 4 then []
    else
      var g := SuitCards(cards, s);
      if |g| >= 5 && StraightSpec(g) != [] then StraightSpec(g) else StraightFlushFrom(cards, s + 1)
  }

  function StraightFlushSpec(cards: seq<Cards.Card>): seq<Byte> {
    StraightFlushFrom(cards, 0)
  }

  method CheckStraightFlush(cards: seq<Cards.Card>) returns (tb: seq<Byte>)
    ensures tb == StraightFlushSpec(cards)
  {
    var groups := SuitGroups(cards);
    var s := 0;
    while s < 4
      invariant 0 <= s <= 4
      invariant StraightFlushFrom(cards, s) == StraightFlushFrom(cards, 0)
    {
      if s in groups && |groups[s]| >= 5 {
        var straight := CheckStraight(groups[s]);
        if straight != [] {
          return straight;
        }
      }
      s := s + 1;
    }
    return [];
  }

  // ---------------------------------------------------------------------
  // Evaluation and comparison
  // ---------------------------------------------------------------------

  /** The `invalid_argument` thrown below five cards. */
  datatype EvalError = TooFewCards

  /** The check that finds each category. */
  function CheckOf(cards: seq<Cards.Card>, rank: HandRank): seq<Byte> {
    match rank
    case RoyalFlush => RoyalFlushSpec(cards)
    case StraightFlush => StraightFlushSpec(cards)
    case FourOfAKind => FourOfAKindSpec(cards)
    case FullHouse => FullHouseSpec(cards)
    case Flush => FlushSpec(cards)
    case Straight => StraightSpec(cards)
    case ThreeOfAKind => ThreeOfAKindSpec(cards)
    case TwoPair => TwoPairSpec(cards)
    case OnePair => PairSpec(cards)
    case HighCard => HighCardSpec(cards)
  }

  /** What each of the nine category checks finds, strongest category first. */
  datatype Checks = Checks(royal: seq<Byte>, straightFlush: seq<Byte>, four: seq<Byte>, fullHouse: seq<Byte>,
                           flush: seq<Byte>, straight: seq<Byte>, three: seq<Byte>, twoPair: seq<Byte>, pair: seq<Byte>)

  function ChecksOf(cards: seq<Cards.Card>): Checks {
    Checks(RoyalFlushSpec(cards), StraightFlushSpec(cards), FourOfAKindSpec(cards), FullHouseSpec(cards),
           FlushSpec(cards), StraightSpec(cards), ThreeOfAKindSpec(cards), TwoPairSpec(cards), PairSpec(cards))
  }

  /** The finding of the check for `rank`; high card has no check of its own. */
  function Found(ch: Checks, rank: HandRank): seq<Byte> {
    match rank
    case RoyalFlush => ch.royal
    case StraightFlush => ch.straightFlush
    case FourOfAKind => ch.four
    case FullHouse => ch.fullHouse
    case Flush => ch.flush
    case Straight => ch.straight
    case ThreeOfAKind => ch.three
    case TwoPair => ch.twoPair
    case OnePair => ch.pair
    case HighCard => []
  }

  /** The checks of every category stronger than `rank` found nothing. */
  predicate NothingStronger(ch: Checks, rank: HandRank) {
    var v := rank.Value();
    (v < 10 ==> ch.royal == []) && (v < 9 ==> ch.straightFlush == []) && (v < 8 ==> ch.four == []) &&
    (v < 7 ==> ch.fullHouse == []) && (v < 6 ==> ch.flush == []) && (v < 5 ==> ch.straight == []) &&
    (v < 4 ==> ch.three == []) && (v < 3 ==> ch.twoPair == []) && (v < 2 ==> ch.pair == [])
  }

  /** The first category, strongest first, whose check found something; high card when none did. */
  function Pick(ch: Checks): (c: HandRank)
    ensures c != HighCard ==> Found(ch, c) != []
    ensures NothingStronger(ch, c)
  {
    if ch.royal != [] then RoyalFlush
    else if ch.straightFlush != [] then StraightFlush
    else if ch.four != [] then FourOfAKind
    else if ch.fullHouse != [] then FullHouse
    else if ch.flush != [] then Flush
    else if ch.straight != [] then Straight
    else if ch.three != [] then ThreeOfAKind
    else if ch.twoPair != [] then TwoPair
    else if ch.pair != [] then OnePair
    else HighCard
  }

  /** The checks of every category stronger than `rank` find nothing in `cards`. */
  predicate StrongerChecksFail(cards: seq<Cards.Card>, rank: HandRank) {
    match rank
    case RoyalFlush => true
    case StraightFlush => RoyalFlushSpec(cards) == []
    case FourOfAKind => RoyalFlushSpec(cards) == [] && StraightFlushSpec(cards) == []
    case FullHouse => RoyalFlushSpec(cards) == [] && StraightFlushSpec(cards) == [] && FourOfAKindSpec(cards) == []
    case Flush => RoyalFlushSpec(cards) == [] && StraightFlushSpec(cards) == [] && FourOfAKindSpec(cards) == [] && FullHouseSpec(cards) == []
    case Straight => RoyalFlushSpec(cards) == [] && StraightFlushSpec(cards) == [] && FourOfAKindSpec(cards) == [] && FullHouseSpec(cards) == [] && FlushSpec(cards) == []
    case ThreeOfAKind => RoyalFlushSpec(cards) == [] && StraightFlushSpec(cards) == [] && FourOfAKindSpec(cards) == [] && FullHouseSpec(cards) == [] && FlushSpec(cards) == [] && StraightSpec(cards) == []
    case TwoPair => RoyalFlushSpec(cards) == [] && StraightFlushSpec(cards) == [] && FourOfAKindSpec(cards) == [] && FullHouseSpec(cards) == [] && FlushSpec(cards) == [] && StraightSpec(cards) == [] && ThreeOfAKindSpec(cards) == []
    case OnePair => RoyalFlushSpec(cards) == [] && StraightFlushSpec(cards) == [] && FourOfAKindSpec(cards) == [] && FullHouseSpec(cards) == [] && FlushSpec(cards) == [] && StraightSpec(cards) == [] && ThreeOfAKindSpec(cards) == [] && TwoPairSpec(cards) == []
    case HighCard => RoyalFlushSpec(cards) == [] && StraightFlushSpec(cards) == [] && FourOfAKindSpec(cards) == [] && FullHouseSpec(cards) == [] && FlushSpec(cards) == [] && StraightSpec(cards) == [] && ThreeOfAKindSpec(cards) == [] && TwoPairSpec(cards) == [] && PairSpec(cards) == []
  }

  /**
   * Evaluation reports the category whose check finds something when every
   * stronger category's check finds nothing, with that check's tiebreakers.
   */
  lemma EvaluateFirstFound(cards: seq<Cards.Card>, rank: HandRank)
    requires |cards| >= 5
    requires rank == HighCard || CheckOf(cards, rank) != []
    requires StrongerChecksFail(cards, rank)
    ensures EvaluateSpec(cards) == Ok(HandResult(rank, CheckOf(cards, rank)))
  {
    var ch := ChecksOf(cards);
    assert rank != HighCard ==> Found(ch, rank) == CheckOf(cards, rank);
    PickFirst(ch, rank);
  }

  /** The category picked is the one that found something when every stronger one found nothing. */
  lemma PickFirst(ch: Checks, rank: HandRank)
    requires rank == HighCard || Found(ch, rank) != []
    requires NothingStronger(ch, rank)
    ensures Pick(ch) == rank
  {
  }

  /** The category `evaluate` reports. */
  function Category(cards: seq<Cards.Card>): (c: HandRank)
    ensures c != HighCard ==> CheckOf(cards, c) != []
  {
    var ch := ChecksOf(cards);
    var c := Pick(ch);
    assert c != HighCard ==> CheckOf(cards, c) == Found(ch, c);
    c
  }

  /**
   * `evaluate`: fewer than five cards is an error; otherwise the category
   * found and its check's tiebreakers.
   */
  function EvaluateSpec(cards: seq<Cards.Card>): (r: Result<HandResult, EvalError>)
    ensures r.Err? <==> |cards| < 5
    ensures r.Ok? ==> r.value.rank != HighCard ==> r.value.tiebreakers != []
  {
    if |cards| < 5 then Err(TooFewCards)
    else
      var c := Category(cards);
      Ok(HandResult(c, CheckOf(cards, c)))
  }

  method Evaluate(cards: seq<Cards.Card>) returns (r: Result<HandResult, EvalError>)
    ensures r == EvaluateSpec(cards)
  {
    if |cards| < 5 {
      return Err(TooFewCards);
    }
    var tb := CheckRoyalFlush(cards);
    if tb != [] {
      EvaluateFirstFound(cards, RoyalFlush);
      return Ok(HandResult(RoyalFlush, tb));
    }
    tb := CheckStraightFlush(cards);
    if tb != [] {
      EvaluateFirstFound(cards, StraightFlush);
      return Ok(HandResult(StraightFlush, tb));
    }
    tb := CheckFourOfAKind(cards);
    if tb != [] {
      EvaluateFirstFound(cards, FourOfAKind);
      return Ok(HandResult(FourOfAKind, tb));
    }
    tb := CheckFullHouse(cards);
    if tb != [] {
      EvaluateFirstFound(cards, FullHouse);
      return Ok(HandResult(FullHouse, tb));
    }
    tb := CheckFlush(cards);
    if tb != [] {
      EvaluateFirstFound(cards, Flush);
      return Ok(HandResult(Flush, tb));
    }
    tb := CheckStraight(cards);
    if tb != [] {
      EvaluateFirstFound(cards, Straight);
      return Ok(HandResult(Straight, tb));
    }
    tb := CheckThreeOfAKind(cards);
    if tb != [] {
      EvaluateFirstFound(cards, ThreeOfAKind);
      return Ok(HandResult(ThreeOfAKind, tb));
    }
    tb := CheckTwoPair(cards);
    if tb != [] {
      EvaluateFirstFound(cards, TwoPair);
      return Ok(HandResult(TwoPair, tb));
    }
    tb := CheckPair(cards);
    if tb != [] {
      EvaluateFirstFound(cards, OnePair);
      return Ok(HandResult(OnePair, tb));
    }
    tb := GetHighCard(cards);
    EvaluateFirstFound(cards, HighCard);
    return Ok(HandResult(HighCard, tb));
  }

  /** `evaluate(holeCards, community)`: the evaluation of the two lists joined. */
  method EvaluateWith(holeCards: seq<Cards.Card>, community: seq<Cards.Card>) returns (r: Result<HandResult, EvalError>)
    ensures r == EvaluateSpec(holeCards + community)
  {
    r := Evaluate(holeCards + community);
  }

  /** HAND1_WINS when the first result is greater, HAND2_WINS when it is less, TIE otherwise. */
  function Outcome(h1: HandResult, h2: HandResult): (r: CompareResult)
    ensures r == Hand1Wins <==> Greater(h1, h2)
    ensures r == Hand2Wins <==> Less(h1, h2)
    ensures r == Tie <==> Equivalent(h1, h2)
  {
    LessIsStrictOrder(h1, h2, h1);
    if Greater(h1, h2) then Hand1Wins
    else if Less(h1, h2) then Hand2Wins
    else Tie
  }

  /** `compare`: both hands evaluated with the community cards; the first failure propagates. */
  function CompareSpec(holeCards1: seq<Cards.Card>, holeCards2: seq<Cards.Card>, community: seq<Cards.Card>): (r: Result<CompareResult, EvalError>)
    ensures r.Err? <==> |holeCards1 + community| < 5 || |holeCards2 + community| < 5
  {
    var r1 := EvaluateSpec(holeCards1 + community);
    var r2 := EvaluateSpec(holeCards2 + community);
    if r1.Err? then Err(r1.error)
    else if r2.Err? then Err(r2.error)
    else Ok(Outcome(r1.value, r2.value))
  }

  method Compare(holeCards1: seq<Cards.Card>, holeCards2: seq<Cards.Card>, community: seq<Cards.Card>) returns (r: Result<CompareResult, EvalError>)
    ensures r == CompareSpec(holeCards1, holeCards2, community)
  {
    var hand1 := EvaluateWith(holeCards1, community);
    if hand1.Err? {
      return Err(hand1.error);
    }
    var hand2 := EvaluateWith(holeCards2, community);
    if hand2.Err? {
      return Err(hand2.error);
    }
    var greater := IsLess(hand2.value, hand1.value);
    if greater {
      return Ok(Hand1Wins);
    }
    var less := IsLess(hand1.value, hand2.value);
    if less {
      return Ok(Hand2Wins);
    }
    return Ok(Tie);
  }

  // ---------------------------------------------------------------------
  // What the checks find
  // ---------------------------------------------------------------------

  /** No straight ends above the one found and at or below `high`. */
  lemma {:induction false} StraightHighIsHighest(cards: seq<Cards.Card>, high: int)
    requires high <= 14
    ensures forall h :: StraightHigh(cards, high) < h <= high && 5 <= h ==> !StraightAt(cards, h)
  {
    if high >= 5 && !StraightAt(cards, high) {
      StraightHighIsHighest(cards, high - 1);
    }
  }

  /** A wheel is the straight ending at 5, with the ace read low. */
  lemma WheelIsStraightAtFive(cards: seq<Cards.Card>)
    ensures HasWheel(cards) <==> StraightAt(cards, 5)
  {
    assert StraightRank(5, 0) == 5 && StraightRank(5, 1) == 4 && StraightRank(5, 2) == 3;
    assert StraightRank(5, 3) == 2 && StraightRank(5, 4) == 14;
  }

  /**
   * The separate wheel test of `checkStraight` never decides anything: the
   * scan already reaches 5 and maps rank 1 to the ace, so a wheel is found
   * there first.
   */
  lemma WheelCheckIsDead(cards: seq<Cards.Card>)
    ensures StraightHigh(cards, 14) == 0 ==> !HasWheel(cards)
    ensures StraightSpec(cards) == (if StraightHigh(cards, 14) == 0 then [] else [StraightHigh(cards, 14) as Byte])
  {
    StraightHighIsHighest(cards, 14);
    WheelIsStraightAtFive(cards);
  }

  /**
   * `checkStraight` gives [h] for the highest h in 5..14 with a straight
   * ending at h, and [] exactly when there is none.
   */
  lemma StraightMeaning(cards: seq<Cards.Card>)
    ensures StraightSpec(cards) == [] <==> forall h :: 5 <= h <= 14 ==> !StraightAt(cards, h)
    ensures var tb := StraightSpec(cards);
            tb != [] ==> |tb| == 1 && 5 <= tb[0] <= 14 && StraightAt(cards, tb[0]) &&
                         forall h :: tb[0] < h <= 14 ==> !StraightAt(cards, h)
  {
    StraightHighIsHighest(cards, 14);
    WheelCheckIsDead(cards);
  }

  /** A five-high wheel with no six and no ten is the straight [5]. */
  lemma WheelIsFiveHigh(cards: seq<Cards.Card>)
    requires HasWheel(cards) && !HasRank(cards, 6) && !HasRank(cards, 10)
    ensures StraightSpec(cards) == [5]
  {
    WheelIsStraightAtFive(cards);
    forall h | 6 <= h <= 14
      ensures !StraightAt(cards, h)
    {
      if h <= 10 {
        assert StraightRank(h, h - 6) == 6;
      } else {
        assert StraightRank(h, h - 10) == 10;
      }
    }
    StraightMeaning(cards);
  }

  /** T, J, Q, K and A of one suit with five or more cards make the straight ending at 14. */
  lemma RoyalIsStraightAtAce(g: seq<Cards.Card>)
    ensures RoyalIn(g) <==> |g| >= 5 && StraightAt(g, 14)
  {
    assert StraightRank(14, 0) == 14 && StraightRank(14, 1) == 13 && StraightRank(14, 2) == 12;
    assert StraightRank(14, 3) == 11 && StraightRank(14, 4) == 10;
  }

  /** The suit whose straight `checkStraightFlush` reports. */
  lemma {:induction false} StraightFlushSuit(cards: seq<Cards.Card>, s: int) returns (t: int)
    requires 0 <= s <= 4 && StraightFlushFrom(cards, s) != []
    ensures s <= t < 4 && |SuitCards(cards, t)| >= 5
    ensures StraightFlushFrom(cards, s) == StraightSpec(SuitCards(cards, t))
    decreases 4 - s
  {
    var g := SuitCards(cards, s);
    assert StraightFlushFrom(cards, s) ==
      if |g| >= 5 && StraightSpec(g) != [] then StraightSpec(g) else StraightFlushFrom(cards, s + 1);
    if |g| >= 5 && StraightSpec(g) != [] {
      t := s;
    } else {
      assert StraightFlushFrom(cards, s) == StraightFlushFrom(cards, s + 1);
      t := StraightFlushSuit(cards, s + 1);
    }
  }

  /**
   * A royal flush is reported as [14]; a straight flush is never ace-high,
   * since that hand is caught as a royal flush first, so its tiebreaker is
   * [h] with 5 <= h <= 13.
   */
  lemma StraightFlushIsNotRoyal(cards: seq<Cards.Card>)
    requires EvaluateSpec(cards).Ok?
    ensures var r := EvaluateSpec(cards).value;
            (r.rank == RoyalFlush ==> r.tiebreakers == [14]) &&
            (r.rank == StraightFlush ==> |r.tiebreakers| == 1 && 5 <= r.tiebreakers[0] <= 13)
  {
    var r := EvaluateSpec(cards).value;
    var ch := ChecksOf(cards);
    assert r.rank == Pick(ch) && r.tiebreakers == CheckOf(cards, r.rank);
    if r.rank == RoyalFlush {
      assert r.tiebreakers == ch.royal != [];
    } else if r.rank == StraightFlush {
      assert ch.royal == [] && r.tiebreakers == StraightFlushSpec(cards);
      var t := StraightFlushSuit(cards, 0);
      var g := SuitCards(cards, t);
      StraightMeaning(g);
      if r.tiebreakers[0] == 14 {
        RoyalIsStraightAtAce(g);
        assert false;
      }
    }
  }

  /**
   * `checkFullHouse` finds [t, p] exactly when some rank is held three or
   * more times and another is held two or more times: t is the highest of
   * the first kind and p the highest other of the second.
   */
  lemma FullHouseMeaning(cards: seq<Cards.Card>)
    ensures var tb := FullHouseSpec(cards);
            (tb == [] <==> forall t, p :: t != p && 2 <= t <= 14 && 2 <= p <= 14 ==>
                             !(Matches(cards, AtLeast(3), 0, t) && Matches(cards, AtLeast(2), 0, p)))
    ensures var tb := FullHouseSpec(cards);
            tb != [] ==>
              (|tb| == 2 && tb[0] != tb[1] &&
               RankCount(cards, tb[0]) >= 3 && RankCount(cards, tb[1]) >= 2 &&
               (forall q :: tb[0] < q <= 14 ==> RankCount(cards, q) < 3) &&
               (forall q :: tb[1] < q <= 14 && q != tb[0] ==> RankCount(cards, q) < 2))
  {
    var t := HighestMatching(cards, AtLeast(3), 0, 14);
    HighestMatchingIsHighest(cards, AtLeast(3), 0, 14);
    if t != 0 {
      HighestMatchingIsHighest(cards, AtLeast(2), t, 14);
      var p := HighestMatching(cards, AtLeast(2), t, 14);
      if p == 0 {
        forall t', p' | t' != p' && 2 <= t' <= 14 && 2 <= p' <= 14
          ensures !(Matches(cards, AtLeast(3), 0, t') && Matches(cards, AtLeast(2), 0, p'))
        {
          if p' != t {
            assert !Matches(cards, AtLeast(2), t, p');
          } else {
            assert !Matches(cards, AtLeast(2), t, t');
          }
        }
      } else {
        assert Matches(cards, AtLeast(3), 0, t) && Matches(cards, AtLeast(2), 0, p);
        forall q | p < q <= 14 && q != t
          ensures RankCount(cards, q) < 2
        {
          assert !Matches(cards, AtLeast(2), t, q);
        }
      }
      forall q | t < q <= 14
        ensures RankCount(cards, q) < 3
      {
        assert !Matches(cards, AtLeast(3), 0, q);
      }
    }
  }

  /** Only the ranks 2 to 14 are ever counted. */
  lemma RankCountRange(cards: seq<Cards.Card>, q: int)
    ensures RankCount(cards, q) > 0 ==> 2 <= q <= 14
  {
    RankCountPositive(cards, q);
  }

  /**
   * One rank `q` taken, the `n` kickers beside it: descending, each held by
   * some card and different from `q`, and every other card's rank is among
   * them or no higher than the last.
   */
  lemma KickersBeside(cards: seq<Cards.Card>, q: Byte, n: nat)
    requires n > 0 && |cards| - RankCount(cards, q) >= n
    ensures var k := Kickers(cards, [q], n);
            |k| == n && Descending(k) &&
            (forall i :: 0 <= i < n ==> k[i] != q && HasRank(cards, k[i])) &&
            (forall c :: c in cards && c.rank != q ==> c.rank in k || c.rank <= k[n - 1])
  {
    KickersLength(cards, q, n);
    KickersSpec(cards, [q], n);
  }

  /**
   * Four of a kind: [r, k] with r the lowest rank held four times and k the
   * best other rank, present whenever there are five or more cards.
   */
  lemma FourOfAKindShape(cards: seq<Cards.Card>)
    requires |cards| >= 5 && FourOfAKindSpec(cards) != []
    ensures var tb := FourOfAKindSpec(cards);
            |tb| == 2 && RankCount(cards, tb[0]) == 4 &&
            (forall q :: 2 <= q < tb[0] ==> RankCount(cards, q) != 4) &&
            tb[1] != tb[0] && HasRank(cards, tb[1]) &&
            (forall c :: c in cards && c.rank != tb[0] ==> c.rank <= tb[1])
  {
    var q := LowestMatching(cards, Exactly(4), 2);
    LowestMatchingIsLowest(cards, Exactly(4), 2);
    KickersBeside(cards, q, 1);
    forall p | 2 <= p < q
      ensures RankCount(cards, p) != 4
    {
      assert !Matches(cards, Exactly(4), 0, p);
    }
  }

  /** Three of a kind: [r, k1, k2], r the highest rank held exactly three times, then the two best others. */
  lemma ThreeOfAKindShape(cards: seq<Cards.Card>)
    requires |cards| >= 5 && ThreeOfAKindSpec(cards) != []
    ensures var tb := ThreeOfAKindSpec(cards);
            |tb| == 3 && RankCount(cards, tb[0]) == 3 &&
            (forall q :: tb[0] < q <= 14 ==> RankCount(cards, q) != 3) &&
            tb[1] >= tb[2] && tb[1] != tb[0] && tb[2] != tb[0] &&
            HasRank(cards, tb[1]) && HasRank(cards, tb[2]) &&
            (forall c :: c in cards && c.rank != tb[0] ==> c.rank in tb[1..] || c.rank <= tb[2])
  {
    var q := HighestMatching(cards, Exactly(3), 0, 14);
    HighestMatchingIsHighest(cards, Exactly(3), 0, 14);
    KickersBeside(cards, q, 2);
    var tb := ThreeOfAKindSpec(cards);
    assert tb[1..] == Kickers(cards, [q], 2);
    forall p | q < p <= 14
      ensures RankCount(cards, p) != 3
    {
      assert !Matches(cards, Exactly(3), 0, p);
    }
  }

  /** A pair: [r, k1, k2, k3], r the highest rank held exactly twice, then the three best others. */
  lemma PairShape(cards: seq<Cards.Card>)
    requires |cards| >= 5 && PairSpec(cards) != []
    ensures var tb := PairSpec(cards);
            |tb| == 4 && RankCount(cards, tb[0]) == 2 &&
            (forall q :: tb[0] < q <= 14 ==> RankCount(cards, q) != 2) &&
            Descending(tb[1..]) && tb[0] !in tb[1..] &&
            (forall i :: 1 <= i < 4 ==> HasRank(cards, tb[i])) &&
            (forall c :: c in cards && c.rank != tb[0] ==> c.rank in tb[1..] || c.rank <= tb[3])
  {
    var q := HighestMatching(cards, Exactly(2), 0, 14);
    HighestMatchingIsHighest(cards, Exactly(2), 0, 14);
    KickersBeside(cards, q, 3);
    var tb := PairSpec(cards);
    assert tb[1..] == Kickers(cards, [q], 3);
    forall p | q < p <= 14
      ensures RankCount(cards, p) != 2
    {
      assert !Matches(cards, Exactly(2), 0, p);
    }
  }


  /** Strictly decreasing order. */
  predicate StrictlyDescending(s: seq<Byte>) {
    forall i, j :: 0 <= i < j < |s| ==> s[i] > s[j]
  }

  /** The paired ranks are those from `r` up held twice or more. */
  lemma {:induction false} PairRanksMembers(cards: seq<Cards.Card>, r: int)
    requires r >= 2
    ensures forall x :: x in PairRanks(cards, r) <==> r <= x <= 14 && Matches(cards, AtLeast(2), 0, x)
    decreases 15 - r
  {
    if r <= 14 {
      PairRanksMembers(cards, r + 1);
    }
  }

  /** The walk from the high end lists the paired ranks strictly decreasing. */
  lemma {:induction false} PairRanksDescending(cards: seq<Cards.Card>, r: int)
    requires r >= 2
    ensures StrictlyDescending(PairRanks(cards, r))
    decreases 15 - r
  {
    if r <= 14 {
      PairRanksDescending(cards, r + 1);
      PairRanksMembers(cards, r + 1);
      var above := PairRanks(cards, r + 1);
      forall i | 0 <= i < |above|
        ensures above[i] > r
      {
        assert above[i] in above;
      }
    }
  }

  /** In a strictly decreasing sequence only the first element lies above the second. */
  lemma AboveSecond(s: seq<Byte>, q: int)
    requires StrictlyDescending(s) && |s| >= 2 && s[1] < q && q != s[0]
    ensures q !in s
  {
  }

  /** Two different members make a sequence of two or more. */
  lemma TwoMembers(s: seq<Byte>, p: Byte, q: Byte)
    requires p in s && q in s && p != q
    ensures |s| >= 2
  {
  }

  /** The two highest paired ranks: every rank above the lower one that is paired is the higher one. */
  lemma TopTwoPairs(cards: seq<Cards.Card>)
    requires |PairRanks(cards, 2)| >= 2
    ensures var pairs := PairRanks(cards, 2);
            pairs[0] > pairs[1] && RankCount(cards, pairs[0]) >= 2 && RankCount(cards, pairs[1]) >= 2 &&
            forall q :: pairs[1] < q <= 14 && q != pairs[0] ==> RankCount(cards, q) < 2
  {
    var pairs := PairRanks(cards, 2);
    PairRanksMembers(cards, 2);
    PairRanksDescending(cards, 2);
    assert pairs[0] in pairs && pairs[1] in pairs;
    forall q | pairs[1] < q <= 14 && q != pairs[0]
      ensures RankCount(cards, q) < 2
    {
      AboveSecond(pairs, q);
    }
  }

  /**
   * Two pair: [hi, lo, k], the two highest ranks held twice or more and the
   * best other rank or 0. The sort in `checkTwoPair` leaves the walk's
   * order unchanged, since the walk already runs from high to low.
   */
  lemma TwoPairShape(cards: seq<Cards.Card>)
    requires TwoPairSpec(cards) != []
    ensures SortDesc(PairRanks(cards, 2)) == PairRanks(cards, 2)
    ensures var tb := TwoPairSpec(cards);
            |tb| == 3 && tb[0] > tb[1] &&
            RankCount(cards, tb[0]) >= 2 && RankCount(cards, tb[1]) >= 2 &&
            (forall q :: tb[1] < q <= 14 && q != tb[0] ==> RankCount(cards, q) < 2) &&
            (tb[2] == 0 || (HasRank(cards, tb[2]) && tb[2] != tb[0] && tb[2] != tb[1]))
  {
    var pairs := PairRanks(cards, 2);
    PairRanksDescending(cards, 2);
    SortDescOfDescending(pairs);
    TopTwoPairs(cards);
    KickersSpec(cards, [pairs[0], pairs[1]], 1);
  }

  /** The suit `checkFlush` reports: the first, in suit order, with five or more cards. */
  lemma {:induction false} FlushSuit(cards: seq<Cards.Card>, s: int) returns (t: int)
    requires 0 <= s <= 4 && FlushFrom(cards, s) != []
    ensures s <= t < 4 && |SuitCards(cards, t)| >= 5
    ensures forall u :: s <= u < t ==> |SuitCards(cards, u)| < 5
    ensures FlushFrom(cards, s) == HighCardSpec(SuitCards(cards, t))
    decreases 4 - s
  {
    if |SuitCards(cards, s)| >= 5 {
      assert FlushFrom(cards, s) == HighCardSpec(SuitCards(cards, s));
      t := s;
    } else {
      assert FlushFrom(cards, s) == FlushFrom(cards, s + 1);
      t := FlushSuit(cards, s + 1);
    }
  }

  /** A flush: the five highest ranks of one suit, high to low. */
  lemma FlushShape(cards: seq<Cards.Card>)
    requires FlushSpec(cards) != []
    ensures var tb := FlushSpec(cards);
            |tb| == 5 && Descending(tb) &&
            exists s :: 0 <= s < 4 && |SuitCards(cards, s)| >= 5 &&
              (forall i :: 0 <= i < 5 ==> HasRank(SuitCards(cards, s), tb[i])) &&
              (forall c :: c in SuitCards(cards, s) ==> c.rank in tb || c.rank <= tb[4])
  {
    var t := FlushSuit(cards, 0);
    HighCardShape(SuitCards(cards, t));
  }

  /** High card: the five highest ranks, high to low, of five or more cards. */
  lemma HighCardShape(cards: seq<Cards.Card>)
    requires |cards| >= 5
    ensures var tb := HighCardSpec(cards);
            |tb| == 5 && Descending(tb) &&
            (forall i :: 0 <= i < 5 ==> HasRank(cards, tb[i])) &&
            (forall c :: c in cards ==> c.rank in tb || c.rank <= tb[4])
  {
    var s := SortDesc(RanksOf(cards));
    SortedRanksMembers(cards);
    PrefixOfDescending(s, 5);
    var tb := Take(s, 5);
    forall i | 0 <= i < 5
      ensures HasRank(cards, tb[i])
    {
      assert tb[i] in s;
    }
    forall c | c in cards
      ensures c.rank in tb || c.rank <= tb[4]
    {
      assert HasRank(cards, c.rank);
    }
  }

  /** `checkFourOfAKind` finds something exactly when some rank is held four times. */
  lemma FourOfAKindPresence(cards: seq<Cards.Card>)
    ensures FourOfAKindSpec(cards) != [] <==> exists q :: 2 <= q <= 14 && RankCount(cards, q) == 4
  {
    var m := LowestMatching(cards, Exactly(4), 2);
    assert FourOfAKindSpec(cards) != [] <==> m != 0;
    LowestMatchingIsLowest(cards, Exactly(4), 2);
    if m != 0 {
      assert Matches(cards, Exactly(4), 0, m);
      assert 2 <= m <= 14 && RankCount(cards, m) == 4;
    }
    if exists q :: 2 <= q <= 14 && RankCount(cards, q) == 4 {
      var q :| 2 <= q <= 14 && RankCount(cards, q) == 4;
      assert Matches(cards, Exactly(4), 0, q);
      assert m != 0;
    }
  }

  /** `checkThreeOfAKind` finds something exactly when some rank is held three times. */
  lemma ThreeOfAKindPresence(cards: seq<Cards.Card>)
    ensures ThreeOfAKindSpec(cards) != [] <==> exists q :: 2 <= q <= 14 && RankCount(cards, q) == 3
  {
    var m := HighestMatching(cards, Exactly(3), 0, 14);
    assert ThreeOfAKindSpec(cards) != [] <==> m != 0;
    HighestMatchingIsHighest(cards, Exactly(3), 0, 14);
    if m != 0 {
      assert Matches(cards, Exactly(3), 0, m);
      assert 2 <= m <= 14 && RankCount(cards, m) == 3;
    }
    if exists q :: 2 <= q <= 14 && RankCount(cards, q) == 3 {
      var q :| 2 <= q <= 14 && RankCount(cards, q) == 3;
      assert Matches(cards, Exactly(3), 0, q);
      assert m != 0;
    }
  }

  /** `checkPair` finds something exactly when some rank is held twice. */
  lemma PairPresence(cards: seq<Cards.Card>)
    ensures PairSpec(cards) != [] <==> exists q :: 2 <= q <= 14 && RankCount(cards, q) == 2
  {
    var m := HighestMatching(cards, Exactly(2), 0, 14);
    assert PairSpec(cards) != [] <==> m != 0;
    HighestMatchingIsHighest(cards, Exactly(2), 0, 14);
    if m != 0 {
      assert Matches(cards, Exactly(2), 0, m);
      assert 2 <= m <= 14 && RankCount(cards, m) == 2;
    }
    if exists q :: 2 <= q <= 14 && RankCount(cards, q) == 2 {
      var q :| 2 <= q <= 14 && RankCount(cards, q) == 2;
      assert Matches(cards, Exactly(2), 0, q);
      assert m != 0;
    }
  }

  /** `checkTwoPair` finds something exactly when two ranks are held twice or more. */
  lemma TwoPairPresence(cards: seq<Cards.Card>)
    ensures TwoPairSpec(cards) != [] <==>
      exists p, q :: 2 <= p < q <= 14 && RankCount(cards, p) >= 2 && RankCount(cards, q) >= 2
  {
    var pairs := PairRanks(cards, 2);
    assert TwoPairSpec(cards) != [] <==> |pairs| >= 2;
    if |pairs| >= 2 {
      TopTwoPairs(cards);
      var p, q := pairs[1], pairs[0];
      assert 2 <= p < q <= 14 && RankCount(cards, p) >= 2 && RankCount(cards, q) >= 2;
    }
    if exists p, q :: 2 <= p < q <= 14 && RankCount(cards, p) >= 2 && RankCount(cards, q) >= 2 {
      var p, q :| 2 <= p < q <= 14 && RankCount(cards, p) >= 2 && RankCount(cards, q) >= 2;
      PairRanksMembers(cards, 2);
      assert Matches(cards, AtLeast(2), 0, p) && Matches(cards, AtLeast(2), 0, q);
      TwoMembers(pairs, p, q);
    }
  }

  /** `checkFlush` from suit `s` on finds something exactly when one of those suits has five cards. */
  lemma {:induction false} FlushPresence(cards: seq<Cards.Card>, s: int)
    requires 0 <= s <= 4
    ensures FlushFrom(cards, s) != [] <==> exists t :: s <= t < 4 && |SuitCards(cards, t)| >= 5
    decreases 4 - s
  {
    if s < 4 {
      FlushPresence(cards, s + 1);
      var g := SuitCards(cards, s);
      if |g| >= 5 {
        HighCardShape(g);
        assert FlushFrom(cards, s) == HighCardSpec(g);
        assert s <= s < 4 && |SuitCards(cards, s)| >= 5;
      } else {
        assert FlushFrom(cards, s) == FlushFrom(cards, s + 1);
        if exists t :: s <= t < 4 && |SuitCards(cards, t)| >= 5 {
          var t :| s <= t < 4 && |SuitCards(cards, t)| >= 5;
          assert t != s;
        }
      }
    }
  }

  /** Categories are tried strongest first, in the evaluation's own terms. */
  lemma EvaluateOrder(cards: seq<Cards.Card>)
    requires |cards| >= 5
    ensures var v := EvaluateSpec(cards).value.rank.Value();
            (RoyalFlushSpec(cards) != [] <==> v == 10) &&
            (StraightFlushSpec(cards) != [] ==> v >= 9) &&
            (FourOfAKindSpec(cards) != [] ==> v >= 8) &&
            (FullHouseSpec(cards) != [] ==> v >= 7) &&
            (FlushSpec(cards) != [] ==> v >= 6) &&
            (StraightSpec(cards) != [] ==> v >= 5) &&
            (ThreeOfAKindSpec(cards) != [] ==> v >= 4) &&
            (TwoPairSpec(cards) != [] ==> v >= 3) &&
            (PairSpec(cards) != [] ==> v >= 2)
  {
    PickOrder(ChecksOf(cards));
  }

  /** A category whose check found something is never passed over for a weaker one. */
  lemma PickOrder(ch: Checks)
    ensures var v := Pick(ch).Value();
            (ch.royal != [] <==> v == 10) &&
            (ch.straightFlush != [] ==> v >= 9) &&
            (ch.four != [] ==> v >= 8) &&
            (ch.fullHouse != [] ==> v >= 7) &&
            (ch.flush != [] ==> v >= 6) &&
            (ch.straight != [] ==> v >= 5) &&
            (ch.three != [] ==> v >= 4) &&
            (ch.twoPair != [] ==> v >= 3) &&
            (ch.pair != [] ==> v >= 2)
  {
  }

  /** The tiebreakers of every category take the shape the category calls for. */
  lemma EvaluateShapes(cards: seq<Cards.Card>)
    requires |cards| >= 5
    ensures var r := EvaluateSpec(cards).value;
            var tb := r.tiebreakers;
            (r.rank == FourOfAKind ==> |tb| == 2 && RankCount(cards, tb[0]) == 4 && tb[1] != tb[0]) &&
            (r.rank == FullHouse ==> |tb| == 2 && RankCount(cards, tb[0]) >= 3 && RankCount(cards, tb[1]) >= 2 && tb[0] != tb[1]) &&
            (r.rank == Flush ==> |tb| == 5 && Descending(tb)) &&
            (r.rank == Straight ==> |tb| == 1 && 5 <= tb[0] <= 14) &&
            (r.rank == ThreeOfAKind ==> |tb| == 3 && RankCount(cards, tb[0]) == 3) &&
            (r.rank == TwoPair ==> |tb| == 3 && tb[0] > tb[1]) &&
            (r.rank == OnePair ==> |tb| == 4 && RankCount(cards, tb[0]) == 2) &&
            (r.rank == HighCard ==> |tb| == 5 && Descending(tb))
  {
    var r := EvaluateSpec(cards).value;
    match r.rank
    case FourOfAKind => FourOfAKindShape(cards);
    case FullHouse => FullHouseMeaning(cards);
    case Flush => FlushShape(cards);
    case Straight => StraightMeaning(cards);
    case ThreeOfAKind => ThreeOfAKindShape(cards);
    case TwoPair => TwoPairShape(cards);
    case OnePair => PairShape(cards);
    case HighCard => HighCardShape(cards);
    case _ =>
  }

  /** The outcome seen from the other hand. */
  function Flip(c: CompareResult): (f: CompareResult)
    ensures f.Value() == -c.Value()
  {
    match c
    case Hand1Wins => Hand2Wins
    case Tie => Tie
    case Hand2Wins => Hand1Wins
  }

  /** Swapping the two results flips the outcome. */
  lemma OutcomeFlips(h1: HandResult, h2: HandResult)
    ensures Outcome(h2, h1) == Flip(Outcome(h1, h2))
  {
    LessIsStrictOrder(h1, h2, h1);
  }

  /** Swapping the two hands flips the result of `compare`; a failure stays a failure. */
  lemma CompareSwap(holeCards1: seq<Cards.Card>, holeCards2: seq<Cards.Card>, community: seq<Cards.Card>)
    ensures var r, s := CompareSpec(holeCards1, holeCards2, community), CompareSpec(holeCards2, holeCards1, community);
            (r.Err? ==> s == r) && (r.Ok? ==> s == Ok(Flip(r.value)))
  {
    var r1 := EvaluateSpec(holeCards1 + community);
    var r2 := EvaluateSpec(holeCards2 + community);
    if r1.Ok? && r2.Ok? {
      OutcomeFlips(r1.value, r2.value);
    }
  }

  /** A rank some card holds is a game rank, 2 to 14. */
  lemma HasRankRange(cards: seq<Cards.Card>, x: int)
    requires HasRank(cards, x)
    ensures 2 <= x <= 14
  {
    var c :| c in cards && c.rank == x;
  }

  /** How many tiebreakers each category carries when five or more cards are evaluated. */
  function TiebreakerCount(rank: HandRank): nat {
    match rank
    case RoyalFlush => 1
    case StraightFlush => 1
    case FourOfAKind => 2
    case FullHouse => 2
    case Flush => 5
    case Straight => 1
    case ThreeOfAKind => 3
    case TwoPair => 3
    case OnePair => 4
    case HighCard => 5
  }

  /** A straight flush is one tiebreaker, its high card. */
  lemma StraightFlushShape(cards: seq<Cards.Card>)
    requires StraightFlushSpec(cards) != []
    ensures |StraightFlushSpec(cards)| == 1 && 5 <= StraightFlushSpec(cards)[0] <= 14
  {
    var t := StraightFlushSuit(cards, 0);
    StraightMeaning(SuitCards(cards, t));
  }

  /** `n` tiebreakers, each at most 14. */
  predicate Bounded(tb: seq<Byte>, n: nat) {
    |tb| == n && forall i :: 0 <= i < |tb| ==> tb[i] <= 14
  }

  /**
   * A check that found its category carries the category's number of
   * tiebreakers, at most five, each a rank of at most 14 or the missing
   * kicker 0.
   */
  lemma CheckTiebreakers(cards: seq<Cards.Card>, rank: HandRank)
    requires |cards| >= 5 && (rank != HighCard ==> CheckOf(cards, rank) != [])
    ensures TiebreakerCount(rank) <= 5 && Bounded(CheckOf(cards, rank), TiebreakerCount(rank))
  {
    match rank
    case RoyalFlush =>
    case StraightFlush => StraightFlushShape(cards);
    case FourOfAKind => FourOfAKindTiebreakers(cards);
    case FullHouse => FullHouseTiebreakers(cards);
    case Flush => FlushTiebreakers(cards);
    case Straight => StraightMeaning(cards);
    case ThreeOfAKind => ThreeOfAKindTiebreakers(cards);
    case TwoPair => TwoPairTiebreakers(cards);
    case OnePair => PairTiebreakers(cards);
    case HighCard => HighCardTiebreakers(cards);
  }

  lemma FourOfAKindTiebreakers(cards: seq<Cards.Card>)
    requires |cards| >= 5 && FourOfAKindSpec(cards) != []
    ensures Bounded(FourOfAKindSpec(cards), 2)
  {
    var tb := FourOfAKindSpec(cards);
    FourOfAKindShape(cards);
    RankCountRange(cards, tb[0]);
    HasRankRange(cards, tb[1]);
  }

  lemma FullHouseTiebreakers(cards: seq<Cards.Card>)
    requires FullHouseSpec(cards) != []
    ensures Bounded(FullHouseSpec(cards), 2)
  {
    var tb := FullHouseSpec(cards);
    FullHouseMeaning(cards);
    RankCountRange(cards, tb[0]);
    RankCountRange(cards, tb[1]);
  }

  lemma ThreeOfAKindTiebreakers(cards: seq<Cards.Card>)
    requires |cards| >= 5 && ThreeOfAKindSpec(cards) != []
    ensures Bounded(ThreeOfAKindSpec(cards), 3)
  {
    var tb := ThreeOfAKindSpec(cards);
    ThreeOfAKindShape(cards);
    RankCountRange(cards, tb[0]);
    HasRankRange(cards, tb[1]);
    HasRankRange(cards, tb[2]);
  }

  lemma TwoPairTiebreakers(cards: seq<Cards.Card>)
    requires TwoPairSpec(cards) != []
    ensures Bounded(TwoPairSpec(cards), 3)
  {
    var tb := TwoPairSpec(cards);
    TwoPairShape(cards);
    RankCountRange(cards, tb[0]);
    RankCountRange(cards, tb[1]);
    if tb[2] != 0 {
      HasRankRange(cards, tb[2]);
    }
  }

  lemma PairTiebreakers(cards: seq<Cards.Card>)
    requires |cards| >= 5 && PairSpec(cards) != []
    ensures Bounded(PairSpec(cards), 4)
  {
    var tb := PairSpec(cards);
    PairShape(cards);
    RankCountRange(cards, tb[0]);
    forall i | 1 <= i < 4
      ensures tb[i] <= 14
    {
      HasRankRange(cards, tb[i]);
    }
  }

  lemma FlushTiebreakers(cards: seq<Cards.Card>)
    requires FlushSpec(cards) != []
    ensures Bounded(FlushSpec(cards), 5)
  {
    var tb := FlushSpec(cards);
    FlushShape(cards);
    var s :| 0 <= s < 4 && |SuitCards(cards, s)| >= 5 &&
             (forall i :: 0 <= i < 5 ==> HasRank(SuitCards(cards, s), tb[i]));
    forall i | 0 <= i < 5
      ensures tb[i] <= 14
    {
      HasRankRange(SuitCards(cards, s), tb[i]);
    }
  }

  lemma HighCardTiebreakers(cards: seq<Cards.Card>)
    requires |cards| >= 5
    ensures Bounded(HighCardSpec(cards), 5)
  {
    var tb := HighCardSpec(cards);
    HighCardShape(cards);
    forall i | 0 <= i < 5
      ensures tb[i] <= 14
    {
      HasRankRange(cards, tb[i]);
    }
  }

  /**
   * Results of one category with equally many tiebreakers are `==` exactly
   * when they are equal.
   */
  lemma EquivalentAtSameLength(x: HandResult, y: HandResult)
    requires x.rank == y.rank ==> |x.tiebreakers| == |y.tiebreakers|
    ensures Equivalent(x, y) <==> x == y
  {
    EquivalentIff(x, y);
    if x.rank == y.rank && AgreeBelow(x.tiebreakers, y.tiebreakers, |x.tiebreakers|) {
      assert x.tiebreakers == y.tiebreakers;
    }
  }

  /**
   * On the evaluator's own results `operator==` is equality, and so an
   * equivalence: each category always carries the same number of
   * tiebreakers, so no result is a proper prefix of another of its category.
   */
  lemma EquivalentOnEvaluations(cards1: seq<Cards.Card>, cards2: seq<Cards.Card>, cards3: seq<Cards.Card>)
    requires |cards1| >= 5 && |cards2| >= 5 && |cards3| >= 5
    ensures var x, y, z := EvaluateSpec(cards1).value, EvaluateSpec(cards2).value, EvaluateSpec(cards3).value;
            (Equivalent(x, y) <==> x == y) &&
            (Equivalent(x, y) && Equivalent(y, z) ==> Equivalent(x, z))
  {
    var x, y, z := EvaluateSpec(cards1).value, EvaluateSpec(cards2).value, EvaluateSpec(cards3).value;
    EvaluateTiebreakers(cards1);
    EvaluateTiebreakers(cards2);
    EvaluateTiebreakers(cards3);
    EquivalentAtSameLength(x, y);
    EquivalentAtSameLength(y, z);
    EquivalentAtSameLength(x, z);
  }

  /**
   * Every evaluation of five or more cards carries its category's number
   * of tiebreakers, at most five, each at most 14.
   */
  lemma EvaluateTiebreakers(cards: seq<Cards.Card>)
    requires |cards| >= 5
    ensures var r := EvaluateSpec(cards).value;
            TiebreakerCount(r.rank) <= 5 && Bounded(r.tiebreakers, TiebreakerCount(r.rank))
  {
    CheckTiebreakers(cards, Category(cards));
  }
}
