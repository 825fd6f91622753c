/**
 * Unsigned 64-bit words, modelled by their bits: position i holds bit i
 * (the bit of weight 2^i). Bitwise operators work position by position.
 */
module Words {

  /** n zero bits. */
  function Zeros(n: nat): (z: seq<bool>)
    ensures |z| == n && forall i :: 0 <= i < n ==> !z[i]
  {
    if n == 0 then [] else Zeros(n - 1) + [false]
  }

  type Word = w: seq<bool> | |w| == 64 witness Zeros(64)

  const ZeroWord: Word := Zeros(64)

  const TwoTo64: nat := 0x1_0000_0000_0000_0000

  /** The low n bits of x, least significant first. */
  function ToBits(x: nat, n: nat): (w: seq<bool>)
    ensures |w| == n
  {
    if n == 0 then [] else [x % 2 == 1] + ToBits(x / 2, n - 1)
  }

  /** A `uint64_t` value, reduced modulo 2^64, as a word. */
  function ToWord(x: nat): (w: Word) {
    ToBits(x % TwoTo64, 64)
  }

  /** Bit 0 of a word is the parity of its value. */
  lemma ToWordLowBit(x: nat)
    ensures ToWord(x)[0] <==> x % 2 == 1
  {
  }

  /** `1ULL << i`. */
  function BitWord(i: nat): (w: Word)
    requires i < 64
    ensures forall j :: 0 <= j < 64 ==> (w[j] <==> j == i)
  {
    seq(64, j => j == i)
  }

  /** `^` on two words. */
  function Xor(a: Word, b: Word): (r: Word)
    ensures forall i :: 0 <= i < 64 ==> (r[i] <==> a[i] != b[i])
  {
    seq(64, i requires 0 <= i < 64 => a[i] != b[i])
  }

  /** The laws of exclusive or that make a fold of it order-independent. */
  lemma XorLaws(a: Word, b: Word, c: Word)
    ensures Xor(a, b) == Xor(b, a)
    ensures Xor(Xor(a, b), c) == Xor(a, Xor(b, c))
    ensures Xor(a, ZeroWord) == a
    ensures Xor(Xor(a, b), b) == a
  {
  }

  /** Two words xored in turn into a third can be taken in either order. */
  lemma XorSwap(a: Word, b: Word, c: Word)
    ensures Xor(Xor(a, b), c) == Xor(Xor(a, c), b)
  {
  }

  /** The positions of the set bits. */
  function WordMembers(w: Word): set<int> {
    set i | 0 <= i < 64 && w[i]
  }

  /** `std::popcount` of the first n bits. */
  function PopCount(w: seq<bool>): nat {
    if w == [] then 0 else PopCount(w[..|w| - 1]) + (if w[|w| - 1] then 1 else 0)
  }

  lemma {:induction false} PopCountIsCardinality(w: seq<bool>)
    ensures PopCount(w) == |set i | 0 <= i < |w| && w[i]|
  {
    var members := set i | 0 <= i < |w| && w[i];
    if w == [] {
      assert members == {};
    } else {
      var init := w[..|w| - 1];
      PopCountIsCardinality(init);
      var prev := set i | 0 <= i < |init| && init[i];
      if w[|w| - 1] {
        assert members == prev + {|w| - 1};
      } else {
        assert members == prev;
      }
    }
  }

  /** A word is all zeros exactly when no bit is set. */
  lemma ZeroIffNoMembers(w: Word)
    ensures w == ZeroWord <==> WordMembers(w) == {}
  {
    if WordMembers(w) == {} {
      forall j | 0 <= j < 64
        ensures w[j] == ZeroWord[j]
      {
        assert j !in WordMembers(w);
      }
    }
  }

}
