// The fixed-size bit set of src/bitset.cpp.  A word of the underlying
// WordT array is modelled as a sequence of WordS booleans (bit k of the word
// at index k), so the word width is a parameter rather than a fixed integer
// type; the bitwise word operations become element-wise operations.
module Bitsets {
  import opened Wrappers
  import Text

  type Word = seq<bool>

  datatype BitsetError = OutOfRange(message: string) | SizeMismatch(message: string)

  function IndexMessage(n: nat): string
  {
    "Bitset index must be in the range [0, " + Text.NatToString(n) + ")."
  }

  const SizeMessage := "The two Bitset must have the same size."

  // ---------------------------------------------------------------------
  // Words

  function Zeros(W: nat): (z: Word)
    ensures |z| == W && forall k :: 0 <= k < W ==> !z[k]
  {
    seq(W, _ => false)
  }

  function Ones(W: nat): (z: Word)
    ensures |z| == W && forall k :: 0 <= k < W ==> z[k]
  {
    seq(W, _ => true)
  }

  /** `1 << b` as a word: only bit b set. */
  function BitMask(W: nat, b: nat): (m: Word)
    ensures |m| == W && forall k :: 0 <= k < W ==> m[k] == (k == b)
  {
    seq(W, k => k == b)
  }

  /** Number of words for n bits, rounding up. */
  function WordCount(n: nat, W: nat): nat
    requires W > 0
  {
    if n % W == 0 then n / W else n / W + 1
  }

  /** `(WordT)((1 << (n % WordS)) - 1)`: the low n % W bits set. */
  function LastMask(n: nat, W: nat): (m: Word)
    requires W > 0
    ensures |m| == W && forall k :: 0 <= k < W ==> m[k] == (k < n % W)
  {
    seq(W, k => k < n % W)
  }

  /** A bitwise word operator (|, &, ^) applied bit by bit. */
  function ZipWord(a: Word, b: Word, op: (bool, bool) -> bool): (z: Word)
    requires |a| == |b|
    ensures |z| == |a| && forall k :: 0 <= k < |a| ==> z[k] == op(a[k], b[k])
  {
    seq(|a|, k requires 0 <= k < |a| => op(a[k], b[k]))
  }

  function ZipWords(xs: seq<Word>, ys: seq<Word>, op: (bool, bool) -> bool): (zs: seq<Word>)
    requires |xs| == |ys| && forall w :: 0 <= w < |xs| ==> |xs[w]| == |ys[w]|
    ensures |zs| == |xs| && forall w :: 0 <= w < |xs| ==> zs[w] == ZipWord(xs[w], ys[w], op)
  {
    seq(|xs|, w requires 0 <= w < |xs| && |xs| == |ys| && |xs[w]| == |ys[w]| => ZipWord(xs[w], ys[w], op))
  }

  function Or(x: bool, y: bool): bool { x || y }
  function And(x: bool, y: bool): bool { x && y }
  function Xor(x: bool, y: bool): bool { x != y }

  // ---------------------------------------------------------------------
  // Word positions: bit i lives in word i / W at offset i % W

  lemma MulMono(a: nat, b: nat, c: nat)
    requires a <= b
    ensures a * c <= b * c
  {}

  lemma Position(i: nat, n: nat, W: nat)
    requires W > 0 && i < n
    ensures 0 <= i / W < WordCount(n, W)
    ensures i == (i / W) * W + i % W
  {
    var q, r := i / W, i % W;
    var wc := WordCount(n, W);
    if q >= wc {
      MulMono(wc, q, W);
    }
  }

  lemma Decompose(w: nat, b: nat, W: nat)
    requires b < W
    ensures (w * W + b) / W == w && (w * W + b) % W == b
  {
    var x := w * W + b;
    var q, r := x / W, x % W;
    assert x == q * W + r;
    if q < w {
      MulMono(q + 1, w, W);
      assert false;
    } else if q > w {
      MulMono(w + 1, q, W);
      assert false;
    }
  }

  /** A position in an earlier word lies before the start of a later one. */
  lemma BeforeWord(w: nat, b: nat, last: nat, W: nat)
    requires w < last && b < W
    ensures w * W + b < last * W
  {
    MulMono(w + 1, last, W);
  }

  /** The first bit position of the last word, and how it relates to n. */
  lemma LastWordStart(n: nat, W: nat)
    requires W > 0 && n > 0
    ensures WordCount(n, W) >= 1
    ensures n % W != 0 ==> (WordCount(n, W) - 1) * W + n % W == n
    ensures n % W == 0 ==> (WordCount(n, W) - 1) * W + W == n
  {
    assert n == (n / W) * W + n % W;
    if n % W == 0 {
      assert n / W >= 1;
      assert (n / W - 1) * W + W == (n / W) * W;
    }
  }

  // ---------------------------------------------------------------------
  // The abstract value: the sequence of the n bits

  /**
   * words_ holds WordCount(n, W) words of W bits, and every padding bit
   * beyond bit n - 1 is clear.
   */
  ghost predicate WellFormed(ws: seq<Word>, n: nat, W: nat)
  {
    && W > 0
    && |ws| == WordCount(n, W)
    && (forall w :: 0 <= w < |ws| ==> |ws[w]| == W)
    && (forall w, b :: 0 <= w < |ws| && 0 <= b < W && n <= w * W + b ==> !ws[w][b])
  }

  function BitAt(ws: seq<Word>, n: nat, W: nat, i: nat): bool
    requires WellFormed(ws, n, W) && i < n
  {
    Position(i, n, W);
    ws[i / W][i % W]
  }

  ghost function BitsOf(ws: seq<Word>, n: nat, W: nat): (bits: seq<bool>)
    requires WellFormed(ws, n, W)
    ensures |bits| == n
  {
    seq(n, i requires 0 <= i < n => BitAt(ws, n, W, i))
  }

  /** Bit i of the set is bit i % W of word i / W. */
  lemma WordOfBit(ws: seq<Word>, n: nat, W: nat, i: nat)
    requires WellFormed(ws, n, W) && i < n
    ensures 0 <= i / W < |ws| && i % W < W && i == (i / W) * W + i % W
    ensures BitsOf(ws, n, W)[i] == ws[i / W][i % W]
  {
    Position(i, n, W);
  }

  /** Bit b of word w is bit w * W + b of the set, when that is below n. */
  lemma BitOfWord(ws: seq<Word>, n: nat, W: nat, w: nat, b: nat)
    requires WellFormed(ws, n, W) && w < |ws| && b < W && w * W + b < n
    ensures BitsOf(ws, n, W)[w * W + b] == ws[w][b]
  {
    Decompose(w, b, W);
  }

  /** What Bitset::all checks, word by word. */
  predicate AllWords(ws: seq<Word>, W: nat, lastMask: Word)
    requires |ws| > 0
  {
    (forall w :: 0 <= w < |ws| - 1 ==> ws[w] == Ones(W)) && ws[|ws| - 1] == lastMask
  }

  /**
   * The bit pattern all() accepts: every bit below the last word set, and a
   * bit of the last word set exactly when its offset is below n % W.
   */
  ghost predicate AllPattern(bits: seq<bool>, W: nat)
    requires W > 0 && |bits| > 0
  {
    var n := |bits|;
    var start := (WordCount(n, W) - 1) * W;
    forall i :: 0 <= i < n ==> bits[i] == (i < start || i - start < n % W)
  }

  lemma {:induction false} AllWordsGivesPattern(ws: seq<Word>, n: nat, W: nat)
    requires WellFormed(ws, n, W) && n > 0
    requires AllWords(ws, W, LastMask(n, W))
    ensures AllPattern(BitsOf(ws, n, W), W)
  {
    var bits := BitsOf(ws, n, W);
    var last := WordCount(n, W) - 1;
    var start := last * W;
    forall i | 0 <= i < n
      ensures bits[i] == (i < start || i - start < n % W)
    {
      WordOfBit(ws, n, W, i);
      var w, b := i / W, i % W;
      if w < last {
        BeforeWord(w, b, last, W);
        assert ws[w] == Ones(W);
      } else {
        assert ws[w] == LastMask(n, W);
      }
    }
  }

  lemma {:induction false} PatternGivesAllWords(ws: seq<Word>, n: nat, W: nat)
    requires WellFormed(ws, n, W) && n > 0
    requires AllPattern(BitsOf(ws, n, W), W)
    ensures AllWords(ws, W, LastMask(n, W))
  {
    var bits := BitsOf(ws, n, W);
    var last := WordCount(n, W) - 1;
    var start := last * W;
    var mask := LastMask(n, W);
    LastWordStart(n, W);
    forall w | 0 <= w < last
      ensures ws[w] == Ones(W)
    {
      forall b | 0 <= b < W
        ensures ws[w][b]
      {
        BeforeWord(w, b, last, W);
        BitOfWord(ws, n, W, w, b);
      }
    }
    forall b | 0 <= b < W
      ensures ws[last][b] == mask[b]
    {
      if start + b < n {
        BitOfWord(ws, n, W, last, b);
      }
    }
  }

  lemma AllWordsMeaning(ws: seq<Word>, n: nat, W: nat)
    requires WellFormed(ws, n, W) && n > 0
    ensures AllWords(ws, W, LastMask(n, W)) <==> AllPattern(BitsOf(ws, n, W), W)
  {
    if AllWords(ws, W, LastMask(n, W)) {
      AllWordsGivesPattern(ws, n, W);
    }
    if AllPattern(BitsOf(ws, n, W), W) {
      PatternGivesAllWords(ws, n, W);
    }
  }

  /** Where n is not a multiple of the word width, all() means every bit is set. */
  lemma AllMeansEveryBit(bits: seq<bool>, W: nat)
    requires W > 0 && |bits| > 0 && |bits| % W != 0
    ensures AllPattern(bits, W) <==> forall i :: 0 <= i < |bits| ==> bits[i]
  {
    LastWordStart(|bits|, W);
  }

  /**
   * Where n is a multiple of the word width the last mask is 0, so all() is
   * false on a bit set whose bits are all set.
   */
  lemma AllFalseWhenFullAndMultiple(bits: seq<bool>, W: nat)
    requires W > 0 && |bits| > 0 && |bits| % W == 0
    requires forall i :: 0 <= i < |bits| ==> bits[i]
    ensures !AllPattern(bits, W)
  {
    var n := |bits|;
    LastWordStart(n, W);
    var start := (WordCount(n, W) - 1) * W;
    assert bits[n - 1] != (n - 1 < start || n - 1 - start < n % W);
  }

  /** The evidently intended last-word mask: every real bit of the last word. */
  function IntendedLastMask(n: nat, W: nat): (m: Word)
    requires W > 0
    ensures |m| == W
  {
    seq(W, k => if n % W == 0 then true else k < n % W)
  }

  lemma {:induction false} IntendedAllGivesEveryBit(ws: seq<Word>, n: nat, W: nat)
    requires WellFormed(ws, n, W) && n > 0
    requires AllWords(ws, W, IntendedLastMask(n, W))
    ensures forall i :: 0 <= i < n ==> BitsOf(ws, n, W)[i]
  {
    var last := WordCount(n, W) - 1;
    LastWordStart(n, W);
    forall i | 0 <= i < n
      ensures BitsOf(ws, n, W)[i]
    {
      WordOfBit(ws, n, W, i);
      if i / W < last {
        assert ws[i / W] == Ones(W);
      } else {
        assert ws[i / W] == IntendedLastMask(n, W);
      }
    }
  }

  lemma {:induction false} EveryBitGivesIntendedAll(ws: seq<Word>, n: nat, W: nat)
    requires WellFormed(ws, n, W) && n > 0
    requires forall i :: 0 <= i < n ==> BitsOf(ws, n, W)[i]
    ensures AllWords(ws, W, IntendedLastMask(n, W))
  {
    var last := WordCount(n, W) - 1;
    var mask := IntendedLastMask(n, W);
    LastWordStart(n, W);
    forall w | 0 <= w < last
      ensures ws[w] == Ones(W)
    {
      forall b | 0 <= b < W
        ensures ws[w][b]
      {
        BeforeWord(w, b, last, W);
        BitOfWord(ws, n, W, w, b);
      }
    }
    forall b | 0 <= b < W
      ensures ws[last][b] == mask[b]
    {
      if last * W + b < n {
        BitOfWord(ws, n, W, last, b);
      }
    }
  }

  lemma IntendedAllMeansEveryBit(ws: seq<Word>, n: nat, W: nat)
    requires WellFormed(ws, n, W) && n > 0
    ensures AllWords(ws, W, IntendedLastMask(n, W)) <==> forall i :: 0 <= i < n ==> BitsOf(ws, n, W)[i]
  {
    if AllWords(ws, W, IntendedLastMask(n, W)) {
      IntendedAllGivesEveryBit(ws, n, W);
    }
    if forall i :: 0 <= i < n ==> BitsOf(ws, n, W)[i] {
      EveryBitGivesIntendedAll(ws, n, W);
    }
  }

  lemma NonZeroWordHasBit(ws: seq<Word>, n: nat, W: nat, w: nat)
    requires WellFormed(ws, n, W) && w < |ws| && ws[w] != Zeros(W)
    ensures exists i :: 0 <= i < n && BitsOf(ws, n, W)[i]
  {
    assert exists b :: 0 <= b < W && ws[w][b] != Zeros(W)[b];
    var b :| 0 <= b < W && ws[w][b];
    BitOfWord(ws, n, W, w, b);
  }

  lemma ZeroWordsNoBit(ws: seq<Word>, n: nat, W: nat)
    requires WellFormed(ws, n, W)
    requires forall w :: 0 <= w < |ws| ==> ws[w] == Zeros(W)
    ensures forall i :: 0 <= i < n ==> !BitsOf(ws, n, W)[i]
  {
    forall i | 0 <= i < n
      ensures !BitsOf(ws, n, W)[i]
    {
      WordOfBit(ws, n, W, i);
    }
  }

  lemma {:induction false} AnyMeaning(ws: seq<Word>, n: nat, W: nat)
    requires WellFormed(ws, n, W)
    ensures (exists w :: 0 <= w < |ws| && ws[w] != Zeros(W)) <==>
            (exists i :: 0 <= i < n && BitsOf(ws, n, W)[i])
  {
    if w :| 0 <= w < |ws| && ws[w] != Zeros(W) {
      NonZeroWordHasBit(ws, n, W, w);
    }
    if i :| 0 <= i < n && BitsOf(ws, n, W)[i] {
      SetBitHasNonZeroWord(ws, n, W, i);
    }
  }

  lemma SetBitHasNonZeroWord(ws: seq<Word>, n: nat, W: nat, i: nat)
    requires WellFormed(ws, n, W) && i < n && BitsOf(ws, n, W)[i]
    ensures exists w :: 0 <= w < |ws| && ws[w] != Zeros(W)
  {
    WordOfBit(ws, n, W, i);
    assert ws[i / W][i % W] != Zeros(W)[i % W];
  }

  /** The words after `words_[i / W] ^= 1 << (i % W)`. */
  function FlipWords(ws: seq<Word>, W: nat, i: nat): (ws': seq<Word>)
    requires W > 0 && i / W < |ws| && |ws[i / W]| == W
    ensures |ws'| == |ws|
  {
    ws[i / W := ZipWord(ws[i / W], BitMask(W, i % W), Xor)]
  }

  /** Flipping the same bit twice restores the words. */
  lemma FlipTwice(ws: seq<Word>, W: nat, i: nat)
    requires W > 0 && i / W < |ws| && |ws[i / W]| == W
    ensures FlipWords(FlipWords(ws, W, i), W, i) == ws
  {
    var x, m := ws[i / W], BitMask(W, i % W);
    assert ZipWord(ZipWord(x, m, Xor), m, Xor) == x;
  }

  lemma FlipOneBit(ws: seq<Word>, n: nat, W: nat, i: nat, j: nat)
    requires WellFormed(ws, n, W) && i < n && j < n
    requires i / W < |ws| && WellFormed(FlipWords(ws, W, i), n, W)
    ensures BitsOf(FlipWords(ws, W, i), n, W)[j] == (if j == i then !BitsOf(ws, n, W)[j] else BitsOf(ws, n, W)[j])
  {
    WordOfBit(ws, n, W, i);
    WordOfBit(ws, n, W, j);
    WordOfBit(FlipWords(ws, W, i), n, W, j);
    if j != i {
      DistinctPositions(i, j, W);
    }
    FlipWordAt(ws, W, i / W, i % W, j / W, j % W);
  }

  /** The word-level view of FlipWords: one bit of one word changes. */
  lemma FlipWordAt(ws: seq<Word>, W: nat, wi: nat, bi: nat, wj: nat, bj: nat)
    requires wi < |ws| && |ws[wi]| == W && bi < W && wj < |ws| && bj < |ws[wj]|
    ensures var ws' := ws[wi := ZipWord(ws[wi], BitMask(W, bi), Xor)];
      ws'[wj][bj] == (if wj == wi && bj == bi then !ws[wj][bj] else ws[wj][bj])
  {
  }

  lemma DistinctPositions(i: nat, j: nat, W: nat)
    requires W > 0 && i != j
    ensures i / W != j / W || i % W != j % W
  {
  }

  lemma {:induction false} FlipBitsOf(ws: seq<Word>, n: nat, W: nat, i: nat)
    requires WellFormed(ws, n, W) && i < n
    ensures i / W < |ws|
    ensures WellFormed(FlipWords(ws, W, i), n, W)
    ensures BitsOf(FlipWords(ws, W, i), n, W) == BitsOf(ws, n, W)[i := !BitsOf(ws, n, W)[i]]
  {
    WordOfBit(ws, n, W, i);
    var w0, b0 := i / W, i % W;
    var ws' := FlipWords(ws, W, i);
    forall w, b | 0 <= w < |ws'| && 0 <= b < W && n <= w * W + b
      ensures !ws'[w][b]
    {
      assert w == w0 && b == b0 ==> w * W + b == i;
    }
    forall j | 0 <= j < n
      ensures BitsOf(ws', n, W)[j] == BitsOf(ws, n, W)[i := !BitsOf(ws, n, W)[i]][j]
    {
      FlipOneBit(ws, n, W, i, j);
    }
  }

  lemma {:induction false} ZipBitsOf(xs: seq<Word>, ys: seq<Word>, n: nat, W: nat, op: (bool, bool) -> bool)
    requires WellFormed(xs, n, W) && WellFormed(ys, n, W)
    requires !op(false, false)
    ensures WellFormed(ZipWords(xs, ys, op), n, W)
    ensures forall i :: 0 <= i < n ==>
      BitsOf(ZipWords(xs, ys, op), n, W)[i] == op(BitsOf(xs, n, W)[i], BitsOf(ys, n, W)[i])
  {
    var zs := ZipWords(xs, ys, op);
    assert WellFormed(zs, n, W);
    forall i | 0 <= i < n
      ensures BitsOf(zs, n, W)[i] == op(BitsOf(xs, n, W)[i], BitsOf(ys, n, W)[i])
    {
      WordOfBit(xs, n, W, i);
      WordOfBit(ys, n, W, i);
      WordOfBit(zs, n, W, i);
    }
  }

  // ---------------------------------------------------------------------
  // The class

  class Bitset {
    const bitcnt: nat
    const wordSize: nat
    const wordcnt: nat
    const lastMask: Word
    const words: array<Word>

    ghost predicate Valid()
      reads words
    {
      && WellFormed(words[..], bitcnt, wordSize)
      && wordcnt == words.Length
      && lastMask == LastMask(bitcnt, wordSize)
    }

    /** The abstract value: bit i of the set is Bits()[i]. */
    ghost function Bits(): (s: seq<bool>)
      reads words
      requires Valid()
      ensures |s| == bitcnt
    {
      BitsOf(words[..], bitcnt, wordSize)
    }

    /** Bitset(n): n clear bits. */
    constructor (n: nat, W: nat)
      requires W > 0
      ensures Valid() && fresh(words)
      ensures bitcnt == n && wordSize == W
      ensures forall i :: 0 <= i < n ==> !Bits()[i]
    {
      bitcnt := n;
      wordSize := W;
      wordcnt := WordCount(n, W);
      lastMask := LastMask(n, W);
      words := new Word[WordCount(n, W)](_ => Zeros(W));
      new;
      forall i | 0 <= i < n
        ensures !Bits()[i]
      {
        Position(i, n, W);
      }
    }

    /** Bitset(const Bitset &): an independent copy with the same bits. */
    constructor Copy(other: Bitset)
      requires other.Valid()
      ensures Valid() && fresh(words)
      ensures bitcnt == other.bitcnt && wordSize == other.wordSize
      ensures Bits() == other.Bits()
    {
      bitcnt := other.bitcnt;
      wordSize := other.wordSize;
      wordcnt := other.wordcnt;
      lastMask := other.lastMask;
      words := new Word[other.wordcnt];
      new;
      var i := 0;
      while i < wordcnt
        invariant 0 <= i <= wordcnt
        invariant words[..i] == other.words[..i]
      {
        words[i] := other.words[i];
        i := i + 1;
      }
      assert words[..] == other.words[..];
    }

    function BitCount(): (n: nat)
      ensures n == bitcnt
    {
      bitcnt
    }

    /** operator[]: the bit at i, or out_of_range for i >= n. */
    function Get(i: nat): (r: Result<bool, BitsetError>)
      reads words
      requires Valid()
      ensures i < bitcnt ==> r == Success(Bits()[i])
      ensures i >= bitcnt ==> r == Failure(OutOfRange(IndexMessage(bitcnt)))
    {
      if i >= bitcnt then Failure(OutOfRange(IndexMessage(bitcnt)))
      else
        Position(i, bitcnt, wordSize);
        Success(words[i / wordSize][i % wordSize])
    }

    /** Toggles bit i (words_[i / WordS] ^= 1 << (i % WordS)). */
    method Flip(i: nat) returns (r: Outcome<BitsetError>)
      requires Valid()
      modifies words
      ensures Valid()
      ensures i < bitcnt ==> r == Pass && Bits() == old(Bits())[i := !old(Bits())[i]]
      ensures i >= bitcnt ==> r == Fail(OutOfRange(IndexMessage(bitcnt))) && Bits() == old(Bits())
    {
      if i >= bitcnt {
        return Fail(OutOfRange(IndexMessage(bitcnt)));
      }
      FlipBitsOf(words[..], bitcnt, wordSize, i);
      var w := i / wordSize;
      words[w] := ZipWord(words[w], BitMask(wordSize, i % wordSize), Xor);
      assert words[..] == FlipWords(old(words[..]), wordSize, i);
      r := Pass;
    }

    /** set(i, v): flips bit i when it differs from v. */
    method Set(i: nat, v: bool) returns (r: Outcome<BitsetError>)
      requires Valid()
      modifies words
      ensures Valid()
      ensures i < bitcnt ==> r == Pass && Bits() == old(Bits())[i := v]
      ensures i >= bitcnt ==> r == Fail(OutOfRange(IndexMessage(bitcnt))) && Bits() == old(Bits())
    {
      var cur := Get(i);
      if cur.Failure? {
        return Fail(cur.error);
      }
      if cur.value != v {
        r := Flip(i);
      } else {
        r := Pass;
        assert old(Bits())[i := v] == old(Bits());
      }
    }

    /** reset(): clears every word. */
    method Reset()
      requires Valid()
      modifies words
      ensures Valid()
      ensures forall i :: 0 <= i < bitcnt ==> !Bits()[i]
    {
      var i := 0;
      while i < wordcnt
        invariant 0 <= i <= wordcnt
        invariant forall w :: 0 <= w < i ==> words[w] == Zeros(wordSize)
        invariant forall w :: i <= w < wordcnt ==> words[w] == old(words[w])
      {
        words[i] := Zeros(wordSize);
        i := i + 1;
      }
      forall j | 0 <= j < bitcnt
        ensures !Bits()[j]
      {
        Position(j, bitcnt, wordSize);
      }
    }

    /**
     * all(): every word but the last is full and the last equals the last
     * mask.  The source computes wordcnt_ - 1 unguarded, so n must be > 0.
     */
    method All() returns (r: bool)
      requires Valid() && bitcnt > 0
      ensures r == AllPattern(Bits(), wordSize)
      ensures bitcnt % wordSize != 0 ==> (r <==> forall i :: 0 <= i < bitcnt ==> Bits()[i])
    {
      LastWordStart(bitcnt, wordSize);
      var last := wordcnt - 1;
      var i := 0;
      while i < last
        invariant 0 <= i <= last
        invariant forall w :: 0 <= w < i ==> words[w] == Ones(wordSize)
      {
        if words[i] != Ones(wordSize) {
          AllWordsMeaning(words[..], bitcnt, wordSize);
          return false;
        }
        i := i + 1;
      }
      r := words[last] == lastMask;
      AllWordsMeaning(words[..], bitcnt, wordSize);
      if bitcnt % wordSize != 0 {
        AllMeansEveryBit(Bits(), wordSize);
      }
    }

    /** any(): some word is non-zero, i.e. some bit is set. */
    method Any() returns (r: bool)
      requires Valid()
      ensures r <==> exists i :: 0 <= i < bitcnt && Bits()[i]
    {
      var i := 0;
      while i < wordcnt
        invariant 0 <= i <= wordcnt
        invariant forall w :: 0 <= w < i ==> words[w] == Zeros(wordSize)
      {
        if words[i] != Zeros(wordSize) {
          NonZeroWordHasBit(words[..], bitcnt, wordSize, i);
          ghost var k :| 0 <= k < bitcnt && BitsOf(words[..], bitcnt, wordSize)[k];
          assert Bits()[k];
          return true;
        }
        i := i + 1;
      }
      ZeroWordsNoBit(words[..], bitcnt, wordSize);
      r := false;
    }

    /** none(): every word is zero, i.e. no bit is set. */
    method None() returns (r: bool)
      requires Valid()
      ensures r <==> forall i :: 0 <= i < bitcnt ==> !Bits()[i]
    {
      var i := 0;
      while i < wordcnt
        invariant 0 <= i <= wordcnt
        invariant forall w :: 0 <= w < i ==> words[w] == Zeros(wordSize)
      {
        if words[i] != Zeros(wordSize) {
          NonZeroWordHasBit(words[..], bitcnt, wordSize, i);
          ghost var k :| 0 <= k < bitcnt && BitsOf(words[..], bitcnt, wordSize)[k];
          assert Bits()[k];
          return false;
        }
        i := i + 1;
      }
      ZeroWordsNoBit(words[..], bitcnt, wordSize);
      r := true;
    }

    /**
     * The shared body of operator|, operator& and operator^: a fresh set
     * whose words are this set's words combined with other's.
     */
    method Combine(other: Bitset, op: (bool, bool) -> bool) returns (res: Result<Bitset, BitsetError>)
      requires Valid() && other.Valid() && other.wordSize == wordSize
      requires !op(false, false)
      ensures bitcnt != other.bitcnt ==> res == Failure(SizeMismatch(SizeMessage))
      ensures bitcnt == other.bitcnt ==>
        && res.Success? && fresh(res.value.words) && res.value.Valid()
        && res.value.bitcnt == bitcnt && res.value.wordSize == wordSize
        && forall i :: 0 <= i < bitcnt ==> res.value.Bits()[i] == op(Bits()[i], other.Bits()[i])
    {
      if bitcnt != other.bitcnt {
        return Failure(SizeMismatch(SizeMessage));
      }
      var b := new Bitset(bitcnt, wordSize);
      ghost var target := ZipWords(words[..], other.words[..], op);
      var i := 0;
      while i < wordcnt
        invariant 0 <= i <= wordcnt
        invariant b.words.Length == wordcnt
        invariant b.words[..i] == target[..i]
      {
        b.words[i] := ZipWord(words[i], other.words[i], op);
        i := i + 1;
      }
      assert b.words[..] == target;
      ZipBitsOf(words[..], other.words[..], bitcnt, wordSize, op);
      res := Success(b);
    }

    /**
     * The shared body of |=, &= and ^=: combines other's words into this
     * set's words in place (other may be this set itself).
     */
    method CombineInPlace(other: Bitset, op: (bool, bool) -> bool) returns (r: Outcome<BitsetError>)
      requires Valid() && other.Valid() && other.wordSize == wordSize
      requires !op(false, false)
      modifies words
      ensures Valid()
      ensures bitcnt != other.bitcnt ==> r == Fail(SizeMismatch(SizeMessage)) && Bits() == old(Bits())
      ensures bitcnt == other.bitcnt ==>
        && r == Pass
        && forall i :: 0 <= i < bitcnt ==> Bits()[i] == op(old(Bits())[i], old(other.Bits())[i])
    {
      if bitcnt != other.bitcnt {
        return Fail(SizeMismatch(SizeMessage));
      }
      ghost var target := ZipWords(words[..], other.words[..], op);
      ZipBitsOf(words[..], other.words[..], bitcnt, wordSize, op);
      var i := 0;
      while i < wordcnt
        invariant 0 <= i <= wordcnt
        invariant words[..i] == target[..i]
        invariant forall w :: i <= w < wordcnt ==> words[w] == old(words[w])
        invariant forall w :: i <= w < wordcnt ==> other.words[w] == old(other.words[w])
      {
        words[i] := ZipWord(words[i], other.words[i], op);
        i := i + 1;
      }
      assert words[..] == target;
      r := Pass;
    }

    /** operator| */
    method Union(other: Bitset) returns (res: Result<Bitset, BitsetError>)
      requires Valid() && other.Valid() && other.wordSize == wordSize
      ensures bitcnt != other.bitcnt ==> res == Failure(SizeMismatch(SizeMessage))
      ensures bitcnt == other.bitcnt ==>
        && res.Success? && fresh(res.value.words) && res.value.Valid() && res.value.bitcnt == bitcnt
        && res.value.wordSize == wordSize
        && forall i :: 0 <= i < bitcnt ==> res.value.Bits()[i] == (Bits()[i] || other.Bits()[i])
    {
      res := Combine(other, Or);
    }

    /** operator& */
    method Intersection(other: Bitset) returns (res: Result<Bitset, BitsetError>)
      requires Valid() && other.Valid() && other.wordSize == wordSize
      ensures bitcnt != other.bitcnt ==> res == Failure(SizeMismatch(SizeMessage))
      ensures bitcnt == other.bitcnt ==>
        && res.Success? && fresh(res.value.words) && res.value.Valid() && res.value.bitcnt == bitcnt
        && res.value.wordSize == wordSize
        && forall i :: 0 <= i < bitcnt ==> res.value.Bits()[i] == (Bits()[i] && other.Bits()[i])
    {
      res := Combine(other, And);
    }

    /** operator^ */
    method SymmetricDifference(other: Bitset) returns (res: Result<Bitset, BitsetError>)
      requires Valid() && other.Valid() && other.wordSize == wordSize
      ensures bitcnt != other.bitcnt ==> res == Failure(SizeMismatch(SizeMessage))
      ensures bitcnt == other.bitcnt ==>
        && res.Success? && fresh(res.value.words) && res.value.Valid() && res.value.bitcnt == bitcnt
        && res.value.wordSize == wordSize
        && forall i :: 0 <= i < bitcnt ==> res.value.Bits()[i] == (Bits()[i] != other.Bits()[i])
    {
      res := Combine(other, Xor);
    }

    /** operator|= */
    method UnionWith(other: Bitset) returns (r: Outcome<BitsetError>)
      requires Valid() && other.Valid() && other.wordSize == wordSize
      modifies words
      ensures Valid()
      ensures bitcnt != other.bitcnt ==> r == Fail(SizeMismatch(SizeMessage)) && Bits() == old(Bits())
      ensures bitcnt == other.bitcnt ==>
        && r == Pass
        && forall i :: 0 <= i < bitcnt ==> Bits()[i] == (old(Bits())[i] || old(other.Bits())[i])
    {
      r := CombineInPlace(other, Or);
    }

    /** operator&= */
    method IntersectWith(other: Bitset) returns (r: Outcome<BitsetError>)
      requires Valid() && other.Valid() && other.wordSize == wordSize
      modifies words
      ensures Valid()
      ensures bitcnt != other.bitcnt ==> r == Fail(SizeMismatch(SizeMessage)) && Bits() == old(Bits())
      ensures bitcnt == other.bitcnt ==>
        && r == Pass
        && forall i :: 0 <= i < bitcnt ==> Bits()[i] == (old(Bits())[i] && old(other.Bits())[i])
    {
      r := CombineInPlace(other, And);
    }

    /** operator^= */
    method SymmetricDifferenceWith(other: Bitset) returns (r: Outcome<BitsetError>)
      requires Valid() && other.Valid() && other.wordSize == wordSize
      modifies words
      ensures Valid()
      ensures bitcnt != other.bitcnt ==> r == Fail(SizeMismatch(SizeMessage)) && Bits() == old(Bits())
      ensures bitcnt == other.bitcnt ==>
        && r == Pass
        && forall i :: 0 <= i < bitcnt ==> Bits()[i] == (old(Bits())[i] != old(other.Bits())[i])
    {
      r := CombineInPlace(other, Xor);
    }
  }
}
