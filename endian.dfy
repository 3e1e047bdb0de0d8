// uint2bytes: copies the low bytes of an unsigned integer into a byte
// buffer, least significant first (Little) or last (Big).
module Endian {
  import opened Arith

  type Byte = b: int | 0 <= b < 256

  datatype Endianness = Little | Big

  function Pow256(k: nat): (p: nat)
    ensures p >= 1
  {
    if k == 0 then 1 else 256 * Pow256(k - 1)
  }

  function Pow2(k: nat): (p: nat)
    ensures p >= 1
  {
    if k == 0 then 1 else 2 * Pow2(k - 1)
  }

  /** `src >> 8k` shifts by whole bytes. */
  lemma {:induction false} Pow2OfBytes(k: nat)
    ensures Pow2(8 * k) == Pow256(k)
  {
    if k > 0 {
      Pow2OfBytes(k - 1);
      assert 8 * k == (8 * (k - 1)) + 8;
      Pow2Add(8 * (k - 1), 8);
    }
  }

  lemma {:induction false} Pow2Add(a: nat, b: nat)
    ensures Pow2(a + b) == Pow2(a) * Pow2(b)
    decreases b
  {
    if b > 0 {
      Pow2Add(a, b - 1);
      assert Pow2(a + b) == 2 * Pow2(a + b - 1);
    }
  }

  /** The bit offset of output byte i: i*8 for Little, (n-i-1)*8 for Big. */
  function Offset(e: Endianness, n: nat, i: nat): nat
    requires i < n
  {
    if e == Little then i * 8 else (n - i - 1) * 8
  }

  /** `(src & (0xff << off)) >> off`, i.e. the byte of src at bit offset off. */
  function ByteAt(src: nat, off: nat): Byte
  {
    (src / Pow2(off)) % 256
  }

  /** The n bytes uint2bytes writes for src. */
  function Encode(e: Endianness, src: nat, n: nat): (r: seq<Byte>)
    ensures |r| == n
  {
    seq(n, i requires 0 <= i < n => ByteAt(src, Offset(e, n, i)))
  }

  /** Independent reference: little-endian digits in base 256. */
  function LittleDigits(src: nat, n: nat): (r: seq<Byte>)
    ensures |r| == n
  {
    if n == 0 then [] else [src % 256] + LittleDigits(src / 256, n - 1)
  }

  /** Reads bytes back as a little-endian number. */
  function LittleValue(bs: seq<Byte>): nat
  {
    if |bs| == 0 then 0 else bs[0] + 256 * LittleValue(bs[1..])
  }

  function Reverse<T>(s: seq<T>): (r: seq<T>)
    ensures |r| == |s|
  {
    seq(|s|, i requires 0 <= i < |s| => s[|s| - 1 - i])
  }

  // ---------------------------------------------------------------------
  // Division facts

  lemma DivDiv(a: nat, b: nat, c: nat)
    requires b > 0 && c > 0
    ensures (a / b) / c == a / (b * c)
  {
    MulPos(b, c);
    var q, r := a / (b * c), a % (b * c);
    DivMod(a, b * c);
    var s, t := r / b, r % b;
    DivMod(r, b);
    QuotientBelow(r, b, c);
    Regroup(q, b, c, s, t);
    DivUnique(a, b, q * c + s, t);
    DivUnique(q * c + s, c, q, s);
  }

  // ---------------------------------------------------------------------
  // Properties of the encoding

  /** Byte i of the little-endian encoding is digit i in base 256. */
  lemma {:induction false} EncodeLittleIsDigits(src: nat, n: nat)
    ensures Encode(Little, src, n) == LittleDigits(src, n)
    decreases n
  {
    if n > 0 {
      EncodeLittleIsDigits(src / 256, n - 1);
      var l := Encode(Little, src, n);
      var d := LittleDigits(src, n);
      forall i | 0 <= i < n
        ensures l[i] == d[i]
      {
        Pow2OfBytes(i);
        if i > 0 {
          Pow2OfBytes(i - 1);
          assert Pow256(i) == 256 * Pow256(i - 1);
          DivDiv(src, 256, Pow256(i - 1));
          assert l[i] == ByteAt(src / 256, Offset(Little, n - 1, i - 1));
        }
      }
    }
  }

  /** The big-endian output is the little-endian output reversed. */
  lemma BigIsReversedLittle(src: nat, n: nat)
    ensures Encode(Big, src, n) == Reverse(Encode(Little, src, n))
  {
  }

  /** Reading the little-endian bytes back gives src modulo 256^n. */
  lemma {:induction false} LittleValueOfDigits(src: nat, n: nat)
    ensures LittleValue(LittleDigits(src, n)) == src % Pow256(n)
    decreases n
  {
    if n > 0 {
      var d := LittleDigits(src, n);
      assert d[1..] == LittleDigits(src / 256, n - 1);
      LittleValueOfDigits(src / 256, n - 1);
      ModStep(src, Pow256(n - 1));
    }
  }

  /** Encoding the value of n bytes with n bytes gives those bytes back. */
  lemma {:induction false} DigitsOfLittleValue(bs: seq<Byte>)
    ensures LittleDigits(LittleValue(bs), |bs|) == bs
  {
    if |bs| > 0 {
      DigitsOfLittleValue(bs[1..]);
      var v := LittleValue(bs);
      DivUnique(v, 256, LittleValue(bs[1..]), bs[0]);
      assert bs == [bs[0]] + bs[1..];
    }
  }

  /**
   * Round trip: the little-endian bytes of src read back as src reduced
   * modulo 256^n, so a value below 256^n survives unchanged.
   */
  lemma EncodeRoundTrip(src: nat, n: nat)
    ensures LittleValue(Encode(Little, src, n)) == src % Pow256(n)
    ensures src < Pow256(n) ==> LittleValue(Encode(Little, src, n)) == src
  {
    EncodeLittleIsDigits(src, n);
    LittleValueOfDigits(src, n);
    if src < Pow256(n) {
      DivUnique(src, Pow256(n), 0, src);
    }
  }

  /**
   * uint2bytes<E>(src, dst, nbytes) with SRC an unsigned type of `width`
   * bytes: the shift `mask << offset` is only defined while nbytes fits in
   * the source type, which the caller must guarantee.
   */
  method Uint2Bytes(e: Endianness, src: nat, width: nat, dst: array<Byte>, nbytes: nat)
    requires src < Pow256(width) && nbytes <= width
    requires nbytes <= dst.Length
    modifies dst
    ensures dst[..nbytes] == Encode(e, src, nbytes)
    ensures dst[nbytes..] == old(dst[nbytes..])
  {
    var i := 0;
    while i < nbytes
      invariant i <= nbytes
      invariant dst[..i] == Encode(e, src, nbytes)[..i]
      invariant dst[nbytes..] == old(dst[nbytes..])
    {
      var offset: nat;
      if e == Little {
        offset := i * 8;
      } else {
        offset := (nbytes - i - 1) * 8;
      }
      dst[i] := (src / Pow2(offset)) % 256;
      i := i + 1;
    }
  }
}
