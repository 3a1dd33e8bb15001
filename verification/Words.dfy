/** Unsigned machine words as sequences of bits, least significant bit first:
    bit i of a word w is w[i], and |w| is the width of its type. */
module Words {

  type Word = seq<bool>

  /** unsigned char */
  type Byte = b: Word | |b| == 8 witness [false, false, false, false, false, false, false, false]

  function Zero(w: nat): (r: Word)
    ensures |r| == w
  {
    seq(w, i => false)
  }

  /** The word of width w whose only set bit is number k. */
  function OneBit(w: nat, k: nat): (r: Word)
    ensures |r| == w
  {
    seq(w, i => i == k)
  }

  function Xor(a: Word, b: Word): (r: Word)
    requires |a| == |b|
    ensures |r| == |a|
  {
    seq(|a|, i requires 0 <= i < |a| => a[i] != b[i])
  }

  function Or(a: Word, b: Word): (r: Word)
    requires |a| == |b|
    ensures |r| == |a|
  {
    seq(|a|, i requires 0 <= i < |a| => a[i] || b[i])
  }

  function Shl(a: Word, k: nat): (r: Word)
    ensures |r| == |a|
  {
    seq(|a|, i requires 0 <= i < |a| => i >= k && a[i - k])
  }

  function Shr(a: Word, k: nat): (r: Word)
    ensures |r| == |a|
  {
    seq(|a|, i requires 0 <= i < |a| => i + k < |a| && a[i + k])
  }

  /** Conversion to an unsigned type of width w: truncates or zero-extends. */
  function Convert(a: Word, w: nat): (r: Word)
    ensures |r| == w
  {
    seq(w, i requires 0 <= i < w => i < |a| && a[i])
  }

  function Reverse(a: Word): (r: Word)
    ensures |r| == |a|
  {
    seq(|a|, i requires 0 <= i < |a| => a[|a| - 1 - i])
  }

  /** x & sig_bits, for the mask that keeps the low `bits` bits. */
  function Mask(x: Word, bits: nat): (r: Word)
    ensures |r| == |x|
  {
    seq(|x|, i requires 0 <= i < |x| => i < bits && x[i])
  }

  /** The low `bits` bits of x in the opposite order, everything above cleared. */
  function Reflected(x: Word, bits: nat): (r: Word)
    requires bits <= |x|
    ensures |r| == |x|
  {
    seq(|x|, i requires 0 <= i < |x| => i < bits && x[bits - 1 - i])
  }

  lemma {:induction false} ReflectedIsReverse(x: Word, bits: nat)
    requires bits <= |x|
    ensures Reflected(x, bits)[..bits] == Reverse(x[..bits])
    ensures Reflected(x, bits) == Convert(Reverse(x[..bits]), |x|)
  {
  }

  lemma {:induction false} ShlTwice(a: Word, j: nat, k: nat)
    ensures Shl(Shl(a, j), k) == Shl(a, j + k)
  {
    forall i | 0 <= i < |a|
      ensures Shl(Shl(a, j), k)[i] == Shl(a, j + k)[i]
    {
      if i >= k {
        assert Shl(a, j)[i - k] == (i - k >= j && a[i - k - j]);
      }
    }
  }

  lemma {:induction false} XorCancel(a: Word, b: Word)
    requires |a| == |b|
    ensures Xor(Xor(a, b), b) == a && Xor(a, Xor(a, b)) == b
    ensures Xor(a, Zero(|a|)) == a && Xor(Zero(|a|), a) == a
    ensures Xor(a, a) == Zero(|a|)
    ensures Xor(a, b) == Xor(b, a)
  {
  }

  lemma {:induction false} XorZeroMeansEqual(a: Word, b: Word)
    requires |a| == |b|
    ensures Xor(a, b) == Zero(|a|) <==> a == b
  {
    if Xor(a, b) == Zero(|a|) {
      forall i | 0 <= i < |a| ensures a[i] == b[i] {
        assert Xor(a, b)[i] == Zero(|a|)[i];
      }
    }
  }

  // ---- words and numbers ----

  function Pow2(n: nat): (r: nat)
    ensures r > 0
  {
    if n == 0 then 1 else 2 * Pow2(n - 1)
  }

  function Value(a: Word): (n: nat)
    ensures n < Pow2(|a|)
  {
    if a == [] then 0 else (if a[0] then 1 else 0) + 2 * Value(a[1..])
  }

  /** The number n as a word of width w. */
  function FromValue(n: nat, w: nat): (a: Word)
    ensures |a| == w
  {
    if w == 0 then [] else [n % 2 == 1] + FromValue(n / 2, w - 1)
  }

  lemma {:induction false} ValueOfFromValue(n: nat, w: nat)
    requires n < Pow2(w)
    ensures Value(FromValue(n, w)) == n
  {
    if w == 0 {
    } else {
      ValueOfFromValue(n / 2, w - 1);
      assert FromValue(n, w)[1..] == FromValue(n / 2, w - 1);
    }
  }

  lemma {:induction false} FromValueOfValue(a: Word)
    ensures FromValue(Value(a), |a|) == a
  {
    if a == [] {
    } else {
      FromValueOfValue(a[1..]);
      assert Value(a) / 2 == Value(a[1..]);
      assert a == [a[0]] + a[1..];
    }
  }
}
