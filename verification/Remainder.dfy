/** The remainder register of a cyclic redundancy code, on exactly `Bits` bits, and the
    algebra over GF(2) that the fast forms rest on.

    p is the truncated polynomial, r a register; both have the same width |p| == Bits.
    Streams of message bits are listed in the order in which they are processed. */
module Remainder {
  import opened Words

  /** One bit through the register. */
  function Step(p: Word, r: Word, b: bool): (s: Word)
    requires |p| == |r| > 0
    ensures |s| == |p|
  {
    if r[|r| - 1] != b then Xor(Shl(r, 1), p) else Shl(r, 1)
  }

  function Run(p: Word, r: Word, bs: seq<bool>): (s: Word)
    requires |p| == |r| > 0
    ensures |s| == |p|
    decreases |bs|
  {
    if bs == [] then r else Run(p, Step(p, r, bs[0]), bs[1..])
  }

  lemma {:induction false} RunAppend(p: Word, r: Word, bs: seq<bool>, cs: seq<bool>)
    requires |p| == |r| > 0
    ensures Run(p, r, bs + cs) == Run(p, Run(p, r, bs), cs)
    decreases |bs|
  {
    if bs == [] {
      assert bs + cs == cs;
    } else {
      assert (bs + cs)[1..] == bs[1..] + cs;
      RunAppend(p, Step(p, r, bs[0]), bs[1..], cs);
    }
  }

  // ---- linearity ----

  lemma {:induction false} StepLinear(p: Word, r: Word, s: Word, b: bool, c: bool)
    requires |p| == |r| == |s| > 0
    ensures Step(p, Xor(r, s), b != c) == Xor(Step(p, r, b), Step(p, s, c))
  {
    var top := |p| - 1;
    assert Xor(r, s)[top] == (r[top] != s[top]);
    assert Shl(Xor(r, s), 1) == Xor(Shl(r, 1), Shl(s, 1));
  }

  /** Feeding a sum of streams to a sum of registers gives the sum of the results. */
  lemma {:induction false} RunLinear(p: Word, r: Word, s: Word, bs: seq<bool>, cs: seq<bool>)
    requires |p| == |r| == |s| > 0 && |bs| == |cs|
    ensures Run(p, Xor(r, s), Xor(bs, cs)) == Xor(Run(p, r, bs), Run(p, s, cs))
    decreases |bs|
  {
    if bs == [] {
    } else {
      StepLinear(p, r, s, bs[0], cs[0]);
      RunLinear(p, Step(p, r, bs[0]), Step(p, s, cs[0]), bs[1..], cs[1..]);
      assert Xor(bs, cs)[0] == (bs[0] != cs[0]);
      assert Xor(bs, cs)[1..] == Xor(bs[1..], cs[1..]);
    }
  }

  lemma {:induction false} RunZero(p: Word, n: nat)
    requires |p| > 0
    ensures Run(p, Zero(|p|), Zero(n)) == Zero(|p|)
  {
    if n == 0 {
    } else {
      assert Step(p, Zero(|p|), false) == Zero(|p|);
      assert Zero(n)[1..] == Zero(n - 1);
      RunZero(p, n - 1);
    }
  }

  // ---- many bits at a time ----

  /** The k most significant bits of r, highest first, padded with zeros below bit 0. */
  function Top(r: Word, k: nat): (t: seq<bool>)
    ensures |t| == k
  {
    seq(k, i requires 0 <= i < k => i < |r| && r[|r| - 1 - i])
  }

  lemma {:induction false} TopTail(r: Word, k: nat)
    requires |r| > 0 && k > 0
    ensures Top(r, k)[0] == r[|r| - 1]
    ensures Top(r, k)[1..] == Top(Shl(r, 1), k - 1)
  {
    var t, u := Top(r, k), Top(Shl(r, 1), k - 1);
    forall i | 0 <= i < k - 1
      ensures t[1..][i] == u[i]
    {
      assert t[1..][i] == t[i + 1];
      if i < |r| {
        assert Shl(r, 1)[|r| - 1 - i] == (|r| - 1 - i >= 1 && r[|r| - 2 - i]);
      }
    }
  }

  /** A register fed its own top bits only shifts. */
  lemma {:induction false} OwnTopShiftsOut(p: Word, r: Word, k: nat)
    requires |p| == |r| > 0
    ensures Run(p, r, Top(r, k)) == Shl(r, k)
    decreases k
  {
    if k == 0 {
      assert Shl(r, 0) == r;
    } else {
      TopTail(r, k);
      OwnTopShiftsOut(p, Shl(r, 1), k - 1);
      ShlTwice(r, 1, k - 1);
    }
  }

  /** Any number of bits at once: shift them all out and add what the zero register makes
      of (input xor bits shifted out). Holds for |bs| below, at and above the width. */
  lemma {:induction false} RunByTable(p: Word, r: Word, bs: seq<bool>)
    requires |p| == |r| > 0
    ensures Run(p, r, bs) == Xor(Shl(r, |bs|), Run(p, Zero(|p|), Xor(bs, Top(r, |bs|))))
  {
    var t := Top(r, |bs|);
    OwnTopShiftsOut(p, r, |bs|);
    RunLinear(p, r, Zero(|p|), t, Xor(bs, t));
    XorCancel(r, r);
    XorCancel(t, bs);
    XorCancel(bs, t);
  }

  // ---- error detection ----

  /** One zero bit cannot erase a nonzero register when the polynomial is odd. */
  lemma {:induction false} ZerosKeepNonzero(p: Word, r: Word, n: nat)
    requires |p| == |r| > 0 && p[0] && r != Zero(|p|)
    ensures Run(p, r, Zero(n)) != Zero(|p|)
    decreases n
  {
    if n == 0 {
    } else {
      var s := Step(p, r, false);
      if s == Zero(|p|) {
        assert !s[0];
        assert !r[|r| - 1];
        forall i | 0 <= i < |r| ensures !r[i] {
          if i < |r| - 1 {
            assert !s[i + 1];
          }
        }
        assert false;
      }
      assert Zero(n)[1..] == Zero(n - 1);
      ZerosKeepNonzero(p, s, n - 1);
    }
  }

  /** The register of width w whose top bits are e. */
  function FromTop(e: seq<bool>, w: nat): (r: Word)
    ensures |r| == w
  {
    seq(w, i requires 0 <= i < w => w - 1 - i < |e| && e[w - 1 - i])
  }

  lemma {:induction false} FromTopInverts(e: seq<bool>, w: nat)
    requires |e| <= w
    ensures Top(FromTop(e, w), |e|) == e && Shl(FromTop(e, w), |e|) == Zero(w)
  {
    var r := FromTop(e, w);
    forall i | 0 <= i < |e| ensures Top(r, |e|)[i] == e[i] {
      assert r[w - 1 - i] == e[i];
    }
    forall i | 0 <= i < w ensures Shl(r, |e|)[i] == Zero(w)[i] {
      if i >= |e| {
        assert !r[i - |e|];
      }
    }
  }

  /** At most |p| bits into the zero register act like zeros into the register made of them. */
  lemma {:induction false} ShortStreamAsRegister(p: Word, e: seq<bool>)
    requires 0 < |p| && |e| <= |p|
    ensures Run(p, Zero(|p|), e) == Run(p, FromTop(e, |p|), Zero(|e|))
  {
    var r := FromTop(e, |p|);
    FromTopInverts(e, |p|);
    OwnTopShiftsOut(p, r, |e|);
    RunLinear(p, r, r, e, Zero(|e|));
    XorCancel(r, r);
    XorCancel(e, e);
    XorCancel(Run(p, r, Zero(|e|)), Run(p, r, Zero(|e|)));
  }

  /** m and n differ, and only inside the w bits that start at position a. */
  ghost predicate DifferInWindow(m: seq<bool>, n: seq<bool>, a: nat, w: nat) {
    && |m| == |n| && a + w <= |m| && m != n
    && (forall i | 0 <= i < |m| && !(a <= i < a + w) :: m[i] == n[i])
  }

  /** No burst of at most |p| bits goes unnoticed, in streams of any length, from any start. */
  ghost predicate DetectsBursts(p: Word)
    requires |p| > 0
  {
    forall r: Word, m, n, a: nat, w: nat ::
      |r| == |p| && w <= |p| && DifferInWindow(m, n, a, w) ==> Run(p, r, m) != Run(p, r, n)
  }

  lemma {:induction false} BurstChangesRemainder(p: Word, r: Word, m: seq<bool>, n: seq<bool>, a: nat, w: nat)
    requires |p| == |r| > 0 && p[0]
    requires w <= |p| && DifferInWindow(m, n, a, w)
    ensures Run(p, r, m) != Run(p, r, n)
  {
    var d := Xor(m, n);
    var e, c := d[a..a + w], |m| - a - w;
    assert d == Zero(a) + (e + Zero(c));
    assert e != Zero(w) by {
      var i :| 0 <= i < |m| && m[i] != n[i];
      assert d[i] && e[i - a];
    }
    BurstAlone(p, e, a, c);
    RunLinear(p, r, r, m, n);
    XorCancel(r, r);
    XorZeroMeansEqual(Run(p, r, m), Run(p, r, n));
  }

  lemma {:induction false} BurstAlone(p: Word, e: seq<bool>, a: nat, c: nat)
    requires |p| > 0 && p[0] && |e| <= |p| && e != Zero(|e|)
    ensures Run(p, Zero(|p|), Zero(a) + (e + Zero(c))) != Zero(|p|)
  {
    var z, w := Zero(|p|), |e|;
    RunZero(p, a);
    RunAppend(p, z, Zero(a), e + Zero(c));
    RunAppend(p, z, e, Zero(c));
    ShortStreamAsRegister(p, e);
    var s := FromTop(e, |p|);
    FromTopNonzero(e, |p|);
    ZerosKeepNonzero(p, s, w);
    ZerosKeepNonzero(p, Run(p, s, Zero(w)), c);
  }

  lemma {:induction false} FromTopNonzero(e: seq<bool>, w: nat)
    requires |e| <= w && e != Zero(|e|)
    ensures FromTop(e, w) != Zero(w)
  {
    var i :| 0 <= i < |e| && e[i];
    assert FromTop(e, w)[w - 1 - i];
  }

  /** The nonzero register that one zero bit clears, when p is even: p shifted right by one,
      with the top bit set. */
  function Blind(p: Word): (s: Word)
    requires |p| > 0
    ensures |s| == |p|
  {
    seq(|p|, i requires 0 <= i < |p| => i == |p| - 1 || p[i + 1])
  }

  lemma {:induction false} BlindStep(p: Word)
    requires |p| > 0 && !p[0]
    ensures Step(p, Blind(p), false) == Zero(|p|)
  {
    var s := Blind(p);
    assert s[|p| - 1];
    forall i | 0 <= i < |p| ensures Xor(Shl(s, 1), p)[i] == Zero(|p|)[i] {
      if i > 0 {
        assert Shl(s, 1)[i] == s[i - 1] == p[i];
      }
    }
  }

  lemma {:induction false} BlindIsCleared(p: Word, n: nat)
    requires |p| > 0 && !p[0] && n > 0
    ensures Run(p, Blind(p), Zero(n)) == Zero(|p|)
  {
    BlindStep(p);
    assert Zero(n)[1..] == Zero(n - 1);
    RunZero(p, n - 1);
  }

  /** The burst that makes the blind register, and at least one more bit, leave nothing. */
  lemma {:induction false} BlindBurst(p: Word, c: nat)
    requires |p| > 0 && !p[0] && c > 0
    ensures Run(p, Zero(|p|), Top(Blind(p), |p|) + Zero(c)) == Zero(|p|)
  {
    var w, s := |p|, Blind(p);
    FromTopOfTop(s);
    ShortStreamAsRegister(p, Top(s, w));
    RunAppend(p, Zero(w), Top(s, w), Zero(c));
    RunAppend(p, s, Zero(w), Zero(c));
    assert Zero(w) + Zero(c) == Zero(w + c);
    BlindIsCleared(p, w + c);
  }

  lemma {:induction false} FromTopOfTop(s: Word)
    ensures FromTop(Top(s, |s|), |s|) == s
  {
  }

  /** An even polynomial lets one particular burst of |p| bits through, at any place that is
      followed by at least one more bit. */
  lemma {:induction false} EvenPolynomialMissesBurst(p: Word, r: Word, a: nat, c: nat)
    returns (m: seq<bool>, n: seq<bool>)
    requires |p| == |r| > 0 && !p[0] && c > 0
    ensures |m| == a + |p| + c && DifferInWindow(m, n, a, |p|)
    ensures Run(p, r, m) == Run(p, r, n)
  {
    var z, w, e := Zero(|p|), |p|, Top(Blind(p), |p|);
    m, n := Zero(a) + (e + Zero(c)), Zero(a + w + c);
    assert m[a] && !n[a];
    RunZero(p, a);
    RunAppend(p, z, Zero(a), e + Zero(c));
    BlindBurst(p, c);
    SameEffect(p, r, m);
  }

  lemma {:induction false} SameEffect(p: Word, r: Word, m: seq<bool>)
    requires |p| == |r| > 0
    ensures Run(p, r, m) == Run(p, r, Zero(|m|)) <==> Run(p, Zero(|p|), m) == Zero(|p|)
  {
    RunLinear(p, r, r, m, Zero(|m|));
    XorCancel(r, r);
    XorCancel(m, m);
    XorZeroMeansEqual(Run(p, r, m), Run(p, r, Zero(|m|)));
  }

  /** Every burst of at most `Bits` bits is detected exactly when the polynomial is odd. */
  lemma {:induction false} DetectsBurstsIffOdd(p: Word)
    requires |p| > 0
    ensures DetectsBursts(p) <==> p[0]
  {
    if p[0] {
      forall r: Word, m, n, a: nat, w: nat |
        |r| == |p| && w <= |p| && DifferInWindow(m, n, a, w)
        ensures Run(p, r, m) != Run(p, r, n)
      {
        BurstChangesRemainder(p, r, m, n, a, w);
      }
    } else {
      var m, n := EvenPolynomialMissesBurst(p, Zero(|p|), 0, 1);
      assert DifferInWindow(m, n, 0, |p|);
    }
  }
}
