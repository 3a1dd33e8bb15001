/** The register of the augmented-message form: message bits enter at the low end instead
    of being compared with the top bit. */
module Augmented {
  import opened Words
  import opened Remainder

  function LowBit(w: nat, b: bool): (r: Word)
    ensures |r| == w
  {
    if b then OneBit(w, 0) else Zero(w)
  }

  function AugStep(p: Word, r: Word, b: bool): (s: Word)
    requires |p| == |r| > 0
    ensures |s| == |p|
  {
    var shifted := Or(Shl(r, 1), LowBit(|r|, b));
    if r[|r| - 1] then Xor(shifted, p) else shifted
  }

  function AugRun(p: Word, r: Word, bs: seq<bool>): (s: Word)
    requires |p| == |r| > 0
    ensures |s| == |p|
    decreases |bs|
  {
    if bs == [] then r else AugRun(p, AugStep(p, r, bs[0]), bs[1..])
  }

  lemma {:induction false} AugRunAppend(p: Word, r: Word, bs: seq<bool>, cs: seq<bool>)
    requires |p| == |r| > 0
    ensures AugRun(p, r, bs + cs) == AugRun(p, AugRun(p, r, bs), cs)
    decreases |bs|
  {
    if bs == [] {
      assert bs + cs == cs;
    } else {
      assert (bs + cs)[1..] == bs[1..] + cs;
      AugRunAppend(p, AugStep(p, r, bs[0]), bs[1..], cs);
    }
  }

  lemma {:induction false} AugStepAsStep(p: Word, r: Word, b: bool)
    requires |p| == |r| > 0
    ensures AugStep(p, r, b) == Xor(Step(p, r, false), LowBit(|r|, b))
  {
    assert Shl(r, 1)[0] == false;
    assert Or(Shl(r, 1), LowBit(|r|, b)) == Xor(Shl(r, 1), LowBit(|r|, b));
  }

  lemma {:induction false} StepSplit(p: Word, r: Word, b: bool)
    requires |p| == |r| > 0
    ensures Step(p, r, b) == Xor(Step(p, r, false), if b then p else Zero(|p|))
  {
    StepLinear(p, r, Zero(|p|), false, b);
    XorCancel(r, r);
    XorCancel(p, p);
    assert Shl(Zero(|p|), 1) == Zero(|p|);
  }

  /** The effect of appending as many zero bits as the register is wide. */
  function Flush(p: Word, r: Word): (s: Word)
    requires |p| == |r| > 0
    ensures |s| == |p|
  {
    Run(p, r, Zero(|p|))
  }

  lemma {:induction false} FlushLowBit(p: Word, b: bool)
    requires |p| > 0
    ensures Flush(p, LowBit(|p|, b)) == if b then p else Zero(|p|)
  {
    var w, z, r := |p|, Zero(|p|), LowBit(|p|, b);
    RunByTable(p, r, Zero(w));
    assert Shl(r, w) == z;
    XorCancel(Top(r, w), z);
    assert Top(r, w) == Zero(w - 1) + [b];
    RunAppend(p, z, Zero(w - 1), [b]);
    RunZero(p, w - 1);
    StepSplit(p, z, b);
    assert Step(p, z, false) == z by {
      assert Shl(z, 1) == z;
    }
    XorCancel(p, p);
    XorCancel(Run(p, z, Top(r, w)), z);
  }

  /** Flushing turns an augmented step into a plain one. */
  lemma {:induction false} FlushCommutes(p: Word, r: Word, b: bool)
    requires |p| == |r| > 0
    ensures Flush(p, AugStep(p, r, b)) == Step(p, Flush(p, r), b)
  {
    var w, r0 := |p|, Step(p, r, false);
    AugStepAsStep(p, r, b);
    RunLinear(p, r0, LowBit(w, b), Zero(w), Zero(w));
    XorCancel(Zero(w), Zero(w));
    FlushLowBit(p, b);
    assert [false] + Zero(w) == Zero(w) + [false] == Zero(w + 1);
    assert Zero(w + 1)[1..] == Zero(w);
    assert Run(p, r, Zero(w + 1)) == Flush(p, r0);
    RunAppend(p, r, Zero(w), [false]);
    StepSplit(p, Flush(p, r), b);
  }

  lemma {:induction false} FlushRun(p: Word, r: Word, bs: seq<bool>)
    requires |p| == |r| > 0
    ensures Flush(p, AugRun(p, r, bs)) == Run(p, Flush(p, r), bs)
    decreases |bs|
  {
    if bs == [] {
    } else {
      FlushCommutes(p, r, bs[0]);
      FlushRun(p, AugStep(p, r, bs[0]), bs[1..]);
    }
  }

  lemma {:induction false} AugRunSplit(p: Word, r: Word, s: Word, bs: seq<bool>)
    requires |p| == |r| == |s| > 0
    ensures AugRun(p, Xor(r, s), bs) == Xor(Run(p, r, Zero(|bs|)), AugRun(p, s, bs))
    decreases |bs|
  {
    if bs == [] {
    } else {
      var b := bs[0];
      AugStepAsStep(p, Xor(r, s), b);
      AugStepAsStep(p, s, b);
      StepLinear(p, r, s, false, false);
      var r0, s0, l := Step(p, r, false), Step(p, s, false), LowBit(|p|, b);
      assert Xor(Xor(r0, s0), l) == Xor(r0, Xor(s0, l));
      AugRunSplit(p, r0, Xor(s0, l), bs[1..]);
      assert Zero(|bs|)[1..] == Zero(|bs| - 1);
    }
  }

  /** bs, highest bit first, in the low end of a word of width w. */
  function Placed(bs: seq<bool>, w: nat): (r: Word)
    ensures |r| == w
  {
    Convert(Reverse(bs), w)
  }

  lemma {:induction false} AugRunFromZero(p: Word, bs: seq<bool>)
    requires 0 < |p| && |bs| <= |p|
    ensures AugRun(p, Zero(|p|), bs) == Placed(bs, |p|)
    decreases |bs|
  {
    if bs == [] {
      assert Placed(bs, |p|) == Zero(|p|);
    } else {
      var k := |bs| - 1;
      var cs := bs[..k];
      AugRunFromZero(p, cs);
      assert bs == cs + [bs[k]];
      AugRunAppend(p, Zero(|p|), cs, [bs[k]]);
      var r := Placed(cs, |p|);
      assert !r[|p| - 1];
      forall i | 0 <= i < |p| ensures AugStep(p, r, bs[k])[i] == Placed(bs, |p|)[i] {
        if i > 0 {
          assert Shl(r, 1)[i] == r[i - 1];
        }
      }
    }
  }

  /** Up to |p| bits at once, in any register. */
  lemma {:induction false} AugRunByTable(p: Word, r: Word, bs: seq<bool>)
    requires |p| == |r| > 0 && |bs| <= |p|
    ensures AugRun(p, r, bs)
         == Xor(Xor(Shl(r, |bs|), Placed(bs, |p|)), Run(p, Zero(|p|), Top(r, |bs|)))
  {
    var z, k := Zero(|p|), |bs|;
    XorCancel(r, z);
    AugRunSplit(p, r, z, bs);
    AugRunFromZero(p, bs);
    RunByTable(p, r, Zero(k));
    XorCancel(Top(r, k), Top(r, k));
    var x, y, t := Shl(r, k), Placed(bs, |p|), Run(p, z, Top(r, k));
    assert Xor(Xor(x, t), y) == Xor(Xor(x, y), t);
  }

  /** A message followed by |p| zero bits leaves what the plain register leaves on the
      message alone, started from the flushed initial register. */
  lemma {:induction false} AugmentedIsPlain(p: Word, r: Word, bs: seq<bool>)
    requires |p| == |r| > 0
    ensures AugRun(p, r, bs + Zero(|p|)) == Run(p, Flush(p, r), bs)
  {
    var s := AugRun(p, r, bs);
    AugRunAppend(p, r, bs, Zero(|p|));
    AugRunSplit(p, s, Zero(|p|), Zero(|p|));
    XorCancel(s, s);
    AugRunFromZero(p, Zero(|p|));
    assert Placed(Zero(|p|), |p|) == Zero(|p|);
    XorCancel(Flush(p, s), Zero(|p|));
    FlushRun(p, r, bs);
  }

  lemma {:induction false} PlacedVersusTop(t: seq<bool>, c: Word)
    requires |t| == |c|
    ensures Placed(t, |c|) == c <==> t == Top(c, |c|)
  {
    var w := |c|;
    if Placed(t, w) == c {
      forall i | 0 <= i < w ensures t[i] == Top(c, w)[i] {
        assert Placed(t, w)[w - 1 - i] == c[w - 1 - i];
      }
    }
    if t == Top(c, w) {
      forall i | 0 <= i < w ensures Placed(t, w)[i] == c[i] {
        assert t[w - 1 - i] == Top(c, w)[w - 1 - i];
      }
    }
  }

  /** A message followed by |p| bits t leaves zero exactly when t is the plain remainder. */
  lemma {:induction false} AugmentedChecks(p: Word, r: Word, bs: seq<bool>, t: seq<bool>)
    requires |p| == |r| == |t| > 0
    ensures AugRun(p, r, bs + t) == Zero(|p|) <==> t == Top(Run(p, Flush(p, r), bs), |p|)
  {
    var s, w := AugRun(p, r, bs), |p|;
    AugRunAppend(p, r, bs, t);
    AugRunSplit(p, s, Zero(w), t);
    XorCancel(s, s);
    AugRunFromZero(p, t);
    FlushRun(p, r, bs);
    var crc := Run(p, Flush(p, r), bs);
    XorZeroMeansEqual(crc, Placed(t, w));
    PlacedVersusTop(t, crc);
  }
}
