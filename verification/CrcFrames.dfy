/** What the checksum a caller gets is for: sent behind its message it makes a frame that leaves no
    remainder. */
module CrcFrames {
  import opened Words
  import opened Remainder
  import opened CrcEngines
  import opened CrcTheorems

  /** Bit number 8 * i + j of the stream is bit j of byte i, counted from the low end when input is
      reflected, from the high end otherwise. */
  lemma {:induction false} StreamBit(bytes: seq<Byte>, reflectIn: bool, i: nat, j: nat)
    requires i < |bytes| && j < 8
    ensures Stream(bytes, reflectIn)[8 * i + j] == bytes[i][if reflectIn then j else 7 - j]
  {
    if i == 0 {
    } else {
      StreamBit(bytes[1..], reflectIn, i - 1, j);
    }
  }

  /** The bits to send behind a message with checksum crc: without the final xor, in the order in which
      a reflected remainder has them. */
  function TrailerBits(ps: Params, crc: Word): (t: seq<bool>)
    requires ps.Valid() && |crc| == ps.bits
    ensures |t| == ps.bits
  {
    var x := Xor(crc, ps.finalXor[..ps.bits]);
    if ps.reflectRem then x else Reverse(x)
  }

  /** The register after message and trailer, from the initial remainder, is zero. */
  ghost predicate Verifies(ps: Params, m: seq<Byte>, t: seq<bool>)
    requires ps.Valid()
  {
    Run(ps.Poly(), ps.initRem[..ps.bits], Stream(m, ps.reflectIn) + t) == Zero(ps.bits)
  }

  lemma {:induction false} TrailerIsRegister(ps: Params, m: seq<Byte>)
    requires ps.Valid()
    ensures TrailerBits(ps, ps.ChecksumOf(m)) == Top(ps.RegisterAfter(ps.initRem[..ps.bits], m), ps.bits)
  {
    var reg, f := ps.RegisterAfter(ps.initRem[..ps.bits], m), ps.finalXor[..ps.bits];
    XorCancel(if ps.reflectRem then Reverse(reg) else reg, f);
    assert Reverse(reg) == Top(reg, ps.bits);
  }

  /** A frame verifies when its trailer is made from the checksum of its message, for all choices of
      reflection; for an odd polynomial only then. */
  lemma {:induction false} FrameVerifies(ps: Params, m: seq<Byte>, t: seq<bool>)
    requires ps.Valid() && |t| == ps.bits
    ensures t == TrailerBits(ps, ps.ChecksumOf(m)) ==> Verifies(ps, m, t)
    ensures ps.truncPoly[0] ==> (Verifies(ps, m, t) <==> t == TrailerBits(ps, ps.ChecksumOf(m)))
  {
    var p, r := ps.Poly(), ps.RegisterAfter(ps.initRem[..ps.bits], m);
    TrailerIsRegister(ps, m);
    RunAppend(p, ps.initRem[..ps.bits], Stream(m, ps.reflectIn), t);
    OwnTopShiftsOut(p, r, ps.bits);
    assert Shl(r, ps.bits) == Zero(ps.bits);
    if ps.truncPoly[0] && t != Top(r, ps.bits) {
      BurstChangesRemainder(p, r, t, Top(r, ps.bits), 0, ps.bits);
    }
  }

  /** No other trailer of that length verifies, for any message, if and only if the polynomial is odd. */
  lemma {:induction false} TrailerIsUniqueIffOdd(ps: Params)
    requires ps.Valid()
    ensures (forall m, t | |t| == ps.bits :: Verifies(ps, m, t) ==> t == TrailerBits(ps, ps.ChecksumOf(m)))
       <==> ps.truncPoly[0]
  {
    if ps.truncPoly[0] {
      forall m, t | |t| == ps.bits && Verifies(ps, m, t) ensures t == TrailerBits(ps, ps.ChecksumOf(m)) {
        FrameVerifies(ps, m, t);
      }
    } else {
      var m := [];
      var t := TrailerBits(ps, ps.ChecksumOf(m));
      var t' := OtherTrailer(ps, m, t);
      assert Verifies(ps, m, t');
    }
  }

  lemma {:induction false} OtherTrailer(ps: Params, m: seq<Byte>, t: seq<bool>) returns (t': seq<bool>)
    requires ps.Valid() && !ps.truncPoly[0] && t == TrailerBits(ps, ps.ChecksumOf(m))
    ensures |t'| == ps.bits && t' != t && Verifies(ps, m, t')
  {
    var p, w, r := ps.Poly(), ps.bits, ps.RegisterAfter(ps.initRem[..ps.bits], m);
    var e := Top(Blind(p), w);
    FromTopOfTop(Blind(p));
    ShortStreamAsRegister(p, e);
    BlindIsCleared(p, w);
    FrameVerifies(ps, m, t);
    t' := Xor(t, e);
    assert e[0] && t'[0] != t[0];
    RunAppend(p, ps.initRem[..w], Stream(m, ps.reflectIn), t);
    RunAppend(p, ps.initRem[..w], Stream(m, ps.reflectIn), t');
    RunLinear(p, r, Zero(w), t, e);
    XorCancel(r, r);
    assert Xor(r, Zero(w)) == r && Xor(Zero(w), Zero(w)) == Zero(w);
  }

  /** In bytes, for a width of whole bytes and an odd polynomial: of all trailers that long exactly the
      packed one makes the frame verify. */
  lemma {:induction false} FrameOfBytes(ps: Params, m: seq<Byte>, trailer: seq<Byte>)
    requires ps.Valid() && ps.bits == 8 * |trailer| && ps.truncPoly[0]
    ensures ps.RegisterAfter(ps.initRem[..ps.bits], m + trailer) == Zero(ps.bits)
       <==> trailer == Pack(TrailerBits(ps, ps.ChecksumOf(m)), ps.reflectIn)
  {
    hide TrailerBits, Pack, Run, Stream, Finish;
    var t := TrailerBits(ps, ps.ChecksumOf(m));
    StreamAppend(m, trailer, ps.reflectIn);
    FrameVerifies(ps, m, Stream(trailer, ps.reflectIn));
    StreamOfPack(t, ps.reflectIn);
    if Stream(trailer, ps.reflectIn) == t {
      StreamInjective(trailer, Pack(t, ps.reflectIn), ps.reflectIn);
    }
  }

  /** Sent as it is, with its final xor, the checksum leaves a remainder that is the same for all
      messages: what the final xor leaves by itself. */
  lemma {:induction false} FrameResidue(ps: Params, m: seq<Byte>)
    requires ps.Valid()
    ensures var c, f, p := ps.ChecksumOf(m), ps.finalXor[..ps.bits], ps.Poly();
      Run(p, ps.initRem[..ps.bits], Stream(m, ps.reflectIn) + (if ps.reflectRem then c else Reverse(c)))
      == Run(p, Zero(ps.bits), if ps.reflectRem then f else Reverse(f))
  {
    var c, f, p, w := ps.ChecksumOf(m), ps.finalXor[..ps.bits], ps.Poly(), ps.bits;
    var r := ps.RegisterAfter(ps.initRem[..w], m);
    var t, sent := TrailerBits(ps, c), if ps.reflectRem then c else Reverse(c);
    var mask := if ps.reflectRem then f else Reverse(f);
    XorCancel(c, f);
    assert sent == Xor(t, mask);
    hide Run, Stream, TrailerBits;
    FrameVerifies(ps, m, t);
    RunAppend(p, ps.initRem[..w], Stream(m, ps.reflectIn), t);
    RunAppend(p, ps.initRem[..w], Stream(m, ps.reflectIn), sent);
    RunLinear(p, r, Zero(w), t, mask);
    assert Xor(r, Zero(w)) == r && Xor(Zero(w), Run(p, Zero(w), mask)) == Run(p, Zero(w), mask);
  }
}
