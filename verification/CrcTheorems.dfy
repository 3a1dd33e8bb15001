/** What the CRC computers compute and how they relate: table form against bit form,
    augmented form against plain form, and which errors a checksum catches. */
module CrcTheorems {
  import opened Words
  import opened Remainder
  import opened Augmented
  import opened CrcEngines

  /** The template arguments of crc_optimal; all words have the width of uint_t<Bits>::fast. */
  datatype Params = Params(bits: nat, truncPoly: Word, initRem: Word, finalXor: Word,
                           reflectIn: bool, reflectRem: bool)
  {
    predicate Valid() {
      && 0 < bits <= |truncPoly| && CHAR_BIT <= |truncPoly|
      && |truncPoly| == |initRem| == |finalXor|
    }

    function Poly(): (p: Word)
      requires Valid()
      ensures |p| == bits
    {
      truncPoly[..bits]
    }

    /** The register after a message, started from the low bits of a given word. */
    function RegisterAfter(start: Word, message: seq<Byte>): (r: Word)
      requires Valid() && |start| == bits
      ensures |r| == bits
    {
      Run(Poly(), start, Stream(message, reflectIn))
    }

    function ChecksumOf(message: seq<Byte>): (c: Word)
      requires Valid()
      ensures |c| == bits
    {
      Finish(RegisterAfter(initRem[..bits], message), finalXor[..bits], reflectRem)
    }
  }

  /** crc_basic with the parameters cut or extended to its own register type. */
  method Simple(ps: Params, least: nat, message: seq<Byte>) returns (c: Word, interim: Word)
    requires ps.Valid() && ps.bits <= least
    ensures c == Convert(ps.ChecksumOf(message), least)
    ensures interim == Convert(ps.RegisterAfter(ps.initRem[..ps.bits], message), least)
  {
    var poly, init, final := Convert(ps.truncPoly, least), Convert(ps.initRem, least), Convert(ps.finalXor, least);
    assert poly[..ps.bits] == ps.Poly();
    assert init[..ps.bits] == ps.initRem[..ps.bits] && final[..ps.bits] == ps.finalXor[..ps.bits];
    var basic := new CrcBasic(ps.bits, poly, init, final, ps.reflectIn, ps.reflectRem);
    basic.ProcessBlock(message);
    interim := basic.GetInterimRemainder();
    c := basic.Checksum();
  }

  /** crc_optimal, fed two blocks. */
  method Fast(ps: Params, first: seq<Byte>, second: seq<Byte>) returns (c: Word, interim: Word)
    requires ps.Valid()
    ensures c == Convert(ps.ChecksumOf(first + second), |ps.truncPoly|)
    ensures interim == Convert(ps.RegisterAfter(ps.initRem[..ps.bits], first + second), |ps.truncPoly|)
  {
    var table := new CrcTable(ps.bits, ps.truncPoly, ps.reflectIn);
    var optimal := new CrcOptimal(table, ps.initRem, ps.finalXor, ps.reflectRem);
    optimal.ProcessBlock(first);
    optimal.ProcessBlock(second);
    StreamAppend(first, second, ps.reflectIn);
    RunAppend(ps.Poly(), ps.initRem[..ps.bits], Stream(first, ps.reflectIn), Stream(second, ps.reflectIn));
    interim := optimal.GetInterimRemainder();
    c := optimal.Checksum();
  }

  /** The table form agrees with the bit form on every message, however it is cut in two,
      whatever the widths of the two register types, and whatever the parameter words hold
      above bit number bits - 1. */
  method CompareEngines(ps: Params, least: nat, first: seq<Byte>, second: seq<Byte>)
    returns (simple: Word, fast: Word, simpleInterim: Word, fastInterim: Word)
    requires ps.Valid() && ps.bits <= least
    ensures |simple| == |simpleInterim| == least && |fast| == |fastInterim| == |ps.truncPoly|
    ensures fast == Convert(ps.ChecksumOf(first + second), |ps.truncPoly|)
    ensures fastInterim == Convert(ps.RegisterAfter(ps.initRem[..ps.bits], first + second), |ps.truncPoly|)
    ensures simple == Convert(fast, least) && fast == Convert(simple, |fast|)
    ensures simpleInterim == Convert(fastInterim, least) && fastInterim == Convert(simpleInterim, |fast|)
  {
    simple, simpleInterim := Simple(ps, least, first + second);
    fast, fastInterim := Fast(ps, first, second);
  }

  /** The function template crc<...>. */
  method Crc(ps: Params, message: seq<Byte>) returns (c: Word)
    requires ps.Valid()
    ensures c == Convert(ps.ChecksumOf(message), |ps.truncPoly|)
  {
    var table := new CrcTable(ps.bits, ps.truncPoly, ps.reflectIn);
    var computer := new CrcOptimal(table, ps.initRem, ps.finalXor, ps.reflectRem);
    computer.ProcessBlock(message);
    c := computer.Checksum();
  }

  // ---- augmented messages ----

  lemma {:induction false} AugmentedTableStep(p: Word, rem: Word, x: Byte, t: Word)
    requires 8 <= |p| <= |rem| == |t|
    requires EntryFor(t, p, false, Convert(Shr(rem, |p| - 8), 8))
    ensures Xor(Or(Shl(rem, 8), Convert(x, |rem|)), t)[..|p|] == AugRun(p, rem[..|p|], Reverse(x))
  {
    EntryOfTopByte(p, rem, t);
    ShiftedInByte(|p|, rem, x);
    LowOfXor(|p|, Or(Shl(rem, 8), Convert(x, |rem|)), t);
    AugByte(p, rem[..|p|], x);
  }

  lemma {:induction false} EntryOfTopByte(p: Word, rem: Word, t: Word)
    requires 8 <= |p| <= |rem| == |t|
    requires EntryFor(t, p, false, Convert(Shr(rem, |p| - 8), 8))
    ensures t[..|p|] == Run(p, Zero(|p|), Top(rem[..|p|], 8))
  {
    hide Step, Shr, Top;
    TopByte(|p|, rem);
  }

  lemma {:induction false} AugByte(p: Word, r: Word, x: Byte)
    requires 8 <= |p| == |r|
    ensures AugRun(p, r, Reverse(x))
         == Xor(Xor(Shl(r, 8), Placed(Reverse(x), |p|)), Run(p, Zero(|p|), Top(r, 8)))
  {
    AugRunByTable(p, r, Reverse(x));
  }

  lemma {:induction false} LowOfXor(w: nat, a: Word, b: Word)
    requires w <= |a| == |b|
    ensures Xor(a, b)[..w] == Xor(a[..w], b[..w])
  {
  }

  lemma {:induction false} TopByte(w: nat, rem: Word)
    requires 8 <= w <= |rem|
    ensures Reverse(Convert(Shr(rem, w - 8), 8)) == Top(rem[..w], 8)
  {
    forall i | 0 <= i < 8 ensures Reverse(Convert(Shr(rem, w - 8), 8))[i] == Top(rem[..w], 8)[i] {
      assert Shr(rem, w - 8)[7 - i] == rem[w - 1 - i];
    }
  }

  lemma {:induction false} ShiftedInByte(w: nat, rem: Word, x: Byte)
    requires 8 <= w <= |rem|
    ensures Or(Shl(rem, 8), Convert(x, |rem|))[..w] == Xor(Shl(rem[..w], 8), Placed(Reverse(x), w))
  {
    var u, v := Or(Shl(rem, 8), Convert(x, |rem|)), Xor(Shl(rem[..w], 8), Placed(Reverse(x), w));
    forall i | 0 <= i < w ensures u[i] == v[i] {
      assert Shl(rem, 8)[i] == (i >= 8 && rem[i - 8]);
      assert Placed(Reverse(x), w)[i] == (i < 8 && Reverse(x)[7 - i]);
    }
  }

  /** The function template augmented_crc. */
  method AugmentedCrc(table: CrcTable, initialRemainder: Word, message: seq<Byte>) returns (c: Word)
    requires table.Valid() && !table.reflect && CHAR_BIT <= table.bits
    requires |initialRemainder| == |table.truncPoly|
    modifies table`didInit, table.table
    ensures table.Valid()
    ensures c == Convert(AugRun(table.truncPoly[..table.bits], initialRemainder[..table.bits],
                                Stream(message, false)), |table.truncPoly|)
  {
    hide Shr, Shl, Or, Xor, Reverse, AugStep, EntryFor;
    var bits := table.bits;
    ghost var p, r := table.truncPoly[..bits], initialRemainder[..bits];
    var rem := initialRemainder;
    table.InitTable();
    assert message[..0] == [];
    for i := 0 to |message|
      invariant table.Valid() && table.didInit && |rem| == |table.truncPoly|
      invariant rem[..bits] == AugRun(p, r, Stream(message[..i], false))
    {
      StreamSnoc(message, i, false);
      AugRunAppend(p, r, Stream(message[..i], false), Reverse(message[i]));
      var byteIndex: Byte := Convert(Shr(rem, bits - CHAR_BIT), 8);
      table.Lookup(byteIndex);
      AugmentedTableStep(p, rem, message[i], table.table[Value(byteIndex)]);
      rem := Shl(rem, CHAR_BIT);
      rem := Or(rem, Convert(message[i], |rem|));
      rem := Xor(rem, table.table[Value(byteIndex)]);
    }
    assert message[..|message|] == message;
    c := Mask(rem, bits);
  }

  function ZeroBytes(n: nat): (z: seq<Byte>)
    ensures |z| == n
  {
    seq(n, i => Zero(8))
  }

  lemma {:induction false} StreamOfZeros(n: nat)
    ensures Stream(ZeroBytes(n), false) == Zero(8 * n)
  {
    if n == 0 {
    } else {
      assert ZeroBytes(n)[1..] == ZeroBytes(n - 1);
      StreamOfZeros(n - 1);
      assert Reverse(Zero(8)) == Zero(8);
    }
  }

  /** The message whose stream is bs. */
  function Pack(bs: seq<bool>, reflectIn: bool): (bytes: seq<Byte>)
    requires |bs| % 8 == 0
    ensures 8 * |bytes| == |bs|
  {
    if bs == [] then [] else [InOrder(bs[..8], reflectIn)] + Pack(bs[8..], reflectIn)
  }

  lemma {:induction false} StreamOfPack(bs: seq<bool>, reflectIn: bool)
    requires |bs| % 8 == 0
    ensures Stream(Pack(bs, reflectIn), reflectIn) == bs
  {
    if bs == [] {
    } else {
      var b: Byte := bs[..8];
      assert Pack(bs, reflectIn)[1..] == Pack(bs[8..], reflectIn);
      assert InOrder(InOrder(b, reflectIn), reflectIn) == b;
      StreamOfPack(bs[8..], reflectIn);
      assert bs == b + bs[8..];
    }
  }

  lemma {:induction false} StreamInjective(xs: seq<Byte>, ys: seq<Byte>, reflectIn: bool)
    requires Stream(xs, reflectIn) == Stream(ys, reflectIn)
    ensures xs == ys
  {
    if xs != [] && ys != [] {
      var s, t := Stream(xs, reflectIn), Stream(ys, reflectIn);
      assert InOrder(xs[0], reflectIn) == s[..8] == t[..8] == InOrder(ys[0], reflectIn);
      assert Reverse(Reverse(xs[0])) == xs[0] && Reverse(Reverse(ys[0])) == ys[0];
      assert Stream(xs[1..], reflectIn) == s[8..] == t[8..] == Stream(ys[1..], reflectIn);
      StreamInjective(xs[1..], ys[1..], reflectIn);
      assert xs == [xs[0]] + xs[1..] && ys == [ys[0]] + ys[1..];
    }
  }

  /** The bytes of a word, most significant first. */
  function BigEndian(c: Word): (bytes: seq<Byte>)
    requires |c| % 8 == 0
  {
    Pack(Top(c, |c|), false)
  }

  /** For the parameters <Bits, TruncPoly, 0, 0, false, false> the augmented form on a message
      and Bits/8 zero bytes is the plain CRC of the message; started from any other word it is
      the plain CRC started from that word flushed through Bits zero bits. */
  lemma {:induction false} AugmentedOfZeroPadded(p: Word, start: Word, message: seq<Byte>)
    requires |p| == |start| > 0 && |p| % 8 == 0
    ensures AugRun(p, start, Stream(message + ZeroBytes(|p| / 8), false))
         == Run(p, Flush(p, start), Stream(message, false))
    ensures AugRun(p, Zero(|p|), Stream(message + ZeroBytes(|p| / 8), false))
         == Run(p, Zero(|p|), Stream(message, false))
  {
    StreamAppend(message, ZeroBytes(|p| / 8), false);
    StreamOfZeros(|p| / 8);
    AugmentedIsPlain(p, start, Stream(message, false));
    AugmentedIsPlain(p, Zero(|p|), Stream(message, false));
    RunZero(p, |p|);
  }

  /** A received message verifies (augmented CRC zero) exactly when its last Bits/8 bytes are
      the plain CRC of the rest, most significant byte first. */
  lemma {:induction false} AugmentedVerifies(p: Word, message: seq<Byte>, trailer: seq<Byte>)
    requires |p| > 0 && |p| == 8 * |trailer|
    ensures AugRun(p, Zero(|p|), Stream(message + trailer, false)) == Zero(|p|)
       <==> trailer == BigEndian(Run(p, Zero(|p|), Stream(message, false)))
  {
    var crc, t := Run(p, Zero(|p|), Stream(message, false)), Stream(trailer, false);
    StreamAppend(message, trailer, false);
    RunZero(p, |p|);
    assert Flush(p, Zero(|p|)) == Zero(|p|);
    AugmentedChecks(p, Zero(|p|), Stream(message, false), t);
    TrailerBytes(trailer, crc);
  }

  lemma {:induction false} TrailerBytes(trailer: seq<Byte>, crc: Word)
    requires |crc| == 8 * |trailer|
    ensures Stream(trailer, false) == Top(crc, |crc|) <==> trailer == BigEndian(crc)
  {
    StreamOfPack(Top(crc, |crc|), false);
    if Stream(trailer, false) == Top(crc, |crc|) {
      StreamInjective(trailer, BigEndian(crc), false);
    }
  }

  /** Both forms in code, on one table. */
  method CompareAugmented(table: CrcTable, message: seq<Byte>)
    returns (plain: Word, padded: Word, checked: Word)
    requires table.Valid() && !table.reflect && table.bits % 8 == 0
    modifies table`didInit, table.table
    ensures plain == Convert(Run(table.truncPoly[..table.bits], Zero(table.bits), Stream(message, false)),
                             |table.truncPoly|)
    ensures padded == plain
    ensures checked == Zero(|table.truncPoly|)
  {
    var bits, w := table.bits, |table.truncPoly|;
    ghost var p := table.truncPoly[..bits];
    assert Zero(w)[..bits] == Zero(bits);
    var computer := new CrcOptimal(table, Zero(w), Zero(w), false);
    computer.ProcessBlock(message);
    plain := computer.Checksum();
    ghost var crc := Run(p, Zero(bits), Stream(message, false));
    XorCancel(crc, crc);
    assert plain[..bits] == crc;
    padded := AugmentedCrc(table, Zero(w), message + ZeroBytes(bits / 8));
    AugmentedOfZeroPadded(p, Zero(bits), message);
    var trailer := BigEndian(plain[..bits]);
    checked := AugmentedCrc(table, Zero(w), message + trailer);
    AugmentedVerifies(p, message, trailer);
    assert Convert(Zero(bits), w) == Zero(w);
  }

  // ---- error detection ----

  lemma {:induction false} FinishInjective(a: Word, b: Word, finalXor: Word, reflectRem: bool)
    requires |a| == |b| == |finalXor|
    ensures Finish(a, finalXor, reflectRem) == Finish(b, finalXor, reflectRem) <==> a == b
  {
    var x, y := if reflectRem then Reverse(a) else a, if reflectRem then Reverse(b) else b;
    XorCancel(x, finalXor);
    XorCancel(y, finalXor);
    assert Reverse(Reverse(a)) == a && Reverse(Reverse(b)) == b;
  }

  /** Equal-length messages, however short, that differ only inside at most `Bits` consecutive bits,
      in processing order, never share a checksum. */
  ghost predicate CatchesBursts(ps: Params)
    requires ps.Valid()
  {
    forall m: seq<Byte>, n: seq<Byte>, a: nat, w: nat :: w <= ps.bits ==> CatchesBurst(ps, m, n, a, w)
  }

  ghost predicate CatchesBurst(ps: Params, m: seq<Byte>, n: seq<Byte>, a: nat, w: nat)
    requires ps.Valid()
  {
    DifferInWindow(Stream(m, ps.reflectIn), Stream(n, ps.reflectIn), a, w)
    ==> ps.ChecksumOf(m) != ps.ChecksumOf(n)
  }

  /** ... which holds exactly for the odd truncated polynomials. */
  lemma {:induction false} CatchesBurstsIffOdd(ps: Params)
    requires ps.Valid()
    ensures CatchesBursts(ps) <==> ps.truncPoly[0]
  {
    var p, r := ps.Poly(), ps.initRem[..ps.bits];
    if ps.truncPoly[0] {
      forall m: seq<Byte>, n: seq<Byte>, a: nat, w: nat | w <= ps.bits ensures CatchesBurst(ps, m, n, a, w) {
        var bs, cs := Stream(m, ps.reflectIn), Stream(n, ps.reflectIn);
        if DifferInWindow(bs, cs, a, w) {
          BurstChangesRemainder(p, r, bs, cs, a, w);
          FinishInjective(ps.RegisterAfter(r, m), ps.RegisterAfter(r, n), ps.finalXor[..ps.bits], ps.reflectRem);
        }
      }
    } else {
      var bs, cs := EvenPolynomialMissesBurst(p, r, 0, 8 - ps.bits % 8);
      var m, n := Pack(bs, ps.reflectIn), Pack(cs, ps.reflectIn);
      StreamOfPack(bs, ps.reflectIn);
      StreamOfPack(cs, ps.reflectIn);
      assert DifferInWindow(Stream(m, ps.reflectIn), Stream(n, ps.reflectIn), 0, ps.bits);
      assert ps.ChecksumOf(m) == ps.ChecksumOf(n);
      assert !CatchesBurst(ps, m, n, 0, ps.bits);
    }
  }

  // ---- the four named types ----

  const CRC_16_POLY: nat := 0x8005
  const CRC_CCITT_POLY: nat := 0x1021
  const CRC_XMODEM_POLY: nat := 0x8408
  /** Section 8 of RFC 1952 */
  const CRC_32_POLY: nat := 0x04C11DB7

  /** crc_16_type, crc_ccitt_type and crc_32_type catch every burst up to their width;
      crc_xmodem_type, whose constant is the bit-reversed polynomial, does not. */
  lemma {:induction false} NamedTypesAndBursts(ps: Params)
    requires ps.Valid()
    ensures Value(ps.truncPoly) in {CRC_16_POLY, CRC_CCITT_POLY, CRC_32_POLY} ==> CatchesBursts(ps)
    ensures Value(ps.truncPoly) == CRC_XMODEM_POLY ==> !CatchesBursts(ps)
  {
    hide CatchesBursts;
    assert Value(ps.truncPoly) % 2 == if ps.truncPoly[0] then 1 else 0;
    CatchesBurstsIffOdd(ps);
  }
}
