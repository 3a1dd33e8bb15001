/** The CRC computers: bit at a time (CrcBasic), table driven (CrcTable, CrcOptimal) and the
    augmented-message function. All are specified by the register of module Remainder. */
module CrcEngines {
  import opened Words
  import opened Remainder

  const CHAR_BIT: nat := 8

  // ---- streams of message bits ----

  /** The bits of a byte in processing order: highest first unless input is reflected. */
  function InOrder(x: Byte, reflectIn: bool): (bs: Byte) {
    if reflectIn then x else Reverse(x)
  }

  function Stream(bytes: seq<Byte>, reflectIn: bool): (bs: seq<bool>)
    ensures |bs| == 8 * |bytes|
  {
    if bytes == [] then [] else InOrder(bytes[0], reflectIn) + Stream(bytes[1..], reflectIn)
  }

  lemma {:induction false} StreamAppend(xs: seq<Byte>, ys: seq<Byte>, reflectIn: bool)
    ensures Stream(xs + ys, reflectIn) == Stream(xs, reflectIn) + Stream(ys, reflectIn)
  {
    if xs == [] {
      assert xs + ys == ys;
    } else {
      assert (xs + ys)[1..] == xs[1..] + ys;
      StreamAppend(xs[1..], ys, reflectIn);
    }
  }

  /** What a finished register is turned into. */
  function Finish(reg: Word, finalXor: Word, reflectRem: bool): (c: Word)
    requires |reg| == |finalXor|
    ensures |c| == |reg|
  {
    Xor(if reflectRem then Reverse(reg) else reg, finalXor)
  }

  lemma {:induction false} NextBit(x: Byte, n: nat, i: nat)
    requires 0 < i <= n <= 8
    ensures Shl(x, 8 - i)[7] == Reverse(x[..n])[n - i]
  {
  }

  lemma {:induction false} PrefixStep(p: Word, r: Word, bs: seq<bool>, j: nat)
    requires |p| == |r| > 0 && j < |bs|
    ensures Run(p, r, bs[..j + 1]) == Step(p, Run(p, r, bs[..j]), bs[j])
  {
    assert bs[..j + 1] == bs[..j] + [bs[j]];
    RunAppend(p, r, bs[..j], [bs[j]]);
  }

  /** The division step as the code writes it, on a register wider than `bits`. */
  lemma {:induction false} DivisionStep(bits: nat, poly: Word, rem: Word, b: bool)
    requires 0 < bits <= |rem| == |poly|
    ensures var x := if b then Xor(rem, OneBit(|rem|, bits - 1)) else rem;
      (if x[bits - 1] then Xor(Shl(x, 1), poly) else Shl(x, 1))[..bits]
      == Step(poly[..bits], rem[..bits], b)
  {
    var x := if b then Xor(rem, OneBit(|rem|, bits - 1)) else rem;
    assert x[bits - 1] == (rem[bits - 1] != b);
    assert Shl(x, 1)[..bits] == Shl(rem[..bits], 1);
    LowOfXorShl(bits, x, poly, 1);
  }

  // ---- bit reflection ----

  method Reflect(x: Word, bits: nat) returns (reflection: Word)
    requires bits <= |x|
    ensures reflection == Reflected(x, bits)
  {
    reflection := Zero(|x|);
    var rest := x;
    for i := 0 to bits
      invariant rest == Shr(x, i)
      invariant |reflection| == |x|
      invariant forall k :: 0 <= k < |x| ==> reflection[k] == (bits - i <= k < bits && x[bits - 1 - k])
    {
      assert rest[0] == x[i];
      if rest[0] {
        reflection := Or(reflection, OneBit(|x|, bits - 1 - i));
      }
      assert Shr(rest, 1) == Shr(x, i + 1) by {
        forall k | 0 <= k < |x| ensures Shr(rest, 1)[k] == Shr(x, i + 1)[k] {
          if k + 1 < |x| {
            assert rest[k + 1] == (k + 1 + i < |x| && x[k + 1 + i]);
          }
        }
      }
      rest := Shr(rest, 1);
    }
  }

  // ---- the bit-at-a-time computer ----

  class CrcBasic {
    const bits: nat
    var rem: Word
    var poly: Word
    var init: Word
    var final: Word
    var rftIn: bool
    var rftOut: bool

    ghost predicate Valid()
      reads this
    {
      0 < bits <= |rem| && |rem| == |poly| == |init| == |final|
    }

    /** The significant part of the register; whatever lies above it never matters. */
    ghost function Register(): (r: Word)
      reads this
      requires Valid()
    {
      rem[..bits]
    }

    ghost function Poly(): (p: Word)
      reads this
      requires Valid()
    {
      poly[..bits]
    }

    constructor (bits: nat, poly: Word, init: Word, final: Word, rftIn: bool, rftOut: bool)
      requires 0 < bits <= |poly| && |poly| == |init| == |final|
      ensures Valid() && this.bits == bits && this.rem == init
      ensures this.poly == poly && this.init == init && this.final == final
      ensures this.rftIn == rftIn && this.rftOut == rftOut
    {
      this.bits := bits;
      this.rem, this.poly, this.init, this.final := init, poly, init, final;
      this.rftIn, this.rftOut := rftIn, rftOut;
    }

    method ResetTo(newRem: Word)
      requires Valid() && |newRem| == |rem|
      modifies this`rem
      ensures Valid() && Register() == newRem[..bits]
    {
      rem := newRem;
    }

    method Reset()
      requires Valid()
      modifies this`rem
      ensures Valid() && Register() == init[..bits]
    {
      ResetTo(init);
    }

    method ProcessBit(bit: bool)
      requires Valid()
      modifies this`rem
      ensures Valid()
      ensures Register() == Step(Poly(), old(Register()), bit)
    {
      DivisionStep(bits, poly, rem, bit);
      XorCancel(rem, rem);
      var highBitMask := OneBit(|rem|, bits - 1);
      rem := Xor(rem, if bit then highBitMask else Zero(|rem|));
      var doPolyDiv := rem[bits - 1];
      rem := Shl(rem, 1);
      if doPolyDiv {
        rem := Xor(rem, poly);
      }
    }

    /** The low bitCount bits of `x`, highest first. */
    method ProcessBits(x: Byte, bitCount: nat)
      requires Valid() && bitCount <= CHAR_BIT
      modifies this`rem
      ensures Valid()
      ensures Register() == Run(Poly(), old(Register()), Reverse(x[..bitCount]))
    {
      hide Shl, Reverse, Step;
      var rest: Byte := Shl(x, CHAR_BIT - bitCount);
      ghost var p, r, stream := Poly(), Register(), Reverse(x[..bitCount]);
      var i := bitCount;
      assert stream[..0] == [];
      while i > 0
        invariant 0 <= i <= bitCount && Valid() && Poly() == p
        invariant rest == Shl(x, CHAR_BIT - i)
        invariant Register() == Run(p, r, stream[..bitCount - i])
      {
        ghost var j := bitCount - i;
        PrefixStep(p, r, stream, j);
        NextBit(x, bitCount, i);
        ProcessBit(rest[7]);
        ShlTwice(x, CHAR_BIT - i, 1);
        rest := Shl(rest, 1);
        i := i - 1;
      }
      assert stream[..bitCount] == stream;
    }

    method ProcessByte(x: Byte)
      requires Valid()
      modifies this`rem
      ensures Valid()
      ensures Register() == Run(Poly(), old(Register()), InOrder(x, rftIn))
    {
      var y := x;
      if rftIn {
        y := Reflect(x, CHAR_BIT);
        assert Reverse(y) == x;
      }
      assert y[..CHAR_BIT] == y;
      ProcessBits(y, CHAR_BIT);
    }

    method ProcessBlock(bytes: seq<Byte>)
      requires Valid()
      modifies this`rem
      ensures Valid()
      ensures Register() == Run(Poly(), old(Register()), Stream(bytes, rftIn))
    {
      assert bytes[..0] == [];
      for i := 0 to |bytes|
        invariant Valid()
        invariant Register() == Run(Poly(), old(Register()), Stream(bytes[..i], rftIn))
      {
        StreamSnoc(bytes, i, rftIn);
        RunAppend(Poly(), old(Register()), Stream(bytes[..i], rftIn), InOrder(bytes[i], rftIn));
        ProcessByte(bytes[i]);
      }
      assert bytes[..|bytes|] == bytes;
    }

    method GetInterimRemainder() returns (r: Word)
      requires Valid()
      ensures r == Convert(Register(), |rem|)
    {
      r := Mask(rem, bits);
    }

    method Checksum() returns (c: Word)
      requires Valid()
      ensures c == Convert(Finish(Register(), final[..bits], rftOut), |rem|)
    {
      var out := rem;
      if rftOut {
        out := Reflect(rem, bits);
        ReflectedIsReverse(rem, bits);
      }
      assert out[..bits] == if rftOut then Reverse(Register()) else Register();
      c := Mask(Xor(out, final), bits);
    }
  }

  lemma {:induction false} StreamSnoc(bytes: seq<Byte>, i: nat, reflectIn: bool)
    requires i < |bytes|
    ensures Stream(bytes[..i + 1], reflectIn)
         == Stream(bytes[..i], reflectIn) + InOrder(bytes[i], reflectIn)
  {
    assert bytes[..i + 1] == bytes[..i] + [bytes[i]];
    StreamAppend(bytes[..i], [bytes[i]], reflectIn);
    assert Stream([bytes[i]], reflectIn) == InOrder(bytes[i], reflectIn) + [];
  }

  // ---- the lookup table ----

  /** What eight steps from the zero register leave, for an index byte. */
  function Partial(p: Word, reflect: bool, index: Byte): (r: Word)
    requires |p| > 0
    ensures |r| == |p|
  {
    Run(p, Zero(|p|), InOrder(index, reflect))
  }

  /** t is a right table entry for `index`. Reflected entries are exact; unreflected ones may
      hold anything above the low |p| bits. */
  ghost predicate EntryFor(t: Word, p: Word, reflect: bool, index: Byte)
    requires |p| > 0
  {
    && |t| >= |p|
    && (if reflect then t == Convert(Reverse(Partial(p, reflect, index)), |t|)
        else t[..|p|] == Partial(p, reflect, index))
  }

  /** The dividend whose quotient step fills slot i; also the slot that dividend i fills. */
  function SlotOf(i: nat, reflect: bool): (j: nat)
    ensures j < 256
  {
    var b := FromValue(i, 8);
    ByteRange();
    Value(if reflect then Reverse(b) else b)
  }

  lemma {:induction false} ByteRange()
    ensures Pow2(8) == 256
  {
    assert Pow2(4) == 16;
  }

  lemma {:induction false} SlotOfIsInvolution(i: nat, reflect: bool)
    requires i < 256
    ensures SlotOf(SlotOf(i, reflect), reflect) == i
  {
    ByteRange();
    var b := FromValue(i, 8);
    var c := if reflect then Reverse(b) else b;
    FromValueOfValue(c);
    ValueOfFromValue(i, 8);
    assert Reverse(Reverse(b)) == b;
  }

  class CrcTable {
    const bits: nat
    const truncPoly: Word
    const reflect: bool
    const table: array<Word>
    var didInit: bool

    ghost predicate Valid()
      reads this, table
    {
      && 0 < bits <= |truncPoly| && CHAR_BIT <= |truncPoly|
      && table.Length == 256
      && (didInit ==> Filled())
    }

    /** Every slot holds its entry. */
    ghost predicate Filled()
      reads table
      requires 0 < bits <= |truncPoly|
    {
      table.Length == 256 && forall i :: 0 <= i < 256 ==> SlotFilled(i)
    }

    ghost predicate SlotFilled(i: nat)
      reads table
      requires 0 < bits <= |truncPoly|
    {
      && i < table.Length
      && |table[i]| == |truncPoly|
      && EntryFor(table[i], truncPoly[..bits], reflect, FromValue(i, 8))
    }

    constructor (bits: nat, truncPoly: Word, reflect: bool)
      requires 0 < bits <= |truncPoly| && CHAR_BIT <= |truncPoly|
      ensures Valid() && fresh(table) && !didInit
      ensures this.bits == bits && this.truncPoly == truncPoly && this.reflect == reflect
    {
      this.bits, this.truncPoly, this.reflect := bits, truncPoly, reflect;
      this.table := new Word[256](_ => Zero(|truncPoly|));
      this.didInit := false;
    }

    /** Eight division steps on a dividend byte, its highest bit first. */
    method Divide(dividend: Byte) returns (remainder: Word)
      requires Valid()
      ensures |remainder| == |truncPoly|
      ensures remainder[..bits] == Run(truncPoly[..bits], Zero(bits), Reverse(dividend))
    {
      var w := |truncPoly|;
      ghost var p, stream := truncPoly[..bits], Reverse(dividend);
      var fastHiBit := OneBit(w, bits - 1);
      remainder := Zero(w);
      assert remainder[..bits] == Zero(bits) && stream[..0] == [];
      var mask := CHAR_BIT;  // the mask's only bit is number mask - 1; zero bits left ends the loop
      while mask > 0
        invariant 0 <= mask <= 8 && |remainder| == w
        invariant remainder[..bits] == Run(p, Zero(bits), stream[..8 - mask])
      {
        ghost var j := 8 - mask;
        PrefixStep(p, Zero(bits), stream, j);
        DivisionStep(bits, truncPoly, remainder, dividend[mask - 1]);
        if dividend[mask - 1] {
          remainder := Xor(remainder, fastHiBit);
        }
        if remainder[bits - 1] {
          remainder := Shl(remainder, 1);
          remainder := Xor(remainder, truncPoly);
        } else {
          remainder := Shl(remainder, 1);
        }
        assert dividend[mask - 1] == stream[j];
        mask := mask - 1;
      }
      assert stream[..8] == stream;
    }

    /** One dividend: the slot it belongs to gets its entry, right entries stay right. */
    method FillSlot(dividend: nat)
      requires Valid() && dividend < 256 && !didInit
      modifies table
      ensures Valid() && SlotFilled(SlotOf(dividend, reflect))
      ensures forall i :: 0 <= i < 256 && old(SlotFilled(i)) ==> SlotFilled(i)
    {
      hide Run, Step, Xor, Convert;
      ByteRange();
      var x: Byte := FromValue(dividend, 8);
      var remainder := Divide(x);
      var slot := x;
      ghost var low := remainder[..bits];
      if reflect {
        ReflectedIsReverse(remainder, bits);
        remainder := Reflect(remainder, bits);
        slot := Reflect(x, CHAR_BIT);
        assert slot == Reverse(x);
        assert remainder == Convert(Reverse(low), |truncPoly|);
      }
      assert EntryFor(remainder, truncPoly[..bits], reflect, slot);
      FromValueOfValue(slot);
      table[Value(slot)] := remainder;
      assert Value(slot) == SlotOf(dividend, reflect);
    }

    method InitTable()
      requires Valid()
      modifies this`didInit, table
      ensures Valid() && didInit && Filled()
    {
      hide SlotOf, EntryFor;
      if didInit { return; }
      var dividend: nat := 0;
      while true
        invariant 0 <= dividend < 256 && !didInit && Valid()
        invariant forall i :: 0 <= i < 256 && SlotOf(i, reflect) < dividend ==> SlotFilled(i)
        decreases 256 - dividend
      {
        FillSlot(dividend);
        forall i | 0 <= i < 256 && SlotOf(i, reflect) == dividend ensures SlotFilled(i) {
          SlotOfIsInvolution(i, reflect);
        }
        dividend := (dividend + 1) % 256;  // unsigned char
        if dividend == 0 {
          forall i | 0 <= i < 256 ensures SlotFilled(i) {
            assert SlotOf(i, reflect) < 256;
          }
          break;
        }
      }
      didInit := true;
    }

    lemma {:induction false} Lookup(index: Byte)
      requires Valid() && didInit
      ensures Value(index) < 256 && |table[Value(index)]| == |truncPoly|
      ensures EntryFor(table[Value(index)], truncPoly[..bits], reflect, index)
    {
      ByteRange();
      FromValueOfValue(index);
      assert SlotFilled(Value(index));
    }
  }

  // ---- the table-driven computer ----

  function AlignMsb(bits: nat, rem: Word): (b: Byte) {
    Convert(if bits > CHAR_BIT then Shr(rem, bits - CHAR_BIT) else Shl(rem, CHAR_BIT - bits), 8)
  }

  function Index(bits: nat, doReflect: bool, rem: Word, x: Byte): (b: Byte) {
    if doReflect then Convert(Xor(Convert(x, |rem|), rem), 8)
    else Xor(x, AlignMsb(bits, rem))
  }

  function Shift(doReflect: bool, rem: Word): (r: Word)
    ensures |r| == |rem|
  {
    if doReflect then Shr(rem, CHAR_BIT) else Shl(rem, CHAR_BIT)
  }

  lemma {:induction false} IndexUnreflected(bits: nat, rem: Word, x: Byte)
    requires 0 < bits <= |rem| && CHAR_BIT <= |rem|
    ensures Reverse(Index(bits, false, rem, x)) == Xor(Reverse(x), Top(rem[..bits], 8))
  {
    var a := AlignMsb(bits, rem);
    forall i | 0 <= i < 8 ensures a[7 - i] == Top(rem[..bits], 8)[i] {
      if bits > 8 {
        assert Shr(rem, bits - 8)[7 - i] == rem[bits - 1 - i];
      } else {
        assert Shl(rem, 8 - bits)[7 - i] == (i < bits && rem[bits - 1 - i]);
      }
    }
    forall i | 0 <= i < 8
      ensures Reverse(Index(bits, false, rem, x))[i] == Xor(Reverse(x), Top(rem[..bits], 8))[i]
    {
      assert Index(bits, false, rem, x)[7 - i] == (x[7 - i] != a[7 - i]);
    }
  }

  lemma {:induction false} IndexReflected(bits: nat, rem: Word, x: Byte)
    requires 0 < bits <= |rem| && CHAR_BIT <= |rem| && rem == Mask(rem, bits)
    ensures Index(bits, true, rem, x) == Xor(x, Top(Reverse(rem[..bits]), 8))
  {
    var r := Reverse(rem[..bits]);
    forall i | 0 <= i < 8 ensures Index(bits, true, rem, x)[i] == Xor(x, Top(r, 8))[i] {
      assert Xor(Convert(x, |rem|), rem)[i] == (x[i] != rem[i]);
      assert rem[i] == Mask(rem, bits)[i];
      if i < bits {
        assert r[bits - 1 - i] == rem[i];
      }
    }
  }

  /** The plain register that rem stands for. */
  function Unmirrored(reflect: bool, bits: nat, rem: Word): (r: Word)
    requires bits <= |rem|
    ensures |r| == bits
  {
    if reflect then Reverse(rem[..bits]) else rem[..bits]
  }

  ghost predicate Clean(reflect: bool, bits: nat, rem: Word) {
    reflect ==> rem == Mask(rem, bits)
  }

  lemma {:induction false} LowOfXorShl(bits: nat, rem: Word, t: Word, k: nat)
    requires bits <= |rem| == |t|
    ensures Xor(Shl(rem, k), t)[..bits] == Xor(Shl(rem[..bits], k), t[..bits])
  {
    assert Shl(rem, k)[..bits] == Shl(rem[..bits], k);
  }

  lemma {:induction false} MirrorOfXorShr(bits: nat, rem: Word, t: Word, q: Word)
    requires |q| == bits <= |rem| == |t| && rem == Mask(rem, bits)
    requires t == Convert(Reverse(q), |t|)
    ensures Clean(true, bits, Xor(Shr(rem, 8), t))
    ensures Unmirrored(true, bits, Xor(Shr(rem, 8), t)) == Xor(Shl(Reverse(rem[..bits]), 8), q)
  {
    var r, u := Reverse(rem[..bits]), Shr(rem, 8);
    var rem' := Xor(u, t);
    forall i | 0 <= i < |rem| ensures rem'[i] == Mask(rem', bits)[i] {
      if i >= bits {
        assert u[i] == (i + 8 < |rem| && rem[i + 8]);
        if i + 8 < |rem| {
          assert rem[i + 8] == Mask(rem, bits)[i + 8];
        }
      }
    }
    forall i | 0 <= i < bits ensures Reverse(rem'[..bits])[i] == Xor(Shl(r, 8), q)[i] {
      var k := bits - 1 - i;
      assert t[k] == Reverse(q)[k];
      assert u[k] == (k + 8 < |rem| && rem[k + 8]);
      if k + 8 < |rem| {
        assert rem[k + 8] == Mask(rem, bits)[k + 8];
      }
      assert Shl(r, 8)[i] == (i >= 8 && r[i - 8]);
    }
  }

  /** One table step does to the plain register what eight bit steps do; a reflected register
      stays its mirror image, with no bits above the low `bits`. */
  lemma {:induction false} TableStep(bits: nat, p: Word, reflect: bool, rem: Word, x: Byte, t: Word)
    requires 0 < bits == |p| <= |rem| == |t| && CHAR_BIT <= |rem|
    ensures Clean(reflect, bits, rem) && EntryFor(t, p, reflect, Index(bits, reflect, rem, x)) ==>
      && Clean(reflect, bits, Xor(Shift(reflect, rem), t))
      && Unmirrored(reflect, bits, Xor(Shift(reflect, rem), t))
         == Run(p, Unmirrored(reflect, bits, rem), InOrder(x, reflect))
  {
    if Clean(reflect, bits, rem) && EntryFor(t, p, reflect, Index(bits, reflect, rem, x)) {
      RunByTable(p, Unmirrored(reflect, bits, rem), InOrder(x, reflect));
      if reflect {
        IndexReflected(bits, rem, x);
        MirrorOfXorShr(bits, rem, t, Partial(p, true, Index(bits, true, rem, x)));
      } else {
        IndexUnreflected(bits, rem, x);
        LowOfXorShl(bits, rem, t, 8);
      }
    }
  }

  class CrcOptimal {
    const finalXor: Word
    const initRem: Word
    const reflectRem: bool
    const table: CrcTable
    var rem: Word

    ghost predicate Valid()
      reads this, table, table.table
    {
      && table.Valid() && table.didInit
      && |rem| == |table.truncPoly| == |finalXor| == |initRem|
      && Clean(table.reflect, table.bits, rem)
    }

    ghost function Poly(): (p: Word)
      reads this, table, table.table
      requires Valid()
    {
      table.truncPoly[..table.bits]
    }

    /** The plain register this object stands for. */
    ghost function Register(): (r: Word)
      reads this, table, table.table
      requires Valid()
    {
      Unmirrored(table.reflect, table.bits, rem)
    }

    constructor (table: CrcTable, initRem: Word, finalXor: Word, reflectRem: bool)
      requires table.Valid() && |initRem| == |finalXor| == |table.truncPoly|
      modifies table`didInit, table.table
      ensures Valid() && this.table == table && Register() == initRem[..table.bits]
      ensures this.initRem == initRem && this.finalXor == finalXor && this.reflectRem == reflectRem
    {
      this.table, this.initRem, this.finalXor, this.reflectRem := table, initRem, finalXor, reflectRem;
      this.rem := initRem;
      new;
      if table.reflect {
        ReflectedIsReverse(initRem, table.bits);
        rem := Reflect(initRem, table.bits);
        assert Reverse(Reverse(initRem[..table.bits])) == initRem[..table.bits];
      }
      table.InitTable();
    }

    method Reset(newRem: Word)
      requires Valid() && |newRem| == |rem|
      modifies this`rem
      ensures Valid() && Register() == newRem[..table.bits]
    {
      rem := newRem;
      if table.reflect {
        ReflectedIsReverse(newRem, table.bits);
        rem := Reflect(newRem, table.bits);
        assert Reverse(Reverse(newRem[..table.bits])) == newRem[..table.bits];
      }
    }

    method ProcessBlock(bytes: seq<Byte>)
      requires Valid()
      modifies this`rem
      ensures Valid()
      ensures Register() == Run(Poly(), old(Register()), Stream(bytes, table.reflect))
    {
      hide Unmirrored, Index, Shift, Xor, InOrder, Step, EntryFor;
      assert bytes[..0] == [];
      for i := 0 to |bytes|
        invariant Valid()
        invariant Register() == Run(Poly(), old(Register()), Stream(bytes[..i], table.reflect))
      {
        StreamSnoc(bytes, i, table.reflect);
        RunAppend(Poly(), old(Register()), Stream(bytes[..i], table.reflect), InOrder(bytes[i], table.reflect));
        var byteIndex := Index(table.bits, table.reflect, rem, bytes[i]);
        table.Lookup(byteIndex);
        TableStep(table.bits, Poly(), table.reflect, rem, bytes[i], table.table[Value(byteIndex)]);
        rem := Shift(table.reflect, rem);
        rem := Xor(rem, table.table[Value(byteIndex)]);
      }
      assert bytes[..|bytes|] == bytes;
    }

    method ProcessByte(x: Byte)
      requires Valid()
      modifies this`rem
      ensures Valid()
      ensures Register() == Run(Poly(), old(Register()), InOrder(x, table.reflect))
    {
      ProcessBlock([x]);
      StreamSnoc([x], 0, table.reflect);
      assert [x][..1] == [x] && [x][..0] == [];
      assert Stream([x], table.reflect) == InOrder(x, table.reflect);
    }

    method GetInterimRemainder() returns (r: Word)
      requires Valid()
      ensures r == Convert(Register(), |rem|)
    {
      r := rem;
      if table.reflect {
        r := Reflect(rem, table.bits);
        ReflectedIsReverse(rem, table.bits);
      }
      assert r[..table.bits] == Register();
      r := Mask(r, table.bits);
    }

    method Checksum() returns (c: Word)
      requires Valid()
      ensures c == Convert(Finish(Register(), finalXor[..table.bits], reflectRem), |rem|)
    {
      var out := rem;
      if reflectRem != table.reflect {
        out := Reflect(rem, table.bits);
        ReflectedIsReverse(rem, table.bits);
      }
      assert out[..table.bits] == if reflectRem then Reverse(Register()) else Register();
      c := Mask(Xor(out, finalXor), table.bits);
    }
  }
}
