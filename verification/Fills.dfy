/** The running average price of an order while it is being filled. */
module Fills {
  import opened Basics

  datatype Fill = Fill(volume: real, price: real)

  function Volume(fills: seq<Fill>): (v: real)
    decreases |fills|
  {
    if fills == [] then 0.0 else Volume(fills[..|fills| - 1]) + fills[|fills| - 1].volume
  }

  function Cost(fill: Fill): (m: real) { fill.price * fill.volume }

  /** The money: the sum of price times volume. */
  function Turnover(fills: seq<Fill>): (m: real)
    decreases |fills|
  {
    if fills == [] then 0.0
    else Turnover(fills[..|fills| - 1]) + Cost(fills[|fills| - 1])
  }

  /** A double without rounding: a number, an infinity, or not a number. */
  datatype Double = Number(x: real) | Infinite(positive: bool) | NotANumber

  /** x * r */
  function Times(x: Double, r: real): (d: Double) {
    match x
    case Number(a) => Number(a * r)
    case Infinite(positive) => if r == 0.0 then NotANumber else Infinite(positive == (r > 0.0))
    case NotANumber => NotANumber
  }

  /** x + r */
  function Plus(x: Double, r: real): (d: Double) {
    if x.Number? then Number(x.x + r) else x
  }

  /** x / r, where the zero that a sum leaves is a positive one. */
  function DividedBy(x: Double, r: real): (d: Double) {
    match x
    case Number(a) => if r != 0.0 then Number(a / r) else Unbounded(a)
    case Infinite(positive) => Infinite(positive == (r >= 0.0))
    case NotANumber => NotANumber
  }

  /** a / 0 */
  function Unbounded(a: real): (d: Double) {
    if a == 0.0 then NotANumber else Infinite(a > 0.0)
  }

  /** No fill leaves the quantity at 0. */
  ghost predicate NeverZero(fills: seq<Fill>) {
    forall k :: 0 < k <= |fills| ==> Volume(fills[..k]) != 0.0
  }

  lemma {:induction false} OneMoreNeverZero(fills: seq<Fill>, f: Fill)
    ensures Volume(fills + [f]) == Volume(fills) + f.volume
    ensures Turnover(fills + [f]) == Turnover(fills) + Cost(f)
    ensures NeverZero(fills + [f]) <==> NeverZero(fills) && Volume(fills) + f.volume != 0.0
  {
    var all := fills + [f];
    assert all[..|fills|] == fills && all[..|all|] == all;
    assert forall k :: 0 < k <= |fills| ==> all[..k] == fills[..k];
    if NeverZero(all) {
      forall k | 0 < k <= |fills| ensures Volume(fills[..k]) != 0.0 {
        assert Volume(all[..k]) != 0.0;
      }
      assert Volume(all[..|all|]) != 0.0;
    }
  }

  /** Only the fill that leaves the quantity at 0 can make the average infinite. */
  lemma {:induction false} ZeroWhenInfinite(fills: seq<Fill>)
    ensures !NeverZero(fills) ==> fills != []
    ensures !NeverZero(fills) && NeverZero(fills[..|fills| - 1]) ==> Volume(fills) == 0.0
  {
    if fills != [] {
      var n := |fills| - 1;
      assert fills == fills[..n] + [fills[n]];
      OneMoreNeverZero(fills[..n], fills[n]);
    }
  }

  class FIXOrder {
    var lastPx: real
    var avgPx: Double
    var lastQty: real
    var leavesQty: real
    var cumQty: real
    var execID: string
    ghost var fills: seq<Fill>

    /** Average price times quantity is what the fills cost together, as long as no fill left the
        quantity at 0. The fill that does makes the average infinite, with the sign of the money, or
        not a number without money; from the next fill on it is not a number for good. */
    ghost predicate Valid()
      reads this
    {
      && cumQty == Volume(fills)
      && if NeverZero(fills) then avgPx.Number? && avgPx.x * cumQty == Turnover(fills)
         else avgPx == if NeverZero(fills[..|fills| - 1]) then Unbounded(Turnover(fills)) else NotANumber
    }

    constructor (leavesqty: real)
      ensures Valid() && fills == [] && leavesQty == leavesqty
    {
      lastPx, avgPx, lastQty, leavesQty, cumQty, execID := 0.0, Number(0.0), 0.0, leavesqty, 0.0, "0";
      fills := [];
    }

    method HandleFill(fillVolume: real, fillPrice: real, residualVolume: real, execID: string)
      requires Valid()
      modifies this
      ensures Valid() && fills == old(fills) + [Fill(fillVolume, fillPrice)]
      ensures lastQty == fillVolume && lastPx == fillPrice && leavesQty == residualVolume && this.execID == execID
    {
      hide Volume, Turnover, NeverZero;
      OneMoreNeverZero(fills, Fill(fillVolume, fillPrice));
      assert (fills + [Fill(fillVolume, fillPrice)])[..|fills|] == fills;
      lastQty := fillVolume;
      lastPx := fillPrice;
      leavesQty := residualVolume;
      ZeroWhenInfinite(fills);
      avgPx := DividedBy(Plus(Times(avgPx, cumQty), fillPrice * fillVolume), cumQty + fillVolume);
      cumQty := cumQty + fillVolume;
      this.execID := execID;
      fills := fills + [Fill(fillVolume, fillPrice)];
    }
  }

  // ---- between the prices ----

  ghost predicate Positive(fills: seq<Fill>) {
    forall k :: 0 <= k < |fills| ==> fills[k].volume > 0.0
  }

  ghost predicate Within(fills: seq<Fill>, lo: real, hi: real) {
    forall k :: 0 <= k < |fills| ==> lo <= fills[k].price <= hi
  }

  lemma {:induction false} OneMoreFill(lo: real, p: real, hi: real, v: real, volume: real, turnover: real)
    requires lo <= p <= hi && v > 0.0 && lo * volume <= turnover <= hi * volume
    ensures lo * (volume + v) <= turnover + p * v <= hi * (volume + v)
  {
    assert lo * v <= p * v <= hi * v;
    assert lo * (volume + v) == lo * volume + lo * v;
    assert hi * (volume + v) == hi * volume + hi * v;
  }

  lemma {:induction false} TurnoverWithin(fills: seq<Fill>, lo: real, hi: real)
    requires Positive(fills) && Within(fills, lo, hi)
    ensures 0.0 <= Volume(fills) && (fills != [] ==> 0.0 < Volume(fills))
    ensures lo * Volume(fills) <= Turnover(fills) <= hi * Volume(fills)
    decreases |fills|
  {
    if fills == [] {
    } else {
      var n := |fills| - 1;
      TurnoverWithin(fills[..n], lo, hi);
      OneMoreFill(lo, fills[n].price, hi, fills[n].volume, Volume(fills[..n]), Turnover(fills[..n]));
    }
  }

  /** Fills of positive volume never leave the quantity at 0. */
  lemma {:induction false} PositiveNeverZero(fills: seq<Fill>)
    requires Positive(fills)
    ensures NeverZero(fills)
  {
    forall k | 0 < k <= |fills| ensures Volume(fills[..k]) != 0.0 {
      PositiveVolume(fills[..k]);
    }
  }

  lemma {:induction false} PositiveVolume(fills: seq<Fill>)
    requires Positive(fills)
    ensures Volume(fills) >= 0.0 && (fills != [] ==> Volume(fills) > 0.0)
    decreases |fills|
  {
    if fills == [] {
    } else {
      PositiveVolume(fills[..|fills| - 1]);
    }
  }

  /** An order that was filled by positive volumes has an average price, and it lies between the
      least and the greatest price filled at. */
  lemma {:induction false} AverageBetweenPrices(order: FIXOrder, lo: real, hi: real)
    requires order.Valid() && order.fills != [] && Positive(order.fills) && Within(order.fills, lo, hi)
    ensures order.avgPx.Number? && lo <= order.avgPx.x <= hi
  {
    PositiveNeverZero(order.fills);
    TurnoverWithin(order.fills, lo, hi);
    LessTimes(order.avgPx.x, lo, Volume(order.fills));
    LessTimes(hi, order.avgPx.x, Volume(order.fills));
  }

  // ---- the order of the fills ----

  lemma {:induction false} TakeOut(fills: seq<Fill>, i: nat)
    requires i < |fills|
    ensures Volume(fills) == Volume(Without(fills, i)) + fills[i].volume
    ensures Turnover(fills) == Turnover(Without(fills, i)) + Cost(fills[i])
    decreases |fills|
  {
    hide Cost;
    var n := |fills| - 1;
    if i == n {
      assert Without(fills, i) == fills[..n];
    } else {
      TakeOut(fills[..n], i);
      assert Without(fills, i)[..n - 1] == Without(fills[..n], i);
      assert Without(fills, i)[n - 1] == fills[n];
    }
  }

  lemma {:induction false} OrderOfFills(fs: seq<Fill>, gs: seq<Fill>)
    requires multiset(fs) == multiset(gs)
    ensures Volume(fs) == Volume(gs) && Turnover(fs) == Turnover(gs)
    decreases |fs|
  {
    hide Volume, Turnover;
    assert |fs| == |multiset(fs)| == |multiset(gs)| == |gs|;
    if fs == [] {
      assert gs == fs;
    } else {
      var n := |fs| - 1;
      assert fs[n] in multiset(gs);
      var i :| 0 <= i < |gs| && gs[i] == fs[n];
      TakeOut(fs, n);
      TakeOut(gs, i);
      SameWithout(fs, gs, n, i);
      OrderOfFills(Without(fs, n), Without(gs, i));
    }
  }

  lemma {:induction false} NumberMeansAverage(order: FIXOrder)
    requires order.Valid() && order.avgPx.Number?
    ensures order.avgPx.x * order.cumQty == Turnover(order.fills) && order.cumQty == Volume(order.fills)
    ensures order.fills != [] ==> order.cumQty != 0.0
  {
    assert NeverZero(order.fills) && order.fills[..|order.fills|] == order.fills;
  }

  /** The fill that leaves the quantity at 0 makes the average infinite, with the sign of the money, or not
      a number when there is no money; every later fill leaves it not a number. */
  lemma {:induction false} AverageAtZero(order: FIXOrder)
    requires order.Valid() && !NeverZero(order.fills)
    ensures order.fills != []
    ensures var atLast := NeverZero(order.fills[..|order.fills| - 1]);
      && (order.avgPx == Infinite(true) <==> atLast && Turnover(order.fills) > 0.0)
      && (order.avgPx == Infinite(false) <==> atLast && Turnover(order.fills) < 0.0)
      && (order.avgPx == NotANumber <==> !atLast || Turnover(order.fills) == 0.0)
  {
  }

  /** Two orders with the same fills in whatever order have the same quantity, and the same average
      price where both have one; with positive volumes both have. */
  lemma {:induction false} AverageIgnoresOrder(a: FIXOrder, b: FIXOrder)
    requires a.Valid() && b.Valid() && multiset(a.fills) == multiset(b.fills) && a.fills != []
    ensures a.cumQty == b.cumQty
    ensures a.avgPx.Number? && b.avgPx.Number? ==> a.avgPx == b.avgPx
    ensures Positive(a.fills) ==> a.avgPx.Number? && a.avgPx == b.avgPx
  {
    hide Volume, Turnover, NeverZero, Unbounded;
    OrderOfFills(a.fills, b.fills);
    if a.avgPx.Number? && b.avgPx.Number? {
      NumberMeansAverage(a);
      NumberMeansAverage(b);
      SameQuotient(a.avgPx.x, b.avgPx.x, a.cumQty);
    }
    if Positive(a.fills) {
      forall k | 0 <= k < |b.fills| ensures b.fills[k].volume > 0.0 {
        assert b.fills[k] in multiset(a.fills);
      }
      PositiveNeverZero(a.fills);
      PositiveNeverZero(b.fills);
    }
  }
}
