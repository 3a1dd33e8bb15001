/** The order book of the market data reader: the live orders, their prices in order, and the
    running totals behind the average price. */
module OrderBook {

  datatype Event =
    | Insert(time: int, id: int, price: real)
    | Erase(time: int, id: int)

  // ---- what a history of events means ----

  function LiveAfter(live: map<int, real>, e: Event): (live': map<int, real>) {
    match e
    case Insert(_, id, price) => live[id := price]
    case Erase(_, id) => live - {id}
  }

  /** The orders inserted and not erased since. */
  function Live(es: seq<Event>): (live: map<int, real>)
    decreases |es|
  {
    if es == [] then map[] else LiveAfter(Live(es[..|es| - 1]), es[|es| - 1])
  }

  /** The price an event brings: that of the order inserted or erased, 0 for an unknown order. */
  function PriceOf(es: seq<Event>, k: nat): (price: real)
    requires k < |es|
  {
    match es[k]
    case Insert(_, _, price) => price
    case Erase(_, id) => var live := Live(es[..k]); if id in live then live[id] else 0.0
  }

  /** The time that passes before event k with orders in the book. */
  function BusyTime(es: seq<Event>, k: nat): (dt: int)
    requires k < |es|
  {
    if Live(es[..k]) == map[] || k == 0 then 0 else es[k].time - es[k - 1].time
  }

  /** The total time with orders in the book, up to the last event. */
  function NonEmptyTime(es: seq<Event>): (t: int)
    decreases |es|
  {
    if es == [] then 0 else NonEmptyTime(es[..|es| - 1]) + BusyTime(es, |es| - 1)
  }

  predicate ErasesNothing(es: seq<Event>, k: nat)
    requires k < |es|
  {
    es[k].Erase? && Live(es[..k]) == map[]
  }

  /** The timestamps of the erases that found the book empty. */
  function IdleErases(es: seq<Event>): (t: int)
    decreases |es|
  {
    if es == [] then 0
    else IdleErases(es[..|es| - 1]) + if ErasesNothing(es, |es| - 1) then es[|es| - 1].time else 0
  }

  /** The price that the time before event k is weighted with: that of the event before, but the
      erased order's own when the erase empties the book. */
  function Charge(es: seq<Event>, k: nat): (price: real)
    requires k < |es|
  {
    if k == 0 || (es[k].Erase? && Live(es[..k + 1]) == map[]) then PriceOf(es, k) else PriceOf(es, k - 1)
  }

  /** A price held for some time. */
  function Worth(price: real, dt: int): (w: real) { price * dt as real }

  lemma {:induction false} WorthNothing(price: real, dt: int)
    ensures Worth(0.0, dt) == 0.0 && Worth(price, 0) == 0.0
  {
  }

  function Weighted(es: seq<Event>): (w: real)
    decreases |es|
  {
    if es == [] then 0.0
    else Weighted(es[..|es| - 1]) + Worth(Charge(es, |es| - 1), BusyTime(es, |es| - 1))
  }

  /** Erasing an order removes every copy of its price. */
  function PricesAfter(px: multiset<real>, live: map<int, real>, e: Event): (px': multiset<real>) {
    match e
    case Insert(_, _, price) => px + multiset{price}
    case Erase(_, id) => if id in live then px[live[id] := 0] else px
  }

  /** The price container after the events. */
  function Prices(es: seq<Event>): (px: multiset<real>)
    decreases |es|
  {
    if es == [] then multiset{}
    else
      var n := |es| - 1;
      PricesAfter(Prices(es[..n]), Live(es[..n]), es[n])
  }

  // ---- one more event ----

  lemma {:induction false} OneMore(es: seq<Event>, e: Event)
    ensures (es + [e])[..|es|] == es && (es + [e])[..|es| + 1] == es + [e]
    ensures es != [] ==> PriceOf(es + [e], |es| - 1) == PriceOf(es, |es| - 1)
    ensures es != [] ==> (es + [e])[|es| - 1] == es[|es| - 1]
  {
    if es != [] {
      assert (es + [e])[..|es| - 1] == es[..|es| - 1];
    }
  }

  /** The time since the last event, when there are orders. */
  function Elapsed(es: seq<Event>, time: int): (dt: int) {
    if Live(es) == map[] || es == [] then 0 else time - es[|es| - 1].time
  }

  function LastPrice(es: seq<Event>): (price: real) {
    if es == [] then 0.0 else PriceOf(es, |es| - 1)
  }

  lemma {:induction false} AfterInsert(es: seq<Event>, time: int, id: int, price: real)
    ensures var es', dt := es + [Insert(time, id, price)], Elapsed(es, time);
      && Live(es') == Live(es)[id := price] && Prices(es') == Prices(es) + multiset{price}
      && NonEmptyTime(es') == NonEmptyTime(es) + dt && IdleErases(es') == IdleErases(es)
      && Weighted(es') == Weighted(es) + Worth(LastPrice(es), dt)
      && LastPrice(es') == price
  {
    hide Worth;
    WorthNothing(LastPrice(es), time);
    WorthNothing(price, 0);
    OneMore(es, Insert(time, id, price));
  }

  lemma {:induction false} AfterErase(es: seq<Event>, time: int, id: int)
    ensures var es', dt, live := es + [Erase(time, id)], Elapsed(es, time), Live(es);
      var price := if id in live then live[id] else 0.0;
      && Live(es') == live - {id} && Prices(es') == (if id in live then Prices(es)[price := 0] else Prices(es))
      && NonEmptyTime(es') == NonEmptyTime(es) + dt
      && IdleErases(es') == IdleErases(es) + (if live == map[] then time else 0)
      && Weighted(es') == Weighted(es) + Worth(if live - {id} == map[] then price else LastPrice(es), dt)
      && LastPrice(es') == price
  {
    hide Worth;
    WorthNothing(0.0, 0);
    WorthNothing(PriceOf(es + [Erase(time, id)], |es|), 0);
    OneMore(es, Erase(time, id));
  }

  /** What the fields of the book say about its history. */
  ghost predicate Shows(es: seq<Event>, live: map<int, real>, px: multiset<real>, total: int, weight: real,
                        prevTime: int, prevPrice: real)
  {
    && live == Live(es) && px == Prices(es) && total == NonEmptyTime(es) + IdleErases(es) && weight == Weighted(es)
    && if live == map[] then prevTime == 0 && prevPrice == 0.0
       else es != [] && prevTime == es[|es| - 1].time && prevPrice == LastPrice(es)
  }

  lemma {:induction false} ShownAfterInsert(es: seq<Event>, live: map<int, real>, px: multiset<real>, total: int,
      weight: real, prevTime: int, prevPrice: real, time: int, id: int, price: real)
    requires Shows(es, live, px, total, weight, prevTime, prevPrice)
    ensures Shows(es + [Insert(time, id, price)], live[id := price], px + multiset{price},
      total + (if live == map[] then 0 else time - prevTime), weight + Worth(prevPrice, time - prevTime), time, price)
  {
    hide Live, Prices, NonEmptyTime, IdleErases, Weighted, LastPrice, Worth;
    AfterInsert(es, time, id, price);
    assert id in live[id := price];
    WorthNothing(LastPrice(es), time - prevTime);
  }

  lemma {:induction false} ShownAfterErase(es: seq<Event>, live: map<int, real>, px: multiset<real>, total: int,
      weight: real, prevTime: int, prevPrice: real, time: int, id: int)
    requires Shows(es, live, px, total, weight, prevTime, prevPrice)
    ensures var es', live', dt := es + [Erase(time, id)], live - {id}, time - prevTime;
      var price := if id in live then live[id] else 0.0;
      var px' := if id in live then px[price := 0] else px;
      if live' == map[] then Shows(es', live', px', total + dt, weight + Worth(price, dt), 0, 0.0)
      else Shows(es', live', px', total + dt, weight + Worth(prevPrice, dt), time, price)
  {
    hide Live, Prices, NonEmptyTime, IdleErases, Weighted, LastPrice, Worth;
    AfterErase(es, time, id);
    WorthNothing(LastPrice(es), time - prevTime);
    WorthNothing(0.0, 0);
    if live == map[] {
      assert live - {id} == map[];
    }
  }

  function Size(live: map<int, real>): (n: nat)
    ensures n == 0 <==> live == map[]
  {
    |live|
  }

  // ---- the book ----

  lemma {:induction false} HasGreatest(px: multiset<real>)
    requires px != multiset{}
    ensures exists m :: m in px && forall x :: x in px ==> x <= m
    decreases |px|
  {
    var y :| y in px;
    var rest := px - multiset{y};
    assert forall x :: x in px ==> x == y || x in rest;
    if rest == multiset{} {
      assert forall x :: x in px ==> x <= y;
    } else {
      HasGreatest(rest);
      var m :| m in rest && forall x :: x in rest ==> x <= m;
      var top := if m < y then y else m;
      assert top in px && forall x :: x in px ==> x <= top;
    }
  }

  /** *rbegin() */
  function Last(px: multiset<real>): (m: real)
    requires px != multiset{}
    ensures m in px && forall x :: x in px ==> x <= m
  {
    HasGreatest(px);
    var m :| m in px && forall x :: x in px ==> x <= m;
    m
  }

  /** NaN: no order. Invalid: *rbegin() of an empty container. */
  datatype High = NaN | Price(p: real) | Invalid

  datatype Average = Undefined | Of(p: real)

  class MarketData {
    var orderPx: multiset<real>
    var orderEntry: map<int, real>
    var totalTimestamp: int
    var weightPrice: real
    var prevTimestamp: int
    var prevPrice: real
    ghost var events: seq<Event>

    ghost predicate Valid()
      reads this
    {
      Shows(events, orderEntry, orderPx, totalTimestamp, weightPrice, prevTimestamp, prevPrice)
    }

    /** Reads the events of a file, one after the other. */
    constructor (file: seq<Event>)
      ensures Valid() && events == file
    {
      orderPx, orderEntry := multiset{}, map[];
      totalTimestamp, weightPrice, prevTimestamp, prevPrice := 0, 0.0, 0, 0.0;
      events := [];
      new;
      assert Shows([], orderEntry, orderPx, totalTimestamp, weightPrice, prevTimestamp, prevPrice);
      hide Shows;
      for i := 0 to |file|
        invariant Valid() && events == file[..i]
      {
        match file[i] {
          case Insert(time, id, price) => InsertOrderEntry(time, id, price);
          case Erase(time, id) => EraseOrderEntry(time, id);
        }
        assert file[..i] + [file[i]] == file[..i + 1];
      }
      assert file[..|file|] == file;
    }

    method InsertOrderEntry(timestamp: int, id: int, price: real)
      requires Valid()
      modifies this
      ensures Valid() && events == old(events) + [Insert(timestamp, id, price)]
    {
      hide Shows, Worth, Size;
      ShownAfterInsert(events, orderEntry, orderPx, totalTimestamp, weightPrice, prevTimestamp, prevPrice,
                       timestamp, id, price);
      weightPrice := weightPrice + Worth(prevPrice, timestamp - prevTimestamp);
      if Size(orderEntry) > 0 {
        totalTimestamp := totalTimestamp + (timestamp - prevTimestamp);
      }
      prevPrice := price;
      prevTimestamp := timestamp;
      orderEntry := orderEntry[id := price];
      orderPx := orderPx + multiset{price};
      events := events + [Insert(timestamp, id, price)];
    }

    method EraseOrderEntry(timestamp: int, id: int)
      requires Valid()
      modifies this
      ensures Valid() && events == old(events) + [Erase(timestamp, id)]
    {
      hide Shows, Worth, Size;
      ShownAfterErase(events, orderEntry, orderPx, totalTimestamp, weightPrice, prevTimestamp, prevPrice,
                      timestamp, id);
      assert id !in orderEntry ==> orderEntry - {id} == orderEntry;
      var price := 0.0;
      if id in orderEntry {
        price := orderEntry[id];
        orderPx := orderPx[price := 0];
        orderEntry := orderEntry - {id};
      }
      if Size(orderEntry) > 0 {
        weightPrice := weightPrice + Worth(prevPrice, timestamp - prevTimestamp);
        totalTimestamp := totalTimestamp + (timestamp - prevTimestamp);
        prevPrice := price;
        prevTimestamp := timestamp;
      } else {
        weightPrice := weightPrice + Worth(price, timestamp - prevTimestamp);
        totalTimestamp := totalTimestamp + (timestamp - prevTimestamp);
        prevPrice := 0.0;
        prevTimestamp := 0;
      }
      events := events + [Erase(timestamp, id)];
    }

    method GetHighPrice() returns (high: High)
      requires Valid()
      ensures high == HighOf(events)
    {
      if Size(orderEntry) == 0 {
        high := NaN;
      } else if orderPx == multiset{} {
        high := Invalid;
      } else {
        high := Price(Last(orderPx));
      }
    }

    method PrintWeightedPx() returns (average: Average)
      requires Valid()
      ensures average == AverageOf(events)
    {
      if totalTimestamp == 0 {
        average := Undefined;
      } else {
        average := Of(weightPrice / totalTimestamp as real);
      }
    }
  }

  function HighOf(es: seq<Event>): (high: High) {
    if Live(es) == map[] then NaN else if Prices(es) == multiset{} then Invalid else Price(Last(Prices(es)))
  }

  function AverageOf(es: seq<Event>): (average: Average) {
    var total := NonEmptyTime(es) + IdleErases(es);
    if total == 0 then Undefined else Of(Weighted(es) / total as real)
  }
}
