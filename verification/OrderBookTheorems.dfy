/** What the running totals and the price container of the order book say about its history. */
module OrderBookTheorems {
  import opened Basics
  import opened OrderBook

  // ---- live orders ----

  predicate Names(e: Event, id: int) { e.id == id }

  /** Event k is the last that names the order. */
  ghost predicate LastNamed(es: seq<Event>, id: int, k: nat) {
    && k < |es| && Names(es[k], id)
    && forall j :: k < j < |es| ==> !Names(es[j], id)
  }

  /** An order is live at a price if and only if the last event that names it inserts it at that price. */
  lemma {:induction false} LiveIffLastInserted(es: seq<Event>, id: int, p: real)
    ensures (id in Live(es) && Live(es)[id] == p)
       <==> exists k: nat :: LastNamed(es, id, k) && es[k].Insert? && es[k].price == p
    decreases |es|
  {
    if es == [] {
    } else {
      var n := |es| - 1;
      LiveIffLastInserted(es[..n], id, p);
      if Names(es[n], id) {
        assert LastNamed(es, id, n);
        assert forall k: nat :: LastNamed(es, id, k) ==> k == n;
      } else {
        forall k: nat ensures LastNamed(es, id, k) <==> LastNamed(es[..n], id, k) {
        }
      }
    }
  }

  // ---- the clock ----

  /** Once it has its first order the book is never empty before the last event. */
  ghost predicate StaysBusy(es: seq<Event>) {
    forall k :: 0 < k < |es| ==> Live(es[..k]) != map[]
  }

  /** Then the time with orders runs from the first event to the last. */
  lemma {:induction false} BusyFromFirstToLast(es: seq<Event>)
    requires es != [] && StaysBusy(es)
    ensures NonEmptyTime(es) == es[|es| - 1].time - es[0].time
    decreases |es|
  {
    var n := |es| - 1;
    assert es[..n][..0] == [];
    if n == 0 {
      assert NonEmptyTime(es[..0]) == 0;
    } else {
      forall k | 0 < k < n ensures es[..n][..k] == es[..k] {
      }
      BusyFromFirstToLast(es[..n]);
    }
  }

  /** After events that leave the book empty everything starts anew: orders, times and prices held. */
  lemma {:induction false} EmptyBookStartsAnew(es: seq<Event>, more: seq<Event>)
    requires Live(es) == map[]
    ensures Live(es + more) == Live(more)
    ensures NonEmptyTime(es + more) == NonEmptyTime(es) + NonEmptyTime(more)
    ensures IdleErases(es + more) == IdleErases(es) + IdleErases(more)
    ensures Weighted(es + more) == Weighted(es) + Weighted(more)
    decreases |more|
  {
    if more == [] {
      assert es + more == es;
    } else {
      var n := |more| - 1;
      var all, k := es + more, |es| + n;
      assert all[..k] == es + more[..n];
      EmptyBookStartsAnew(es, more[..n]);
      SameTerm(es, more, n);
    }
  }

  lemma {:induction false} SameTerm(es: seq<Event>, more: seq<Event>, n: nat)
    requires Live(es) == map[] && n == |more| - 1
    requires Live(es + more[..n]) == Live(more[..n])
    ensures var all, k := es + more, |es| + n;
      && Live(all) == Live(more) && BusyTime(all, k) == BusyTime(more, n)
      && Worth(Charge(all, k), BusyTime(all, k)) == Worth(Charge(more, n), BusyTime(more, n))
  {
    var all, k := es + more, |es| + n;
    assert all[..k] == es + more[..n] && all[..k + 1] == all && more[..n + 1] == more;
    if n > 0 {
      assert all[..k - 1] == es + more[..n - 1];
      BeforeLast(es, more, n);
    }
    WorthNothing(Charge(all, k), 0);
    WorthNothing(Charge(more, n), 0);
  }

  lemma {:induction false} BeforeLast(es: seq<Event>, more: seq<Event>, n: nat)
    requires Live(es) == map[] && 0 < n == |more| - 1
    ensures PriceOf(es + more, |es| + n - 1) == PriceOf(more, n - 1)
  {
    LiveStartsAnew(es, more[..n - 1]);
    assert (es + more)[..|es| + n - 1] == es + more[..n - 1];
  }

  lemma {:induction false} LiveStartsAnew(es: seq<Event>, more: seq<Event>)
    requires Live(es) == map[]
    ensures Live(es + more) == Live(more)
    decreases |more|
  {
    if more == [] {
      assert es + more == es;
    } else {
      var n := |more| - 1;
      assert (es + more)[..|es| + n] == es + more[..n];
      LiveStartsAnew(es, more[..n]);
    }
  }

  // ---- the weighted sum ----

  /** What the time before the last event adds to the weighted sum, in plain terms: nothing without
      orders; the price of the erased order when it was the only one; else the price of the order
      that the event before inserted or erased, and nothing if that erased an unknown order. */
  lemma {:induction false} WeightedGrowsBy(es: seq<Event>)
    requires |es| >= 2
    ensures var n := |es| - 1;
      var before, live, dt := es[n - 1], Live(es[..n]), (es[n].time - es[n - 1].time) as real;
      && (live == map[] ==> Weighted(es) == Weighted(es[..n]))
      && (es[n].Erase? && live != map[] && live.Keys == {es[n].id} ==>
            Weighted(es) == Weighted(es[..n]) + live[es[n].id] * dt)
      && (live != map[] && !(es[n].Erase? && live.Keys == {es[n].id}) ==>
            && (before.Insert? ==> Weighted(es) == Weighted(es[..n]) + before.price * dt)
            && (before.Erase? && before.id in Live(es[..n - 1]) ==>
                  Weighted(es) == Weighted(es[..n]) + Live(es[..n - 1])[before.id] * dt)
            && (before.Erase? && before.id !in Live(es[..n - 1]) ==> Weighted(es) == Weighted(es[..n])))
  {
    var n := |es| - 1;
    var live := Live(es[..n]);
    assert es[..n + 1] == es && es[..n][..n - 1] == es[..n - 1];
    OnlyOrderErased(live, es[n].id);
    WorthNothing(Charge(es, n), 0);
    WorthNothing(0.0, BusyTime(es, n));
    hide Live;
    assert Live(es) == LiveAfter(live, es[n]) by {
      LastStep(es);
    }
  }

  lemma {:induction false} LastStep(es: seq<Event>)
    requires es != []
    ensures Live(es) == LiveAfter(Live(es[..|es| - 1]), es[|es| - 1])
  {
  }

  lemma {:induction false} OnlyOrderErased(live: map<int, real>, id: int)
    ensures live != map[] ==> (live - {id} == map[] <==> live.Keys == {id})
  {
    var rest := live - {id};
    EmptyBook(live);
    EmptyBook(rest);
    if live != map[] && rest == map[] {
      assert forall k :: k in live ==> k == id || k in rest;
      assert forall k :: k in live.Keys <==> k in {id};
    }
    if live.Keys == {id} {
      assert forall k :: k in rest ==> k in live.Keys && k != id;
    }
  }

  /** The sum of price held times time held: each price until the next event. */
  function HeldSum(es: seq<Event>): (w: real)
    requires forall k :: 0 <= k < |es| ==> es[k].Insert?
    decreases |es|
  {
    if |es| < 2 then 0.0
    else
      var n := |es| - 1;
      HeldSum(es[..n]) + es[n - 1].price * (es[n].time - es[n - 1].time) as real
  }

  /** In runs of inserts the weighted sum is that, and the total is the time from the first to the last. */
  lemma {:induction false} WeightedOfInserts(es: seq<Event>)
    requires es != [] && forall k :: 0 <= k < |es| ==> es[k].Insert?
    ensures Weighted(es) == HeldSum(es) && Live(es) != map[]
    ensures NonEmptyTime(es) == es[|es| - 1].time - es[0].time && IdleErases(es) == 0
    decreases |es|
  {
    var n := |es| - 1;
    if n == 0 {
      assert es[..0] == [];
      WorthNothing(Charge(es, 0), 0);
    } else {
      WeightedOfInserts(es[..n]);
      WeightedGrowsBy(es);
    }
    assert es[n].id in Live(es);
  }

  // ---- the average price ----

  /** The average is the number that, times the total, is the weighted sum; there is none for total 0. */
  lemma {:induction false} AverageIs(es: seq<Event>, p: real)
    ensures var total := NonEmptyTime(es) + IdleErases(es);
      AverageOf(es) == Of(p) <==> total != 0 && p * total as real == Weighted(es)
  {
    hide NonEmptyTime, IdleErases, Weighted;
    var total := (NonEmptyTime(es) + IdleErases(es)) as real;
    if total != 0.0 {
      var q := Weighted(es) / total;
      assert q * total == Weighted(es);
      if p * total == Weighted(es) {
        SameQuotient(p, q, total);
      }
    }
  }

  /** Timestamps never go back. */
  ghost predicate Ordered(es: seq<Event>) {
    forall i, j :: 0 <= i < j < |es| ==> es[i].time <= es[j].time
  }

  /** Every price inserted is within the bounds; and so is 0, where some erase names an order that
      is not in the book, and its timestamp counts from 0. */
  ghost predicate Within(es: seq<Event>, lo: real, hi: real) {
    forall k :: 0 <= k < |es| ==>
      match es[k]
      case Insert(_, _, price) => lo <= price <= hi
      case Erase(time, id) => id in Live(es[..k]) || (lo <= 0.0 <= hi && 0 <= time)
  }

  lemma {:induction false} PrefixOf(es: seq<Event>, n: nat, lo: real, hi: real)
    requires n <= |es| && Ordered(es) && Within(es, lo, hi)
    ensures Ordered(es[..n]) && Within(es[..n], lo, hi)
  {
    forall k | 0 <= k < n ensures es[..n][k] == es[k] && es[..n][..k] == es[..k] {
    }
  }

  lemma {:induction false} LivePricesWithin(es: seq<Event>, lo: real, hi: real, id: int)
    requires Ordered(es) && Within(es, lo, hi) && id in Live(es)
    ensures lo <= Live(es)[id] <= hi
    decreases |es|
  {
    var n := |es| - 1;
    PrefixOf(es, n, lo, hi);
    if id in Live(es[..n]) {
      LivePricesWithin(es[..n], lo, hi, id);
    }
  }

  lemma {:induction false} PriceWithin(es: seq<Event>, lo: real, hi: real, k: nat)
    requires k < |es| && Ordered(es) && Within(es, lo, hi)
    ensures lo <= PriceOf(es, k) <= hi
  {
    PrefixOf(es, k, lo, hi);
    if es[k].Erase? && es[k].id in Live(es[..k]) {
      LivePricesWithin(es[..k], lo, hi, es[k].id);
    }
  }

  lemma {:induction false} Scale(lo: real, p: real, hi: real, dt: real)
    requires lo <= p <= hi && 0.0 <= dt
    ensures lo * dt <= p * dt <= hi * dt
  {
  }

  lemma {:induction false} Accumulate(lo: real, hi: real, total: real, w: real, p: real, busy: real, idle: real)
    requires lo * total <= w <= hi * total && lo <= p <= hi && 0.0 <= busy
    requires idle == 0.0 || (lo <= 0.0 <= hi && 0.0 <= idle)
    ensures lo * (total + busy + idle) <= w + p * busy <= hi * (total + busy + idle)
  {
    Scale(lo, p, hi, busy);
    assert lo * (total + busy + idle) == lo * total + lo * busy + lo * idle;
    assert hi * (total + busy + idle) == hi * total + hi * busy + hi * idle;
    if idle != 0.0 {
      Scale(lo, 0.0, hi, idle);
    }
  }

  lemma {:induction false} LastTermWithin(es: seq<Event>, lo: real, hi: real)
    requires es != [] && Ordered(es) && Within(es, lo, hi)
    ensures var n := |es| - 1;
      && lo <= Charge(es, n) <= hi && 0 <= BusyTime(es, n)
      && (ErasesNothing(es, n) ==> lo <= 0.0 <= hi && 0 <= es[n].time)
  {
    hide Live;
    var n := |es| - 1;
    PriceWithin(es, lo, hi, n);
    if n > 0 {
      PriceWithin(es, lo, hi, n - 1);
    }
  }

  /** The weighted sum lies between the bounds times the total time. */
  lemma {:induction false} WeightedWithin(es: seq<Event>, lo: real, hi: real)
    requires Ordered(es) && Within(es, lo, hi)
    ensures var total := NonEmptyTime(es) + IdleErases(es);
      0 <= total && lo * total as real <= Weighted(es) <= hi * total as real
    decreases |es|
  {
    hide Charge, BusyTime, Live, Ordered, Within, ErasesNothing;
    if es == [] {
    } else {
      var n := |es| - 1;
      PrefixOf(es, n, lo, hi);
      WeightedWithin(es[..n], lo, hi);
      LastTermWithin(es, lo, hi);
      var total := NonEmptyTime(es[..n]) + IdleErases(es[..n]);
      var idle := if ErasesNothing(es, n) then es[n].time else 0;
      Accumulate(lo, hi, total as real, Weighted(es[..n]), Charge(es, n), BusyTime(es, n) as real, idle as real);
    }
  }

  lemma {:induction false} QuotientBetween(lo: real, w: real, hi: real, t: real)
    requires t > 0.0 && lo * t <= w <= hi * t
    ensures lo <= w / t <= hi
  {
    var q := w / t;
    assert q * t == w;
    LessTimes(q, lo, t);
    LessTimes(hi, q, t);
  }

  /** The average, where there is one, lies between the prices inserted. */
  lemma {:induction false} AverageBetweenPrices(es: seq<Event>, lo: real, hi: real)
    requires Ordered(es) && Within(es, lo, hi) && AverageOf(es).Of?
    ensures lo <= AverageOf(es).p <= hi
  {
    hide NonEmptyTime, IdleErases, Weighted, Ordered, Within;
    WeightedWithin(es, lo, hi);
    QuotientBetween(lo, Weighted(es), hi, (NonEmptyTime(es) + IdleErases(es)) as real);
  }

  ghost predicate NoIdleErase(es: seq<Event>) {
    forall k :: 0 <= k < |es| ==> !ErasesNothing(es, k)
  }

  ghost predicate PositiveTimes(es: seq<Event>) {
    forall k :: 0 <= k < |es| ==> es[k].time > 0
  }

  /** Nothing is added to the time with orders in the book unless an erase finds it empty; and, with
      positive timestamps, something is whenever one does. */
  lemma {:induction false} TotalIsNonEmptyTime(es: seq<Event>)
    ensures NoIdleErase(es) ==> IdleErases(es) == 0
    ensures PositiveTimes(es) ==> IdleErases(es) >= 0 && (IdleErases(es) == 0 <==> NoIdleErase(es))
    decreases |es|
  {
    if es == [] {
    } else {
      var n := |es| - 1;
      var before := es[..n];
      forall k | 0 <= k < n ensures ErasesNothing(before, k) == ErasesNothing(es, k) {
        assert before[..k] == es[..k];
      }
      TotalIsNonEmptyTime(before);
      assert NoIdleErase(es) <==> NoIdleErase(before) && !ErasesNothing(es, n);
    }
  }

  /** One erase and no order: the total is the whole timestamp, the time with orders nothing. */
  lemma {:induction false} EraseOnEmptyBookCounts(es: seq<Event>, t: int, id: int)
    requires es == [Erase(t, id)]
    ensures NonEmptyTime(es) == 0 && NonEmptyTime(es) + IdleErases(es) == t
  {
    assert es[..0] == [];
  }

  // ---- the greatest price ----

  function At(live: map<int, real>, p: real): (ids: set<int>) {
    set id | id in live && live[id] == p
  }

  /** The container holds the prices of the live orders, each as often as it occurs. */
  ghost predicate Tracks(px: multiset<real>, live: map<int, real>) {
    forall p: real :: px[p] == |At(live, p)|
  }

  /** An insert of a new id, or an erase of an unknown order or of the only one at its price. */
  predicate Harmless(live: map<int, real>, e: Event) {
    match e
    case Insert(_, id, _) => id !in live
    case Erase(_, id) => id in live ==> forall other :: other in live && live[other] == live[id] ==> other == id
  }

  lemma {:induction false} AtAfter(live: map<int, real>, e: Event, p: real)
    ensures At(LiveAfter(live, e), p) ==
      match e
      case Insert(_, id, price) => if price == p then At(live, p) + {id} else At(live, p) - {id}
      case Erase(_, id) => At(live, p) - {id}
  {
  }

  lemma {:induction false} HarmlessTracks(px: multiset<real>, live: map<int, real>, e: Event)
    requires Tracks(px, live) && Harmless(live, e)
    ensures Tracks(PricesAfter(px, live, e), LiveAfter(live, e))
  {
    forall p: real ensures PricesAfter(px, live, e)[p] == |At(LiveAfter(live, e), p)| {
      AtAfter(live, e, p);
      if e.Erase? && e.id in live && p == live[e.id] {
        forall x | x in At(live, p) ensures x == e.id {
          assert live[x] == live[e.id];
        }
        assert At(live, p) - {e.id} == {};
      }
    }
  }

  lemma {:induction false} TracksOnlyHarmless(px: multiset<real>, live: map<int, real>, e: Event)
    requires Tracks(px, live) && Tracks(PricesAfter(px, live, e), LiveAfter(live, e))
    ensures Harmless(live, e)
  {
    match e
    case Insert(_, id, price) =>
      if id in live {
        assert id in At(live, live[id]);
        AtAfter(live, e, price);
        AtAfter(live, e, live[id]);
      }
    case Erase(_, id) =>
      if id in live {
        AtAfter(live, e, live[id]);
        assert At(live, live[id]) - {id} == {};
        forall other | other in live && live[other] == live[id] ensures other == id {
          assert other in At(live, live[id]);
        }
      }
  }

  lemma {:induction false} NothingTracks()
    ensures Tracks(multiset{}, map[])
  {
    forall p: real ensures multiset{}[p] == |At(map[], p)| {
      assert At(map[], p) == {};
    }
  }

  ghost predicate TracksAt(es: seq<Event>, k: nat)
    requires k <= |es|
  {
    Tracks(Prices(es[..k]), Live(es[..k]))
  }

  ghost predicate HarmlessAt(es: seq<Event>, k: nat)
    requires k < |es|
  {
    Harmless(Live(es[..k]), es[k])
  }

  /** The container follows the live orders all through a run exactly when every insert has a new
      id and every order erased is the only one at its price. */
  lemma {:induction false} TracksIffHarmless(es: seq<Event>)
    ensures (forall k :: 0 <= k <= |es| ==> TracksAt(es, k)) <==> (forall k :: 0 <= k < |es| ==> HarmlessAt(es, k))
  {
    hide Tracks, Harmless;
    if forall k :: 0 <= k <= |es| ==> TracksAt(es, k) {
      forall k | 0 <= k < |es| ensures HarmlessAt(es, k) {
        Step(es, k);
        assert TracksAt(es, k) && TracksAt(es, k + 1);
        TracksOnlyHarmless(Prices(es[..k]), Live(es[..k]), es[k]);
      }
    }
    if forall k :: 0 <= k < |es| ==> HarmlessAt(es, k) {
      forall k | 0 <= k <= |es| ensures TracksAt(es, k) {
        HarmlessPrefixTracks(es, k);
      }
    }
  }

  lemma {:induction false} Step(es: seq<Event>, k: nat)
    requires k < |es|
    ensures Live(es[..k + 1]) == LiveAfter(Live(es[..k]), es[k])
    ensures Prices(es[..k + 1]) == PricesAfter(Prices(es[..k]), Live(es[..k]), es[k])
  {
    assert es[..k + 1][..k] == es[..k];
  }

  lemma {:induction false} HarmlessPrefixTracks(es: seq<Event>, k: nat)
    requires k <= |es| && forall i :: 0 <= i < k ==> HarmlessAt(es, i)
    ensures TracksAt(es, k)
    decreases k
  {
    hide Tracks, Harmless;
    if k == 0 {
      NothingTracks();
    } else {
      HarmlessPrefixTracks(es, k - 1);
      assert HarmlessAt(es, k - 1);
      Step(es, k - 1);
      HarmlessTracks(Prices(es[..k - 1]), Live(es[..k - 1]), es[k - 1]);
    }
  }

  /** p is the greatest price of a live order. */
  ghost predicate Greatest(live: map<int, real>, p: real) {
    && (exists id :: id in live && live[id] == p)
    && forall id :: id in live ==> live[id] <= p
  }

  lemma {:induction false} EmptyBook(live: map<int, real>)
    ensures live == map[] <==> forall id :: id !in live
  {
    if forall id :: id !in live {
      assert live == map[];
    }
  }

  lemma {:induction false} HasOne(ids: set<int>)
    requires |ids| > 0
    ensures exists id :: id in ids
  {
    if forall id :: id !in ids {
      assert false;
    }
  }

  /** Event j erases an order live at p, and with it every copy of p. */
  predicate ErasesAt(es: seq<Event>, j: nat, p: real)
    requires j < |es|
  {
    var live := Live(es[..j]);
    es[j].Erase? && es[j].id in live && live[es[j].id] == p
  }

  ghost predicate InsertLasts(es: seq<Event>, i: nat, p: real)
    requires i < |es|
  {
    es[i].Insert? && es[i].price == p && forall j :: i < j < |es| ==> !ErasesAt(es, j, p)
  }

  /** Some order was inserted at p, and none live at p was erased since. */
  ghost predicate Remains(es: seq<Event>, p: real) {
    exists i :: 0 <= i < |es| && InsertLasts(es, i, p)
  }

  lemma {:induction false} RemainsAfter(es: seq<Event>, p: real)
    requires es != []
    ensures var n := |es| - 1;
      Remains(es, p) <==> (es[n].Insert? && es[n].price == p) || (Remains(es[..n], p) && !ErasesAt(es, n, p))
  {
    var n := |es| - 1;
    var before := es[..n];
    forall i | 0 <= i < n ensures InsertLasts(es, i, p) <==> InsertLasts(before, i, p) && !ErasesAt(es, n, p) {
      forall j | 0 <= j < n ensures ErasesAt(before, j, p) == ErasesAt(es, j, p) {
        assert before[..j] == es[..j];
      }
      if InsertLasts(es, i, p) {
        assert !ErasesAt(es, n, p);
        forall j | i < j < n ensures !ErasesAt(before, j, p) {
          assert !ErasesAt(es, j, p);
        }
      }
    }
    if Remains(before, p) && !ErasesAt(es, n, p) {
      var i :| 0 <= i < n && InsertLasts(before, i, p);
      assert InsertLasts(es, i, p);
    }
    if es[n].Insert? && es[n].price == p {
      assert InsertLasts(es, n, p);
    }
  }

  /** The container holds exactly the prices that remain, in every run. */
  lemma {:induction false} HoldsWhatRemains(es: seq<Event>, p: real)
    ensures p in Prices(es) <==> Remains(es, p)
    decreases |es|
  {
    if es == [] {
    } else {
      hide Remains;
      RemainsAfter(es, p);
      HoldsWhatRemains(es[..|es| - 1], p);
    }
  }

  /** The high price is read from an empty container if and only if there is an order, and every insert
      was followed by an erase at its price. */
  lemma {:induction false} InvalidIffNothingRemains(es: seq<Event>)
    ensures HighOf(es) == Invalid <==> Live(es) != map[] && forall p :: !Remains(es, p)
    ensures HighOf(es) == NaN <==> Live(es) == map[]
  {
    hide Remains, Last;
    forall p ensures p in Prices(es) <==> Remains(es, p) {
      HoldsWhatRemains(es, p);
    }
    if Prices(es) != multiset{} {
      HasGreatest(Prices(es));
    }
  }

  /** In every run with orders: the high price is p if and only if p remains and no greater price does. */
  lemma {:induction false} HighIsGreatestRemaining(es: seq<Event>, p: real)
    requires Live(es) != map[]
    ensures HighOf(es) == Price(p) <==> Remains(es, p) && forall q :: Remains(es, q) ==> q <= p
  {
    hide Remains, Live, Prices;
    forall q ensures q in Prices(es) <==> Remains(es, q) {
      HoldsWhatRemains(es, q);
    }
  }

  /** So it is the greatest price of a live order if and only if that price remains and no greater one
      does. */
  lemma {:induction false} HighIsRightIff(es: seq<Event>, p: real)
    requires Greatest(Live(es), p)
    ensures HighOf(es) == Price(p) <==> Remains(es, p) && forall q :: Remains(es, q) ==> q <= p
  {
    hide Remains;
    HighIsGreatestRemaining(es, p);
  }

  /** In runs that the container follows the high price is the greatest price of a live order. */
  lemma {:induction false} HighIsGreatest(es: seq<Event>)
    requires forall k :: 0 <= k < |es| ==> HarmlessAt(es, k)
    ensures Live(es) == map[] <==> HighOf(es) == NaN
    ensures Live(es) != map[] ==> HighOf(es).Price? && Greatest(Live(es), HighOf(es).p)
  {
    var live, px := Live(es), Prices(es);
    assert es[..|es|] == es;
    HarmlessPrefixTracks(es, |es|);
    assert Tracks(px, live);
    if live != map[] {
      forall id | id in live ensures live[id] in px {
        assert id in At(live, live[id]);
      }
      EmptyBook(live);
      var some :| some in live;
      assert live[some] in px;
      assert px != multiset{};
      var p := Last(px);
      assert px[p] == |At(live, p)| && p in px;
      HasOne(At(live, p));
      var id :| id in At(live, p);
    }
  }

  /** Two orders at one price, one of them erased: there is an order, but no price any more. */
  lemma {:induction false} EqualPricesLoseTheHigh(es: seq<Event>, t: int, p: real)
    requires es == [Insert(t, 1, p), Insert(t, 2, p), Erase(t, 1)]
    ensures 2 in Live(es) && HighOf(es) == Invalid
  {
    assert es[..0] == [] && es[..3] == es;
    assert Live(es[..0]) == map[] && Prices(es[..0]) == multiset{};
    hide Live, Prices, Last;
    Step(es, 0);
    Step(es, 1);
    assert 1 in Live(es[..2]) && Live(es[..2])[1] == p && 2 in Live(es[..2]);
    Step(es, 2);
    OnlyOnePrice(Prices(es[..2]), p);
  }

  lemma {:induction false} OnlyOnePrice(px: multiset<real>, p: real)
    requires px == multiset{p, p}
    ensures px[p := 0] == multiset{}
  {
  }
}
