/** The price feed of one FIX session: which symbols are subscribed, under which request id their
    ticks go out, and how market data requests change that. */
module Subscriptions {
  import opened Basics

  datatype Kind = Subscribe | Unsubscribe | Snapshot

  /** What happens to the session, one symbol of a request at a time. */
  datatype Entry =
    | Asked(kind: Kind, id: string, symbol: string)
    | LoggedOn
    | LoggedOut

  /** The request id of each symbol, and the symbols marked as subscribed. */
  datatype Feed = Feed(ids: map<string, string>, sub: map<string, bool>)

  const NO_FEED := Feed(map[], map[])

  /** Why an entry is rejected, if it is. */
  function Problem(known: string -> bool, f: Feed, e: Entry): (text: Option<string>) {
    if !e.Asked? || e.kind.Snapshot? then None
    else if !known(e.symbol) then Some("Not eligible for Price Feed.")
    else if e.kind.Unsubscribe? then if e.symbol in f.sub then None else Some("Symbol not subscribed yet.")
    else if e.symbol in f.sub && f.sub[e.symbol] then Some("Symbol already subscribed.")
    else None
  }

  /** The request id changes even where the entry is rejected. */
  function Step(known: string -> bool, f: Feed, e: Entry): (f': Feed) {
    match e
    case LoggedOn => f.(sub := map[])
    case LoggedOut => NO_FEED
    case Asked(Snapshot, _, _) => f
    case Asked(Subscribe, id, symbol) =>
      Feed(f.ids[symbol := id], if known(symbol) && symbol !in f.sub then f.sub[symbol := true] else f.sub)
    case Asked(Unsubscribe, _, symbol) =>
      Feed(f.ids - {symbol}, if known(symbol) then f.sub - {symbol} else f.sub)
  }

  function After(known: string -> bool, log: seq<Entry>): (f: Feed)
    decreases |log|
  {
    if log == [] then NO_FEED else Step(known, After(known, log[..|log| - 1]), log[|log| - 1])
  }

  // ---- a request ----

  datatype Request = Request(kind: Kind, id: string, symbols: seq<string>)

  function EntriesOf(r: Request): (es: seq<Entry>)
    ensures |es| == |r.symbols|
  {
    seq(|r.symbols|, k requires 0 <= k < |r.symbols| => Asked(r.kind, r.id, r.symbols[k]))
  }

  /** The first n entries, coming after the log, give no problem. */
  ghost predicate Unproblematic(known: string -> bool, log: seq<Entry>, es: seq<Entry>, n: nat)
    requires n <= |es|
  {
    forall k :: 0 <= k < n ==> Problem(known, After(known, log + es[..k]), es[k]).None?
  }

  /** The entries handled: all of them when there is no problem, else those up to the first that
      gives one. */
  ghost predicate Handled(known: string -> bool, log: seq<Entry>, es: seq<Entry>, n: nat, problem: Option<string>)
    requires n <= |es|
  {
    match problem
    case None => n == |es| && Unproblematic(known, log, es, n)
    case Some(_) =>
      && n > 0 && Unproblematic(known, log, es, n - 1)
      && Problem(known, After(known, log + es[..n - 1]), es[n - 1]) == problem
  }

  datatype Message =
    | Reject(id: string, text: string)
    | Tick(id: string, symbol: string, bid: real, ask: real)

  class Application {
    const symbolExists: string -> bool
    var symMDReqID: map<string, string>
    var symSub: map<string, bool>
    var sent: seq<Message>
    ghost var log: seq<Entry>

    ghost predicate Valid()
      reads this
    {
      Feed(symMDReqID, symSub) == After(symbolExists, log)
    }

    constructor (symbolExists: string -> bool)
      ensures Valid() && this.symbolExists == symbolExists && log == [] && sent == []
    {
      this.symbolExists := symbolExists;
      symMDReqID, symSub, sent, log := map[], map[], [], [];
    }

    method OnLogon()
      requires Valid()
      modifies this`symSub, this`log
      ensures Valid() && log == old(log) + [LoggedOn]
    {
      assert (log + [LoggedOn])[..|log|] == log;
      symSub := map[];
      log := log + [LoggedOn];
    }

    method OnLogout()
      requires Valid()
      modifies this`symSub, this`symMDReqID, this`log
      ensures Valid() && log == old(log) + [LoggedOut]
    {
      assert (log + [LoggedOut])[..|log|] == log;
      symSub := map[];
      var size := |symMDReqID|;
      while size > 0
        invariant size == |symMDReqID| && symSub == map[] && log == old(log)
      {
        var first :| first in symMDReqID;
        symMDReqID := symMDReqID - {first};
        size := size - 1;
      }
      log := log + [LoggedOut];
    }

    /** Handles the symbols of a request in turn, up to the first that is rejected. */
    method OnMessage(r: Request) returns (ghost n: nat, ghost problem: Option<string>)
      requires Valid()
      modifies this`symSub, this`symMDReqID, this`sent, this`log
      ensures Valid() && n <= |r.symbols| && log == old(log) + EntriesOf(r)[..n]
      ensures Handled(symbolExists, old(log), EntriesOf(r), n, problem)
      ensures sent == old(sent) + if problem.Some? then [Reject(r.id, problem.value)] else []
    {
      hide After, Problem;
      ghost var es := EntriesOf(r);
      n, problem := 0, None;
      var symCount := 1;
      while symCount <= |r.symbols|
        invariant 1 <= symCount <= |r.symbols| + 1 && n == symCount - 1
        invariant Valid() && log == old(log) + es[..n] && sent == old(sent) && problem.None?
        invariant Unproblematic(symbolExists, old(log), es, n)
        decreases |r.symbols| - symCount
      {
        var text := AskSymbol(r.kind, r.id, r.symbols[symCount - 1]);
        assert old(log) + es[..n] + [es[n]] == old(log) + es[..n + 1];
        n := n + 1;
        if text.Some? {
          sent := sent + [Reject(r.id, text.value)];
          problem := text;
          break;
        }
        symCount := symCount + 1;
      }
    }

    /** One symbol of a request: the reject text, if it is rejected. */
    method AskSymbol(kind: Kind, id: string, sym: string) returns (text: Option<string>)
      requires Valid()
      modifies this`symSub, this`symMDReqID, this`log
      ensures Valid() && log == old(log) + [Asked(kind, id, sym)]
      ensures text == Problem(symbolExists, After(symbolExists, old(log)), Asked(kind, id, sym))
    {
      assert (log + [Asked(kind, id, sym)])[..|log|] == log;
      text := None;
      var isSymbolExist := symbolExists(sym);
      if kind == Subscribe {
        symMDReqID := symMDReqID[sym := id];
        if isSymbolExist {
          if sym in symSub {
            if symSub[sym] {
              text := Some("Symbol already subscribed.");
            }
          } else {
            symSub := symSub[sym := true];
          }
        } else {
          text := Some("Not eligible for Price Feed.");
        }
      } else if kind == Unsubscribe {
        if sym in symMDReqID {
          symMDReqID := symMDReqID - {sym};
        }
        if isSymbolExist {
          if sym in symSub {
            symSub := symSub - {sym};
          } else {
            text := Some("Symbol not subscribed yet.");
          }
        } else {
          text := Some("Not eligible for Price Feed.");
        }
      }
      log := log + [Asked(kind, id, sym)];
    }

    method OnTick(symbol: string, bid: real, ask: real)
      requires Valid()
      modifies this`sent
      ensures var ids := After(symbolExists, log).ids;
        sent == old(sent) + (if symbol in ids then [Tick(ids[symbol], symbol, bid, ask)] else [])
    {
      if |symMDReqID| > 0 {
        if symbol in symMDReqID {
          sent := sent + [Tick(symMDReqID[symbol], symbol, bid, ask)];
        }
      }
    }
  }

  // ---- ticks and the log ----

  /** The entry decides over the ticks of the symbol. */
  predicate Concerns(e: Entry, symbol: string) {
    e.LoggedOut? || (e.Asked? && !e.kind.Snapshot? && e.symbol == symbol)
  }

  /** Entry k is the last that does. */
  ghost predicate LastWord(log: seq<Entry>, symbol: string, k: nat) {
    && k < |log| && Concerns(log[k], symbol)
    && forall j :: k < j < |log| ==> !Concerns(log[j], symbol)
  }

  /** A tick goes out with id exactly when the last entry on its symbol since the last logout was
      a subscribe with that id, accepted or not. */
  lemma {:induction false} TicksFollowLastWord(known: string -> bool, log: seq<Entry>, symbol: string, id: string)
    ensures var ids := After(known, log).ids;
      (symbol in ids && ids[symbol] == id)
      <==> exists k: nat :: LastWord(log, symbol, k) && log[k] == Asked(Subscribe, id, symbol)
    decreases |log|
  {
    if log == [] {
    } else {
      var n := |log| - 1;
      TicksFollowLastWord(known, log[..n], symbol, id);
      if Concerns(log[n], symbol) {
        assert LastWord(log, symbol, n);
        assert forall k: nat :: LastWord(log, symbol, k) ==> k == n;
      } else {
        forall k: nat ensures LastWord(log, symbol, k) <==> LastWord(log[..n], symbol, k) {
        }
      }
    }
  }

  // ---- what always holds ----

  /** Subscribed symbols exist, are marked true, and have a request id. */
  ghost predicate Consistent(known: string -> bool, f: Feed) {
    forall s :: s in f.sub ==> f.sub[s] && known(s) && s in f.ids
  }

  lemma {:induction false} AlwaysConsistent(known: string -> bool, log: seq<Entry>)
    ensures Consistent(known, After(known, log))
    decreases |log|
  {
    if log == [] {
    } else {
      AlwaysConsistent(known, log[..|log| - 1]);
    }
  }

  /** A subscribe or unsubscribe is accepted exactly when it changes whether its symbol is
      subscribed; it never changes that for another symbol. */
  lemma {:induction false} AcceptedIffChanges(known: string -> bool, log: seq<Entry>, e: Entry, symbol: string)
    requires e.Asked? && !e.kind.Snapshot?
    ensures var before, after := symbol in After(known, log).sub, symbol in After(known, log + [e]).sub;
      before != after <==> symbol == e.symbol && Problem(known, After(known, log), e).None?
  {
    AlwaysConsistent(known, log);
    assert (log + [e])[..|log|] == log;
  }

  // ---- feed and subscriptions ----

  /** Ticks go out for the subscribed symbols and no others. */
  ghost predicate Agrees(f: Feed) {
    f.ids.Keys == f.sub.Keys
  }

  /** An entry that does not separate the two: a subscribe for a symbol that exists, a logon that
      finds no feed, or any other. */
  predicate Harmless(known: string -> bool, f: Feed, e: Entry) {
    match e
    case Asked(Subscribe, _, symbol) => known(symbol)
    case LoggedOn => f.ids == map[]
    case _ => true
  }

  lemma {:induction false} StaysInAgreement(known: string -> bool, f: Feed, e: Entry)
    requires Consistent(known, f) && Agrees(f)
    ensures Agrees(Step(known, f, e)) <==> Harmless(known, f, e)
  {
    match e
    case LoggedOn =>
      if Agrees(Step(known, f, e)) {
        assert f.ids.Keys == {};
      }
    case LoggedOut =>
    case Asked(kind, id, symbol) =>
      var f' := Step(known, f, e);
      if kind.Subscribe? && !known(symbol) {
        assert symbol in f'.ids.Keys && symbol !in f'.sub.Keys;
      } else {
        assert f'.ids.Keys == f'.sub.Keys;
      }
  }

  ghost predicate AgreesAt(known: string -> bool, log: seq<Entry>, k: nat)
    requires k <= |log|
  {
    Agrees(After(known, log[..k]))
  }

  predicate HarmlessAt(known: string -> bool, log: seq<Entry>, k: nat)
    requires k < |log|
  {
    Harmless(known, After(known, log[..k]), log[k])
  }

  lemma {:induction false} OneEntry(known: string -> bool, log: seq<Entry>, k: nat)
    requires k < |log|
    ensures After(known, log[..k + 1]) == Step(known, After(known, log[..k]), log[k])
  {
    assert log[..k + 1][..k] == log[..k];
  }

  lemma {:induction false} HarmlessPrefixAgrees(known: string -> bool, log: seq<Entry>, k: nat)
    requires k <= |log| && forall i :: 0 <= i < k ==> HarmlessAt(known, log, i)
    ensures AgreesAt(known, log, k)
    decreases k
  {
    if k == 0 {
    } else {
      HarmlessPrefixAgrees(known, log, k - 1);
      assert HarmlessAt(known, log, k - 1);
      OneEntry(known, log, k - 1);
      AlwaysConsistent(known, log[..k - 1]);
      StaysInAgreement(known, After(known, log[..k - 1]), log[k - 1]);
    }
  }

  /** The subscribed symbols are those that get ticks, all through a session's life, exactly when no
      subscribe names an unknown symbol and no logon finds a feed of before. */
  lemma {:induction false} AgreementIffHarmless(known: string -> bool, log: seq<Entry>)
    ensures (forall k :: 0 <= k <= |log| ==> AgreesAt(known, log, k))
       <==> (forall k :: 0 <= k < |log| ==> HarmlessAt(known, log, k))
  {
    hide After, Agrees, Harmless;
    if forall k :: 0 <= k <= |log| ==> AgreesAt(known, log, k) {
      forall k | 0 <= k < |log| ensures HarmlessAt(known, log, k) {
        assert AgreesAt(known, log, k) && AgreesAt(known, log, k + 1);
        OneEntry(known, log, k);
        AlwaysConsistent(known, log[..k]);
        StaysInAgreement(known, After(known, log[..k]), log[k]);
      }
    }
    if forall k :: 0 <= k < |log| ==> HarmlessAt(known, log, k) {
      forall k | 0 <= k <= |log| ensures AgreesAt(known, log, k) {
        HarmlessPrefixAgrees(known, log, k);
      }
    }
  }

  /** The entry leaves the request ids alone: a subscribe under the id that its symbol has, or an
      unsubscribe for a symbol without one. */
  predicate NothingToTake(f: Feed, e: Entry)
    requires e.Asked?
  {
    if e.kind.Subscribe? then e.symbol in f.ids && f.ids[e.symbol] == e.id else e.symbol !in f.ids
  }

  /** A rejected entry leaves the feed as it was if and only if it has no request id to change: it
      takes over the ticks of a symbol, or starts or ends them, in all other cases. */
  lemma {:induction false} RejectedLeavesFeed(known: string -> bool, log: seq<Entry>, e: Entry)
    requires Problem(known, After(known, log), e).Some?
    ensures After(known, log + [e]) == After(known, log) <==> NothingToTake(After(known, log), e)
    ensures After(known, log + [e]).sub == After(known, log).sub
  {
    AlwaysConsistent(known, log);
    assert (log + [e])[..|log|] == log;
    var f := After(known, log);
    if e.kind.Unsubscribe? && known(e.symbol) {
      assert f.sub - {e.symbol} == f.sub;
    }
    if NothingToTake(f, e) {
      assert f.ids[e.symbol := e.id] == f.ids || f.ids - {e.symbol} == f.ids;
    }
  }

  /** A second subscribe for a symbol is rejected, and its id takes over the ticks all the same. */
  lemma {:induction false} RejectedRequestTakesOver(known: string -> bool, log: seq<Entry>, id: string, symbol: string)
    requires symbol in After(known, log).sub
    ensures var e := Asked(Subscribe, id, symbol);
      && Problem(known, After(known, log), e) == Some("Symbol already subscribed.")
      && symbol in After(known, log + [e]).ids && After(known, log + [e]).ids[symbol] == id
  {
    AlwaysConsistent(known, log);
    assert (log + [Asked(Subscribe, id, symbol)])[..|log|] == log;
  }

  // ---- rejected requests ----

  /** Subscribing takes no symbol out of the subscriptions, unsubscribing brings none in. */
  lemma {:induction false} OneWay(known: string -> bool, log: seq<Entry>, es: seq<Entry>, kind: Kind, symbol: string)
    requires forall k :: 0 <= k < |es| ==> es[k].Asked? && es[k].kind == kind
    ensures kind.Subscribe? && symbol in After(known, log).sub ==> symbol in After(known, log + es).sub
    ensures kind.Unsubscribe? && symbol !in After(known, log).sub ==> symbol !in After(known, log + es).sub
    decreases |es|
  {
    if es == [] {
      assert log + es == log;
    } else {
      var n := |es| - 1;
      OneWay(known, log, es[..n], kind, symbol);
      assert (log + es)[..|log| + n] == log + es[..n];
    }
  }

  /** What the first entry of a request changes by being accepted stays changed. */
  lemma {:induction false} AcceptedStaysChanged(known: string -> bool, log: seq<Entry>, es: seq<Entry>)
    requires es != [] && es[0].Asked? && forall k :: 0 <= k < |es| ==> es[k].Asked? && es[k].kind == es[0].kind
    requires !es[0].kind.Snapshot? && Problem(known, After(known, log), es[0]).None?
    ensures After(known, log + es).sub != After(known, log).sub
  {
    var e := es[0];
    AcceptedIffChanges(known, log, e, e.symbol);
    OneWay(known, log + [e], es[1..], e.kind, e.symbol);
    assert log + [e] + es[1..] == log + es;
    if e.kind.Subscribe? {
      assert (log + [e])[..|log|] == log;
      assert e.symbol in After(known, log + [e]).sub;
    }
  }

  /** A rejected request leaves the feed as it was if and only if its first symbol is the one that is
      rejected, and that one has no request id to change: the symbols before the rejected one have
      been subscribed or unsubscribed and stay so. */
  lemma {:induction false} RejectedRequestLeavesFeed(known: string -> bool, log: seq<Entry>, r: Request, n: nat,
      problem: Option<string>)
    requires n <= |r.symbols| && problem.Some? && Handled(known, log, EntriesOf(r), n, problem)
    ensures After(known, log + EntriesOf(r)[..n]) == After(known, log)
       <==> n == 1 && NothingToTake(After(known, log), EntriesOf(r)[0])
  {
    var es := EntriesOf(r)[..n];
    assert log + EntriesOf(r)[..0] == log;
    if n == 1 {
      assert es == [EntriesOf(r)[0]];
      RejectedLeavesFeed(known, log, es[0]);
    } else {
      assert Problem(known, After(known, log + EntriesOf(r)[..0]), es[0]).None?;
      AcceptedStaysChanged(known, log, es);
    }
  }

  // ---- inputs at which the feed changes ----

  /** The request for A and B is rejected for B, under the very id that B has, and subscribes A. */
  lemma {:induction false} RejectedRequestSubscribes(known: string -> bool, log: seq<Entry>, r: Request)
    requires known("A") && known("B") && log == [Asked(Subscribe, "1", "B")]
    requires r == Request(Subscribe, "1", ["A", "B"])
    ensures Handled(known, log, EntriesOf(r), 2, Some("Symbol already subscribed."))
    ensures "A" !in After(known, log).sub && "A" in After(known, log + EntriesOf(r)).sub
  {
    var es := EntriesOf(r);
    assert log[..0] == [] && log + es[..0] == log && es[..2] == es;
    assert (log + es[..1])[..1] == log && es[..1] == [es[0]] && "A" != "B";
    assert After(known, log) == Feed(map["B" := "1"], map["B" := true]);
    assert After(known, log + es[..1]) == Feed(map["B" := "1", "A" := "1"], map["B" := true, "A" := true]);
    assert (log + es)[..2] == log + es[..1];
  }

  /** Logging on again takes the subscription and leaves the id, so ticks go on. */
  lemma {:induction false} LogonKeepsTicks(known: string -> bool, log: seq<Entry>, id: string, symbol: string)
    requires known(symbol) && log == [Asked(Subscribe, id, symbol), LoggedOn]
    ensures After(known, log) == Feed(map[symbol := id], map[])
  {
    assert log[..1] == [log[0]] && [log[0]][..0] == [];
    assert After(known, log[..1]) == Feed(map[symbol := id], map[symbol := true]);
  }

  /** The unsubscribe that would end them is rejected, and ends them. */
  lemma {:induction false} RejectedUnsubscribeEndsTicks(known: string -> bool, log: seq<Entry>, id: string,
      symbol: string)
    requires known(symbol) && log == [Asked(Subscribe, id, symbol), LoggedOn]
    ensures var e := Asked(Unsubscribe, id, symbol);
      && Problem(known, After(known, log), e) == Some("Symbol not subscribed yet.")
      && After(known, log + [e]) == NO_FEED
  {
    LogonKeepsTicks(known, log, id, symbol);
    assert (log + [Asked(Unsubscribe, id, symbol)])[..2] == log;
  }

  // ---- what a request does ----

  /** Why an entry is rejected, by what it asks for. */
  lemma {:induction false} ReasonOfRejection(known: string -> bool, log: seq<Entry>, kind: Kind, id: string,
      symbol: string)
    requires !kind.Snapshot?
    ensures var f := After(known, log);
      var text, subscribed := Problem(known, f, Asked(kind, id, symbol)), symbol in f.sub;
      && (text == Some("Not eligible for Price Feed.") <==> !known(symbol))
      && (text == Some("Symbol already subscribed.") <==> known(symbol) && kind.Subscribe? && subscribed)
      && (text == Some("Symbol not subscribed yet.") <==> known(symbol) && kind.Unsubscribe? && !subscribed)
      && (text == None <==> known(symbol) && (subscribed <==> kind.Unsubscribe?))
  {
    AlwaysConsistent(known, log);
    assert "Not eligible for Price Feed."[0] == 'N' && "Symbol not subscribed yet."[7] == 'n';
    assert "Symbol already subscribed."[0] == 'S' && "Symbol already subscribed."[7] == 'a';
  }

  /** What an accepted request does to a symbol: subscribed under its id, taken out, or nothing at all
      when it is not among the symbols; a snapshot does nothing to any. */
  ghost predicate Effect(before: Feed, after: Feed, r: Request, symbol: string) {
    && (r.kind.Subscribe? && symbol in r.symbols ==>
          symbol in after.sub && symbol in after.ids && after.ids[symbol] == r.id)
    && (r.kind.Unsubscribe? && symbol in r.symbols ==> symbol !in after.sub && symbol !in after.ids)
    && (r.kind.Snapshot? ==> after == before)
    && (symbol !in r.symbols ==>
          && (symbol in after.sub <==> symbol in before.sub) && (symbol in after.ids <==> symbol in before.ids)
          && (symbol in before.ids ==> after.ids[symbol] == before.ids[symbol]))
  }

  /** What one accepted entry does. */
  ghost predicate Took(before: Feed, after: Feed, e: Entry)
    requires e.Asked?
  {
    match e.kind
    case Snapshot => after == before
    case Subscribe => after == Feed(before.ids[e.symbol := e.id], before.sub[e.symbol := true])
    case Unsubscribe => after == Feed(before.ids - {e.symbol}, before.sub - {e.symbol})
  }

  lemma {:induction false} OneMoreEffect(before: Feed, mid: Feed, after: Feed, r: Request, symbol: string)
    requires r.symbols != [] && Effect(before, mid, r.(symbols := r.symbols[..|r.symbols| - 1]), symbol)
    requires Took(mid, after, Asked(r.kind, r.id, r.symbols[|r.symbols| - 1]))
    ensures Effect(before, after, r, symbol)
  {
    var n := |r.symbols| - 1;
    assert r.symbols == r.symbols[..n] + [r.symbols[n]];
  }

  lemma {:induction false} FirstsAreHandled(known: string -> bool, log: seq<Entry>, r: Request)
    requires r.symbols != [] && Handled(known, log, EntriesOf(r), |r.symbols|, None)
    ensures var n := |r.symbols| - 1; var r' := r.(symbols := r.symbols[..n]);
      && Handled(known, log, EntriesOf(r'), n, None)
      && Problem(known, After(known, log + EntriesOf(r')), EntriesOf(r)[n]).None?
      && log + EntriesOf(r') + [EntriesOf(r)[n]] == log + EntriesOf(r)
  {
    hide After, Problem;
    var n := |r.symbols| - 1;
    var r' := r.(symbols := r.symbols[..n]);
    assert EntriesOf(r') == EntriesOf(r)[..n];
    assert forall k :: 0 <= k <= n ==> EntriesOf(r')[..k] == EntriesOf(r)[..k];
  }

  /** After an accepted request every symbol it names gets ticks under its id, or none any more, and all
      other symbols are as before. */
  lemma {:induction false} AcceptedRequest(known: string -> bool, log: seq<Entry>, r: Request, symbol: string)
    requires Handled(known, log, EntriesOf(r), |r.symbols|, None)
    ensures Effect(After(known, log), After(known, log + EntriesOf(r)), r, symbol)
    decreases |r.symbols|
  {
    if r.symbols == [] {
      assert log + EntriesOf(r) == log;
    } else {
      hide After, Problem, Handled, Effect, Took;
      var n := |r.symbols| - 1;
      var r' := r.(symbols := r.symbols[..n]);
      FirstsAreHandled(known, log, r);
      AcceptedRequest(known, log, r', symbol);
      OneAccepted(known, log + EntriesOf(r'), EntriesOf(r)[n]);
      OneMoreEffect(After(known, log), After(known, log + EntriesOf(r')), After(known, log + EntriesOf(r)), r, symbol);
    }
  }

  lemma {:induction false} OneAccepted(known: string -> bool, log: seq<Entry>, e: Entry)
    requires e.Asked? && Problem(known, After(known, log), e).None?
    ensures Took(After(known, log), After(known, log + [e]), e)
  {
    AlwaysConsistent(known, log);
    assert (log + [e])[..|log|] == log;
  }
}
