/** The tables against the list of accepted rules, and the safety of copying. */
module CopierTheorems {
  import opened Basics
  import opened CopierRules

  // ---- the log of accepted rules ----

  /** The accepted rules, in the order in which they were loaded. */
  function Accepted(server: Server, rules: seq<Rule>): (log: seq<Rule>)
    decreases |rules|
  {
    if rules == [] then []
    else
      var n := |rules| - 1;
      Accepted(server, rules[..n]) + (if Accepts(server, rules[n]) then [rules[n]] else [])
  }

  lemma {:induction false} AcceptedAreAccepted(server: Server, rules: seq<Rule>, r: Rule)
    requires r in Accepted(server, rules)
    ensures r in rules && Accepts(server, r)
  {
    var n := |rules| - 1;
    if r in Accepted(server, rules[..n]) {
      AcceptedAreAccepted(server, rules[..n], r);
    }
  }

  /** The rules of one symbol mask. */
  function ForSymbol(log: seq<Rule>, symbol: string): (rs: seq<Rule>)
    decreases |log|
  {
    if log == [] then []
    else
      var n := |log| - 1;
      ForSymbol(log[..n], symbol) + (if log[n].symbol == symbol then [log[n]] else [])
  }

  lemma {:induction false} ForSymbolMembers(log: seq<Rule>, symbol: string, r: Rule)
    requires r in ForSymbol(log, symbol)
    ensures r in log && r.symbol == symbol
  {
    var n := |log| - 1;
    if r in ForSymbol(log[..n], symbol) {
      ForSymbolMembers(log[..n], symbol, r);
    }
  }

  /** The logins of one group mask. */
  function LoginsOf(log: seq<Rule>, group: string): (ls: seq<Login>)
    decreases |log|
  {
    if log == [] then []
    else
      var n := |log| - 1;
      LoginsOf(log[..n], group) + (if log[n].group == group then [log[n].login] else [])
  }

  function GroupNames(log: seq<Rule>): (names: seq<string>)
    ensures |names| == |log|
  {
    seq(|log|, i requires 0 <= i < |log| => log[i].group)
  }

  function SymbolNames(log: seq<Rule>): (names: seq<string>)
    ensures |names| == |log|
  {
    seq(|log|, i requires 0 <= i < |log| => log[i].symbol)
  }

  function Masks<T>(tables: seq<Table<T>>): (masks: seq<string>)
    ensures |masks| == |tables|
  {
    seq(|tables|, k requires 0 <= k < |tables| => tables[k].mask)
  }

  // ---- masks in the order of their first use ----

  predicate FirstAt(names: seq<string>, i: nat) {
    i < |names| && forall j :: 0 <= j < i ==> names[j] != names[i]
  }

  /** masks lists the different names, in the order in which they first occur; at[k] is the
      place where masks[k] first occurs. */
  ghost predicate FirstUses(masks: seq<string>, at: seq<nat>, names: seq<string>) {
    && |at| == |masks|
    && (forall k :: 0 <= k < |masks| ==> FirstAt(names, at[k]) && names[at[k]] == masks[k])
    && (forall j, k :: 0 <= j < k < |at| ==> at[j] < at[k])
    && (forall i :: 0 <= i < |names| ==> names[i] in masks)
  }

  ghost predicate InOrderOfUse(masks: seq<string>, names: seq<string>) {
    exists at: seq<nat> :: FirstUses(masks, at, names)
  }

  lemma {:induction false} OneMoreUse(masks: seq<string>, names: seq<string>, r: string)
    requires InOrderOfUse(masks, names)
    ensures InOrderOfUse(if r in masks then masks else masks + [r], names + [r])
  {
    var at: seq<nat> :| FirstUses(masks, at, names);
    var masks', at': seq<nat>, names' := masks, at, names + [r];
    if r !in masks {
      masks', at' := masks + [r], at + [|names|];
    }
    forall k | 0 <= k < |masks'| ensures FirstAt(names', at'[k]) && names'[at'[k]] == masks'[k] {
      if k < |masks| {
        assert FirstAt(names, at[k]);
      }
    }
    assert r in masks';
    assert FirstUses(masks', at', names');
  }

  lemma {:induction false} MasksDiffer(masks: seq<string>, names: seq<string>, j: nat, k: nat)
    requires InOrderOfUse(masks, names) && j < k < |masks|
    ensures masks[j] != masks[k]
  {
    var at: seq<nat> :| FirstUses(masks, at, names);
    assert FirstAt(names, at[k]) && at[j] < at[k];
  }

  // ---- tables and log ----

  /** One entry per group mask, in order of first use, each with the logins of its mask. */
  ghost predicate GroupsOf(groups: seq<GroupTable>, log: seq<Rule>) {
    && InOrderOfUse(Masks(groups), GroupNames(log))
    && (forall k :: 0 <= k < |groups| ==> groups[k].entries == LoginsOf(log, groups[k].mask))
  }

  /** One table per symbol mask, in order of first use, each made of the rules of its mask. */
  ghost predicate TablesOf(tables: seq<SymbolTable>, log: seq<Rule>) {
    && InOrderOfUse(Masks(tables), SymbolNames(log))
    && (forall k :: 0 <= k < |tables| ==> GroupsOf(tables[k].entries, ForSymbol(log, tables[k].mask)))
  }

  lemma {:induction false} LogGrows(log: seq<Rule>, r: Rule, mask: string)
    ensures LoginsOf(log + [r], mask) == LoginsOf(log, mask) + (if r.group == mask then [r.login] else [])
    ensures ForSymbol(log + [r], mask) == ForSymbol(log, mask) + (if r.symbol == mask then [r] else [])
    ensures GroupNames(log + [r]) == GroupNames(log) + [r.group]
    ensures SymbolNames(log + [r]) == SymbolNames(log) + [r.symbol]
  {
    assert (log + [r])[..|log|] == log;
  }

  lemma {:induction false} NoLogins(log: seq<Rule>, group: string)
    requires forall i :: 0 <= i < |log| ==> log[i].group != group
    ensures LoginsOf(log, group) == []
  {
    if log == [] {
    } else {
      NoLogins(log[..|log| - 1], group);
    }
  }

  lemma {:induction false} NoRules(log: seq<Rule>, symbol: string)
    requires forall i :: 0 <= i < |log| ==> log[i].symbol != symbol
    ensures ForSymbol(log, symbol) == []
  {
    if log == [] {
    } else {
      NoRules(log[..|log| - 1], symbol);
    }
  }

  lemma {:induction false} UnlistedGroup(groups: seq<GroupTable>, log: seq<Rule>, group: string)
    requires GroupsOf(groups, log) && IndexOf(groups, group) == |groups|
    ensures group !in Masks(groups) && LoginsOf(log, group) == []
  {
    assert group !in Masks(groups);
    var at: seq<nat> :| FirstUses(Masks(groups), at, GroupNames(log));
    forall i | 0 <= i < |log| ensures log[i].group != group {
      assert GroupNames(log)[i] in Masks(groups);
    }
    NoLogins(log, group);
  }

  lemma {:induction false} MasksAfterInsert(groups: seq<GroupTable>, mask: string, login: Login)
    ensures Masks(InsertLogin(groups, mask, login))
         == if mask in Masks(groups) then Masks(groups) else Masks(groups) + [mask]
    ensures mask in Masks(groups) <==> IndexOf(groups, mask) < |groups|
  {
    var k := IndexOf(groups, mask);
    assert forall i :: 0 <= i < |groups| ==> Masks(groups)[i] == groups[i].mask;
  }

  lemma {:induction false} InsertKeepsGroups(groups: seq<GroupTable>, log: seq<Rule>, r: Rule)
    requires GroupsOf(groups, log)
    ensures GroupsOf(InsertLogin(groups, r.group, r.login), log + [r])
  {
    hide InOrderOfUse, LoginsOf;
    MasksAfterInsert(groups, r.group, r.login);
    OneMoreUse(Masks(groups), GroupNames(log), r.group);
    LogGrows(log, r, r.group);
    if IndexOf(groups, r.group) == |groups| {
      UnlistedGroup(groups, log, r.group);
    }
    forall k | 0 <= k < |groups| && k != IndexOf(groups, r.group)
      ensures groups[k].entries == LoginsOf(log + [r], groups[k].mask)
    {
      OtherGroupStays(groups, log, r, k);
    }
  }

  lemma {:induction false} OtherGroupStays(groups: seq<GroupTable>, log: seq<Rule>, r: Rule, k: nat)
    requires GroupsOf(groups, log) && k < |groups| && k != IndexOf(groups, r.group)
    ensures groups[k].entries == LoginsOf(log + [r], groups[k].mask)
  {
    hide InOrderOfUse;
    var masks, k0 := Masks(groups), IndexOf(groups, r.group);
    LogGrows(log, r, groups[k].mask);
    assert masks[k] == groups[k].mask;
    if k0 < |groups| {
      assert masks[k0] == r.group;
      MasksDiffer(masks, GroupNames(log), if k < k0 then k else k0, if k < k0 then k0 else k);
    }
    assert LoginsOf(log, masks[k]) + [] == LoginsOf(log, masks[k]);
  }

  lemma {:induction false} UnlistedSymbol(tables: seq<SymbolTable>, log: seq<Rule>, symbol: string)
    requires TablesOf(tables, log) && IndexOf(tables, symbol) == |tables|
    ensures symbol !in Masks(tables) && ForSymbol(log, symbol) == []
  {
    assert symbol !in Masks(tables);
    var at: seq<nat> :| FirstUses(Masks(tables), at, SymbolNames(log));
    forall i | 0 <= i < |log| ensures log[i].symbol != symbol {
      assert SymbolNames(log)[i] in Masks(tables);
    }
    NoRules(log, symbol);
  }

  lemma {:induction false} NoGroups()
    ensures GroupsOf([], []) && TablesOf([], [])
  {
    assert FirstUses(Masks<seq<Login>>([]), [], GroupNames([]));
    assert FirstUses(Masks<seq<GroupTable>>([]), [], SymbolNames([]));
  }

  lemma {:induction false} InsertKeepsTables(tables: seq<SymbolTable>, log: seq<Rule>, r: Rule)
    requires TablesOf(tables, log)
    ensures TablesOf(Insert(tables, r), log + [r])
  {
    var k0, tables' := IndexOf(tables, r.symbol), Insert(tables, r);
    var masks := Masks(tables);
    if k0 == |tables| {
      UnlistedSymbol(tables, log, r.symbol);
      assert Masks(tables') == masks + [r.symbol];
    } else {
      assert masks[k0] == r.symbol;
      assert Masks(tables') == masks;
    }
    OneMoreUse(masks, SymbolNames(log), r.symbol);
    LogGrows(log, r, r.symbol);
    hide GroupsOf, InsertLogin, InOrderOfUse;
    InsertIntoOwnTable(tables, log, r);
    forall k | 0 <= k < |tables| && k != k0 ensures GroupsOf(tables[k].entries, ForSymbol(log + [r], tables[k].mask)) {
      OtherTableStays(tables, log, r, k);
    }
  }

  lemma {:induction false} InsertIntoOwnTable(tables: seq<SymbolTable>, log: seq<Rule>, r: Rule)
    requires TablesOf(tables, log)
    ensures var k := IndexOf(tables, r.symbol);
      GroupsOf(Insert(tables, r)[k].entries, ForSymbol(log + [r], r.symbol))
  {
    hide GroupsOf, InsertLogin, InOrderOfUse;
    var k := IndexOf(tables, r.symbol);
    LogGrows(log, r, r.symbol);
    NoGroups();
    if k == |tables| {
      UnlistedSymbol(tables, log, r.symbol);
      InsertKeepsGroups([], [], r);
    } else {
      InsertKeepsGroups(tables[k].entries, ForSymbol(log, r.symbol), r);
    }
  }

  lemma {:induction false} OtherTableStays(tables: seq<SymbolTable>, log: seq<Rule>, r: Rule, k: nat)
    requires TablesOf(tables, log) && k < |tables| && k != IndexOf(tables, r.symbol)
    ensures GroupsOf(tables[k].entries, ForSymbol(log + [r], tables[k].mask))
  {
    hide GroupsOf, InOrderOfUse;
    var masks, k0 := Masks(tables), IndexOf(tables, r.symbol);
    LogGrows(log, r, tables[k].mask);
    assert masks[k] == tables[k].mask;
    if k0 < |tables| {
      assert masks[k0] == r.symbol;
      MasksDiffer(masks, SymbolNames(log), if k < k0 then k else k0, if k < k0 then k0 else k);
    }
    assert ForSymbol(log, masks[k]) + [] == ForSymbol(log, masks[k]);
  }

  /** After any parameter list the tables are those of the accepted rules; rejected rules leave
      no trace. */
  lemma {:induction false} LoadBuildsTablesOfAccepted(server: Server, rules: seq<Rule>)
    ensures TablesOf(Load(server, [], rules), Accepted(server, rules))
    decreases |rules|
  {
    hide TablesOf, Insert, Accepts;
    if rules == [] {
      NoGroups();
    } else {
      var n := |rules| - 1;
      LoadBuildsTablesOfAccepted(server, rules[..n]);
      var before, log := Load(server, [], rules[..n]), Accepted(server, rules[..n]);
      if Accepts(server, rules[n]) {
        InsertKeepsTables(before, log, rules[n]);
      } else {
        assert log + [] == log;
      }
    }
  }

  // ---- lookup ----

  /** Rule j is the earliest of the log with the given group mask whose login mask matches. */
  ghost predicate EarliestLogin(server: Server, log: seq<Rule>, mask: string, text: string, j: nat) {
    && j < |log| && log[j].group == mask && server.matches(log[j].login.mask, text)
    && forall h :: 0 <= h < j && log[h].group == mask ==> !server.matches(log[h].login.mask, text)
  }

  /** Rule i is the earliest of the log whose group mask matches. */
  ghost predicate EarliestGroup(server: Server, log: seq<Rule>, group: string, i: nat) {
    && i < |log| && server.matches(log[i].group, group)
    && forall h :: 0 <= h < i ==> !server.matches(log[h].group, group)
  }

  lemma {:induction false} SearchAppend(server: Server, xs: seq<Login>, x: Login, text: string)
    ensures SearchLogin(server, xs + [x], text)
      == if SearchLogin(server, xs, text).Some? then SearchLogin(server, xs, text)
         else if server.matches(x.mask, text) then Some(x.target) else None
  {
    if xs == [] {
    } else {
      assert (xs + [x])[1..] == xs[1..] + [x];
      SearchAppend(server, xs[1..], x, text);
    }
  }

  ghost predicate NoneMatches(server: Server, log: seq<Rule>, mask: string, text: string) {
    forall j :: 0 <= j < |log| && log[j].group == mask ==> !server.matches(log[j].login.mask, text)
  }

  lemma {:induction false} OneMoreForLogin(server: Server, before: seq<Rule>, last: Rule, mask: string, text: string,
      j: nat)
    requires j <= |before|
    ensures j < |before|
      ==> (EarliestLogin(server, before + [last], mask, text, j) <==> EarliestLogin(server, before, mask, text, j))
    ensures j == |before|
      ==> (EarliestLogin(server, before + [last], mask, text, j)
           <==> last.group == mask && server.matches(last.login.mask, text) && NoneMatches(server, before, mask, text))
  {
    var log := before + [last];
    assert forall h :: 0 <= h < |before| ==> log[h] == before[h];
  }

  /** What is found: the target of the earliest match, or nothing where nothing matches. */
  lemma {:induction false} SearchOutcome(server: Server, log: seq<Rule>, mask: string, text: string)
    ensures match SearchLogin(server, LoginsOf(log, mask), text)
      case None => NoneMatches(server, log, mask, text)
      case Some(t) => exists j: nat :: EarliestLogin(server, log, mask, text, j) && log[j].login.target == t
    decreases |log|
  {
    if log == [] {
    } else {
      var n := |log| - 1;
      var before, last := log[..n], log[n];
      SearchOutcome(server, before, mask, text);
      SearchAppend(server, LoginsOf(before, mask), last.login, text);
      assert log == before + [last] && LoginsOf(before, mask) + [] == LoginsOf(before, mask);
      hide EarliestLogin;
      if SearchLogin(server, LoginsOf(before, mask), text).Some? {
        var j: nat :| EarliestLogin(server, before, mask, text, j)
          && before[j].login.target == SearchLogin(server, LoginsOf(before, mask), text).value;
        OneMoreForLogin(server, before, last, mask, text, j);
      } else {
        OneMoreForLogin(server, before, last, mask, text, n);
      }
    }
  }

  lemma {:induction false} OneEarliestLogin(server: Server, log: seq<Rule>, mask: string, text: string, i: nat, j: nat)
    requires EarliestLogin(server, log, mask, text, i) && EarliestLogin(server, log, mask, text, j)
    ensures i == j && !NoneMatches(server, log, mask, text)
  {
  }

  lemma {:induction false} SearchFindsEarliest(server: Server, log: seq<Rule>, mask: string, text: string, t: Long)
    ensures SearchLogin(server, LoginsOf(log, mask), text) == Some(t)
       <==> exists j: nat :: EarliestLogin(server, log, mask, text, j) && log[j].login.target == t
    ensures SearchLogin(server, LoginsOf(log, mask), text).None? ==> NoneMatches(server, log, mask, text)
  {
    SearchOutcome(server, log, mask, text);
    hide SearchLogin, LoginsOf, NoneMatches;
    if j: nat :| EarliestLogin(server, log, mask, text, j) && log[j].login.target == t {
      OneEarliestLogin(server, log, mask, text, j, j);
      var i: nat :| EarliestLogin(server, log, mask, text, i)
        && log[i].login.target == SearchLogin(server, LoginsOf(log, mask), text).value;
      OneEarliestLogin(server, log, mask, text, i, j);
    }
  }

  lemma {:induction false} FirstMatchDecides(server: Server, groups: seq<GroupTable>, group: string, login: Long,
      k: nat)
    requires k < |groups| && server.matches(groups[k].mask, group)
    requires forall j :: 0 <= j < k ==> !server.matches(groups[j].mask, group)
    ensures SearchGroup(server, groups, group, login)
         == SearchLogin(server, groups[k].entries, server.text(login))
    decreases k
  {
    if k == 0 {
    } else {
      FirstMatchDecides(server, groups[1..], group, login, k - 1);
    }
  }

  lemma {:induction false} NoMatchNoResult(server: Server, groups: seq<GroupTable>, group: string, login: Long)
    requires forall j :: 0 <= j < |groups| ==> !server.matches(groups[j].mask, group)
    ensures SearchGroup(server, groups, group, login) == None
  {
    if groups == [] {
    } else {
      NoMatchNoResult(server, groups[1..], group, login);
    }
  }

  /** The entry that decides belongs to the earliest matching rule of the log. */
  lemma {:induction false} DecidingEntry(server: Server, groups: seq<GroupTable>, log: seq<Rule>, group: string, i: nat)
    returns (k: nat)
    requires GroupsOf(groups, log) && EarliestGroup(server, log, group, i)
    ensures k < |groups| && groups[k].mask == log[i].group
    ensures forall j :: 0 <= j < k ==> !server.matches(groups[j].mask, group)
  {
    var masks, names := Masks(groups), GroupNames(log);
    var at: seq<nat> :| FirstUses(masks, at, names);
    assert names[i] in masks;
    k :| 0 <= k < |masks| && masks[k] == names[i];
    assert at[k] <= i by {
      assert FirstAt(names, at[k]) && names[at[k]] == names[i];
    }
    forall j | 0 <= j < k ensures !server.matches(groups[j].mask, group) {
      assert at[j] < at[k] && names[at[j]] == masks[j] == groups[j].mask;
      assert log[at[j]].group == groups[j].mask;
    }
  }

  lemma {:induction false} SomeEarliest(server: Server, log: seq<Rule>, group: string, n: nat) returns (i: nat)
    requires n < |log| && server.matches(log[n].group, group)
    ensures EarliestGroup(server, log, group, i)
  {
    if h: nat :| h < n && server.matches(log[h].group, group) {
      i := SomeEarliest(server, log, group, h);
    } else {
      i := n;
    }
  }

  /** Table lookup against the log: the target is that of the earliest matching login among the
      rules that share the group mask of the earliest rule with a matching group; when that
      mask has no matching login there is no result, whatever later groups hold. */
  lemma {:induction false} LookupIsFlat(server: Server, groups: seq<GroupTable>, log: seq<Rule>, group: string,
      login: Long, t: Long)
    requires GroupsOf(groups, log)
    ensures SearchGroup(server, groups, group, login) == Some(t)
       <==> exists i: nat, j: nat :: EarliestGroup(server, log, group, i)
                           && EarliestLogin(server, log, log[i].group, server.text(login), j)
                           && log[j].login.target == t
  {
    if n: nat :| n < |log| && server.matches(log[n].group, group) {
      var i := SomeEarliest(server, log, group, n);
      var k := DecidingEntry(server, groups, log, group, i);
      FirstMatchDecides(server, groups, group, login, k);
      SearchFindsEarliest(server, log, log[i].group, server.text(login), t);
      assert forall i': nat :: EarliestGroup(server, log, group, i') ==> i' == i;
    } else {
      var at: seq<nat> :| FirstUses(Masks(groups), at, GroupNames(log));
      forall k | 0 <= k < |groups| ensures !server.matches(groups[k].mask, group) {
        assert GroupNames(log)[at[k]] == Masks(groups)[k];
        assert log[at[k]].group == groups[k].mask;
      }
      NoMatchNoResult(server, groups, group, login);
    }
  }

  // ---- safety ----

  lemma {:induction false} CopiesCome(server: Server, tables: seq<SymbolTable>, deal: Deal, x: UInt64)
    returns (k: nat, t: Long)
    requires x in Copies(server, tables, deal)
    ensures k < |tables| && server.matches(tables[k].mask, deal.symbol) && x == ToUInt64(t)
    ensures SearchGroup(server, tables[k].entries, server.groupOf(deal.login), ToLong(deal.login)) == Some(t)
    decreases |tables|
  {
    var n := |tables| - 1;
    if x in CopyFrom(server, tables[n], deal) {
      k, t := n, SearchGroup(server, tables[n].entries, server.groupOf(deal.login), ToLong(deal.login)).value;
    } else {
      k, t := CopiesCome(server, tables[..n], deal, x);
    }
  }

  /** A rule that is chosen for an account that it targets was not acceptable. */
  lemma {:induction false} ChosenForOwnTarget(server: Server, r: Rule, login: UInt64)
    requires login == ToUInt64(r.login.target)
    requires server.matches(r.group, server.groupOf(login))
    requires server.matches(r.login.mask, server.text(ToLong(login)))
    ensures !Accepts(server, r)
  {
    LongRoundTrip(r.login.target);
  }

  lemma {:induction false} NoSelfTarget(server: Server, groups: seq<GroupTable>, rs: seq<Rule>, login: UInt64, t: Long)
    requires GroupsOf(groups, rs) && forall r :: r in rs ==> Accepts(server, r)
    requires SearchGroup(server, groups, server.groupOf(login), ToLong(login)) == Some(t)
    ensures ToUInt64(t) != login
  {
    hide GroupsOf, SearchGroup;
    LookupIsFlat(server, groups, rs, server.groupOf(login), ToLong(login), t);
    var i: nat, j: nat :| EarliestGroup(server, rs, server.groupOf(login), i)
                && EarliestLogin(server, rs, rs[i].group, server.text(ToLong(login)), j)
                && rs[j].login.target == t;
    if ToUInt64(t) == login {
      ChosenForOwnTarget(server, rs[j], login);
    }
  }

  /** Whatever parameters were loaded, no deal is copied to the account that made it. */
  lemma {:induction false} NoSelfCopy(server: Server, rules: seq<Rule>, deal: Deal)
    ensures deal.login !in Copies(server, Load(server, [], rules), deal)
  {
    hide Load, Accepts, GroupsOf, SearchGroup, InOrderOfUse;
    var tables, log := Load(server, [], rules), Accepted(server, rules);
    LoadBuildsTablesOfAccepted(server, rules);
    if deal.login in Copies(server, tables, deal) {
      hide Copies, Accepted;
      var k, t := CopiesCome(server, tables, deal, deal.login);
      var rs := ForSymbol(log, tables[k].mask);
      forall r | r in rs ensures Accepts(server, r) {
        ForSymbolMembers(log, tables[k].mask, r);
        AcceptedAreAccepted(server, rules, r);
      }
      NoSelfTarget(server, tables[k].entries, rs, deal.login, t);
    }
  }

  // ---- who gets a copy ----

  /** t is the target that a list of rules gives a login of a group: that of the earliest matching
      login among the rules that share the group mask of the earliest rule with a matching group. */
  ghost predicate Chosen(server: Server, rs: seq<Rule>, group: string, login: Long, t: Long) {
    exists i: nat, j: nat :: EarliestGroup(server, rs, group, i)
                   && EarliestLogin(server, rs, rs[i].group, server.text(login), j)
                   && rs[j].login.target == t
  }

  /** The symbol mask of some accepted rule matches the deal, and the accepted rules with that mask
      give the deal's login the target t. */
  ghost predicate CopiesUnder(server: Server, log: seq<Rule>, deal: Deal, symbol: string, t: Long) {
    && symbol in SymbolNames(log) && server.matches(symbol, deal.symbol)
    && Chosen(server, ForSymbol(log, symbol), server.groupOf(deal.login), ToLong(deal.login), t)
  }

  lemma {:induction false} TableOf(tables: seq<SymbolTable>, log: seq<Rule>, symbol: string) returns (k: nat)
    requires TablesOf(tables, log) && symbol in SymbolNames(log)
    ensures k < |tables| && tables[k].mask == symbol
  {
    var at: seq<nat> :| FirstUses(Masks(tables), at, SymbolNames(log));
    var i :| 0 <= i < |log| && SymbolNames(log)[i] == symbol;
    assert symbol in Masks(tables);
    k :| 0 <= k < |tables| && Masks(tables)[k] == symbol;
  }

  lemma {:induction false} MaskIsUsed(tables: seq<SymbolTable>, log: seq<Rule>, k: nat)
    requires TablesOf(tables, log) && k < |tables|
    ensures tables[k].mask in SymbolNames(log)
  {
    var at: seq<nat> :| FirstUses(Masks(tables), at, SymbolNames(log));
    assert FirstAt(SymbolNames(log), at[k]) && SymbolNames(log)[at[k]] == Masks(tables)[k];
  }

  // ---- which copies, how often, and in which order ----

  /** The accepted rules with that symbol mask give the deal a copy to account x. */
  ghost predicate GivesCopy(server: Server, log: seq<Rule>, deal: Deal, symbol: string, x: UInt64) {
    exists t :: CopiesUnder(server, log, deal, symbol, t) && ToUInt64(t) == x
  }

  /** What the table of a mask yields is what the rules of that mask give. */
  lemma {:induction false} TableGives(server: Server, tables: seq<SymbolTable>, log: seq<Rule>, deal: Deal, k: nat)
    requires TablesOf(tables, log) && k < |tables|
    ensures |CopyFrom(server, tables[k], deal)| <= 1
    ensures forall x :: GivesCopy(server, log, deal, tables[k].mask, x) <==> x in CopyFrom(server, tables[k], deal)
  {
    hide GroupsOf, SearchGroup, InOrderOfUse, ForSymbol, Chosen;
    var group, login, rs := server.groupOf(deal.login), ToLong(deal.login), ForSymbol(log, tables[k].mask);
    MaskIsUsed(tables, log, k);
    forall t
      ensures SearchGroup(server, tables[k].entries, group, login) == Some(t) <==> Chosen(server, rs, group, login, t)
    {
      ChosenIsFound(server, tables[k].entries, rs, group, login, t);
    }
    forall x ensures GivesCopy(server, log, deal, tables[k].mask, x) <==> x in CopyFrom(server, tables[k], deal) {
      if x in CopyFrom(server, tables[k], deal) {
        var t := SearchGroup(server, tables[k].entries, group, login).value;
        assert CopiesUnder(server, log, deal, tables[k].mask, t);
      }
    }
  }

  lemma {:induction false} ChosenIsFound(server: Server, groups: seq<GroupTable>, rs: seq<Rule>, group: string,
      login: Long, t: Long)
    requires GroupsOf(groups, rs)
    ensures SearchGroup(server, groups, group, login) == Some(t) <==> Chosen(server, rs, group, login, t)
  {
    hide GroupsOf, SearchGroup;
    LookupIsFlat(server, groups, rs, group, login, t);
  }

  /** symbols[i] is the mask that gives copy number i, and first used by rule number uses[i]; later
      copies come from masks first used later, and every mask that gives a copy is there. */
  ghost predicate CopiesFrom(server: Server, log: seq<Rule>, deal: Deal, targets: seq<UInt64>, symbols: seq<string>,
                             uses: seq<nat>)
  {
    && |symbols| == |uses| == |targets|
    && (forall i :: 0 <= i < |targets| ==>
          && FirstAt(SymbolNames(log), uses[i]) && SymbolNames(log)[uses[i]] == symbols[i]
          && GivesCopy(server, log, deal, symbols[i], targets[i]))
    && (forall i, j :: 0 <= i < j < |targets| ==> uses[i] < uses[j])
  }

  /** Of the first n tables. */
  lemma {:induction false} CopiesOfTables(server: Server, tables: seq<SymbolTable>, log: seq<Rule>, deal: Deal,
      at: seq<nat>, n: nat) returns (symbols: seq<string>, uses: seq<nat>)
    requires TablesOf(tables, log) && n <= |tables| && !deal.reason.OtherReason?
    requires FirstUses(Masks(tables), at, SymbolNames(log))
    ensures CopiesFrom(server, log, deal, Copies(server, tables[..n], deal), symbols, uses)
    ensures forall i :: 0 <= i < |uses| ==> exists k :: 0 <= k < n && uses[i] == at[k]
    ensures forall k, x :: 0 <= k < n && GivesCopy(server, log, deal, tables[k].mask, x) ==> tables[k].mask in symbols
    decreases n
  {
    hide TablesOf, GivesCopy, CopyFrom;
    if n == 0 {
      symbols, uses := [], [];
    } else {
      var k := n - 1;
      symbols, uses := CopiesOfTables(server, tables, log, deal, at, k);
      TableGives(server, tables, log, deal, k);
      assert tables[..n][..k] == tables[..k] && Masks(tables)[k] == tables[k].mask;
      var more := CopyFrom(server, tables[k], deal);
      if more == [] {
        assert Copies(server, tables[..n], deal) == Copies(server, tables[..k], deal) + [];
      } else {
        assert more == [more[0]] && more[0] in more;
        symbols, uses := symbols + [tables[k].mask], uses + [at[k]];
      }
    }
  }

  /** The copies of a deal as a list: one for each symbol mask that gives one, in the order in which
      the masks were first used by an accepted rule, and no others. */
  lemma {:induction false} CopiesAre(server: Server, rules: seq<Rule>, deal: Deal)
    returns (symbols: seq<string>, uses: seq<nat>)
    requires !deal.reason.OtherReason?
    ensures CopiesFrom(server, Accepted(server, rules), deal, Copies(server, Load(server, [], rules), deal),
                       symbols, uses)
    ensures forall symbol, x :: GivesCopy(server, Accepted(server, rules), deal, symbol, x) ==> symbol in symbols
  {
    var tables, log := Load(server, [], rules), Accepted(server, rules);
    LoadBuildsTablesOfAccepted(server, rules);
    hide Load, Accepted, GroupsOf, ForSymbol, Chosen, CopiesFrom;
    var at: seq<nat> :| FirstUses(Masks(tables), at, SymbolNames(log));
    symbols, uses := CopiesOfTables(server, tables, log, deal, at, |tables|);
    assert tables[..|tables|] == tables;
    forall symbol, x | GivesCopy(server, log, deal, symbol, x) ensures symbol in symbols {
      var k := TableOf(tables, log, symbol);
    }
  }

  /** The symbol masks among the accepted rules that give the deal a copy to x. */
  ghost function Givers(server: Server, log: seq<Rule>, deal: Deal, x: UInt64): (symbols: set<string>) {
    set symbol | symbol in SymbolNames(log) && GivesCopy(server, log, deal, symbol, x)
  }

  lemma {:induction false} OneTarget(server: Server, log: seq<Rule>, deal: Deal, symbol: string, x: UInt64, y: UInt64)
    requires GivesCopy(server, log, deal, symbol, x) && GivesCopy(server, log, deal, symbol, y)
    ensures x == y
  {
  }

  /** Counting by different names: as many of them go with x as x occurs. */
  lemma {:induction false} CountTargets(targets: seq<UInt64>, symbols: seq<string>, x: UInt64)
    returns (givers: set<string>)
    requires |symbols| == |targets| && forall i, j :: 0 <= i < j < |symbols| ==> symbols[i] != symbols[j]
    ensures multiset(targets)[x] == |givers|
    ensures forall symbol ::
      symbol in givers <==> exists i :: 0 <= i < |symbols| && symbols[i] == symbol && targets[i] == x
    decreases |targets|
  {
    if targets == [] {
      givers := {};
    } else {
      var n := |targets| - 1;
      givers := CountTargets(targets[..n], symbols[..n], x);
      assert targets == targets[..n] + [targets[n]];
      if targets[n] == x {
        assert symbols[n] !in givers;
        givers := givers + {symbols[n]};
      }
    }
  }

  lemma {:induction false} SymbolsDiffer(server: Server, log: seq<Rule>, deal: Deal, targets: seq<UInt64>,
      symbols: seq<string>, uses: seq<nat>)
    requires CopiesFrom(server, log, deal, targets, symbols, uses)
    ensures forall i, j :: 0 <= i < j < |symbols| ==> symbols[i] != symbols[j]
  {
    hide GivesCopy;
    forall i, j | 0 <= i < j < |symbols| ensures symbols[i] != symbols[j] {
      assert FirstAt(SymbolNames(log), uses[j]) && uses[i] < uses[j] && SymbolNames(log)[uses[i]] == symbols[i];
    }
  }

  lemma {:induction false} GiverIff(server: Server, log: seq<Rule>, deal: Deal, targets: seq<UInt64>,
      symbols: seq<string>, uses: seq<nat>, symbol: string, x: UInt64)
    requires CopiesFrom(server, log, deal, targets, symbols, uses)
    requires forall s, y :: GivesCopy(server, log, deal, s, y) ==> s in symbols
    ensures symbol in Givers(server, log, deal, x)
       <==> exists i :: 0 <= i < |symbols| && symbols[i] == symbol && targets[i] == x
  {
    hide GivesCopy;
    if symbol in Givers(server, log, deal, x) {
      var i :| 0 <= i < |symbols| && symbols[i] == symbol;
      OneTarget(server, log, deal, symbol, x, targets[i]);
    }
    if i :| 0 <= i < |symbols| && symbols[i] == symbol && targets[i] == x {
      assert FirstAt(SymbolNames(log), uses[i]);
    }
  }

  /** How often a deal is copied to an account: once for each symbol mask that gives it, never for
      another reason. */
  lemma {:induction false} CopyCount(server: Server, rules: seq<Rule>, deal: Deal, x: UInt64)
    ensures multiset(Copies(server, Load(server, [], rules), deal))[x]
      == if deal.reason.OtherReason? then 0 else |Givers(server, Accepted(server, rules), deal, x)|
  {
    if !deal.reason.OtherReason? {
      hide Load, Accepted, Copies, GivesCopy;
      var log, targets := Accepted(server, rules), Copies(server, Load(server, [], rules), deal);
      var symbols, uses := CopiesAre(server, rules, deal);
      SymbolsDiffer(server, log, deal, targets, symbols, uses);
      var givers := CountTargets(targets, symbols, x);
      forall symbol ensures symbol in givers <==> symbol in Givers(server, log, deal, x) {
        GiverIff(server, log, deal, targets, symbols, uses, symbol, x);
      }
      assert givers == Givers(server, log, deal, x);
    }
  }

  /** The whole copier in terms of its rules: a deal is copied to an account if and only if its
      reason is one of the seven and some symbol mask among the accepted rules matches it and
      chooses that account. */
  lemma {:induction false} CopiedIff(server: Server, rules: seq<Rule>, deal: Deal, x: UInt64)
    ensures x in Copies(server, Load(server, [], rules), deal)
       <==> !deal.reason.OtherReason?
            && exists symbol, t :: CopiesUnder(server, Accepted(server, rules), deal, symbol, t) && ToUInt64(t) == x
  {
    var log, targets := Accepted(server, rules), Copies(server, Load(server, [], rules), deal);
    if !deal.reason.OtherReason? {
      hide Load, Accepted, Copies, CopiesUnder;
      var symbols, uses := CopiesAre(server, rules, deal);
      if x in targets {
        var i :| 0 <= i < |targets| && targets[i] == x;
        assert GivesCopy(server, log, deal, symbols[i], x);
      }
      forall symbol, t | CopiesUnder(server, log, deal, symbol, t) && ToUInt64(t) == x ensures x in targets {
        assert GivesCopy(server, log, deal, symbol, x);
        var i :| 0 <= i < |symbols| && symbols[i] == symbol;
        OneTarget(server, log, deal, symbol, x, targets[i]);
      }
    }
  }
}
