/** The trade copier's objects: nested lists of configurations with a hash index on each
    level, filled from the plugin's parameters and searched for every deal. */
module Copier {
  import opened Basics
  import opened CopierRules
  import opened CopierTheorems

  class GroupConfig {
    const groupmask: string
    var loginconfig: seq<Login>
    ghost const owner: SymbolConfig  // whose list holds the only pointer to this object

    constructor (groupmask: string, ghost owner: SymbolConfig)
      ensures this.groupmask == groupmask && this.owner == owner && loginconfig == []
    {
      this.groupmask, this.owner := groupmask, owner;
      this.loginconfig := [];
    }

    method InsertGroupConfig(loginmask: string, targetlogin: Long)
      modifies this
      ensures loginconfig == old(loginconfig) + [Login(loginmask, targetlogin)]
    {
      loginconfig := loginconfig + [Login(loginmask, targetlogin)];
    }

    ghost function View(): (table: GroupTable)
      reads this
    {
      Table(groupmask, loginconfig)
    }

    method SearchLogin(server: Server, login: string) returns (r: Option<Long>)
      ensures r == CopierRules.SearchLogin(server, loginconfig, login)
    {
      assert loginconfig[0..] == loginconfig;
      for i := 0 to |loginconfig|
        invariant CopierRules.SearchLogin(server, loginconfig, login)
               == CopierRules.SearchLogin(server, loginconfig[i..], login)
      {
        if server.matches(loginconfig[i].mask, login) {
          return Some(loginconfig[i].target);
        }
      }
      r := None;
    }
  }

  // ---- one symbol mask ----

  /** The index leads from each mask to the place of its entry, and covers every entry. */
  ghost predicate Indexed<T>(tables: seq<Table<T>>, index: map<string, nat>) {
    && (forall k :: 0 <= k < |tables| ==> tables[k].mask in index && index[tables[k].mask] == k)
    && (forall mask :: mask in index ==> index[mask] < |tables| && tables[index[mask]].mask == mask)
  }

  /** Then the index finds what a search of the list would find, at the only place there is. */
  lemma {:induction false} IndexFinds<T>(tables: seq<Table<T>>, index: map<string, nat>, mask: string)
    requires Indexed(tables, index)
    ensures mask in index <==> IndexOf(tables, mask) < |tables|
    ensures mask in index ==> index[mask] == IndexOf(tables, mask)
    ensures forall k :: 0 <= k < |tables| && tables[k].mask == mask ==> mask in index && index[mask] == k
  {
    var k := IndexOf(tables, mask);
    if mask in index {
      assert tables[index[mask]].mask == mask;
    }
    if k < |tables| {
      assert tables[k].mask == mask;
    }
  }

  /** Tables with the same masks, or one new mask at the end, fit the index, or the index with
      that mask. */
  lemma {:induction false} StaysIndexed<T>(tables: seq<Table<T>>, index: map<string, nat>, mask: string,
      tables': seq<Table<T>>)
    requires Indexed(tables, index)
    requires mask in index ==> |tables'| == |tables|
    requires mask !in index ==> |tables'| == |tables| + 1 && tables'[|tables|].mask == mask
    requires forall k :: 0 <= k < |tables| ==> tables'[k].mask == tables[k].mask
    ensures Indexed(tables', if mask in index then index else index[mask := |tables|])
  {
  }

  lemma {:induction false} Inserted(groups: seq<GroupTable>, mask: string, login: Login)
    ensures var k, groups' := IndexOf(groups, mask), InsertLogin(groups, mask, login);
      && |groups'| == (if k < |groups| then |groups| else |groups| + 1)
      && groups'[k] == Table(mask, if k < |groups| then groups[k].entries + [login] else [login])
      && forall j :: 0 <= j < |groups| && j != k ==> groups'[j] == groups[j]
  {
  }

  class SymbolConfig {
    const symbolmask: string
    var groupconfig: seq<GroupConfig>
    var groupIndex: map<string, nat>
    ghost var groups: seq<GroupTable>

    /** groups shows the list entry by entry, and the index fits it. */
    ghost predicate Valid()
      reads this, groupconfig
    {
      && |groups| == |groupconfig|
      && (forall k :: 0 <= k < |groups| ==> groups[k] == groupconfig[k].View() && groupconfig[k].owner == this)
      && Indexed(groups, groupIndex)
    }

    constructor (symbolmask: string)
      ensures Valid() && this.symbolmask == symbolmask && groups == []
    {
      this.symbolmask := symbolmask;
      this.groupconfig, this.groupIndex, this.groups := [], map[], [];
    }

    /** The position is arbitrary when the mask was not found. */
    method FindGroupConfig(groupmask: string) returns (position: nat, found: bool)
      requires Valid()
      ensures found <==> IndexOf(groups, groupmask) < |groups|
      ensures found ==> position == IndexOf(groups, groupmask)
    {
      IndexFinds(groups, groupIndex, groupmask);
      found := groupmask in groupIndex;
      if found {
        position := groupIndex[groupmask];
      } else {
        position := *;
      }
    }

    method InsertSymbolConfig(server: Server, groupmask: string, loginmask: string, targetlogin: Long)
      returns (accepted: bool)
      requires Valid()
      modifies this, groupconfig
      ensures Valid()
      ensures accepted == Accepts(server, Rule(symbolmask, groupmask, Login(loginmask, targetlogin)))
      ensures groups == if accepted
        then InsertLogin(old(groups), groupmask, Login(loginmask, targetlogin))
        else old(groups)
      ensures forall g :: g in groupconfig ==> g in old(groupconfig) || fresh(g)
    {
      var userGroup := server.groupOf(ToUInt64(targetlogin));
      if server.matches(groupmask, userGroup) {
        if server.matches(loginmask, server.text(targetlogin)) {
          return false;
        }
      } else {
        if !server.matches(loginmask, server.text(targetlogin)) {
          return false;
        }
      }
      AddEntry(groupmask, loginmask, targetlogin);
      accepted := true;
    }

    /** The second half of insertSymbolConfig: a new entry for a new mask, one more login otherwise. */
    method AddEntry(groupmask: string, loginmask: string, targetlogin: Long)
      requires Valid()
      modifies this, groupconfig
      ensures Valid()
      ensures groups == InsertLogin(old(groups), groupmask, Login(loginmask, targetlogin))
      ensures forall g :: g in groupconfig ==> g in old(groupconfig) || fresh(g)
    {
      hide Indexed, InsertLogin, Valid;
      IndexPart(groupmask);
      Inserted(groups, groupmask, Login(loginmask, targetlogin));
      StaysIndexed(groups, groupIndex, groupmask, InsertLogin(groups, groupmask, Login(loginmask, targetlogin)));
      var position, found := FindGroupConfig(groupmask);
      if !found {
        NewEntry(groupmask, loginmask, targetlogin);
      } else {
        UpdateEntry(position, loginmask, targetlogin);
      }
    }

    lemma {:induction false} IndexPart(groupmask: string)
      requires Valid()
      ensures Indexed(groups, groupIndex) && (groupmask in groupIndex <==> IndexOf(groups, groupmask) < |groups|)
    {
      IndexFinds(groups, groupIndex, groupmask);
    }

    method NewEntry(groupmask: string, loginmask: string, targetlogin: Long)
      requires Valid() && IndexOf(groups, groupmask) == |groups|
      requires Indexed(InsertLogin(groups, groupmask, Login(loginmask, targetlogin)), groupIndex[groupmask := |groups|])
      modifies this
      ensures Valid() && groups == InsertLogin(old(groups), groupmask, Login(loginmask, targetlogin))
      ensures forall g :: g in groupconfig ==> g in old(groupconfig) || fresh(g)
    {
      hide Indexed;
      var place := |groupconfig|;
      var grConfig := new GroupConfig(groupmask, this);
      grConfig.InsertGroupConfig(loginmask, targetlogin);
      groupconfig := groupconfig + [grConfig];
      groupIndex := groupIndex[groupmask := place];
      groups := InsertLogin(groups, groupmask, Login(loginmask, targetlogin));
      assert [] + [Login(loginmask, targetlogin)] == [Login(loginmask, targetlogin)];
    }

    method UpdateEntry(position: nat, loginmask: string, targetlogin: Long)
      requires Valid() && position < |groups| && IndexOf(groups, groups[position].mask) == position
      requires Indexed(InsertLogin(groups, groups[position].mask, Login(loginmask, targetlogin)), groupIndex)
      modifies this`groups, groupconfig
      ensures Valid()
      ensures groups == InsertLogin(old(groups), old(groups)[position].mask, Login(loginmask, targetlogin))
    {
      IndexFinds(groups, groupIndex, groups[position].mask);
      hide Indexed;
      assert forall k :: 0 <= k < |groups| && k != position ==> groupconfig[k].groupmask != groups[position].mask;
      groupconfig[position].InsertGroupConfig(loginmask, targetlogin);
      groups := InsertLogin(groups, groups[position].mask, Login(loginmask, targetlogin));
    }

    method SearchGroupConfig(server: Server, groupname: string, login: Long) returns (r: Option<Long>)
      requires Valid()
      ensures r == SearchGroup(server, groups, groupname, login)
    {
      assert groups[0..] == groups;
      for i := 0 to |groupconfig|
        invariant SearchGroup(server, groups, groupname, login) == SearchGroup(server, groups[i..], groupname, login)
      {
        assert groups[i..][0] == groups[i] == groupconfig[i].View() && groups[i..][1..] == groups[i + 1..];
        if server.matches(groupconfig[i].groupmask, groupname) {
          var x := groupconfig[i].SearchLogin(server, server.text(login));
          if x.Some? {
            return Some(x.value);
          } else {
            return None;
          }
        }
      }
      r := None;
    }
  }

  // ---- the plugin ----

  /** A parameter of the plugin, its name and value already split at '|'. The target is an
      unsigned long, as std::stoul returns it. */
  datatype Param =
    | ManagerLogin(value: int)
    | CopyRule(symbol: string, group: string, login: string, target: nat)

  function ULongToLong(n: nat): (t: Long) { ToLong((n % 0x1_0000_0000) as UInt64) }

  /** It is the parameter's number, up to a multiple of 2 to the power of 32. */
  lemma {:induction false} TargetIsParameter(n: nat)
    ensures (ULongToLong(n) as int - n) % 0x1_0000_0000 == 0
  {
    var low := (n % 0x1_0000_0000) as UInt64;
    ConversionsKeepNumber(low, 0);
  }

  function RulesOf(params: seq<Param>): (rules: seq<Rule>)
    decreases |params|
  {
    if params == [] then []
    else
      var n := |params| - 1;
      RulesOf(params[..n]) +
      match params[n]
      case ManagerLogin(_) => []
      case CopyRule(symbol, group, login, target) => [Rule(symbol, group, Login(login, ULongToLong(target)))]
  }

  /** The manager account after the parameters: the last one given, else the one before. */
  function ManagerOf(params: seq<Param>, before: int): (manager: int)
    decreases |params|
  {
    if params == [] then before
    else if params[|params| - 1].ManagerLogin? then params[|params| - 1].value
    else ManagerOf(params[..|params| - 1], before)
  }

  /** That is the value of the last parameter that gives one. */
  lemma {:induction false} LastManagerCounts(params: seq<Param>, before: int, k: nat)
    requires k < |params| && params[k].ManagerLogin?
    requires forall j :: k < j < |params| ==> !params[j].ManagerLogin?
    ensures ManagerOf(params, before) == params[k].value
    decreases |params|
  {
    if k < |params| - 1 {
      LastManagerCounts(params[..|params| - 1], before, k);
    }
  }

  /** What one parameter by itself does: a deal is copied to the account it names if and only if the
      deal's symbol, group and login match its masks, and the account would not be copied to itself. */
  lemma {:induction false} OneParameter(server: Server, symbol: string, group: string, login: string, n: nat,
      deal: Deal, x: UInt64)
    requires !deal.reason.OtherReason?
    ensures var t := ULongToLong(n);
      x in Copies(server, Load(server, [], RulesOf([CopyRule(symbol, group, login, n)])), deal)
      <==> x == ToUInt64(t)
           && server.matches(symbol, deal.symbol) && server.matches(group, server.groupOf(deal.login))
           && server.matches(login, server.text(ToLong(deal.login)))
           && server.matches(group, server.groupOf(ToUInt64(t))) != server.matches(login, server.text(t))
  {
    hide Load, Accepts, ToLong, ToUInt64;
    var r := Rule(symbol, group, Login(login, ULongToLong(n)));
    var table := Table(symbol, [Table(group, [r.login])]);
    OneRuleOf(symbol, group, login, n);
    LoadOne(server, r);
    AcceptsExactlyOne(server, r);
    assert [table][..0] == [];
    assert Copies(server, [table], deal) == [] + CopyFrom(server, table, deal);
    CopyOfOne(server, symbol, group, r.login, deal);
    hide CopyFrom;
    assert Copies(server, [], deal) == [];
  }

  lemma {:induction false} CopyOfOne(server: Server, symbol: string, group: string, login: Login, deal: Deal)
    ensures CopyFrom(server, Table(symbol, [Table(group, [login])]), deal)
         == if server.matches(symbol, deal.symbol) && server.matches(group, server.groupOf(deal.login))
               && server.matches(login.mask, server.text(ToLong(deal.login)))
            then [ToUInt64(login.target)] else []
  {
    hide ToLong, ToUInt64;
    assert [Table(group, [login])][1..] == [] && [login][1..] == [];
    var name, number := server.groupOf(deal.login), ToLong(deal.login);
    assert SearchLogin(server, [login][1..], server.text(number)) == None;
    assert SearchGroup(server, [Table(group, [login])][1..], name, number) == None;
  }

  lemma {:induction false} OneRuleOf(symbol: string, group: string, login: string, n: nat)
    ensures RulesOf([CopyRule(symbol, group, login, n)]) == [Rule(symbol, group, Login(login, ULongToLong(n)))]
  {
    assert [CopyRule(symbol, group, login, n)][..0] == [];
  }

  lemma {:induction false} LoadOne(server: Server, r: Rule)
    ensures Load(server, [], [r])
         == if Accepts(server, r) then [Table(r.symbol, [Table(r.group, [r.login])])] else []
  {
    hide Accepts;
    assert [r][..0] == [];
    assert InsertLogin([], r.group, r.login) == [Table(r.group, [r.login])];
    assert Insert([], r) == [Table(r.symbol, [Table(r.group, [r.login])])];
  }

  /** A queued processDealRequest: who sends it, whose deal it copies, to which account. */
  datatype Request = Request(manager: int, deal: Deal, target: UInt64)

  function Requests(manager: int, deal: Deal, targets: seq<UInt64>): (rs: seq<Request>)
    ensures |rs| == |targets|
  {
    seq(|targets|, i requires 0 <= i < |targets| => Request(manager, deal, targets[i]))
  }

  lemma {:induction false} RequestsAppend(manager: int, deal: Deal, xs: seq<UInt64>, ys: seq<UInt64>)
    ensures Requests(manager, deal, xs + ys) == Requests(manager, deal, xs) + Requests(manager, deal, ys)
  {
  }

  // ---- the plugin's objects ----

  /** A configuration whose objects are not touched keeps its validity. */
  twostate lemma StaysValid(t: SymbolConfig)
    requires old(t.Valid()) && unchanged(t) && forall g :: g in t.groupconfig ==> unchanged(g)
    ensures t.Valid()
  {
    hide Indexed;
    forall i | 0 <= i < |t.groups| ensures t.groups[i] == t.groupconfig[i].View() {
      assert t.groupconfig[i] in t.groupconfig;
      assert t.groups[i] == old(t.groupconfig[i].View());
    }
  }

  lemma {:induction false} RequestsAreFor(manager: int, deal: Deal, targets: seq<UInt64>)
    ensures forall i :: 0 <= i < |targets| ==> var q := Requests(manager, deal, targets)[i];
      q.manager == manager && q.deal == deal && q.target == targets[i]
    ensures forall q :: q in Requests(manager, deal, targets) ==> q.deal == deal && q.target in targets
  {
    forall q | q in Requests(manager, deal, targets) ensures q.deal == deal && q.target in targets {
      var i :| 0 <= i < |targets| && Requests(manager, deal, targets)[i] == q;
    }
  }

  /** No request goes to the account whose deal it copies. */
  ghost predicate NoneToSelf(requests: seq<Request>) {
    forall q :: q in requests ==> q.target != q.deal.login
  }

  lemma {:induction false} NothingCopied(server: Server, tables: seq<SymbolTable>, manager: int, deal: Deal)
    requires tables == [] || deal.reason.OtherReason?
    ensures Requests(manager, deal, Copies(server, tables, deal)) == []
  {
  }

  lemma {:induction false} CopiesOfMore(server: Server, tables: seq<SymbolTable>, i: nat, deal: Deal)
    requires i < |tables| && !deal.reason.OtherReason?
    ensures Copies(server, tables[..i + 1], deal)
         == Copies(server, tables[..i], deal) + CopyFrom(server, tables[i], deal)
  {
    assert tables[..i + 1][..i] == tables[..i];
  }

  lemma {:induction false} NewRequestsNotToSelf(server: Server, rules: seq<Rule>, manager: int, deal: Deal,
      before: seq<Request>)
    requires NoneToSelf(before)
    ensures NoneToSelf(before + Requests(manager, deal, Copies(server, Load(server, [], rules), deal)))
  {
    hide Load, Copies, Requests;
    NoSelfCopy(server, rules, deal);
    RequestsAreFor(manager, deal, Copies(server, Load(server, [], rules), deal));
  }

  class PluginInstance {
    const server: Server
    var managerLogin: int
    var symbolconfig: seq<SymbolConfig>
    var symbolIndex: map<string, nat>
    var tasks: seq<Request>
    ghost var tables: seq<SymbolTable>
    ghost var Repr: set<object>
    ghost var loaded: seq<Rule>

    ghost predicate Listed()
      reads this`symbolconfig, this`tables, this`Repr
    {
      && this !in Repr
      && |tables| == |symbolconfig|
      && forall k :: 0 <= k < |tables| ==> tables[k].mask == symbolconfig[k].symbolmask
    }

    /** tables shows the configurations entry by entry. */
    ghost predicate Shown()
      requires Listed()
      reads this`symbolconfig, this`tables, this`Repr, Repr
    {
      && (forall k :: 0 <= k < |symbolconfig| ==>
            && symbolconfig[k] in Repr && (forall g :: g in symbolconfig[k].groupconfig ==> g in Repr)
            && symbolconfig[k].Valid() && tables[k].entries == symbolconfig[k].groups)
      && (forall j, k :: 0 <= j < |symbolconfig| && 0 <= k < |symbolconfig| && j != k ==>
            symbolconfig[j] != symbolconfig[k])
    }

    /** Moreover the index fits them, they hold the rules loaded so far, and no request queued so
        far goes back to the account that made the deal. */
    ghost predicate Valid()
      reads this`symbolconfig, this`symbolIndex, this`tables, this`Repr, this`loaded, this`tasks, Repr
    {
      Listed() && Shown() && Indexed(tables, symbolIndex) && tables == Load(server, [], loaded) && NoneToSelf(tasks)
    }

    constructor (server: Server)
      ensures Valid() && fresh(Repr) && this.server == server && loaded == [] && tasks == []
    {
      this.server := server;
      managerLogin, symbolconfig, symbolIndex, tasks := 0, [], map[], [];
      tables, Repr, loaded := [], {}, [];
    }

    /** No other configuration has a part of that at position k. */
    lemma {:induction false} NotInOther(k: nat)
      requires Listed() && Shown() && k < |symbolconfig|
      ensures forall j :: 0 <= j < |symbolconfig| && j != k ==>
        && symbolconfig[j] != symbolconfig[k]
        && forall g :: g in symbolconfig[j].groupconfig ==> g !in symbolconfig[k].groupconfig
    {
      hide Indexed;
      forall j, g | 0 <= j < |symbolconfig| && g in symbolconfig[j].groupconfig ensures g.owner == symbolconfig[j] {
        var i :| 0 <= i < |symbolconfig[j].groupconfig| && symbolconfig[j].groupconfig[i] == g;
        assert symbolconfig[j].groupconfig[i].owner == symbolconfig[j];
      }
    }

    /** Inserts a rule into the configuration at position k. */
    method UpdateTable(k: nat, r: Rule) returns (retValue: bool)
      requires Listed() && Shown() && k < |symbolconfig| && r.symbol == symbolconfig[k].symbolmask
      modifies this`tables, this`Repr, Repr
      ensures Listed() && Shown() && fresh(Repr - old(Repr))
      ensures retValue == Accepts(server, r)
      ensures tables == if retValue
        then old(tables)[k := Table(r.symbol, InsertLogin(old(tables)[k].entries, r.group, r.login))]
        else old(tables)
    {
      hide Accepts, InsertLogin, SymbolConfig.Valid;
      var s := symbolconfig[k];
      NotInOther(k);
      retValue := s.InsertSymbolConfig(server, r.group, r.login.mask, r.login.target);
      forall j | 0 <= j < |symbolconfig| && j != k ensures symbolconfig[j].Valid() {
        StaysValid(symbolconfig[j]);
      }
      Repr := Repr + (set g | g in s.groupconfig);
      tables := tables[k := Table(r.symbol, s.groups)];
      forall j | 0 <= j < |symbolconfig|
        ensures symbolconfig[j] in Repr && (forall g :: g in symbolconfig[j].groupconfig ==> g in Repr)
        ensures symbolconfig[j].Valid() && tables[j].entries == symbolconfig[j].groups
      {
      }
    }

    /** A configuration for a new symbol mask, kept only when its first rule is accepted. */
    method AddTable(r: Rule) returns (retValue: bool)
      requires Listed() && Shown()
      modifies this`symbolconfig, this`tables, this`Repr
      ensures Listed() && Shown() && fresh(Repr - old(Repr))
      ensures retValue == Accepts(server, r)
      ensures tables == if retValue
        then old(tables) + [Table(r.symbol, InsertLogin([], r.group, r.login))]
        else old(tables)
    {
      hide Accepts, InsertLogin, SymbolConfig.Valid;
      var symConfig := new SymbolConfig(r.symbol);
      retValue := symConfig.InsertSymbolConfig(server, r.group, r.login.mask, r.login.target);
      forall j | 0 <= j < |symbolconfig| ensures symbolconfig[j].Valid() {
        StaysValid(symbolconfig[j]);
      }
      if retValue {
        symbolconfig := symbolconfig + [symConfig];
        Repr := Repr + {symConfig} + (set g | g in symConfig.groupconfig);
        tables := tables + [Table(r.symbol, symConfig.groups)];
      }
    }

    /** One copy rule among the parameters. */
    method LoadRule(r: Rule)
      requires Valid()
      modifies this`symbolconfig, this`symbolIndex, this`tables, this`Repr, this`loaded, Repr
      ensures this !in Repr && Valid() && fresh(Repr - old(Repr))
      ensures loaded == old(loaded) + [r]
    {
      hide Indexed, Accepts, InsertLogin, Shown;
      IndexFinds(tables, symbolIndex, r.symbol);
      StaysIndexed(tables, symbolIndex, r.symbol, Insert(tables, r));
      assert (loaded + [r])[..|loaded|] == loaded;
      var retValue;
      if r.symbol in symbolIndex {
        retValue := UpdateTable(symbolIndex[r.symbol], r);
      } else {
        var index := |symbolconfig|;
        retValue := AddTable(r);
        if retValue {
          symbolIndex := symbolIndex[r.symbol := index];
        }
      }
      loaded := loaded + [r];
    }

    lemma {:induction false} NotInside()
      requires Valid()
      ensures this !in Repr
    {
    }

    method ParametersShow(params: seq<Param>)
      requires Valid()
      modifies this`managerLogin, this`symbolconfig, this`symbolIndex, this`tables, this`Repr, this`loaded, Repr
      ensures Valid() && fresh(Repr - old(Repr))
      ensures loaded == old(loaded) + RulesOf(params)
      ensures managerLogin == ManagerOf(params, old(managerLogin))
    {
      hide Valid;
      NotInside();
      for i := 0 to |params|
        invariant this !in Repr && Valid() && fresh(Repr - old(Repr))
        invariant loaded == old(loaded) + RulesOf(params[..i])
        invariant managerLogin == ManagerOf(params[..i], old(managerLogin))
      {
        assert params[..i + 1][..i] == params[..i];
        match params[i]
        case ManagerLogin(value) =>
          managerLogin := value;
        case CopyRule(symbol, group, login, target) =>
          LoadRule(Rule(symbol, group, Login(login, ULongToLong(target))));
      }
      assert params[..|params|] == params;
    }

    /** One round of the loop over the configurations. */
    method PushCopy(k: nat, deal: Deal)
      requires Listed() && Shown() && k < |symbolconfig|
      modifies this`tasks
      ensures tasks == old(tasks) + Requests(managerLogin, deal, CopyFrom(server, tables[k], deal))
      ensures |tasks| <= |old(tasks)| + 1
    {
      hide Indexed, SearchGroup;
      if server.matches(symbolconfig[k].symbolmask, deal.symbol) {
        var userGroup := server.groupOf(deal.login);
        var it1 := symbolconfig[k].SearchGroupConfig(server, userGroup, ToLong(deal.login));
        if it1.Some? {
          tasks := tasks + [Request(managerLogin, deal, ToUInt64(it1.value))];
        }
      }
    }

    /** Queues one request per symbol table that matches the deal and finds a target. */
    method OnDealPerform(deal: Deal)
      requires Valid()
      modifies this`tasks
      ensures Valid()
      ensures tasks == old(tasks) + Requests(managerLogin, deal, Copies(server, tables, deal))
    {
      hide Indexed, Load, Shown, Copies, CopyFrom, Requests, NoneToSelf;
      NewRequestsNotToSelf(server, loaded, managerLogin, deal, tasks);
      if deal.reason.OtherReason? {
        NothingCopied(server, tables, managerLogin, deal);
      } else {
        NothingCopied(server, [], managerLogin, deal);
        for i := 0 to |symbolconfig|
          invariant Listed() && Shown()
          invariant tasks == old(tasks) + Requests(managerLogin, deal, Copies(server, tables[..i], deal))
        {
          CopiesOfMore(server, tables, i, deal);
          RequestsAppend(managerLogin, deal, Copies(server, tables[..i], deal), CopyFrom(server, tables[i], deal));
          PushCopy(i, deal);
        }
        assert tables[..|tables|] == tables;
      }
    }
  }
}
