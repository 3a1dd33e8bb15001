/** The copy rules of the trade copier as values: which rules are accepted, what tables they
    build, and which account a deal is copied to. */
module CopierRules {
  import opened Basics

  /** MSVC `long` and UINT64 */
  newtype Long = x: int | -0x8000_0000 <= x < 0x8000_0000
  newtype UInt64 = x: int | 0 <= x < 0x1_0000_0000_0000_0000

  /** UINT64 to long: keeps the low 32 bits as a signed number. */
  function ToLong(x: UInt64): (t: Long) {
    var low := x as int % 0x1_0000_0000;
    (if low < 0x8000_0000 then low else low - 0x1_0000_0000) as Long
  }

  /** long to UINT64: sign extension. */
  function ToUInt64(t: Long): (x: UInt64) {
    if t < 0 then (t as int + 0x1_0000_0000_0000_0000) as UInt64 else t as UInt64
  }

  /** Both conversions keep the number, up to a multiple of the range of the narrower type. */
  lemma {:induction false} ConversionsKeepNumber(x: UInt64, t: Long)
    ensures (ToLong(x) as int - x as int) % 0x1_0000_0000 == 0
    ensures (ToUInt64(t) as int - t as int) % 0x1_0000_0000_0000_0000 == 0
  {
  }

  lemma {:induction false} LongRoundTrip(t: Long)
    ensures ToLong(ToUInt64(t)) == t
  {
  }

  /** What the server knows: CMTStr::CheckGroupMask(mask, value), the group of a user, and
      std::to_string of an account number. */
  datatype Server = Server(matches: (string, string) -> bool, groupOf: UInt64 -> string, text: Long -> string)

  datatype Login = Login(mask: string, target: Long)
  /** What stands under a mask: logins under a group mask, group tables under a symbol mask. */
  datatype Table<T> = Table(mask: string, entries: T)
  type GroupTable = Table<seq<Login>>
  type SymbolTable = Table<seq<GroupTable>>

  /** One parameter: for which symbols and which group of users, the logins whose deals are copied and
      the account that gets the copies. */
  datatype Rule = Rule(symbol: string, group: string, login: Login)

  /** The test that insertSymbolConfig starts with. */
  predicate Accepts(server: Server, r: Rule) {
    if server.matches(r.group, server.groupOf(ToUInt64(r.login.target)))
    then !server.matches(r.login.mask, server.text(r.login.target))
    else server.matches(r.login.mask, server.text(r.login.target))
  }

  /** A rule is accepted when exactly one of its group mask and its login mask matches its own target. */
  lemma {:induction false} AcceptsExactlyOne(server: Server, r: Rule)
    ensures var target := r.login.target;
      Accepts(server, r)
      <==> server.matches(r.group, server.groupOf(ToUInt64(target)))
           != server.matches(r.login.mask, server.text(target))
  {
  }

  // ---- building the tables ----

  function IndexOf<T>(tables: seq<Table<T>>, mask: string): (k: nat)
    ensures k <= |tables|
    ensures k < |tables| ==> tables[k].mask == mask
    ensures forall j :: 0 <= j < k ==> tables[j].mask != mask
  {
    if tables == [] then 0
    else if tables[0].mask == mask then 0
    else 1 + IndexOf(tables[1..], mask)
  }

  function InsertLogin(groups: seq<GroupTable>, mask: string, login: Login): (groups': seq<GroupTable>) {
    var k := IndexOf(groups, mask);
    if k == |groups| then groups + [Table(mask, [login])]
    else groups[k := groups[k].(entries := groups[k].entries + [login])]
  }

  function Insert(tables: seq<SymbolTable>, r: Rule): (tables': seq<SymbolTable>) {
    var k := IndexOf(tables, r.symbol);
    if k == |tables| then tables + [Table(r.symbol, InsertLogin([], r.group, r.login))]
    else tables[k := tables[k].(entries := InsertLogin(tables[k].entries, r.group, r.login))]
  }

  function Load(server: Server, tables: seq<SymbolTable>, rules: seq<Rule>): (tables': seq<SymbolTable>)
    decreases |rules|
  {
    if rules == [] then tables
    else
      var n := |rules| - 1;
      var before := Load(server, tables, rules[..n]);
      if Accepts(server, rules[n]) then Insert(before, rules[n]) else before
  }

  // ---- looking up ----

  function SearchLogin(server: Server, logins: seq<Login>, text: string): (t: Option<Long>) {
    if logins == [] then None
    else if server.matches(logins[0].mask, text) then Some(logins[0].target)
    else SearchLogin(server, logins[1..], text)
  }

  /** The first group that matches decides, found or not. */
  function SearchGroup(server: Server, groups: seq<GroupTable>, group: string, login: Long): (t: Option<Long>) {
    if groups == [] then None
    else if server.matches(groups[0].mask, group) then SearchLogin(server, groups[0].entries, server.text(login))
    else SearchGroup(server, groups[1..], group, login)
  }

  datatype Reason = Client | Expert | Dealer | StopLoss | TakeProfit | Gateway | Mobile | OtherReason

  datatype Deal = Deal(login: UInt64, symbol: string, reason: Reason)

  /** The targets of the copy requests that one deal queues, one per matching symbol table. */
  function Copies(server: Server, tables: seq<SymbolTable>, deal: Deal): (targets: seq<UInt64>)
    decreases |tables|
  {
    if tables == [] || deal.reason.OtherReason? then []
    else
      var n := |tables| - 1;
      Copies(server, tables[..n], deal) + CopyFrom(server, tables[n], deal)
  }

  function CopyFrom(server: Server, table: SymbolTable, deal: Deal): (targets: seq<UInt64>) {
    if !server.matches(table.mask, deal.symbol) then []
    else match SearchGroup(server, table.entries, server.groupOf(deal.login), ToLong(deal.login))
         case None => []
         case Some(t) => [ToUInt64(t)]
  }
}
