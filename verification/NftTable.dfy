/** The nftables transaction the helper emits, and an interpreter for it
    (agent/nethelper/network.go:50-142).

    The interpreter gives `flush table` the meaning the helper's accounting relies on: the
    table is left with no chain, rule, counter or quota. A transaction is atomic: one
    command that fails makes the whole of it fail. */
module NftTable {
  import opened Base
  import opened PolicyModel
  import opened PolicyOrder

  datatype L4 = TCP | UDP

  datatype Rule = Rule(
    interfaceName: string,
    l4: L4,
    low: int,
    high: int,
    counter: string,
    dropOver: Option<string>)

  datatype Table = Table(chains: map<string, seq<Rule>>, counters: map<string, nat>, quotas: map<string, int>)

  datatype Command =
    | DeleteTable
    | FlushTable
    | AddTable
    | AddChain(chain: string)
    | AddCounter(name: string)
    | AddQuota(name: string, over: int)
    | AddRule(chain: string, rule: Rule)

  const EMPTY := Table(map[], map[], map[])

  // ---------------------------------------------------------------- interpreter

  function Exec(t: Option<Table>, c: Command): Option<Option<Table>> {
    match c
    case DeleteTable => if t.None? then None else Some(None)
    case FlushTable => if t.None? then None else Some(Some(EMPTY))
    case AddTable => if t.None? then Some(Some(EMPTY)) else Some(t)
    case AddChain(chain) =>
      if t.None? then None
      else if chain in t.value.chains then Some(t)
      else Some(Some(t.value.(chains := t.value.chains[chain := []])))
    case AddCounter(name) =>
      if t.None? then None
      else if name in t.value.counters then Some(t)
      else Some(Some(t.value.(counters := t.value.counters[name := 0])))
    case AddQuota(name, over) =>
      if t.None? then None
      else if name in t.value.quotas then Some(t)
      else Some(Some(t.value.(quotas := t.value.quotas[name := over])))
    case AddRule(chain, rule) =>
      if t.None? || chain !in t.value.chains || rule.counter !in t.value.counters
        || (rule.dropOver.Some? && rule.dropOver.value !in t.value.quotas) then None
      else Some(Some(t.value.(chains := t.value.chains[chain := t.value.chains[chain] + [rule]])))
  }

  /** The whole transaction: the new table, or nothing when some command fails. */
  function Run(t: Option<Table>, commands: seq<Command>): Option<Option<Table>> {
    if commands == [] then Some(t)
    else
      var before := Run(t, commands[..|commands| - 1]);
      if before.None? then None else Exec(before.value, commands[|commands| - 1])
  }

  lemma {:induction false} RunAppend(t: Option<Table>, a: seq<Command>, b: seq<Command>)
    requires Run(t, a).Some?
    ensures Run(t, a + b) == Run(Run(t, a).value, b)
  {
    if b == [] {
      assert a + b == a;
    } else {
      var b', c := b[..|b| - 1], b[|b| - 1];
      RunAppend(t, a, b');
      assert (a + b)[..|a + b| - 1] == a + b';
    }
  }

  lemma RunOne(t: Option<Table>, c: Command)
    ensures Run(t, [c]) == Exec(t, c)
  {
    assert [c][..0] == [];
  }

  // ---------------------------------------------------------------- rendering

  function Protocols(p: Protocol): seq<L4> {
    match p
    case Tcp => [TCP]
    case Udp => [UDP]
    case TcpAndUdp => [TCP, UDP]
  }

  /** What is left of the quota when the ruleset is rendered, and never less than one byte. */
  function KernelQuota(p: Policy): int {
    Max(p.quotaBytes - p.Used(), 1)
  }

  function RuleFor(p: Policy, way: Way, l4: L4): Rule {
    Rule(p.interfaceName, l4, p.portStart, p.portEnd, CounterName(p.id, way),
         if p.mode.Enforcing? then Some(QuotaName(p.id)) else None)
  }

  function ChainFor(way: Way): string {
    if way.Rx? then "ingress" else "egress"
  }

  function CounterCommands(p: Policy): seq<Command> {
    (if p.Counts(Rx) then [AddCounter(CounterName(p.id, Rx))] else []) +
    (if p.Counts(Tx) then [AddCounter(CounterName(p.id, Tx))] else [])
  }

  function QuotaCommands(p: Policy): seq<Command> {
    if p.mode.Enforcing? then [AddQuota(QuotaName(p.id), KernelQuota(p))] else []
  }

  function ProtocolCommands(p: Policy, l4: L4): seq<Command> {
    (if p.Counts(Rx) then [AddRule("ingress", RuleFor(p, Rx, l4))] else []) +
    (if p.Counts(Tx) then [AddRule("egress", RuleFor(p, Tx, l4))] else [])
  }

  function RuleCommands(p: Policy, l4s: seq<L4>): seq<Command> {
    if l4s == [] then []
    else RuleCommands(p, l4s[..|l4s| - 1]) + ProtocolCommands(p, l4s[|l4s| - 1])
  }

  function PolicyCommands(p: Policy): seq<Command> {
    CounterCommands(p) + QuotaCommands(p) + RuleCommands(p, Protocols(p.protocol))
  }

  function AllCommands(sorted: seq<Policy>): seq<Command> {
    if sorted == [] then []
    else AllCommands(sorted[..|sorted| - 1]) + PolicyCommands(sorted[|sorted| - 1])
  }

  function Header(exists_: bool): seq<Command> {
    [if exists_ then FlushTable else AddTable, AddChain("ingress"), AddChain("egress")]
  }

  function Rendered(policies: seq<Policy>, exists_: bool): seq<Command> {
    if policies == [] then if exists_ then [DeleteTable] else []
    else Header(exists_) + AllCommands(SortById(policies))
  }

  /** The emitter: one pass over the sorted policies, appending to an output buffer. */
  method RenderNft(policies: seq<Policy>, exists_: bool) returns (output: seq<Command>)
    ensures output == Rendered(policies, exists_)
  {
    output := [];
    if |policies| == 0 {
      if exists_ {
        output := output + [DeleteTable];
      }
      return;
    }
    if exists_ {
      output := output + [FlushTable];
    } else {
      output := output + [AddTable];
    }
    output := output + [AddChain("ingress")];
    output := output + [AddChain("egress")];
    assert output == Header(exists_);
    var sorted := SortById(policies);
    for index := 0 to |sorted|
      invariant output == Header(exists_) + AllCommands(sorted[..index])
    {
      assert sorted[..index + 1][..index] == sorted[..index];
      Associative(Header(exists_), AllCommands(sorted[..index]), PolicyCommands(sorted[index]));
      output := RenderObjects(output, sorted[index]);
      output := RenderRules(output, sorted[index]);
    }
    assert sorted[..|sorted|] == sorted;
  }

  lemma Associative<T>(a: seq<T>, b: seq<T>, c: seq<T>)
    ensures (a + b) + c == a + (b + c)
  {
  }

  /** The counters and the quota of one policy. */
  method RenderObjects(buffer: seq<Command>, item: Policy) returns (output: seq<Command>)
    ensures forall rules :: output + rules == buffer + (CounterCommands(item) + QuotaCommands(item) + rules)
  {
    output := buffer;
    if item.Counts(Rx) {
      output := output + [AddCounter(CounterName(item.id, Rx))];
    }
    if item.Counts(Tx) {
      output := output + [AddCounter(CounterName(item.id, Tx))];
    }
    if item.mode.Enforcing? {
      var remaining := item.quotaBytes - item.Used();
      if remaining < 1 {
        remaining := 1;
      }
      output := output + [AddQuota(QuotaName(item.id), remaining)];
    }
  }

  /** The rules of one policy, a protocol at a time. */
  method RenderRules(buffer: seq<Command>, item: Policy) returns (output: seq<Command>)
    ensures output == buffer + RuleCommands(item, Protocols(item.protocol))
  {
    output := buffer;
    var l4s := Protocols(item.protocol);
    for k := 0 to |l4s|
      invariant output == buffer + RuleCommands(item, l4s[..k])
    {
      assert l4s[..k + 1][..k] == l4s[..k];
      Associative(buffer, RuleCommands(item, l4s[..k]), ProtocolCommands(item, l4s[k]));
      ghost var before := output;
      if item.Counts(Rx) {
        output := output + [AddRule("ingress", RuleFor(item, Rx, l4s[k]))];
      }
      if item.Counts(Tx) {
        output := output + [AddRule("egress", RuleFor(item, Tx, l4s[k]))];
      }
      assert output == before + ProtocolCommands(item, l4s[k]);
    }
    assert l4s[..|l4s|] == l4s;
  }

  // ---------------------------------------------------------------- what a table should hold

  ghost function CounterNames(policies: seq<Policy>): set<string> {
    set p, way | p in policies && p.Counts(way) :: CounterName(p.id, way)
  }

  ghost function QuotaNames(policies: seq<Policy>): set<string> {
    set p | p in policies && p.mode.Enforcing? :: QuotaName(p.id)
  }

  /** The rules a policy needs in the chain of `way`: one for each protocol it watches. */
  function RulesOf(p: Policy, way: Way, l4s: seq<L4>): seq<Rule> {
    if l4s == [] || !p.Counts(way) then []
    else RulesOf(p, way, l4s[..|l4s| - 1]) + [RuleFor(p, way, l4s[|l4s| - 1])]
  }

  function ChainRules(sorted: seq<Policy>, way: Way): seq<Rule> {
    if sorted == [] then []
    else
      var p := sorted[|sorted| - 1];
      ChainRules(sorted[..|sorted| - 1], way) + RulesOf(p, way, Protocols(p.protocol))
  }

  /** The kernel holds exactly the ruleset of these policies, its counters at zero: no
      leftover chain, counter or quota, and no table at all when there is no policy. */
  ghost predicate Realises(t: Option<Table>, policies: seq<Policy>) {
    if policies == [] then t.None?
    else t.Some? && Holds(t.value, SortById(policies))
  }

  ghost predicate Holds(t: Table, sorted: seq<Policy>) {
    && t.chains == map["ingress" := ChainRules(sorted, Rx), "egress" := ChainRules(sorted, Tx)]
    && t.counters.Keys == CounterNames(sorted)
    && (forall name | name in t.counters :: t.counters[name] == 0)
    && t.quotas.Keys == QuotaNames(sorted)
    && (forall p | p in sorted && p.mode.Enforcing? :: t.quotas[QuotaName(p.id)] == KernelQuota(p))
  }

  lemma HoldsUnique(t: Table, u: Table, sorted: seq<Policy>)
    requires Holds(t, sorted) && Holds(u, sorted)
    ensures t == u
  {
    assert t.counters == u.counters;
    forall name | name in t.quotas
      ensures t.quotas[name] == u.quotas[name]
    {
      var p :| p in sorted && p.mode.Enforcing? && QuotaName(p.id) == name;
    }
    assert t.quotas == u.quotas;
  }

  // ---------------------------------------------------------------- the transaction installs it

  lemma HeaderRuns(t: Option<Table>)
    ensures Run(t, Header(t.Some?)) == Some(Some(BLANK))
  {
    var first := if t.Some? then FlushTable else AddTable;
    assert Header(t.Some?) == [first] + [AddChain("ingress")] + [AddChain("egress")];
    RunOne(t, first);
    RunAppend(t, [first], [AddChain("ingress")]);
    RunOne(Some(EMPTY), AddChain("ingress"));
    RunAppend(t, [first] + [AddChain("ingress")], [AddChain("egress")]);
    var t' := Table(map["ingress" := []], map[], map[]);
    RunOne(Some(t'), AddChain("egress"));
    assert t'.chains["egress" := []] == map["ingress" := [], "egress" := []];
  }

  function WithCounters(t: Table, p: Policy): Table {
    var c := if p.Counts(Rx) then t.counters[CounterName(p.id, Rx) := 0] else t.counters;
    t.(counters := if p.Counts(Tx) then c[CounterName(p.id, Tx) := 0] else c)
  }

  lemma CountersRun(t: Table, p: Policy)
    requires forall way :: CounterName(p.id, way) !in t.counters
    ensures Run(Some(t), CounterCommands(p)) == Some(Some(WithCounters(t, p)))
  {
    var rx, tx := AddCounter(CounterName(p.id, Rx)), AddCounter(CounterName(p.id, Tx));
    assert CounterName(p.id, Rx)[|CounterName(p.id, Rx)| - 2] == 'r';
    assert CounterName(p.id, Tx)[|CounterName(p.id, Tx)| - 2] == 't';
    RunOne(Some(t), rx);
    RunOne(Some(t), tx);
    if p.Counts(Rx) && p.Counts(Tx) {
      assert CounterCommands(p) == [rx] + [tx];
      RunAppend(Some(t), [rx], [tx]);
      RunOne(Run(Some(t), [rx]).value, tx);
    } else {
      assert CounterCommands(p) == if p.Counts(Rx) then [rx] else [tx];
    }
  }

  function WithQuota(t: Table, p: Policy): Table {
    if p.mode.Enforcing? then t.(quotas := t.quotas[QuotaName(p.id) := KernelQuota(p)]) else t
  }

  lemma QuotaRuns(t: Table, p: Policy)
    requires QuotaName(p.id) !in t.quotas
    ensures Run(Some(t), QuotaCommands(p)) == Some(Some(WithQuota(t, p)))
  {
    RunOne(Some(t), AddQuota(QuotaName(p.id), KernelQuota(p)));
  }

  function WithRules(t: Table, p: Policy, l4s: seq<L4>): Table
    requires t.chains.Keys == {"ingress", "egress"}
  {
    t.(chains := map["ingress" := t.chains["ingress"] + RulesOf(p, Rx, l4s),
                     "egress" := t.chains["egress"] + RulesOf(p, Tx, l4s)])
  }

  ghost predicate ReadyFor(t: Table, p: Policy) {
    && t.chains.Keys == {"ingress", "egress"}
    && (forall way | p.Counts(way) :: CounterName(p.id, way) in t.counters)
    && (p.mode.Enforcing? ==> QuotaName(p.id) in t.quotas)
  }

  lemma RuleRuns(t: Table, p: Policy, way: Way, l4: L4)
    requires ReadyFor(t, p) && p.Counts(way)
    ensures Run(Some(t), [AddRule(ChainFor(way), RuleFor(p, way, l4))])
         == Some(Some(t.(chains := t.chains[ChainFor(way) := t.chains[ChainFor(way)] + [RuleFor(p, way, l4)]])))
  {
    RunOne(Some(t), AddRule(ChainFor(way), RuleFor(p, way, l4)));
  }

  lemma OneProtocol(p: Policy, way: Way, l4: L4)
    ensures RulesOf(p, way, [l4]) == if p.Counts(way) then [RuleFor(p, way, l4)] else []
  {
    assert [l4][..0] == [];
  }

  /** The rules of one protocol. */
  lemma ProtocolRuns(t: Table, p: Policy, l4: L4)
    requires ReadyFor(t, p)
    ensures Run(Some(t), ProtocolCommands(p, l4)) == Some(Some(WithRules(t, p, [l4])))
  {
    var rx, tx := AddRule("ingress", RuleFor(p, Rx, l4)), AddRule("egress", RuleFor(p, Tx, l4));
    var ingress, egress := t.chains["ingress"], t.chains["egress"];
    OneProtocol(p, Rx, l4);
    OneProtocol(p, Tx, l4);
    assert ingress + [] == ingress && egress + [] == egress;
    assert t.chains == map["ingress" := ingress, "egress" := egress];
    if p.Counts(Rx) {
      RuleRuns(t, p, Rx, l4);
      var t' := t.(chains := t.chains["ingress" := ingress + [RuleFor(p, Rx, l4)]]);
      assert t'.chains == map["ingress" := ingress + [RuleFor(p, Rx, l4)], "egress" := egress];
      if p.Counts(Tx) {
        RunAppend(Some(t), [rx], [tx]);
        RuleRuns(t', p, Tx, l4);
        assert t'.chains["egress" := egress + [RuleFor(p, Tx, l4)]] == WithRules(t, p, [l4]).chains;
      } else {
        assert ProtocolCommands(p, l4) == [rx];
      }
    } else {
      RuleRuns(t, p, Tx, l4);
      assert ProtocolCommands(p, l4) == [tx];
      assert t.chains["egress" := egress + [RuleFor(p, Tx, l4)]] == WithRules(t, p, [l4]).chains;
    }
  }

  lemma WithRulesTwice(t: Table, p: Policy, init: seq<L4>, l4: L4)
    requires t.chains.Keys == {"ingress", "egress"}
    ensures WithRules(WithRules(t, p, init), p, [l4]) == WithRules(t, p, init + [l4])
  {
    var l4s := init + [l4];
    assert l4s[..|l4s| - 1] == init;
    forall way
      ensures RulesOf(p, way, l4s) == RulesOf(p, way, init) + RulesOf(p, way, [l4])
    {
      OneProtocol(p, way, l4);
    }
    forall a: seq<Rule>, way
      ensures a + RulesOf(p, way, l4s) == (a + RulesOf(p, way, init)) + RulesOf(p, way, [l4])
    {
      assert RulesOf(p, way, l4s) == RulesOf(p, way, init) + RulesOf(p, way, [l4]);
    }
  }

  lemma {:induction false} RulesRun(t: Table, p: Policy, l4s: seq<L4>)
    requires ReadyFor(t, p)
    ensures Run(Some(t), RuleCommands(p, l4s)) == Some(Some(WithRules(t, p, l4s)))
  {
    if l4s == [] {
      var ingress, egress := t.chains["ingress"], t.chains["egress"];
      assert ingress + [] == ingress && egress + [] == egress;
      assert t.chains == map["ingress" := ingress, "egress" := egress];
    } else {
      var init, l4 := l4s[..|l4s| - 1], l4s[|l4s| - 1];
      assert l4s == init + [l4];
      RulesRun(t, p, init);
      RunAppend(Some(t), RuleCommands(p, init), ProtocolCommands(p, l4));
      ProtocolRuns(WithRules(t, p, init), p, l4);
      WithRulesTwice(t, p, init, l4);
    }
  }

  function WithPolicy(t: Table, p: Policy): Table
    requires t.chains.Keys == {"ingress", "egress"}
  {
    WithRules(WithQuota(WithCounters(t, p), p), p, Protocols(p.protocol))
  }

  lemma PolicyRuns(t: Table, p: Policy)
    requires t.chains.Keys == {"ingress", "egress"}
    requires forall way :: CounterName(p.id, way) !in t.counters
    requires QuotaName(p.id) !in t.quotas
    ensures Run(Some(t), PolicyCommands(p)) == Some(Some(WithPolicy(t, p)))
  {
    CountersRun(t, p);
    var t1 := WithCounters(t, p);
    QuotaRuns(t1, p);
    var t2 := WithQuota(t1, p);
    RulesRun(t2, p, Protocols(p.protocol));
    RunAppend(Some(t), CounterCommands(p), QuotaCommands(p));
    RunAppend(Some(t), CounterCommands(p) + QuotaCommands(p), RuleCommands(p, Protocols(p.protocol)));
  }

  /** The names a policy adds are new to a table that holds other policies. */
  lemma FreshNames(sorted: seq<Policy>, p: Policy)
    requires AllBounded(sorted) && Bounded(p) && forall q | q in sorted :: q.id != p.id
    ensures forall way :: CounterName(p.id, way) !in CounterNames(sorted)
    ensures QuotaName(p.id) !in QuotaNames(sorted)
  {
    forall way
      ensures CounterName(p.id, way) !in CounterNames(sorted)
    {
      if CounterName(p.id, way) in CounterNames(sorted) {
        var q, way' :| q in sorted && q.Counts(way') && CounterName(q.id, way') == CounterName(p.id, way);
        CounterNameInjective(p.id, way, q.id, way');
      }
    }
    if QuotaName(p.id) in QuotaNames(sorted) {
      var q :| q in sorted && q.mode.Enforcing? && QuotaName(q.id) == QuotaName(p.id);
      QuotaNameInjective(p.id, q.id);
    }
  }

  lemma CounterNamesExtend(init: seq<Policy>, p: Policy)
    ensures CounterNames(init + [p]) == CounterNames(init) + (set way: Way | p.Counts(way) :: CounterName(p.id, way))
  {
    var sorted := init + [p];
    forall name | name in CounterNames(sorted)
      ensures name in CounterNames(init) + (set way: Way | p.Counts(way) :: CounterName(p.id, way))
    {
      var q, way :| q in sorted && q.Counts(way) && name == CounterName(q.id, way);
      assert q in init || q == p;
    }
    forall name | name in CounterNames(init)
      ensures name in CounterNames(sorted)
    {
      var q, way :| q in init && q.Counts(way) && name == CounterName(q.id, way);
      assert q in sorted;
    }
    assert p in sorted;
  }

  lemma QuotaNamesExtend(init: seq<Policy>, p: Policy)
    ensures QuotaNames(init + [p]) == QuotaNames(init) + if p.mode.Enforcing? then {QuotaName(p.id)} else {}
  {
    var sorted := init + [p];
    forall name | name in QuotaNames(sorted)
      ensures name in QuotaNames(init) || (p.mode.Enforcing? && name == QuotaName(p.id))
    {
      var q :| q in sorted && q.mode.Enforcing? && name == QuotaName(q.id);
      assert q in init || q == p;
    }
    forall name | name in QuotaNames(init)
      ensures name in QuotaNames(sorted)
    {
      var q :| q in init && q.mode.Enforcing? && name == QuotaName(q.id);
      assert q in sorted;
    }
    assert p in sorted;
  }

  lemma ChainsExtend(t: Table, init: seq<Policy>, p: Policy)
    requires t.chains == map["ingress" := ChainRules(init, Rx), "egress" := ChainRules(init, Tx)]
    ensures WithPolicy(t, p).chains ==
            map["ingress" := ChainRules(init + [p], Rx), "egress" := ChainRules(init + [p], Tx)]
  {
    var sorted := init + [p];
    assert sorted[..|sorted| - 1] == init;
  }

  lemma CountersExtend(t: Table, init: seq<Policy>, p: Policy)
    requires t.counters.Keys == CounterNames(init)
    requires forall name | name in t.counters :: t.counters[name] == 0
    ensures WithCounters(t, p).counters.Keys == CounterNames(init + [p])
    ensures forall name | name in WithCounters(t, p).counters :: WithCounters(t, p).counters[name] == 0
  {
    CounterNamesExtend(init, p);
  }

  lemma QuotasExtend(t: Table, init: seq<Policy>, p: Policy)
    requires t.quotas.Keys == QuotaNames(init) && QuotaName(p.id) !in t.quotas
    requires forall q | q in init && q.mode.Enforcing? :: t.quotas[QuotaName(q.id)] == KernelQuota(q)
    ensures WithQuota(t, p).quotas.Keys == QuotaNames(init + [p])
    ensures forall q | q in init + [p] && q.mode.Enforcing? :: WithQuota(t, p).quotas[QuotaName(q.id)] == KernelQuota(q)
  {
    QuotaNamesExtend(init, p);
    forall q | q in init + [p] && q.mode.Enforcing?
      ensures WithQuota(t, p).quotas[QuotaName(q.id)] == KernelQuota(q)
    {
      if q in init {
        assert QuotaName(q.id) in QuotaNames(init);
      }
    }
  }

  lemma HoldsExtends(t: Table, init: seq<Policy>, p: Policy)
    requires Holds(t, init) && QuotaName(p.id) !in t.quotas
    ensures Holds(WithPolicy(t, p), init + [p])
  {
    ChainsExtend(t, init, p);
    CountersExtend(t, init, p);
    QuotasExtend(WithCounters(t, p), init, p);
  }

  lemma PolicyInstalls(t: Table, init: seq<Policy>, p: Policy)
    requires Holds(t, init) && AllBounded(init) && Bounded(p) && forall q | q in init :: q.id != p.id
    ensures Run(Some(t), PolicyCommands(p)) == Some(Some(WithPolicy(t, p)))
    ensures Holds(WithPolicy(t, p), init + [p])
  {
    FreshNames(init, p);
    PolicyRuns(t, p);
    HoldsExtends(t, init, p);
  }

  const BLANK := Table(map["ingress" := [], "egress" := []], map[], map[])

  ghost predicate Installs(sorted: seq<Policy>) {
    var r := Run(Some(BLANK), AllCommands(sorted));
    r.Some? && r.value.Some? && Holds(r.value.value, sorted)
  }

  lemma {:induction false} CommandsRun(sorted: seq<Policy>)
    requires DistinctIds(sorted) && AllBounded(sorted)
    ensures Installs(sorted)
  {
    if sorted == [] {
      BlankHolds();
    } else {
      var init, p := sorted[..|sorted| - 1], sorted[|sorted| - 1];
      CommandsRun(init);
      InstallsExtend(init, p);
      assert sorted == init + [p];
    }
  }

  lemma InstallsExtend(init: seq<Policy>, p: Policy)
    requires Installs(init) && AllBounded(init) && Bounded(p) && forall q | q in init :: q.id != p.id
    ensures Installs(init + [p])
  {
    var t := Run(Some(BLANK), AllCommands(init)).value.value;
    PolicyInstalls(t, init, p);
    RunAppend(Some(BLANK), AllCommands(init), PolicyCommands(p));
    assert (init + [p])[..|init|] == init;
  }

  lemma BlankHolds()
    ensures Installs([])
  {
    assert AllCommands([]) == [];
    assert CounterNames([]) == {} && QuotaNames([]) == {};
  }

  lemma SortKeepsBounds(policies: seq<Policy>)
    requires DistinctIds(policies) && AllBounded(policies)
    ensures Ordered(SortById(policies)) && DistinctIds(SortById(policies)) && AllBounded(SortById(policies))
    ensures SameSet(policies, SortById(policies)) && |SortById(policies)| == |policies|
  {
    var sorted := SortById(policies);
    SortOrdered(policies);
    OrderedIsDistinct(sorted);
    SameMembers(policies, sorted);
    forall i | 0 <= i < |sorted|
      ensures Bounded(sorted[i])
    {
      assert sorted[i] in policies;
    }
  }

  /** Main result: run where the table's existence is as stated, the emitted transaction
      succeeds and leaves exactly the ruleset of the policies, whatever was there before. */
  lemma RenderInstalls(t: Option<Table>, policies: seq<Policy>)
    requires DistinctIds(policies) && AllBounded(policies)
    ensures Run(t, Rendered(policies, t.Some?)).Some?
    ensures Realises(Run(t, Rendered(policies, t.Some?)).value, policies)
  {
    if policies == [] {
      RunOne(t, DeleteTable);
    } else {
      var sorted := SortById(policies);
      SortKeepsBounds(policies);
      HeaderRuns(t);
      CommandsRun(sorted);
      RunAppend(t, Header(t.Some?), AllCommands(sorted));
    }
  }

  /** The stored order of the policies does not reach the kernel. */
  lemma RenderForgetsOrder(policies: seq<Policy>, permuted: seq<Policy>, exists_: bool)
    requires DistinctIds(policies) && DistinctIds(permuted) && SameSet(policies, permuted)
    ensures Rendered(policies, exists_) == Rendered(permuted, exists_)
  {
    SortForgetsOrder(policies, permuted);
    NoMembers(policies, permuted);
    NoMembers(permuted, policies);
  }

  /** Two kernels that realise the same policies are equal. */
  lemma RealisesUnique(t: Option<Table>, u: Option<Table>, policies: seq<Policy>)
    requires Realises(t, policies) && Realises(u, policies)
    ensures t == u
  {
    if policies != [] {
      HoldsUnique(t.value, u.value, SortById(policies));
    }
  }
}
