/** What the kernel does after the transaction has run, told by the fields of the policies alone
    (agent/nethelper/network.go:50-142, agent/nethelper/types.go:171-176). */
module NftKernel {
  import opened Base
  import opened PolicyModel
  import opened StringOrder
  import opened PolicyOrder
  import opened NftTable
  import opened NftPackets

  /** The packet is traffic of the policy: its way, interface, port and protocol fit. */
  predicate Concerns(p: Policy, way: Way, k: Packet) {
    && (way == Rx ==> p.direction != TxOnly)
    && (way == Tx ==> p.direction != RxOnly)
    && (p.interfaceName == "" || p.interfaceName == k.interfaceName)
    && p.portStart <= k.port <= p.portEnd
    && (p.protocol == Tcp ==> k.l4 == TCP)
    && (p.protocol == Udp ==> k.l4 == UDP)
  }

  /** The policy drops the packet: it enforces a quota, and that is used up. */
  predicate Stops(p: Policy, way: Way, k: Packet, exhausted: set<string>) {
    Concerns(p, way, k) && p.mode == Enforcing && QuotaName(p.id) in exhausted
  }

  lemma ConcernIsWatching(p: Policy, way: Way, k: Packet, exhausted: set<string>)
    ensures Concerns(p, way, k) <==> Watches(p, way, k)
    ensures Stops(p, way, k, exhausted) <==> Drops(p, way, k, exhausted)
  {
    assert p.Counts(way) <==> (way == Rx ==> p.direction != TxOnly) && (way == Tx ==> p.direction != RxOnly);
    match p.protocol
    case Tcp => assert k.l4 in Protocols(p.protocol) <==> k.l4 == TCP;
    case Udp => assert k.l4 in Protocols(p.protocol) <==> k.l4 == UDP;
    case TcpAndUdp =>
      assert Protocols(p.protocol)[0] == TCP && Protocols(p.protocol)[1] == UDP;
      assert k.l4 == TCP || k.l4 == UDP;
  }

  /** A policy that comes earlier in the chain is one with a lesser identifier. */
  lemma EarlierIsLess(sorted: seq<Policy>, i: nat, way: Way, k: Packet, exhausted: set<string>)
    requires Ordered(sorted) && i < |sorted|
    ensures (exists j :: 0 <= j < i && Drops(sorted[j], way, k, exhausted)) <==>
            (exists q <- sorted :: Less(q.id, sorted[i].id) && Stops(q, way, k, exhausted))
  {
    if j :| 0 <= j < i && Drops(sorted[j], way, k, exhausted) {
      ConcernIsWatching(sorted[j], way, k, exhausted);
      assert sorted[j] in sorted;
    }
    if q :| q in sorted && Less(q.id, sorted[i].id) && Stops(q, way, k, exhausted) {
      var j :| 0 <= j < |sorted| && sorted[j] == q;
      ConcernIsWatching(q, way, k, exhausted);
      if j > i {
        LessAsymmetric(sorted[i].id, sorted[j].id);
      } else if j == i {
        LessIrreflexive(q.id);
      }
    }
  }

  /** The chain of a way in the kernel. */
  function ChainIn(t: Table, way: Way): seq<Rule> {
    var name := if way == Rx then "ingress" else "egress";
    if name in t.chains then t.chains[name] else []
  }

  /** The kernel once the policies' transaction has run. */
  function Rendering(t: Option<Table>, policies: seq<Policy>): Table {
    var r := Run(t, Rendered(policies, t.Some?));
    if r.Some? && r.value.Some? then r.value.value else EMPTY
  }

  /** How a packet fares in it. */
  function Fate(t: Option<Table>, policies: seq<Policy>, way: Way, k: Packet, exhausted: set<string>): Walk {
    Traverse(Walk([], false), ChainIn(Rendering(t, policies), way), k, exhausted)
  }

  lemma RenderingHolds(t: Option<Table>, policies: seq<Policy>)
    requires DistinctIds(policies) && AllBounded(policies) && policies != []
    ensures Holds(Rendering(t, policies), SortById(policies))
    ensures forall way :: ChainIn(Rendering(t, policies), way) == ChainRules(SortById(policies), way)
  {
    RenderInstalls(t, policies);
  }

  /** Main result: after the transaction, a policy counts a packet exactly once if and only if the
      packet is its traffic and no policy with a lesser identifier dropped it, and not at all
      otherwise. */
  lemma KernelCountsIff(
    t: Option<Table>, policies: seq<Policy>, p: Policy, way: Way, k: Packet, exhausted: set<string>)
    requires DistinctIds(policies) && AllBounded(policies) && p in policies
    ensures multiset(Fate(t, policies, way, k, exhausted).hits)[CounterName(p.id, way)] ==
            if Concerns(p, way, k) && !exists q <- policies :: Less(q.id, p.id) && Stops(q, way, k, exhausted)
            then 1 else 0
  {
    var sorted := SortById(policies);
    RenderingHolds(t, policies);
    SortKeepsBounds(policies);
    PacketsAreCountedOnce(sorted, way, k, exhausted);
    assert p in sorted;
    var i :| 0 <= i < |sorted| && sorted[i] == p;
    EarlierIsLess(sorted, i, way, k, exhausted);
    ConcernIsWatching(p, way, k, exhausted);
    assert forall q :: q in policies <==> q in sorted;
  }

  /** Main result: a packet is dropped exactly when some policy whose traffic it is enforces a
      quota that is used up. */
  lemma KernelDropsIff(t: Option<Table>, policies: seq<Policy>, way: Way, k: Packet, exhausted: set<string>)
    requires DistinctIds(policies) && AllBounded(policies) && policies != []
    ensures Fate(t, policies, way, k, exhausted).dropped <==> exists p <- policies :: Stops(p, way, k, exhausted)
  {
    var sorted := SortById(policies);
    RenderingHolds(t, policies);
    SortKeepsBounds(policies);
    PacketsAreCountedOnce(sorted, way, k, exhausted);
    DroppedPlainly(sorted, way, k, exhausted);
    assert forall p :: p in policies <==> p in sorted;
  }

  lemma DroppedPlainly(sorted: seq<Policy>, way: Way, k: Packet, exhausted: set<string>)
    ensures (exists j :: 0 <= j < |sorted| && Drops(sorted[j], way, k, exhausted)) <==>
            (exists p <- sorted :: Stops(p, way, k, exhausted))
  {
    if j :| 0 <= j < |sorted| && Drops(sorted[j], way, k, exhausted) {
      ConcernIsWatching(sorted[j], way, k, exhausted);
      assert sorted[j] in sorted;
    }
    if p :| p in sorted && Stops(p, way, k, exhausted) {
      ConcernIsWatching(p, way, k, exhausted);
      var j :| 0 <= j < |sorted| && sorted[j] == p;
    }
  }

  /** Main result: the kernel's objects. A counter for each way the policy's direction asks for, at
      zero, and for an enforcing policy a quota of what it has left, at least one byte. */
  lemma KernelObjects(t: Option<Table>, policies: seq<Policy>, p: Policy)
    requires DistinctIds(policies) && AllBounded(policies) && p in policies
    ensures var u := Rendering(t, policies);
            && (CounterName(p.id, Rx) in u.counters <==> p.direction != TxOnly)
            && (CounterName(p.id, Tx) in u.counters <==> p.direction != RxOnly)
            && (forall name | name in u.counters :: u.counters[name] == 0)
            && (QuotaName(p.id) in u.quotas <==> p.mode == Enforcing)
            && (p.mode == Enforcing ==>
                  var left := p.quotaBytes - (p.lifetimeRx - p.periodStartRx) - (p.lifetimeTx - p.periodStartTx);
                  u.quotas[QuotaName(p.id)] == if left > 1 then left else 1)
  {
    var sorted := SortById(policies);
    RenderingHolds(t, policies);
    SortKeepsBounds(policies);
    assert p in sorted;
    CounterNamed(sorted, p, Rx);
    CounterNamed(sorted, p, Tx);
    QuotaNamed(sorted, p);
  }

  lemma CounterNamed(policies: seq<Policy>, p: Policy, way: Way)
    requires DistinctIds(policies) && AllBounded(policies) && p in policies
    ensures CounterName(p.id, way) in CounterNames(policies) <==> p.Counts(way)
  {
    if q, other :| q in policies && q.Counts(other) && CounterName(q.id, other) == CounterName(p.id, way) {
      CounterNameInjective(q.id, other, p.id, way);
      SameId(policies, q, p);
    }
  }

  lemma QuotaNamed(policies: seq<Policy>, p: Policy)
    requires DistinctIds(policies) && AllBounded(policies) && p in policies
    ensures QuotaName(p.id) in QuotaNames(policies) <==> p.mode == Enforcing
  {
    if q :| q in policies && q.mode.Enforcing? && QuotaName(q.id) == QuotaName(p.id) {
      QuotaNameInjective(q.id, p.id);
      SameId(policies, q, p);
    }
  }

  lemma SameId(policies: seq<Policy>, p: Policy, q: Policy)
    requires DistinctIds(policies) && p in policies && q in policies && p.id == q.id
    ensures p == q
  {
  }
}
