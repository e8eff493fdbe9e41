/** What the rendered rules do to a packet. A packet walks its chain in order; a rule that
    matches counts it and, when the quota it names is used up, drops it and ends the walk. */
module NftPackets {
  import opened Base
  import opened PolicyModel
  import opened NftTable

  datatype Packet = Packet(interfaceName: string, l4: L4, port: int)
  datatype Walk = Walk(hits: seq<string>, dropped: bool)

  predicate Matches(r: Rule, k: Packet) {
    (r.interfaceName == "" || r.interfaceName == k.interfaceName) && r.l4 == k.l4 && r.low <= k.port <= r.high
  }

  function Pass(w: Walk, r: Rule, k: Packet, exhausted: set<string>): Walk {
    if w.dropped || !Matches(r, k) then w
    else Walk(w.hits + [r.counter], r.dropOver.Some? && r.dropOver.value in exhausted)
  }

  function Traverse(w: Walk, rules: seq<Rule>, k: Packet, exhausted: set<string>): Walk {
    if rules == [] then w
    else Pass(Traverse(w, rules[..|rules| - 1], k, exhausted), rules[|rules| - 1], k, exhausted)
  }

  /** The policy asks for this packet to be counted in this way. */
  predicate Watches(p: Policy, way: Way, k: Packet) {
    && p.Counts(way)
    && (p.interfaceName == "" || p.interfaceName == k.interfaceName)
    && k.l4 in Protocols(p.protocol)
    && p.portStart <= k.port <= p.portEnd
  }

  predicate Drops(p: Policy, way: Way, k: Packet, exhausted: set<string>) {
    Watches(p, way, k) && p.mode.Enforcing? && QuotaName(p.id) in exhausted
  }

  lemma {:induction false} TraverseAppend(w: Walk, a: seq<Rule>, b: seq<Rule>, k: Packet, exhausted: set<string>)
    ensures Traverse(w, a + b, k, exhausted) == Traverse(Traverse(w, a, k, exhausted), b, k, exhausted)
  {
    if b == [] {
      assert a + b == a;
    } else {
      TraverseAppend(w, a, b[..|b| - 1], k, exhausted);
      assert (a + b)[..|a + b| - 1] == a + b[..|b| - 1];
    }
  }

  lemma TraverseOne(w: Walk, r: Rule, k: Packet, exhausted: set<string>)
    ensures Traverse(w, [r], k, exhausted) == Pass(w, r, k, exhausted)
  {
    assert [r][..0] == [];
  }

  /** The packet fits a policy's interface and ports and has protocol `l4`. */
  predicate Fits(p: Policy, l4: L4, k: Packet) {
    && (p.interfaceName == "" || p.interfaceName == k.interfaceName)
    && k.l4 == l4
    && p.portStart <= k.port <= p.portEnd
  }

  function Counted(w: Walk, p: Policy, way: Way, exhausted: set<string>): Walk {
    Walk(w.hits + [CounterName(p.id, way)], p.mode.Enforcing? && QuotaName(p.id) in exhausted)
  }

  lemma TraverseProtocol(w: Walk, p: Policy, way: Way, l4: L4, k: Packet, exhausted: set<string>)
    ensures Traverse(w, [RuleFor(p, way, l4)], k, exhausted)
         == if w.dropped || !Fits(p, l4, k) then w else Counted(w, p, way, exhausted)
  {
    TraverseOne(w, RuleFor(p, way, l4), k, exhausted);
  }

  lemma RulesOfBoth(p: Policy, way: Way)
    requires p.Counts(way)
    ensures RulesOf(p, way, [TCP, UDP]) == [RuleFor(p, way, TCP)] + [RuleFor(p, way, UDP)]
  {
    assert [TCP, UDP][..1] == [TCP];
    OneProtocol(p, way, TCP);
  }

  lemma TraverseBoth(w: Walk, p: Policy, way: Way, k: Packet, exhausted: set<string>)
    requires p.Counts(way)
    ensures Traverse(w, RulesOf(p, way, [TCP, UDP]), k, exhausted)
         == if w.dropped || !(Fits(p, TCP, k) || Fits(p, UDP, k)) then w else Counted(w, p, way, exhausted)
  {
    RulesOfBoth(p, way);
    var tcp, udp := [RuleFor(p, way, TCP)], [RuleFor(p, way, UDP)];
    TraverseAppend(w, tcp, udp, k, exhausted);
    TraverseProtocol(w, p, way, TCP, k, exhausted);
    TraverseProtocol(Traverse(w, tcp, k, exhausted), p, way, UDP, k, exhausted);
  }

  lemma TraverseSingle(w: Walk, p: Policy, way: Way, l4: L4, k: Packet, exhausted: set<string>)
    requires p.Counts(way)
    ensures Traverse(w, RulesOf(p, way, [l4]), k, exhausted)
         == if w.dropped || !Fits(p, l4, k) then w else Counted(w, p, way, exhausted)
  {
    OneProtocol(p, way, l4);
    TraverseProtocol(w, p, way, l4, k, exhausted);
  }

  /** All the rules of one policy together count a packet at most once: a packet has one
      protocol, so of the two rules of a tcp-and-udp policy only one can match. */
  lemma TraversePolicy(w: Walk, p: Policy, way: Way, k: Packet, exhausted: set<string>)
    ensures Traverse(w, RulesOf(p, way, Protocols(p.protocol)), k, exhausted)
         == if w.dropped || !Watches(p, way, k) then w else Counted(w, p, way, exhausted)
  {
    if !p.Counts(way) {
      assert RulesOf(p, way, Protocols(p.protocol)) == [];
    } else {
      match p.protocol
      case Tcp =>
        TraverseSingle(w, p, way, TCP, k, exhausted);
        assert Watches(p, way, k) <==> Fits(p, TCP, k);
      case Udp =>
        TraverseSingle(w, p, way, UDP, k, exhausted);
        assert Watches(p, way, k) <==> Fits(p, UDP, k);
      case TcpAndUdp =>
        TraverseBoth(w, p, way, k, exhausted);
        assert Watches(p, way, k) <==> Fits(p, TCP, k) || Fits(p, UDP, k);
    }
  }

  ghost predicate CountedOnceOrNever(sorted: seq<Policy>, way: Way, k: Packet, exhausted: set<string>, w: Walk) {
    && (w.dropped <==> exists j :: 0 <= j < |sorted| && Drops(sorted[j], way, k, exhausted))
    && (forall name | name in w.hits :: name in CounterNames(sorted))
    && (forall i | 0 <= i < |sorted| ::
          multiset(w.hits)[CounterName(sorted[i].id, way)]
          == if Watches(sorted[i], way, k)
                && !exists j :: 0 <= j < i && Drops(sorted[j], way, k, exhausted) then 1 else 0)
  }

  lemma CountingExtends(init: seq<Policy>, p: Policy, way: Way, k: Packet, exhausted: set<string>, w: Walk, w': Walk)
    requires AllBounded(init) && Bounded(p) && forall q | q in init :: q.id != p.id
    requires CountedOnceOrNever(init, way, k, exhausted, w)
    requires w' == if w.dropped || !Watches(p, way, k) then w else Counted(w, p, way, exhausted)
    ensures CountedOnceOrNever(init + [p], way, k, exhausted, w')
  {
    var sorted, name := init + [p], CounterName(p.id, way);
    FreshNames(init, p);
    assert multiset(w.hits)[name] == 0;
    CounterNamesExtend(init, p);
    assert multiset(w.hits + [name]) == multiset(w.hits) + multiset{name};
    forall i | 0 <= i < |sorted|
      ensures multiset(w'.hits)[CounterName(sorted[i].id, way)]
           == if Watches(sorted[i], way, k)
                 && !exists j :: 0 <= j < i && Drops(sorted[j], way, k, exhausted) then 1 else 0
    {
      if i < |init| {
        assert sorted[i] == init[i] && init[i] in init;
        if CounterName(init[i].id, way) == name {
          CounterNameInjective(init[i].id, way, p.id, way);
        }
        assert forall j | 0 <= j < i :: sorted[j] == init[j];
      } else {
        assert forall j | 0 <= j < |init| :: sorted[j] == init[j];
      }
    }
    if w'.dropped {
      if w.dropped {
        var j :| 0 <= j < |init| && Drops(init[j], way, k, exhausted);
        assert Drops(sorted[j], way, k, exhausted);
      } else {
        assert Drops(sorted[|init|], way, k, exhausted);
      }
    } else {
      forall j | 0 <= j < |sorted|
        ensures !Drops(sorted[j], way, k, exhausted)
      {
        assert j < |init| ==> sorted[j] == init[j];
      }
    }
  }

  /** Main result: in a rendered ruleset every packet is counted by a policy exactly when the
      policy watches it and no policy rendered earlier dropped it, and then exactly once;
      nothing else is counted. */
  lemma {:induction false} PacketsAreCountedOnce(sorted: seq<Policy>, way: Way, k: Packet, exhausted: set<string>)
    requires DistinctIds(sorted) && AllBounded(sorted)
    ensures CountedOnceOrNever(sorted, way, k, exhausted,
                               Traverse(Walk([], false), ChainRules(sorted, way), k, exhausted))
  {
    if sorted != [] {
      var init, p := sorted[..|sorted| - 1], sorted[|sorted| - 1];
      SplitLast(sorted);
      PacketsAreCountedOnce(init, way, k, exhausted);
      PacketStep(init, p, way, k, exhausted);
    }
  }

  lemma SplitLast(sorted: seq<Policy>)
    requires sorted != [] && DistinctIds(sorted) && AllBounded(sorted)
    ensures var init, p := sorted[..|sorted| - 1], sorted[|sorted| - 1];
            && sorted == init + [p] && DistinctIds(init) && AllBounded(init) && Bounded(p)
            && forall q | q in init :: q.id != p.id
  {
  }

  lemma PacketStep(init: seq<Policy>, p: Policy, way: Way, k: Packet, exhausted: set<string>)
    requires AllBounded(init) && Bounded(p) && forall q | q in init :: q.id != p.id
    requires CountedOnceOrNever(init, way, k, exhausted,
                                Traverse(Walk([], false), ChainRules(init, way), k, exhausted))
    ensures CountedOnceOrNever(init + [p], way, k, exhausted,
                               Traverse(Walk([], false), ChainRules(init + [p], way), k, exhausted))
  {
    var rules := RulesOf(p, way, Protocols(p.protocol));
    var w := Traverse(Walk([], false), ChainRules(init, way), k, exhausted);
    assert (init + [p])[..|init|] == init;
    TraverseAppend(Walk([], false), ChainRules(init, way), rules, k, exhausted);
    TraversePolicy(w, p, way, k, exhausted);
    CountingExtends(init, p, way, k, exhausted, w, Traverse(w, rules, k, exhausted));
  }
}
