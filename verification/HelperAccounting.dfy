/** How the helper folds kernel counters into its durable totals, and how a request changes
    the policy list (agent/nethelper/network.go:179-198, agent/nethelper/main.go:66-240). */
module HelperAccounting {
  import opened Base
  import opened PolicyModel
  import opened NftTable

  type Counters = map<string, nat>

  function Read(raw: Counters, name: string): nat {
    if name in raw then raw[name] else 0
  }

  /** What `nft list` reports: nothing when there is no table. */
  function CountersOf(t: Option<Table>): Counters {
    if t.None? then map[] else t.value.counters
  }

  // ---------------------------------------------------------------- absorbing

  /** Move the unread part of both counters into the totals and start over from zero. */
  function AbsorbPolicy(p: Policy, raw: Counters): Policy {
    p.(lifetimeRx := p.lifetimeRx + Pos(Read(raw, CounterName(p.id, Rx)) - p.lastKernelRx),
       lifetimeTx := p.lifetimeTx + Pos(Read(raw, CounterName(p.id, Tx)) - p.lastKernelTx),
       lastKernelRx := 0,
       lastKernelTx := 0)
  }

  function Absorbed(policies: seq<Policy>, raw: Counters): seq<Policy> {
    seq(|policies|, i requires 0 <= i < |policies| => AbsorbPolicy(policies[i], raw))
  }

  method AbsorbCounters(current: seq<Policy>, raw: Counters) returns (next: seq<Policy>)
    ensures next == Absorbed(current, raw)
  {
    next := current;
    for index := 0 to |next|
      invariant |next| == |current|
      invariant forall i | 0 <= i < index :: next[i] == AbsorbPolicy(current[i], raw)
      invariant forall i | index <= i < |next| :: next[i] == current[i]
    {
      var item := next[index];
      var rawRx := Read(raw, CounterName(item.id, Rx));
      var rawTx := Read(raw, CounterName(item.id, Tx));
      if rawRx >= item.lastKernelRx {
        item := item.(lifetimeRx := item.lifetimeRx + (rawRx - item.lastKernelRx));
      }
      if rawTx >= item.lastKernelTx {
        item := item.(lifetimeTx := item.lifetimeTx + (rawTx - item.lastKernelTx));
      }
      item := item.(lastKernelRx := 0);
      item := item.(lastKernelTx := 0);
      next := next[index := item];
    }
  }

  // ---------------------------------------------------------------- checkpointing

  /** Fold what was read since the last look, and remember how far it was read. */
  function CheckpointPolicy(p: Policy, raw: Counters): Policy {
    var rx, tx := Read(raw, CounterName(p.id, Rx)), Read(raw, CounterName(p.id, Tx));
    p.(lifetimeRx := p.lifetimeRx + Pos(rx - p.lastKernelRx),
       lifetimeTx := p.lifetimeTx + Pos(tx - p.lastKernelTx),
       lastKernelRx := Max(p.lastKernelRx, rx),
       lastKernelTx := Max(p.lastKernelTx, tx))
  }

  function Checkpointed(policies: seq<Policy>, raw: Counters): seq<Policy> {
    seq(|policies|, i requires 0 <= i < |policies| => CheckpointPolicy(policies[i], raw))
  }

  datatype RuleState = Active | Missing
  datatype Discontinuity = RuleRestore | RuleMissing
  datatype QuotaState = Unlimited | Normal | Warning | Critical | Exhausted

  datatype Observation = Observation(
    policyId: string,
    rxTotal: int,
    txTotal: int,
    periodRx: int,
    periodTx: int,
    quotaState: QuotaState,
    generation: int,
    ruleState: RuleState,
    discontinuity: Option<Discontinuity>)

  /** The quota thresholds, as comparisons of whole numbers of bytes. */
  function QuotaStateOf(used: int, quota: int): QuotaState {
    if quota <= 0 then Unlimited
    else if used * 100 >= 100 * quota then Exhausted
    else if used * 100 >= 95 * quota then Critical
    else if used * 100 >= 70 * quota then Warning
    else Normal
  }

  /** The thresholds are 70, 95 and 100 percent of the quota, each reached and not yet the next. */
  lemma QuotaThresholds(used: int, quota: int)
    requires used >= 0
    ensures quota <= 0 <==> QuotaStateOf(used, quota) == Unlimited
    ensures quota > 0 ==> (QuotaStateOf(used, quota) == Exhausted <==> used >= quota)
    ensures quota > 0 ==> (QuotaStateOf(used, quota) == Critical <==> 95 * quota <= 100 * used < 100 * quota)
    ensures quota > 0 ==> (QuotaStateOf(used, quota) == Warning <==> 70 * quota <= 100 * used < 95 * quota)
    ensures quota > 0 ==> (QuotaStateOf(used, quota) == Normal <==> 100 * used < 70 * quota)
  {
  }

  /** What the helper reports of a checkpointed policy. */
  ghost predicate Reports(o: Observation, p: Policy, raw: Counters, restored: bool) {
    && o.policyId == p.id
    && o.rxTotal == p.lifetimeRx && o.txTotal == p.lifetimeTx
    && o.periodRx == p.lifetimeRx - p.periodStartRx && o.periodTx == p.lifetimeTx - p.periodStartTx
    && o.periodRx + o.periodTx == p.Used()
    && o.quotaState == QuotaStateOf(p.Used(), p.quotaBytes)
    && o.generation == p.generation
    && (o.ruleState.Missing? <==> o.discontinuity == Some(RuleMissing))
    && (o.discontinuity == Some(RuleRestore) <==> restored)
    && (o.discontinuity == Some(RuleMissing) <==>
          !restored && ((p.direction != TxOnly && CounterName(p.id, Rx) !in raw)
                        || (p.direction != RxOnly && CounterName(p.id, Tx) !in raw)))
  }

  /** One turn of the loop: fold the raw counters into a policy and describe it. */
  method CheckpointOne(stored: Policy, raw: Counters, restored: bool) returns (o: Observation, item: Policy)
    requires stored.lastKernelRx >= 0 && stored.lastKernelTx >= 0
    ensures item == CheckpointPolicy(stored, raw)
    ensures Reports(o, item, raw, restored)
  {
    item := stored;
    var rawRx := Read(raw, CounterName(item.id, Rx));
    var rawTx := Read(raw, CounterName(item.id, Tx));
    var rxPresent := CounterName(item.id, Rx) in raw;
    var txPresent := CounterName(item.id, Tx) in raw;
    if item.direction.TxOnly? {
      rxPresent := true;
    }
    if item.direction.RxOnly? {
      txPresent := true;
    }
    if rxPresent && rawRx >= item.lastKernelRx {
      item := item.(lifetimeRx := item.lifetimeRx + (rawRx - item.lastKernelRx));
      item := item.(lastKernelRx := rawRx);
    }
    if txPresent && rawTx >= item.lastKernelTx {
      item := item.(lifetimeTx := item.lifetimeTx + (rawTx - item.lastKernelTx));
      item := item.(lastKernelTx := rawTx);
    }
    var ruleState := Active;
    var discontinuity := None;
    if restored {
      discontinuity := Some(RuleRestore);
    } else if !rxPresent || !txPresent {
      ruleState := Missing;
      discontinuity := Some(RuleMissing);
    }
    var periodRx := item.lifetimeRx - item.periodStartRx;
    var periodTx := item.lifetimeTx - item.periodStartTx;
    var quotaState := QuotaStateOf(periodRx + periodTx, item.quotaBytes);
    o := Observation(item.id, item.lifetimeRx, item.lifetimeTx, periodRx, periodTx,
                     quotaState, item.generation, ruleState, discontinuity);
  }

  method TakeCheckpoint(current: seq<Policy>, raw: Counters, restored: bool)
    returns (observations: seq<Observation>, checkpoint: seq<Policy>)
    requires forall i | 0 <= i < |current| :: current[i].lastKernelRx >= 0 && current[i].lastKernelTx >= 0
    ensures checkpoint == Checkpointed(current, raw)
    ensures |observations| == |current|
    ensures forall i | 0 <= i < |current| :: Reports(observations[i], checkpoint[i], raw, restored)
  {
    checkpoint := current;
    observations := [];
    for index := 0 to |checkpoint|
      invariant |checkpoint| == |current| && |observations| == index
      invariant forall i | 0 <= i < index :: checkpoint[i] == CheckpointPolicy(current[i], raw)
      invariant forall i | index <= i < |checkpoint| :: checkpoint[i] == current[i]
      invariant forall i | 0 <= i < index :: Reports(observations[i], checkpoint[i], raw, restored)
    {
      var observation, item := CheckpointOne(checkpoint[index], raw, restored);
      observations := observations + [observation];
      checkpoint := checkpoint[index := item];
    }
  }

  // ---------------------------------------------------------------- requests

  datatype Operation = Apply | Remove | Reset

  /** The position of a policy, or None. */
  function Find(policies: seq<Policy>, id: string): (r: Option<nat>)
    ensures r.Some? ==> r.value < |policies| && policies[r.value].id == id
    ensures r.Some? ==> forall i | 0 <= i < r.value :: policies[i].id != id
    ensures r.None? ==> forall i | 0 <= i < |policies| :: policies[i].id != id
  {
    if policies == [] then None
    else if policies[0].id == id then Some(0)
    else
      var r := Find(policies[1..], id);
      if r.None? then None else Some(r.value + 1)
  }

  predicate Overlaps(left: Policy, right: Policy) {
    && (left.protocol.TcpAndUdp? || right.protocol.TcpAndUdp? || left.protocol == right.protocol)
    && left.portStart <= right.portEnd && right.portStart <= left.portEnd
  }

  datatype Desired = Desired(policies: seq<Policy>, generation: int)

  /** A policy keeps its accounts, its period and its generation when it is applied again. */
  function Reapplied(parsed: Policy, stored: Policy): Policy {
    parsed.(lifetimeRx := stored.lifetimeRx, lifetimeTx := stored.lifetimeTx,
            periodStartRx := stored.periodStartRx, periodStartTx := stored.periodStartTx,
            periodStarted := stored.periodStarted, lastResetAt := stored.lastResetAt,
            generation := stored.generation)
  }

  /** A reset closes the running period and opens the next one. */
  function ResetTo(stored: Policy, parsed: Policy, now: int): Policy {
    stored.(periodStartRx := stored.lifetimeRx, periodStartTx := stored.lifetimeTx,
            periodStarted := now, lastResetAt := now,
            resetPolicy := parsed.resetPolicy, nextResetAt := parsed.nextResetAt,
            generation := stored.generation + 1)
  }

  function DesiredState(current: seq<Policy>, op: Operation, parsed: Policy, now: int): Result<Desired, string> {
    var index := Find(current, parsed.id);
    match op
    case Apply =>
      if index.None? then
        if |current| >= MAX_POLICIES then Err("policy limit reached")
        else if exists i :: 0 <= i < |current| && Overlaps(parsed, current[i]) then Err("policy overlaps an owned rule")
        else Ok(Desired(current + [parsed.(periodStarted := now)], parsed.generation))
      else
        Ok(Desired(current[index.value := Reapplied(parsed, current[index.value])], current[index.value].generation))
    case Remove =>
      if index.None? then Ok(Desired(current, parsed.generation))
      else
        Ok(Desired(current[..index.value] + current[index.value + 1..], parsed.generation))
    case Reset =>
      if index.None? then Err("policy does not exist")
      else
        Ok(Desired(current[index.value := ResetTo(current[index.value], parsed, now)],
                   current[index.value].generation + 1))
  }

  method FindPolicy(items: seq<Policy>, id: string) returns (position: int)
    ensures position == -1 <==> Find(items, id).None?
    ensures position != -1 ==> Find(items, id) == Some(position)
  {
    for index := 0 to |items|
      invariant forall i | 0 <= i < index :: items[i].id != id
    {
      if items[index].id == id {
        return index;
      }
    }
    return -1;
  }

  /** The edit made on a copy of the list, field by field. */
  method ComputeDesiredState(current: seq<Policy>, op: Operation, parsed: Policy, now: int)
    returns (result: Result<Desired, string>)
    requires DistinctIds(current)
    ensures result == DesiredState(current, op, parsed, now)
  {
    var next := current;
    var index := FindPolicy(next, parsed.id);
    match op {
      case Apply =>
        if index < 0 {
          if |next| >= MAX_POLICIES {
            return Err("policy limit reached");
          }
          for i := 0 to |next|
            invariant forall k | 0 <= k < i :: !Overlaps(parsed, next[k])
          {
            if Overlaps(parsed, next[i]) {
              return Err("policy overlaps an owned rule");
            }
          }
          next := next + [parsed.(periodStarted := now)];
          assert next[|current|].id == parsed.id;
        } else {
          var item := parsed;
          item := item.(lifetimeRx := next[index].lifetimeRx);
          item := item.(lifetimeTx := next[index].lifetimeTx);
          item := item.(periodStartRx := next[index].periodStartRx);
          item := item.(periodStartTx := next[index].periodStartTx);
          item := item.(periodStarted := next[index].periodStarted);
          item := item.(lastResetAt := next[index].lastResetAt);
          item := item.(generation := next[index].generation);
          next := next[index := item];
          assert next[index].id == parsed.id;
        }
      case Remove =>
        if index < 0 {
          return Ok(Desired(current, parsed.generation));
        }
        next := next[..index] + next[index + 1..];
      case Reset =>
        if index < 0 {
          return Err("policy does not exist");
        }
        var item := next[index];
        item := item.(periodStartRx := item.lifetimeRx);
        item := item.(periodStartTx := item.lifetimeTx);
        item := item.(periodStarted := now);
        item := item.(lastResetAt := item.periodStarted);
        item := item.(resetPolicy := parsed.resetPolicy);
        item := item.(nextResetAt := parsed.nextResetAt);
        item := item.(generation := item.generation + 1);
        next := next[index := item];
        return Ok(Desired(next, next[index].generation));
    }
    var position := FindPolicy(next, parsed.id);
    if position >= 0 {
      return Ok(Desired(next, next[position].generation));
    }
    return Ok(Desired(next, parsed.generation));
  }

  // ---------------------------------------------------------------- what a request keeps

  /** What the helper's stored policies always satisfy. */
  ghost predicate Sane(policies: seq<Policy>) {
    && DistinctIds(policies)
    && AllBounded(policies)
    && |policies| <= MAX_POLICIES
    && forall i, way | 0 <= i < |policies| ::
         0 <= policies[i].PeriodStart(way) <= policies[i].Lifetime(way) && 0 <= policies[i].LastKernel(way)
  }

  ghost predicate FreshlyParsed(p: Policy) {
    Bounded(p) && forall way :: p.Lifetime(way) == p.LastKernel(way) == p.PeriodStart(way) == 0
  }

  lemma AbsorbedSane(policies: seq<Policy>, raw: Counters)
    requires Sane(policies)
    ensures Sane(Absorbed(policies, raw))
  {
    var next := Absorbed(policies, raw);
    forall i | 0 <= i < |next|
      ensures next[i].id == policies[i].id && Bounded(next[i])
    {
      assert Bounded(policies[i]);
    }
    forall i, way | 0 <= i < |next|
      ensures 0 <= next[i].PeriodStart(way) <= next[i].Lifetime(way) && 0 <= next[i].LastKernel(way)
    {
      assert 0 <= policies[i].PeriodStart(way) <= policies[i].Lifetime(way);
    }
  }

  lemma CheckpointedSane(policies: seq<Policy>, raw: Counters)
    requires Sane(policies)
    ensures Sane(Checkpointed(policies, raw))
  {
    var next := Checkpointed(policies, raw);
    forall i | 0 <= i < |next|
      ensures next[i].id == policies[i].id && Bounded(next[i])
    {
      assert Bounded(policies[i]);
    }
    forall i, way | 0 <= i < |next|
      ensures 0 <= next[i].PeriodStart(way) <= next[i].Lifetime(way) && 0 <= next[i].LastKernel(way)
    {
      assert 0 <= policies[i].PeriodStart(way) <= policies[i].Lifetime(way) && 0 <= policies[i].LastKernel(way);
    }
  }

  /** No request breaks the stored state: identifiers stay distinct, the limit of 64 holds,
      every bound holds, and no period starts beyond its total. */
  lemma DesiredSane(current: seq<Policy>, op: Operation, parsed: Policy, now: int)
    requires Sane(current) && FreshlyParsed(parsed)
    requires DesiredState(current, op, parsed, now).Ok?
    ensures Sane(DesiredState(current, op, parsed, now).value.policies)
  {
    var next := DesiredState(current, op, parsed, now).value.policies;
    var index := Find(current, parsed.id);
    forall i | 0 <= i < |next|
      ensures Bounded(next[i])
    {
      var source := if op.Remove? && index.Some? && i >= index.value then i + 1 else i;
      assert source < |current| ==> Bounded(current[source]);
    }
    DesiredAccounts(current, op, parsed, now);
  }

  /** No period starts beyond its total, and nothing is negative. */
  predicate Healthy(p: Policy) {
    && 0 <= p.periodStartRx <= p.lifetimeRx && 0 <= p.lastKernelRx
    && 0 <= p.periodStartTx <= p.lifetimeTx && 0 <= p.lastKernelTx
  }

  lemma SaneIsHealthy(policies: seq<Policy>, i: nat)
    requires Sane(policies) && i < |policies|
    ensures Healthy(policies[i])
  {
    assert 0 <= policies[i].PeriodStart(Rx) <= policies[i].Lifetime(Rx) && 0 <= policies[i].LastKernel(Rx);
    assert 0 <= policies[i].PeriodStart(Tx) <= policies[i].Lifetime(Tx) && 0 <= policies[i].LastKernel(Tx);
  }

  lemma ParsedIsHealthy(parsed: Policy)
    requires FreshlyParsed(parsed)
    ensures Healthy(parsed) && parsed.lastKernelRx == parsed.lastKernelTx == 0
  {
    assert parsed.Lifetime(Rx) == parsed.LastKernel(Rx) == parsed.PeriodStart(Rx) == 0;
    assert parsed.Lifetime(Tx) == parsed.LastKernel(Tx) == parsed.PeriodStart(Tx) == 0;
  }

  lemma DesiredHealthy(current: seq<Policy>, op: Operation, parsed: Policy, now: int, i: nat)
    requires Sane(current) && FreshlyParsed(parsed)
    requires DesiredState(current, op, parsed, now).Ok?
    requires i < |DesiredState(current, op, parsed, now).value.policies|
    ensures Healthy(DesiredState(current, op, parsed, now).value.policies[i])
  {
    ParsedIsHealthy(parsed);
    var index := Find(current, parsed.id);
    var source := if op.Remove? && index.Some? && i >= index.value then i + 1 else i;
    if source < |current| {
      SaneIsHealthy(current, source);
    }
  }

  lemma DesiredAccounts(current: seq<Policy>, op: Operation, parsed: Policy, now: int)
    requires Sane(current) && FreshlyParsed(parsed)
    requires DesiredState(current, op, parsed, now).Ok?
    ensures var next := DesiredState(current, op, parsed, now).value.policies;
            forall i, way | 0 <= i < |next| ::
              0 <= next[i].PeriodStart(way) <= next[i].Lifetime(way) && 0 <= next[i].LastKernel(way)
  {
    var next := DesiredState(current, op, parsed, now).value.policies;
    forall i, way | 0 <= i < |next|
      ensures 0 <= next[i].PeriodStart(way) <= next[i].Lifetime(way) && 0 <= next[i].LastKernel(way)
    {
      DesiredHealthy(current, op, parsed, now, i);
    }
  }

  /** Each policy of the desired state and where its accounts come from: the same policy
      before, or nothing at all. */
  ghost predicate ComesFrom(q: Policy, current: seq<Policy>, op: Operation, parsed: Policy) {
    (exists i ::
       && 0 <= i < |current| && current[i].id == q.id
       && q.lifetimeRx == current[i].lifetimeRx && q.lifetimeTx == current[i].lifetimeTx
       && (if op.Reset? && q.id == parsed.id
           then q.periodStartRx == q.lifetimeRx && q.periodStartTx == q.lifetimeTx
                && q.generation == current[i].generation + 1
           else q.periodStartRx == current[i].periodStartRx && q.periodStartTx == current[i].periodStartTx
                && q.generation == current[i].generation)
       && (if op.Apply? && q.id == parsed.id
           then q.lastKernelRx == 0 && q.lastKernelTx == 0
           else q.lastKernelRx == current[i].lastKernelRx && q.lastKernelTx == current[i].lastKernelTx))
    || (op.Apply? && q.id == parsed.id && (forall i | 0 <= i < |current| :: current[i].id != q.id)
        && forall way :: q.Lifetime(way) == q.LastKernel(way) == q.PeriodStart(way) == 0)
  }

  /** An apply keeps the accounts, the period and the generation of an existing policy; a
      reset starts its period at its total and raises its generation by one; every other
      policy keeps its accounts; only an apply brings a policy in, with empty accounts. */
  lemma RequestKeepsAccounts(current: seq<Policy>, op: Operation, parsed: Policy, now: int, k: nat)
    requires DistinctIds(current) && FreshlyParsed(parsed)
    requires DesiredState(current, op, parsed, now).Ok?
    requires k < |DesiredState(current, op, parsed, now).value.policies|
    ensures ComesFrom(DesiredState(current, op, parsed, now).value.policies[k], current, op, parsed)
  {
    var next := DesiredState(current, op, parsed, now).value.policies;
    var index := Find(current, parsed.id);
    assert forall way :: parsed.Lifetime(way) == parsed.LastKernel(way) == parsed.PeriodStart(way) == 0;
    assert parsed.lastKernelRx == parsed.LastKernel(Rx) && parsed.lastKernelTx == parsed.LastKernel(Tx);
    var source := if op.Remove? && index.Some? && k >= index.value then k + 1 else k;
    if source < |current| {
      assert current[source].id == next[k].id;
    } else {
      assert forall way :: next[k].Lifetime(way) == parsed.Lifetime(way);
    }
  }

  /** A removal takes exactly one policy away; the other operations take none. */
  lemma RequestKeepsPolicies(current: seq<Policy>, op: Operation, parsed: Policy, now: int, i: nat)
    requires DistinctIds(current) && i < |current|
    requires DesiredState(current, op, parsed, now).Ok?
    ensures var next := DesiredState(current, op, parsed, now).value.policies;
            (exists k :: 0 <= k < |next| && next[k].id == current[i].id) <==>
            !(op.Remove? && current[i].id == parsed.id)
  {
    var next := DesiredState(current, op, parsed, now).value.policies;
    var index := Find(current, parsed.id);
    var target := if op.Remove? && index.Some? && i > index.value then i - 1 else i;
    if !(op.Remove? && current[i].id == parsed.id) {
      assert next[target].id == current[i].id;
    }
  }

  // ---------------------------------------------------------------- what a request does to the rules

  /** Two policies with the same rule and the same plan: all that does not count bytes. */
  predicate SameRule(p: Policy, q: Policy) {
    && p.protocol == q.protocol && p.direction == q.direction
    && p.portStart == q.portStart && p.portEnd == q.portEnd && p.interfaceName == q.interfaceName
    && p.mode == q.mode && p.quotaBytes == q.quotaBytes && p.egressRate == q.egressRate
  }

  predicate SamePlan(p: Policy, q: Policy) {
    p.resetPolicy == q.resetPolicy && p.nextResetAt == q.nextResetAt
  }

  /** What an accepted apply makes of the policy it names: the request's rule and plan, in the
      period of the stored policy if there is one, in a new period otherwise. */
  ghost predicate IsApplied(q: Policy, current: seq<Policy>, parsed: Policy, now: int) {
    && SameRule(q, parsed) && SamePlan(q, parsed)
    && if exists p <- current :: p.id == parsed.id
       then exists p <- current ::
              p.id == parsed.id && q.periodStarted == p.periodStarted && q.lastResetAt == p.lastResetAt
       else q.periodStarted == now && q.lastResetAt == parsed.lastResetAt
  }

  /** What a reset makes of it: its own rule, the request's plan, and a period that starts now. */
  ghost predicate IsReset(q: Policy, current: seq<Policy>, parsed: Policy, now: int) {
    && SamePlan(q, parsed) && q.periodStarted == now && q.lastResetAt == now
    && exists p <- current :: p.id == parsed.id && SameRule(q, p)
  }

  /** Main result: what an accepted request makes of the policy it names, which a removal takes
      away; every other policy is equal to what it was, and none is lost or added. */
  lemma RequestSetsThePolicy(current: seq<Policy>, op: Operation, parsed: Policy, now: int)
    requires DistinctIds(current) && DesiredState(current, op, parsed, now).Ok?
    ensures var next := DesiredState(current, op, parsed, now).value.policies;
            && (forall p: Policy | p.id != parsed.id :: p in next <==> p in current)
            && (op.Remove? <==> forall q <- next :: q.id != parsed.id)
            && (op.Apply? ==> forall q <- next | q.id == parsed.id :: IsApplied(q, current, parsed, now))
            && (op.Reset? ==> forall q <- next | q.id == parsed.id :: IsReset(q, current, parsed, now))
  {
    var next := DesiredState(current, op, parsed, now).value.policies;
    var index := Find(current, parsed.id);
    if index.None? {
      if op.Apply? {
        NewIsApplied(current, parsed, now);
        assert parsed.(periodStarted := now) in next;
      }
    } else {
      var i := index.value;
      if op.Remove? {
        OthersStay(current, i, []);
      } else {
        OthersStay(current, i, [next[i]]);
        assert next == current[..i] + [next[i]] + current[i + 1..];
        StoredIsChanged(current, i, parsed, now);
      }
    }
  }

  /** The generation answered is that of the policy as it is stored then, and that of the request
      where none is. */
  lemma AnswersTheStoredGeneration(current: seq<Policy>, op: Operation, parsed: Policy, now: int)
    requires DistinctIds(current) && DesiredState(current, op, parsed, now).Ok?
    ensures var d := DesiredState(current, op, parsed, now).value;
            && (forall q <- d.policies | q.id == parsed.id :: d.generation == q.generation)
            && ((forall q <- d.policies :: q.id != parsed.id) ==> d.generation == parsed.generation)
  {
    var index := Find(current, parsed.id);
    if index.Some? && !op.Remove? {
      var next := DesiredState(current, op, parsed, now).value.policies;
      assert next[index.value].id == parsed.id && next[index.value] in next;
    } else if index.None? && op.Apply? {
      assert parsed.(periodStarted := now) in DesiredState(current, op, parsed, now).value.policies;
    }
  }

  /** Replacing one policy by others of its identifier leaves the rest. */
  lemma OthersStay(current: seq<Policy>, i: nat, made: seq<Policy>)
    requires DistinctIds(current) && i < |current| && forall q <- made :: q.id == current[i].id
    ensures var next := current[..i] + made + current[i + 1..];
            && (forall p: Policy | p.id != current[i].id :: p in next <==> p in current)
            && (forall p: Policy | p.id == current[i].id :: p in next <==> p in made)
  {
    assert current == current[..i] + [current[i]] + current[i + 1..];
  }

  lemma NewIsApplied(current: seq<Policy>, parsed: Policy, now: int)
    requires forall p <- current :: p.id != parsed.id
    ensures IsApplied(parsed.(periodStarted := now), current, parsed, now)
  {
  }

  lemma StoredIsChanged(current: seq<Policy>, i: nat, parsed: Policy, now: int)
    requires DistinctIds(current) && i < |current| && current[i].id == parsed.id
    ensures IsApplied(Reapplied(parsed, current[i]), current, parsed, now)
    ensures IsReset(ResetTo(current[i], parsed, now), current, parsed, now)
  {
    assert current[i] in current;
  }

  /** The layer-4 protocol is one the policy counts. */
  predicate Covers(p: Policy, l4: L4, port: int) {
    && (if l4 == TCP then p.protocol != Udp else p.protocol != Tcp)
    && p.portStart <= port <= p.portEnd
  }

  /** Exactly when a request is accepted: a reset needs its policy; a new policy needs room and
      traffic of its own, that is no protocol and port that a stored policy already counts. */
  lemma RequestAcceptedIff(current: seq<Policy>, op: Operation, parsed: Policy, now: int)
    requires AllBounded(current) && Bounded(parsed)
    ensures DesiredState(current, op, parsed, now).Ok? <==>
            var stored := exists p <- current :: p.id == parsed.id;
            match op
            case Apply =>
              stored
              || (|current| < 64
                  && !exists p, l4, port :: p in current && Covers(p, l4, port) && Covers(parsed, l4, port))
            case Remove => true
            case Reset => stored
  {
    StoredIff(current, parsed.id);
    forall p | p in current
      ensures Overlaps(parsed, p) <==> exists l4, port :: Covers(p, l4, port) && Covers(parsed, l4, port)
    {
      OverlapIsSharedTraffic(parsed, p);
    }
    if i :| 0 <= i < |current| && Overlaps(parsed, current[i]) {
      assert current[i] in current;
    }
  }

  lemma StoredIff(current: seq<Policy>, id: string)
    ensures Find(current, id).Some? <==> exists p <- current :: p.id == id
  {
    if Find(current, id).Some? {
      assert current[Find(current, id).value] in current;
    }
  }

  /** Two rules overlap exactly when some traffic is counted by both. */
  lemma OverlapIsSharedTraffic(p: Policy, q: Policy)
    requires Bounded(p) && Bounded(q)
    ensures Overlaps(p, q) <==> exists l4, port :: Covers(q, l4, port) && Covers(p, l4, port)
  {
    if Overlaps(p, q) {
      var port := Max(p.portStart, q.portStart);
      var l4 := if p.protocol != Udp && q.protocol != Udp then TCP else UDP;
      assert Covers(q, l4, port) && Covers(p, l4, port);
    }
  }

  // ---------------------------------------------------------------- quota

  /** The quota handed to the kernel: at least one byte, never more than the policy's quota,
      and together with what the period has used it makes up the quota while any is left.
      So rendering the ruleset again grants no byte twice. */
  lemma KernelQuotaNeverRegrants(p: Policy)
    requires Bounded(p) && p.mode.Enforcing?
    requires forall way :: p.PeriodStart(way) <= p.Lifetime(way)
    ensures 1 <= KernelQuota(p) <= p.quotaBytes
    ensures p.Used() < p.quotaBytes ==> p.Used() + KernelQuota(p) == p.quotaBytes
    ensures p.quotaBytes <= p.Used() ==> KernelQuota(p) == 1
  {
    assert p.PeriodStart(Rx) <= p.Lifetime(Rx) && p.PeriodStart(Tx) <= p.Lifetime(Tx);
  }
}
