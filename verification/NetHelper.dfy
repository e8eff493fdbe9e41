/** The helper itself: its durable state, the kernel it drives, and the order in which one
    request reads, decides, applies, writes and undoes (agent/nethelper/main.go:133-387). */
module NetHelper {
  import opened Base
  import opened PolicyModel
  import opened NftTable
  import opened HelperNetwork
  import opened HelperAccounting
  import opened HelperRuns
  import opened HelperNonces

  /** The disk after an outcome: what was committed, or what was there. */
  function OnDisk(before: seq<Policy>, o: Outcome): seq<Policy> {
    if o.committed.Some? then o.committed.value else before
  }

  /** A nonce reaches the disk exactly with the state that is committed next to it. */
  ghost predicate NonceCommitted(before: Store, after: Store, a: Authorization, now: int, committed: bool) {
    if committed then exists evicted :: MayEvict(before, now, evicted) && after == Consume(before, a, now, evicted)
    else after == before
  }

  ghost predicate ReportsAll(observations: seq<Observation>, policies: seq<Policy>, raw: Counters, restored: bool) {
    && |observations| == |policies|
    && forall i | 0 <= i < |policies| :: Reports(observations[i], policies[i], raw, restored)
  }

  /** The snapshot found the ruleset damaged and put it back. */
  predicate Restored(policies: seq<Policy>, t: Option<Table>, e: SnapshotEnv) {
    var baseline := Absorbed(policies, CountersOf(t));
    !Verified(t, policies, e.verifies) && ApplyOutcome(t, baseline, baseline, e.restore).ok
  }

  /** The generation a request answers with is that of the policy in the desired state. */
  ghost predicate Answers(result: Result<int, string>, policies: seq<Policy>, t: Option<Table>, op: Operation,
                          parsed: Policy, now: int)
  {
    result.Ok? ==>
      var d := DesiredState(Absorbed(policies, CountersOf(t)), op, parsed, now);
      d.Ok? && result.value == d.value.generation
  }

  class Helper {
    const kernel: Kernel
    var policies: seq<Policy>
    var nonces: Store

    constructor (kernel: Kernel)
      ensures this.kernel == kernel && policies == [] && nonces == map[]
    {
      this.kernel := kernel;
      policies := [];
      nonces := map[];
    }

    method TakeSnapshot(e: SnapshotEnv) returns (observations: Option<seq<Observation>>)
      requires Sane(policies)
      modifies this`policies, kernel
      ensures var o := SnapshotOutcome(old(policies), old(kernel.table), e);
              && kernel.table == o.table
              && policies == OnDisk(old(policies), o)
              && (observations.Some? <==> o.committed.Some?)
      ensures observations.Some? ==>
                ReportsAll(observations.value, policies, CountersOf(kernel.table),
                           Restored(old(policies), old(kernel.table), e))
      ensures Sane(policies)
    {
      if !e.readable {
        return None;
      }
      var raw := CountersOf(kernel.table);
      var restored := false;
      var current := policies;
      AbsorbedSane(current, raw);
      CheckpointedSane(current, raw);
      if !Verified(kernel.table, current, e.verifies) {
        current := AbsorbCounters(current, raw);
        restored := kernel.ApplyNetwork(current, current, e.restore);
        if !e.rereadable {
          return None;
        }
        raw := CountersOf(kernel.table);
        CheckpointedSane(current, raw);
      }
      forall i | 0 <= i < |current|
        ensures current[i].lastKernelRx >= 0 && current[i].lastKernelTx >= 0
      {
        assert 0 <= current[i].LastKernel(Rx) && 0 <= current[i].LastKernel(Tx);
      }
      var report, checkpoint := TakeCheckpoint(current, raw, restored);
      if !e.written {
        return None;
      }
      policies := checkpoint;
      assert ReportsAll(report, policies, raw, restored);
      return Some(report);
    }

    /** A signed apply, remove or reset. */
    method Execute(a: Authorization, fields: RawPolicy, op: Operation, now: int, e: ChangeEnv)
      returns (result: Result<int, string>)
      requires Sane(policies)
      modifies this, kernel
      ensures Sane(policies)
      ensures !Accepts(old(nonces), a, now) || ParsePolicy(fields, true).Err? ==>
                result.Err? && policies == old(policies) && nonces == old(nonces) && kernel.table == old(kernel.table)
      ensures Accepts(old(nonces), a, now) && ParsePolicy(fields, true).Ok? ==>
                var o := ChangeOutcome(old(policies), old(kernel.table), op, ParsePolicy(fields, true).value, now, e);
                && kernel.table == o.table
                && policies == OnDisk(old(policies), o)
                && NonceCommitted(old(nonces), nonces, a, now, o.committed.Some?)
                && (result.Ok? <==> o.committed.Some? && e.written)
                && Answers(result, old(policies), old(kernel.table), op, ParsePolicy(fields, true).value, now)
    {
      if !Accepts(nonces, a, now) {
        return Err("authorization is not accepted");
      }
      var parsed := ParsePolicy(fields, true);
      if parsed.Err? {
        return Err(parsed.error);
      }
      result := Change(a, parsed.value, op, now, e);
    }

    /** What changes and dry runs begin with: read and absorb the counters, edit the list. */
    method Prepare(parsed: Policy, op: Operation, now: int, readable: bool)
      returns (r: Result<(seq<Policy>, Desired), string>)
      requires Sane(policies)
      ensures var baseline := Absorbed(policies, CountersOf(kernel.table));
              var d := DesiredState(baseline, op, parsed, now);
              && Sane(baseline)
              && (r.Ok? <==> CanRead(kernel.table, readable) && d.Ok?)
              && (r.Ok? ==> r.value == (baseline, d.value))
              && (r.Ok? && FreshlyParsed(parsed) ==> Sane(d.value.policies))
    {
      AbsorbedSane(policies, CountersOf(kernel.table));
      if kernel.table.Some? && !readable {
        return Err("counters cannot be read");
      }
      var baseline := AbsorbCounters(policies, CountersOf(kernel.table));
      var desired := ComputeDesiredState(baseline, op, parsed, now);
      if desired.Err? {
        return Err(desired.error);
      }
      if FreshlyParsed(parsed) {
        DesiredSane(baseline, op, parsed, now);
      }
      return Ok((baseline, desired.value));
    }

    /** The part of a request that follows its checks. */
    method Change(a: Authorization, parsed: Policy, op: Operation, now: int, e: ChangeEnv)
      returns (result: Result<int, string>)
      requires Sane(policies) && FreshlyParsed(parsed)
      modifies this, kernel
      ensures Sane(policies)
      ensures var o := ChangeOutcome(old(policies), old(kernel.table), op, parsed, now, e);
              && kernel.table == o.table
              && policies == OnDisk(old(policies), o)
              && NonceCommitted(old(nonces), nonces, a, now, o.committed.Some?)
              && (result.Ok? <==> o.committed.Some? && e.written)
      ensures Answers(result, old(policies), old(kernel.table), op, parsed, now)
    {
      var prepared := Prepare(parsed, op, now, e.readable);
      if prepared.Err? {
        return Err(prepared.error);
      }
      var (baseline, desired) := prepared.value;
      var committed := Commit(a, baseline, desired.policies, now, e);
      if committed {
        return Ok(desired.generation);
      }
      return Err("the change was not committed");
    }

    /** Apply, write, and undo when the writing fails. */
    method Commit(a: Authorization, baseline: seq<Policy>, desired: seq<Policy>, now: int, e: ChangeEnv)
      returns (done: bool)
      modifies this, kernel
      ensures var o := CommitOutcome(old(kernel.table), baseline, desired, e);
              && kernel.table == o.table
              && policies == OnDisk(old(policies), o)
              && NonceCommitted(old(nonces), nonces, a, now, o.committed.Some?)
              && (o.committed.Some? ==> o.committed.value in {desired, baseline})
              && (done <==> o.committed.Some? && e.written)
    {
      var consumed, evicted := ConsumeNonce(nonces, a, now);
      var applied := kernel.ApplyNetwork(baseline, desired, e.apply);
      if !applied {
        return false;
      }
      if e.written {
        policies, nonces := desired, consumed;
        return true;
      }
      var _ := kernel.ApplyNetwork(desired, baseline, e.undo);
      if e.rewritten {
        // The nonce store is shared with the state that was to be written.
        policies, nonces := baseline, consumed;
      }
      return false;
    }

    /** A signed dry run: it consumes its nonce and commits the absorbed totals, and touches
        neither the policies nor the kernel. */
    method ExecuteDryRun(a: Authorization, fields: RawPolicy, op: Operation, now: int, readable: bool, written: bool)
      returns (result: Result<int, string>)
      requires Sane(policies)
      modifies this
      ensures Sane(policies)
      ensures !Accepts(old(nonces), a, now) || ParsePolicy(fields, false).Err? ==>
                result.Err? && policies == old(policies) && nonces == old(nonces)
      ensures Accepts(old(nonces), a, now) && ParsePolicy(fields, false).Ok? ==>
                var parsed := ParsePolicy(fields, false).value;
                var o := DryRunOutcome(old(policies), kernel.table, op, parsed, now, readable, written);
                && policies == OnDisk(old(policies), o)
                && NonceCommitted(old(nonces), nonces, a, now, o.committed.Some?)
                && (result.Ok? <==> o.committed.Some?)
                && Answers(result, old(policies), kernel.table, op, parsed, now)
    {
      if !Accepts(nonces, a, now) {
        return Err("authorization is not accepted");
      }
      var parsed := ParsePolicy(fields, false);
      if parsed.Err? {
        return Err(parsed.error);
      }
      result := DryRun(a, parsed.value, op, now, readable, written);
    }

    /** The part of a dry run that follows its checks. */
    method DryRun(a: Authorization, parsed: Policy, op: Operation, now: int, readable: bool, written: bool)
      returns (result: Result<int, string>)
      requires Sane(policies)
      modifies this
      ensures Sane(policies)
      ensures var o := DryRunOutcome(old(policies), kernel.table, op, parsed, now, readable, written);
              && policies == OnDisk(old(policies), o)
              && NonceCommitted(old(nonces), nonces, a, now, o.committed.Some?)
              && (result.Ok? <==> o.committed.Some?)
      ensures Answers(result, old(policies), kernel.table, op, parsed, now)
    {
      var prepared := Prepare(parsed, op, now, readable);
      if prepared.Err? {
        return Err(prepared.error);
      }
      var (baseline, desired) := prepared.value;
      var consumed, evicted := ConsumeNonce(nonces, a, now);
      if !written {
        return Err("authorization nonce could not be committed");
      }
      policies, nonces := baseline, consumed;
      return Ok(desired.generation);
    }

    method Purge(e: ChangeEnv) returns (ok: bool)
      requires Sane(policies)
      modifies this, kernel
      ensures Sane(policies)
      ensures var o := PurgeOutcome(old(policies), old(kernel.table), e);
              && kernel.table == o.table
              && policies == OnDisk(old(policies), o)
              && nonces == (if ok then map[] else old(nonces))
              && (ok <==> o.committed.Some? && e.written)
    {
      if kernel.table.Some? && !e.readable {
        return false;
      }
      var baseline := AbsorbCounters(policies, CountersOf(kernel.table));
      AbsorbedSane(policies, CountersOf(kernel.table));
      var applied := kernel.ApplyNetwork(baseline, [], e.apply);
      if !applied {
        return false;
      }
      if e.written {
        policies, nonces := [], map[];
        return true;
      }
      var _ := kernel.ApplyNetwork([], baseline, e.undo);
      if e.rewritten {
        policies := baseline;
      }
      return false;
    }
  }
}
