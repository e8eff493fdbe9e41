/** How a request ends, from its checks to the disk and the kernel (agent/nethelper/main.go:301-387,
    agent/nethelper/network.go:375-405). */
module HelperChanges {
  import opened Base
  import opened PolicyModel
  import opened NftTable
  import opened HelperNetwork
  import opened HelperAccounting
  import opened HelperRuns
  import opened HelperHealing
  import N = HelperNonces
  import NetHelper

  /** Everything an apply needs: interfaces named, traffic control in order where a rate is limited,
      and nft where there is a ruleset before or after. */
  ghost predicate Goes(t: Option<Table>, before: seq<Policy>, desired: seq<Policy>, f: Faults) {
    && ShapedAreNamed(before) && ShapedAreNamed(desired)
    && ((exists p <- before + desired :: p.egressRate > 0) ==> f.tcOwned && f.tcApplies)
    && (f.nftRuns || (desired == [] && t.None?))
    && f.verifies
  }

  /** An apply, then the writing; where the writing fails, an apply back. */
  lemma CommitEnds(t: Option<Table>, baseline: seq<Policy>, desired: seq<Policy>, e: ChangeEnv)
    requires Sane(baseline) && Sane(desired)
    ensures var o := CommitOutcome(t, baseline, desired, e);
            if !Goes(t, baseline, desired, e.apply) then o.committed == None
            else if e.written then o.committed == Some(desired) && Realises(o.table, desired)
            else
              && o.committed == (if e.rewritten then Some(baseline) else None)
              && (FaultFree(e.undo) ==> Realises(o.table, baseline))
  {
    ApplySucceedsIff(t, baseline, desired, e.apply);
    ApplyEnds(t, baseline, desired, e.apply);
    var r := ApplyOutcome(t, baseline, desired, e.apply);
    if r.ok {
      ApplySucceedsIff(r.table, desired, baseline, e.undo);
      ApplyEnds(r.table, desired, baseline, e.undo);
    }
  }

  /** Main result: exactly when an apply, a removal or a reset reaches the disk, and what the kernel
      then holds. A change that is refused or fails is not committed; one that is applied but cannot
      be written is taken back in the kernel. */
  lemma ChangeEnds(policies: seq<Policy>, t: Option<Table>, op: Operation, parsed: Policy, now: int, e: ChangeEnv)
    requires Sane(policies) && FreshlyParsed(parsed)
    ensures var baseline := Absorbed(policies, CountersOf(t));
            var d := DesiredState(baseline, op, parsed, now);
            var o := ChangeOutcome(policies, t, op, parsed, now, e);
            if (t.Some? && !e.readable) || d.Err? then o == Outcome(None, t)
            else if !Goes(t, baseline, d.value.policies, e.apply) then o.committed == None
            else if e.written then o.committed == Some(d.value.policies) && Realises(o.table, d.value.policies)
            else
              && o.committed == (if e.rewritten then Some(baseline) else None)
              && (FaultFree(e.undo) ==> Realises(o.table, baseline))
  {
    var baseline := Absorbed(policies, CountersOf(t));
    var d := DesiredState(baseline, op, parsed, now);
    AbsorbedSane(policies, CountersOf(t));
    if d.Ok? {
      DesiredSane(baseline, op, parsed, now);
      CommitEnds(t, baseline, d.value.policies, e);
    }
  }

  /** A purge that meets no fault leaves no policy and no table; one that cannot be written is taken
      back. */
  lemma PurgeEnds(policies: seq<Policy>, t: Option<Table>, e: ChangeEnv)
    requires Sane(policies)
    ensures var baseline := Absorbed(policies, CountersOf(t));
            var o := PurgeOutcome(policies, t, e);
            if t.Some? && !e.readable then o == Outcome(None, t)
            else if !Goes(t, baseline, [], e.apply) then o.committed == None
            else if e.written then o == Outcome(Some([]), None)
            else
              && o.committed == (if e.rewritten then Some(baseline) else None)
              && (FaultFree(e.undo) ==> Realises(o.table, baseline))
  {
    var baseline := Absorbed(policies, CountersOf(t));
    AbsorbedSane(policies, CountersOf(t));
    EmptySane();
    CommitEnds(t, baseline, [], e);
  }

  /** A dry run never touches the kernel, and commits no more than the absorbed totals, if and only if
      the change would be accepted. */
  lemma DryRunEnds(policies: seq<Policy>, t: Option<Table>, op: Operation, parsed: Policy, now: int,
                   readable: bool, written: bool)
    ensures var baseline := Absorbed(policies, CountersOf(t));
            var o := DryRunOutcome(policies, t, op, parsed, now, readable, written);
            && o.table == t
            && (o.committed.Some? <==>
                  (t.None? || readable) && written && DesiredState(baseline, op, parsed, now).Ok?)
            && (o.committed.Some? ==> o.committed.value == baseline)
  {
  }

  /** Main result: whatever was committed for an authorization, its nonce is stored with it, so the
      same authorization is refused from then on, at any time, while the store is as it was left. A
      request that commits nothing uses up no nonce. */
  lemma CommittedIsRefused(before: N.Store, after: N.Store, a: N.Authorization, now: int, committed: bool, later: int)
    requires NetHelper.NonceCommitted(before, after, a, now, committed)
    ensures committed ==> a.nonce in after && after[a.nonce] == a.expiresAt && !N.Accepts(after, a, later)
    ensures !committed ==> after == before
  {
  }
}
