/** Applying a ruleset to the kernel, with rollback (agent/nethelper/network.go:271-453).

    Traffic control is reduced to its outcomes: `Faults` says which commands the kernel
    refuses. The nft side is executed by the interpreter of NftTable. */
module HelperNetwork {
  import opened Base
  import opened PolicyModel
  import opened PolicyOrder
  import opened NftTable

  /** How the environment treats one call of applyNetwork. */
  datatype Faults = Faults(
    tcOwned: bool,       // every root qdisc concerned can be read and is Guardian's or absent
    nftRuns: bool,       // nft accepts to run the transaction
    tcApplies: bool,     // every tc command succeeds
    verifies: bool,      // counters can be read back and the qdiscs are as expected
    rollbackRuns: bool)  // nft accepts to run the rollback transaction

  datatype Applied = Applied(ok: bool, table: Option<Table>)

  predicate Shapes(policies: seq<Policy>) {
    exists i | 0 <= i < |policies| :: policies[i].egressRate > 0
  }

  predicate NamesInterfaces(policies: seq<Policy>) {
    forall i | 0 <= i < |policies| :: policies[i].egressRate > 0 ==> policies[i].interfaceName != ""
  }

  predicate PreflightPasses(before: seq<Policy>, desired: seq<Policy>, f: Faults) {
    NamesInterfaces(before) && NamesInterfaces(desired) && (Shapes(before) || Shapes(desired) ==> f.tcOwned)
  }

  predicate TcPasses(before: seq<Policy>, desired: seq<Policy>, f: Faults) {
    Shapes(before) || Shapes(desired) ==> f.tcApplies
  }

  predicate CountersPresent(t: Table, p: Policy) {
    && (!p.direction.TxOnly? ==> CounterName(p.id, Rx) in t.counters)
    && (!p.direction.RxOnly? ==> CounterName(p.id, Tx) in t.counters)
  }

  /** The check made after an apply and before every snapshot. */
  predicate Verified(t: Option<Table>, desired: seq<Policy>, verifies: bool) {
    && verifies
    && if desired == [] then t.None?
       else t.Some? && forall i | 0 <= i < |desired| :: CountersPresent(t.value, desired[i])
  }

  /** One nft transaction: nothing to run counts as run; a refused or failing transaction
      leaves the table as it was. */
  function Transact(t: Option<Table>, commands: seq<Command>, runs: bool): Applied {
    if commands == [] then Applied(true, t)
    else
      var r := Run(t, commands);
      if runs && r.Some? then Applied(true, r.value) else Applied(false, t)
  }

  function ApplyOutcome(t: Option<Table>, before: seq<Policy>, desired: seq<Policy>, f: Faults): Applied {
    if !PreflightPasses(before, desired, f) then Applied(false, t)
    else
      var n := Transact(t, Rendered(desired, t.Some?), f.nftRuns);
      if !n.ok then n else Finish(n.table, before, desired, f)
  }

  /** What follows a transaction that ran: traffic control, the check, and the rollback. */
  function Finish(t: Option<Table>, before: seq<Policy>, desired: seq<Policy>, f: Faults): Applied {
    if TcPasses(before, desired, f) && Verified(t, desired, f.verifies) then Applied(true, t)
    else Applied(false, Transact(t, Rendered(before, |desired| > 0), f.rollbackRuns).table)
  }

  class Kernel {
    var table: Option<Table>

    constructor ()
      ensures table == None
    {
      table := None;
    }

    method RunNft(commands: seq<Command>, runs: bool) returns (ok: bool)
      modifies this
      ensures commands != [] ==> Applied(ok, table) == Transact(old(table), commands, runs)
      ensures commands == [] ==> table == old(table)
    {
      var result := Run(table, commands);
      ok := runs && result.Some?;
      if ok {
        table := result.value;
      }
    }

    method ApplyNetwork(before: seq<Policy>, desired: seq<Policy>, f: Faults) returns (ok: bool)
      modifies this
      ensures Applied(ok, table) == ApplyOutcome(old(table), before, desired, f)
    {
      if !PreflightPasses(before, desired, f) {
        return false;
      }
      var transaction := RenderNft(desired, table.Some?);
      if |transaction| > 0 {
        var ran := RunNft(transaction, f.nftRuns);
        if !ran {
          return false;
        }
      }
      if !TcPasses(before, desired, f) {
        RollBack(before, desired, f);
        return false;
      }
      if !Verified(table, desired, f.verifies) {
        RollBack(before, desired, f);
        return false;
      }
      return true;
    }

    method RollBack(before: seq<Policy>, desired: seq<Policy>, f: Faults)
      modifies this
      ensures table == Transact(old(table), Rendered(before, |desired| > 0), f.rollbackRuns).table
    {
      var rollback := RenderNft(before, |desired| > 0);
      if |rollback| > 0 {
        var _ := RunNft(rollback, f.rollbackRuns);
      }
    }
  }

  // ---------------------------------------------------------------- what an apply guarantees

  lemma RealisedIsVerified(t: Option<Table>, policies: seq<Policy>)
    requires DistinctIds(policies) && AllBounded(policies) && Realises(t, policies)
    ensures Verified(t, policies, true)
  {
    if policies != [] {
      SortKeepsBounds(policies);
      forall i | 0 <= i < |policies|
        ensures CountersPresent(t.value, policies[i])
      {
        var p := policies[i];
        assert p in SortById(policies);
        assert p.Counts(Rx) ==> CounterName(p.id, Rx) in t.value.counters;
        assert p.Counts(Tx) ==> CounterName(p.id, Tx) in t.value.counters;
      }
    }
  }

  lemma RenderedEmpty(policies: seq<Policy>, exists_: bool)
    ensures Rendered(policies, exists_) == [] <==> policies == [] && !exists_
  {
  }

  /** A transaction for `policies`, run where the table's existence is as believed. */
  lemma TransactInstalls(t: Option<Table>, policies: seq<Policy>, runs: bool)
    requires DistinctIds(policies) && AllBounded(policies)
    ensures var r := Transact(t, Rendered(policies, t.Some?), runs);
            && (r.ok <==> runs || (policies == [] && t.None?))
            && (if r.ok then Realises(r.table, policies) else r.table == t)
  {
    RenderInstalls(t, policies);
    RenderedEmpty(policies, t.Some?);
  }

  /** Where an apply can end. */
  datatype Ending = Installed | Untouched | BackToPrevious | StuckOnDesired

  function EndingOf(t: Option<Table>, before: seq<Policy>, desired: seq<Policy>, f: Faults): Ending {
    if !PreflightPasses(before, desired, f) then Untouched
    else if !f.nftRuns && !(desired == [] && t.None?) then Untouched
    else if TcPasses(before, desired, f) && f.verifies then Installed
    else if f.rollbackRuns || (before == [] && desired == []) then BackToPrevious
    else StuckOnDesired
  }

  lemma FinishEnds(t: Option<Table>, before: seq<Policy>, desired: seq<Policy>, f: Faults)
    requires DistinctIds(before) && AllBounded(before)
    requires DistinctIds(desired) && AllBounded(desired)
    requires Realises(t, desired)
    ensures var r := Finish(t, before, desired, f);
            && r.ok == (TcPasses(before, desired, f) && f.verifies)
            && (if r.ok then r.table == t
                else if f.rollbackRuns || (before == [] && desired == []) then Realises(r.table, before)
                else r.table == t)
  {
    RealisedIsVerified(t, desired);
    assert t.Some? <==> |desired| > 0;
    TransactInstalls(t, before, f.rollbackRuns);
  }

  /** Main result: success means the desired ruleset exactly; a refused preflight or nft
      transaction leaves the kernel untouched; a later failure brings back exactly the
      previous ruleset if the rollback runs, and leaves exactly the desired one if it does not. */
  lemma ApplyEnds(t: Option<Table>, before: seq<Policy>, desired: seq<Policy>, f: Faults)
    requires DistinctIds(before) && AllBounded(before)
    requires DistinctIds(desired) && AllBounded(desired)
    ensures var r := ApplyOutcome(t, before, desired, f);
            match EndingOf(t, before, desired, f)
            case Installed => r.ok && Realises(r.table, desired)
            case Untouched => !r.ok && r.table == t
            case BackToPrevious => !r.ok && Realises(r.table, before)
            case StuckOnDesired => !r.ok && Realises(r.table, desired)
  {
    if PreflightPasses(before, desired, f) {
      TransactInstalls(t, desired, f.nftRuns);
      var n := Transact(t, Rendered(desired, t.Some?), f.nftRuns);
      if n.ok {
        FinishEnds(n.table, before, desired, f);
      }
    }
  }
}
