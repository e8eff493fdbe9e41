/** Executing delivered tasks at most once, with a cooldown (agent/actions.go:48-164).
    Instants are nanoseconds; what is stored is whole seconds. */
module AgentActions {
  import opened Base

  datatype Task = Task(id: string, action: string, target: string, dryRun: bool)

  datatype Ledger = Ledger(completed: map<string, int>, lastRun: map<string, int>)

  datatype Result = AlreadyCompleted | CoolingDown | Ran(ok: bool)

  /** One call: the instants it starts and finishes at, whether the action's body succeeds if
      it is reached, and whether the state file is written afterwards. */
  datatype Call = Call(task: Task, started: int, finished: int, succeeds: bool, saves: bool)

  function Seconds(instant: int): int {
    instant / 1_000_000_000
  }

  function Key(t: Task): string {
    t.action + ":" + t.target
  }

  predicate IsPortTraffic(t: Task) {
    "port_traffic_" <= t.action
  }

  /** The cooldown holds back this call. */
  predicate Cools(l: Ledger, c: Call) {
    && !IsPortTraffic(c.task)
    && Key(c.task) in l.lastRun && l.lastRun[Key(c.task)] > 0
    && c.started - l.lastRun[Key(c.task)] * 1_000_000_000 < 600_000_000_000
  }

  function ResultOf(l: Ledger, c: Call): Result {
    if c.task.id in l.completed then AlreadyCompleted
    else if Cools(l, c) then CoolingDown
    else Ran(c.succeeds)
  }

  predicate StartsCooldown(c: Call) {
    !IsPortTraffic(c.task) && !c.task.dryRun && c.succeeds
  }

  /** The ledger in memory after a call. */
  function Executed(l: Ledger, c: Call): Ledger {
    if !ResultOf(l, c).Ran? then l
    else
      Ledger(l.completed[c.task.id := Seconds(c.finished)],
             if StartsCooldown(c) then l.lastRun[Key(c.task) := Seconds(c.finished)] else l.lastRun)
  }

  class ActionRegistry {
    var completed: map<string, int>
    var lastRun: map<string, int>
    var file: Ledger

    ghost function Memory(): Ledger
      reads this
    {
      Ledger(completed, lastRun)
    }

    /** A start of the agent: the ledger is what the state file holds. */
    constructor (file: Ledger)
      ensures this.file == file && Memory() == file
    {
      this.file := file;
      completed := file.completed;
      lastRun := file.lastRun;
    }

    method Execute(c: Call) returns (r: Result)
      modifies this
      ensures r == ResultOf(old(Memory()), c)
      ensures Memory() == Executed(old(Memory()), c)
      ensures file == if r.Ran? && c.saves then Memory() else old(file)
    {
      if c.task.id in completed {
        return AlreadyCompleted;
      }
      var key := Key(c.task);
      var portTraffic := IsPortTraffic(c.task);
      if !portTraffic {
        var last := if key in lastRun then lastRun[key] else 0;
        if last > 0 && c.started - last * 1_000_000_000 < 600_000_000_000 {
          return CoolingDown;
        }
      }
      // The registered action runs here; an unregistered one counts as a failure.
      if !portTraffic && !c.task.dryRun && c.succeeds {
        lastRun := lastRun[key := Seconds(c.finished)];
      }
      completed := completed[c.task.id := Seconds(c.finished)];
      if c.saves {
        file := Ledger(completed, lastRun);
      }
      return Ran(c.succeeds);
    }
  }

  // ---------------------------------------------------------------- runs

  /** Calls, with arbitrary redelivery, and restarts between them. */
  datatype Event = Execute(c: Call) | Restart

  datatype World = World(memory: Ledger, file: Ledger)

  const FRESH: World := World(Ledger(map[], map[]), Ledger(map[], map[]))

  function Step(w: World, e: Event): World {
    match e
    case Execute(c) =>
      var next := Executed(w.memory, c);
      World(next, if ResultOf(w.memory, c).Ran? && c.saves then next else w.file)
    case Restart => World(w.file, w.file)
  }

  function After(events: seq<Event>): World {
    if events == [] then FRESH else Step(After(events[..|events| - 1]), events[|events| - 1])
  }

  /** Event `i` reached the action's body. */
  predicate BodyRan(events: seq<Event>, i: nat) {
    i < |events| && events[i].Execute? && ResultOf(After(events[..i]).memory, events[i].c).Ran?
  }

  /** No restart forgets a completed task: the file knows every task that memory knows. */
  ghost predicate NoRestartForgets(events: seq<Event>) {
    forall k | 0 <= k < |events| && events[k].Restart? ::
      After(events[..k]).memory.completed.Keys <= After(events[..k]).file.completed.Keys
  }

  lemma PrefixOfPrefix(events: seq<Event>, i: nat, j: nat)
    requires i <= j <= |events|
    ensures events[..j][..i] == events[..i]
  {
  }

  lemma ForgetsNothingInit(events: seq<Event>)
    requires events != [] && NoRestartForgets(events)
    ensures NoRestartForgets(events[..|events| - 1])
  {
    var init := events[..|events| - 1];
    forall k | 0 <= k < |init| && init[k].Restart?
      ensures After(init[..k]).memory.completed.Keys <= After(init[..k]).file.completed.Keys
    {
      PrefixOfPrefix(events, k, |init|);
    }
  }

  /** Once a task's body has run, memory knows it for good. */
  lemma {:induction false} CompletedStays(events: seq<Event>, i: nat)
    requires NoRestartForgets(events) && BodyRan(events, i)
    ensures events[i].c.task.id in After(events).memory.completed
  {
    var init, e := events[..|events| - 1], events[|events| - 1];
    if i < |init| {
      ForgetsNothingInit(events);
      PrefixOfPrefix(events, i, |init|);
      CompletedStays(init, i);
      if e.Restart? {
        assert After(events[..|init|]).memory.completed.Keys <= After(events[..|init|]).file.completed.Keys;
      }
    }
  }

  lemma ForgetsNothingPrefix(events: seq<Event>, j: nat)
    requires NoRestartForgets(events) && j <= |events|
    ensures NoRestartForgets(events[..j])
  {
    forall k | 0 <= k < j && events[..j][k].Restart?
      ensures After(events[..j][..k]).memory.completed.Keys <= After(events[..j][..k]).file.completed.Keys
    {
      PrefixOfPrefix(events, k, j);
    }
  }

  /** Main result: with any redelivery, and restarts that forget nothing, the body of a task
      runs at most once. */
  lemma EachTaskRunsAtMostOnce(events: seq<Event>, i: nat, j: nat)
    requires NoRestartForgets(events) && i < j && BodyRan(events, i) && BodyRan(events, j)
    ensures events[i].c.task.id != events[j].c.task.id
  {
    ForgetsNothingPrefix(events, j);
    PrefixOfPrefix(events, i, j);
    CompletedStays(events[..j], i);
  }

  /** Restarts forget nothing when every save succeeds. */
  lemma {:induction false} SavesMakeItDurable(events: seq<Event>)
    requires forall k | 0 <= k < |events| && events[k].Execute? :: events[k].c.saves
    ensures After(events).memory == After(events).file
    ensures NoRestartForgets(events)
  {
    if events != [] {
      var init := events[..|events| - 1];
      SavesMakeItDurable(init);
      forall k | 0 <= k < |events| && events[k].Restart?
        ensures After(events[..k]).memory.completed.Keys <= After(events[..k]).file.completed.Keys
      {
        if k < |init| {
          PrefixOfPrefix(events, k, |init|);
        } else {
          assert events[..k] == init;
        }
      }
    }
  }

  /** The condition is exact: after a restart, a redelivered task that no cooldown holds back
      runs again if and only if the state file had forgotten it. */
  lemma RestartRerunsIff(events: seq<Event>, c: Call)
    requires !Cools(After(events).file, c)
    ensures BodyRan(events + [Restart, Execute(c)], |events| + 1) <==> c.task.id !in After(events).file.completed
  {
    var longer := events + [Restart, Execute(c)];
    assert longer[..|events| + 1] == events + [Restart];
    assert (events + [Restart])[..|events|] == events;
  }

  /** A lost save is enough for a second run. */
  lemma LostSaveRunsTwice(c: Call)
    requires !c.saves
    ensures BodyRan([Execute(c)], 0)
    ensures BodyRan([Execute(c)] + [Restart, Execute(c)], 2)
  {
    var first := [Execute(c)];
    assert first[..0] == [];
    RestartRerunsIff(first, c);
  }

  // ---------------------------------------------------------------- cooldown

  /** A successful run, not a dry run, of an action that is not a port traffic one. */
  predicate CoolsOthers(events: seq<Event>, i: nat) {
    BodyRan(events, i) && StartsCooldown(events[i].c)
  }

  ghost predicate ClockRuns(events: seq<Event>) {
    && (forall i | 0 <= i < |events| && events[i].Execute? ::
          1_000_000_000 <= events[i].c.started <= events[i].c.finished)
    && (forall i, j | 0 <= i < j < |events| && events[i].Execute? && events[j].Execute? ::
          events[i].c.finished <= events[j].c.started)
  }

  lemma ClockInit(events: seq<Event>, j: nat)
    requires ClockRuns(events) && j <= |events|
    ensures ClockRuns(events[..j])
  {
  }

  lemma SecondsMonotone(a: int, b: int)
    requires a <= b
    ensures Seconds(a) <= Seconds(b)
  {
  }

  /** Every restart finds the last-run times of memory in the file. */
  ghost predicate NoRestartCools(events: seq<Event>) {
    forall k | 0 <= k < |events| && events[k].Restart? ::
      After(events[..k]).memory.lastRun == After(events[..k]).file.lastRun
  }

  lemma CoolsInit(events: seq<Event>, j: nat)
    requires NoRestartCools(events) && j <= |events|
    ensures NoRestartCools(events[..j])
  {
    forall k | 0 <= k < j && events[..j][k].Restart?
      ensures After(events[..j][..k]).memory.lastRun == After(events[..j][..k]).file.lastRun
    {
      PrefixOfPrefix(events, k, j);
    }
  }

  /** The ledger records a run of this key at this second or later. */
  predicate Recorded(l: Ledger, key: string, second: int) {
    key in l.lastRun && l.lastRun[key] >= second
  }

  lemma ExecutedRecords(l: Ledger, c: Call)
    requires ResultOf(l, c).Ran? && StartsCooldown(c)
    ensures Recorded(Executed(l, c), Key(c.task), Seconds(c.finished))
  {
  }

  lemma ExecutedKeeps(l: Ledger, c: Call, key: string, second: int)
    requires Recorded(l, key, second) && second <= Seconds(c.finished)
    ensures Recorded(Executed(l, c), key, second)
  {
  }

  /** The recorded time of a key is never older than its last successful run. */
  lemma {:induction false} LastRunIsRecorded(events: seq<Event>, i: nat)
    requires ClockRuns(events) && NoRestartCools(events) && CoolsOthers(events, i)
    ensures Recorded(After(events).memory, Key(events[i].c.task), Seconds(events[i].c.finished))
  {
    var init, e := events[..|events| - 1], events[|events| - 1];
    if i == |init| {
      ExecutedRecords(After(init).memory, e.c);
    } else {
      ClockInit(events, |init|);
      CoolsInit(events, |init|);
      PrefixOfPrefix(events, i, |init|);
      LastRunIsRecorded(init, i);
      if e.Restart? {
        assert After(events[..|init|]).memory.lastRun == After(events[..|init|]).file.lastRun;
      } else {
        assert events[i].c.finished <= events[|init|].c.started <= events[|init|].c.finished;
        SecondsMonotone(events[i].c.finished, e.c.finished);
        ExecutedKeeps(After(init).memory, e.c, Key(events[i].c.task), Seconds(events[i].c.finished));
      }
    }
  }

  /** Main result: after a successful run, not a dry run, of an action on a target, the next run of
      that action on that target starts at least 600 whole seconds after the first ended. Port
      traffic actions are exempt. */
  lemma CooldownSeparates(events: seq<Event>, i: nat, j: nat)
    requires ClockRuns(events) && NoRestartCools(events) && i < j
    requires BodyRan(events, i) && events[i].c.succeeds && !events[i].c.task.dryRun
    requires BodyRan(events, j) && !("port_traffic_" <= events[j].c.task.action)
    requires events[i].c.task.action == events[j].c.task.action && events[i].c.task.target == events[j].c.task.target
    ensures Seconds(events[j].c.started) - Seconds(events[i].c.finished) >= 600
    ensures events[j].c.started - events[i].c.finished > 599_000_000_000
  {
    ClockInit(events, j);
    CoolsInit(events, j);
    PrefixOfPrefix(events, i, j);
    LastRunIsRecorded(events[..j], i);
    SixHundredSeconds(events[j].c.started, After(events[..j]).memory.lastRun[Key(events[j].c.task)],
                      Seconds(events[i].c.finished));
  }

  lemma SixHundredSeconds(started: int, last: int, finished: int)
    requires started - last * 1_000_000_000 >= 600_000_000_000 && finished <= last
    ensures Seconds(started) - finished >= 600 && started - finished * 1_000_000_000 >= 600_000_000_000
  {
  }

  /** An earlier run that makes the action of this key wait: a success, not a dry run, of an action
      that is not a port traffic one. */
  predicate Succeeded(events: seq<Event>, i: nat, key: string) {
    BodyRan(events, i) &&
    var c := events[i].c;
    c.succeeds && !c.task.dryRun && !("port_traffic_" <= c.task.action) && c.task.action + ":" + c.task.target == key
  }

  /** The latest such run. */
  ghost predicate LastSuccess(events: seq<Event>, i: nat, key: string) {
    Succeeded(events, i, key) && forall k | i < k < |events| :: !Succeeded(events, k, key)
  }

  lemma SucceededInit(events: seq<Event>, i: nat, key: string)
    requires i < |events| - 1
    ensures Succeeded(events, i, key) <==> Succeeded(events[..|events| - 1], i, key)
  {
    PrefixOfPrefix(events, i, |events| - 1);
  }

  lemma LastSuccessStays(events: seq<Event>, i: nat, key: string)
    requires events != [] && !Succeeded(events, |events| - 1, key) && LastSuccess(events[..|events| - 1], i, key)
    ensures LastSuccess(events, i, key)
  {
    var init := events[..|events| - 1];
    SucceededInit(events, i, key);
    forall k | i < k < |init|
      ensures !Succeeded(events, k, key)
    {
      SucceededInit(events, k, key);
    }
  }

  /** What memory records for a key is exactly the second at which the latest such run ended. */
  lemma {:induction false} RecordsLastSuccess(events: seq<Event>, key: string) returns (i: nat)
    requires NoRestartCools(events) && key in After(events).memory.lastRun
    ensures LastSuccess(events, i, key) && After(events).memory.lastRun[key] == Seconds(events[i].c.finished)
  {
    i := |events| - 1;
    if !Succeeded(events, i, key) {
      KeyIsKept(events, key);
      CoolsInit(events, i);
      i := RecordsLastSuccess(events[..i], key);
      LastSuccessStays(events, i, key);
    }
  }

  lemma {:induction false} SuccessIsRecorded(events: seq<Event>, i: nat, key: string)
    requires NoRestartCools(events) && Succeeded(events, i, key)
    ensures key in After(events).memory.lastRun
  {
    if !Succeeded(events, |events| - 1, key) {
      KeyIsKept(events, key);
      CoolsInit(events, |events| - 1);
      SucceededInit(events, i, key);
      SuccessIsRecorded(events[..|events| - 1], i, key);
    }
  }

  /** An event that is no such run leaves the record of the key alone. */
  lemma KeyIsKept(events: seq<Event>, key: string)
    requires NoRestartCools(events) && events != [] && !Succeeded(events, |events| - 1, key)
    ensures var before, after := After(events[..|events| - 1]).memory.lastRun, After(events).memory.lastRun;
            (key in after <==> key in before) && (key in after ==> after[key] == before[key])
  {
    if events[|events| - 1].Restart? {
      assert After(events[..|events| - 1]).memory.lastRun == After(events[..|events| - 1]).file.lastRun;
    }
  }

  /** Once a task's body has run memory knows it, and it knows no other. */
  lemma {:induction false} CompletedHasRun(events: seq<Event>, id: string)
    requires id in After(events).memory.completed || id in After(events).file.completed
    ensures exists i: nat :: BodyRan(events, i) && events[i].c.task.id == id
  {
    var init, e := events[..|events| - 1], events[|events| - 1];
    if id in After(init).memory.completed || id in After(init).file.completed {
      CompletedHasRun(init, id);
      var i: nat :| BodyRan(init, i) && init[i].c.task.id == id;
      PrefixOfPrefix(events, i, |init|);
      assert BodyRan(events, i);
    } else {
      assert BodyRan(events, |init|);
    }
  }

  /** Main result: over every run whose restarts forget nothing, a call is answered as completed if
      and only if its task has run before. */
  lemma CompletedIff(events: seq<Event>, c: Call)
    requires NoRestartForgets(events)
    ensures ResultOf(After(events).memory, c) == AlreadyCompleted
       <==> exists i: nat :: BodyRan(events, i) && events[i].c.task.id == c.task.id
  {
    if c.task.id in After(events).memory.completed {
      CompletedHasRun(events, c.task.id);
    }
    if i: nat :| BodyRan(events, i) && events[i].c.task.id == c.task.id {
      CompletedStays(events, i);
    }
  }

  /** Main result: over every run whose restarts forget nothing, a new task is held back if and only
      if it is no port traffic one and less than 600 seconds have passed since the second in which
      the latest successful run, not a dry run, of its action and target ended. */
  lemma CoolingDownIff(events: seq<Event>, c: Call)
    requires ClockRuns(events) && NoRestartCools(events)
    requires ResultOf(After(events).memory, c) != AlreadyCompleted
    ensures ResultOf(After(events).memory, c) == CoolingDown
       <==> && !("port_traffic_" <= c.task.action)
            && exists i: nat :: LastSuccess(events, i, c.task.action + ":" + c.task.target)
                 && c.started < (events[i].c.finished / 1_000_000_000 + 600) * 1_000_000_000
    ensures ResultOf(After(events).memory, c) in {CoolingDown, Ran(c.succeeds)}
  {
    var key := c.task.action + ":" + c.task.target;
    if key in After(events).memory.lastRun {
      var i := RecordsLastSuccess(events, key);
      assert forall k: nat :: LastSuccess(events, k, key) ==> k == i;
      SecondsMonotone(1_000_000_000, events[i].c.finished);
    } else if i: nat :| LastSuccess(events, i, key) {
      SuccessIsRecorded(events, i, key);
      assert false;
    }
  }
}
