/** The lifecycle transaction journal (scripts/lifecycle-journal.py:34-302 and 511-573).
    Timestamps are microseconds; the clock may go back. */
module LifecycleJournal {
  import opened Base
  import opened Paths

  datatype Operation = Install | Upgrade | Rollback | StagingDeploy | StagingRollback

  datatype Phase =
    | Initialized | Prepared | Quiesced | DatabaseUpdated | UnitsUpdated | CandidateActivated | Verified
    | RecoveryRequired | RecoveryStarted | Committed | PreviousRestored | Aborted

  datatype UnitState = Active | Inactive | Down | Unknown

  datatype Document = Document(
    operation: Operation, phase: Phase, previous: Option<string>, candidate: string,
    revisionBefore: Option<string>, revisionAfter: Option<string>,
    unitRefs: seq<string>, imageRefs: seq<string>, timer: UnitState, controller: UnitState,
    createdAt: int, updatedAt: int)

  datatype Error = Invalid | IllegalTransition | Unfinished | NotCleared | Missing | WriteFailed

  // ---------------------------------------------------------------- phases

  function Allowed(p: Phase): set<Phase> {
    match p
    case Initialized => {Prepared, RecoveryRequired, Aborted}
    case Prepared => {Quiesced, DatabaseUpdated, UnitsUpdated, RecoveryRequired, Aborted}
    case Quiesced => {DatabaseUpdated, UnitsUpdated, CandidateActivated, RecoveryRequired}
    case DatabaseUpdated => {UnitsUpdated, CandidateActivated, RecoveryRequired}
    case UnitsUpdated => {CandidateActivated, RecoveryRequired}
    case CandidateActivated => {Verified, RecoveryRequired}
    case Verified => {Committed, RecoveryRequired}
    case RecoveryRequired => {RecoveryStarted}
    case RecoveryStarted => {PreviousRestored, Aborted}
    case Committed => {}
    case PreviousRestored => {}
    case Aborted => {}
  }

  predicate Terminal(p: Phase) {
    p == Committed || p == PreviousRestored || p == Aborted
  }

  /** How many updates a transaction in this phase can still take. */
  function Remaining(p: Phase): nat {
    match p
    case Initialized => 9
    case Prepared => 8
    case Quiesced => 7
    case DatabaseUpdated => 6
    case UnitsUpdated => 5
    case CandidateActivated => 4
    case Verified => 3
    case RecoveryRequired => 2
    case RecoveryStarted => 1
    case Committed => 0
    case PreviousRestored => 0
    case Aborted => 0
  }

  /** The position of a phase on the way forward, if it lies on it. */
  predicate IsForward(p: Phase, n: nat) {
    && n <= 7
    && p == [Initialized, Prepared, Quiesced, DatabaseUpdated, UnitsUpdated, CandidateActivated, Verified, Committed][n]
  }

  /** Main result: the allowed transitions, all of them. Forward one goes phase by phase and may skip
      quiescing, the database and the units, though not all three; recovery can be required at any
      time before the end; an abort needs no recovery only up to the prepared phase. */
  lemma AllowedIff(p: Phase, m: nat, q: Phase, n: nat)
    requires IsForward(p, m)
    ensures IsForward(q, n) ==>
      (q in Allowed(p) <==> m < n && (n == m + 1 || (m >= 1 && n <= 5 && !(m == 1 && n == 5))))
    ensures RecoveryRequired in Allowed(p) <==> m < 7
    ensures Aborted in Allowed(p) <==> m < 2
    ensures RecoveryStarted !in Allowed(p) && PreviousRestored !in Allowed(p)
  {
  }

  /** Recovery takes two steps, and either restores the previous release or aborts. */
  lemma RecoveryIff(q: Phase)
    ensures q in Allowed(RecoveryRequired) <==> q == RecoveryStarted
    ensures q in Allowed(RecoveryStarted) <==> q in {PreviousRestored, Aborted}
    ensures q !in Allowed(Committed) && q !in Allowed(PreviousRestored) && q !in Allowed(Aborted)
  {
  }

  // ---------------------------------------------------------------- documents

  predicate Control(c: char) {
    (c as int) < 32 || (c as int) == 127
  }

  predicate CanonicalPath(s: string) {
    && s != "" && s != "/" && s[0] == '/'
    && (forall c <- s :: !Control(c))
    && (forall part <- Components(s[1..]) :: Plain(part))
  }

  predicate PlainParts(parts: seq<string>) {
    parts != [] && forall part <- parts :: part !in {"", ".", ".."} && '/' !in part
  }

  /** A canonical path is an absolute one of plain parts without control characters. */
  lemma CanonicalIff(s: string)
    ensures CanonicalPath(s) <==>
      && (forall i | 0 <= i < |s| :: 32 <= s[i] as int && s[i] as int != 127)
      && exists parts :: PlainParts(parts) && s == "/" + Join(parts)
  {
    if s != "" && s[0] == '/' {
      var rest := s[1..];
      assert s == "/" + rest;
      assert Components("") == [""];
      JoinComponents(rest);
      if CanonicalPath(s) {
        assert PlainParts(Components(rest));
        assert forall i | 0 <= i < |s| :: s[i] in s;
      }
    }
    if parts :| PlainParts(parts) && s == "/" + Join(parts) {
      JoinedIsCanonical(parts);
    }
  }

  lemma JoinedIsCanonical(parts: seq<string>)
    requires PlainParts(parts)
    ensures var s := "/" + Join(parts);
            CanonicalPath(s) <==> forall i | 0 <= i < |s| :: 32 <= s[i] as int && s[i] as int != 127
  {
    var s := "/" + Join(parts);
    assert s[1..] == Join(parts);
    ComponentsIff(Join(parts), parts);
    assert parts[0] in parts;
    assert |Join(parts)| > 0 && |s| > 1;
    assert forall i | 0 <= i < |s| :: s[i] in s;
  }

  predicate Alphanumeric(c: char) {
    'A' <= c <= 'Z' || 'a' <= c <= 'z' || '0' <= c <= '9'
  }

  predicate RevisionOk(r: Option<string>) {
    r.Some? ==>
      && 1 <= |r.value| <= 128 && Alphanumeric(r.value[0])
      && forall c <- r.value[1..] :: Alphanumeric(c) || c in "_.+:-"
  }

  predicate ReferencesOk(refs: seq<string>) {
    && (forall r <- refs :: CanonicalPath(r))
    && (forall i, j | 0 <= i < j < |refs| :: refs[i] != refs[j])
  }

  predicate ReleasesOk(d: Document) {
    && (d.previous.Some? ==> CanonicalPath(d.previous.value))
    && CanonicalPath(d.candidate)
    && (d.operation == Install ==> d.previous.None?)
    && (d.operation == Upgrade || d.operation == Rollback || d.operation == StagingRollback ==> d.previous.Some?)
    && d.previous != Some(d.candidate)
    && (d.phase == PreviousRestored ==> d.previous.Some?)
  }

  predicate Valid(d: Document) {
    && ReleasesOk(d)
    && RevisionOk(d.revisionBefore) && RevisionOk(d.revisionAfter)
    && ReferencesOk(d.unitRefs) && ReferencesOk(d.imageRefs)
    && d.createdAt <= d.updatedAt
  }

  /** The options of an update; an absent one leaves its field alone. */
  datatype Changes = Changes(
    revisionAfter: Option<Option<string>>, unitRefs: Option<seq<string>>, imageRefs: Option<seq<string>>,
    timer: Option<UnitState>, controller: Option<UnitState>)

  function Or<T>(o: Option<T>, otherwise: T): T {
    if o.Some? then o.value else otherwise
  }

  function NextTimestamp(previous: int, now: int): int {
    if now <= previous then previous + 1 else now
  }

  function Rewritten(d: Document, phase: Phase, c: Changes, now: int): Document {
    d.(phase := phase,
       revisionAfter := Or(c.revisionAfter, d.revisionAfter),
       unitRefs := Or(c.unitRefs, d.unitRefs),
       imageRefs := Or(c.imageRefs, d.imageRefs),
       timer := Or(c.timer, d.timer),
       controller := Or(c.controller, d.controller),
       updatedAt := NextTimestamp(d.updatedAt, now))
  }

  function UpdateDocument(d: Document, phase: Phase, c: Changes, now: int): (r: Result<Document, Error>)
    ensures r.Ok? ==> Valid(d) && Valid(r.value) && Follows(d, r.value)
  {
    if !Valid(d) then Err(Invalid)
    else if phase !in Allowed(d.phase) then Err(IllegalTransition)
    else
      var updated := Rewritten(d, phase, c, now);
      if Valid(updated) then Ok(updated) else Err(Invalid)
  }

  /** A later document of the same transaction: the next phase is an allowed one, what
      identifies the transaction is untouched, and time moved on. */
  predicate Follows(a: Document, b: Document) {
    && b.phase in Allowed(a.phase)
    && b.operation == a.operation && b.previous == a.previous && b.candidate == a.candidate
    && b.revisionBefore == a.revisionBefore && b.createdAt == a.createdAt
    && a.updatedAt < b.updatedAt
  }

  /** Main result: an update of a valid document is accepted if and only if its transition is
      allowed, the previous release it restores exists, and what it writes is valid. Then it
      writes exactly the fields it was given, the phase and a later time. */
  lemma UpdatesIff(d: Document, phase: Phase, c: Changes, now: int)
    requires Valid(d)
    ensures UpdateDocument(d, phase, c, now).Ok? <==>
      && phase in Allowed(d.phase)
      && (phase == PreviousRestored ==> d.previous.Some?)
      && (c.revisionAfter.Some? ==> RevisionOk(c.revisionAfter.value))
      && (c.unitRefs.Some? ==> ReferencesOk(c.unitRefs.value))
      && (c.imageRefs.Some? ==> ReferencesOk(c.imageRefs.value))
    ensures UpdateDocument(d, phase, c, now).Ok? ==>
      var r := UpdateDocument(d, phase, c, now).value;
      && r.phase == phase
      && r.revisionAfter == (match c.revisionAfter case Some(v) => v case None => d.revisionAfter)
      && r.unitRefs == (match c.unitRefs case Some(v) => v case None => d.unitRefs)
      && r.imageRefs == (match c.imageRefs case Some(v) => v case None => d.imageRefs)
      && r.timer == (match c.timer case Some(v) => v case None => d.timer)
      && r.controller == (match c.controller case Some(v) => v case None => d.controller)
      && r.updatedAt == if now > d.updatedAt then now else d.updatedAt + 1
  {
  }

  // ---------------------------------------------------------------- the stored journal

  predicate Fresh(d: Document) {
    d.phase == Initialized && d.createdAt == d.updatedAt
  }

  function InitError(stored: Option<Document>, d: Document): Option<Error> {
    if stored.Some? && !Valid(stored.value) then Some(Invalid)
    else if stored.Some? && !Terminal(stored.value.phase) then Some(Unfinished)
    else if stored.Some? then Some(NotCleared)
    else if !Valid(d) then Some(Invalid)
    else None
  }

  class Journal {
    var stored: Option<Document>

    constructor ()
      ensures stored == None
    {
      stored := None;
    }

    method Init(requested: Document, now: int, writes: bool) returns (error: Option<Error>)
      modifies this
      ensures var d := requested.(phase := Initialized, createdAt := now, updatedAt := now);
              var refusal := InitError(old(stored), d);
              && error == (if refusal.Some? then refusal else if writes then None else Some(WriteFailed))
              && stored == if error.None? then Some(d) else old(stored)
    {
      if stored.Some? {
        if !Valid(stored.value) {
          return Some(Invalid);
        }
        return if Terminal(stored.value.phase) then Some(NotCleared) else Some(Unfinished);
      }
      var d := requested.(phase := Initialized, createdAt := now, updatedAt := now);
      if !Valid(d) {
        return Some(Invalid);
      }
      if !writes {
        return Some(WriteFailed);
      }
      stored := Some(d);
      return None;
    }

    method Update(phase: Phase, c: Changes, now: int, writes: bool) returns (error: Option<Error>)
      modifies this
      ensures old(stored).None? ==> error == Some(Missing)
      ensures old(stored).Some? ==>
                var r := UpdateDocument(old(stored).value, phase, c, now);
                && (error.None? <==> r.Ok? && writes)
                && (error.None? ==> stored == Some(r.value))
      ensures error.Some? ==> stored == old(stored)
    {
      if stored.None? {
        return Some(Missing);
      }
      var r := UpdateDocument(stored.value, phase, c, now);
      if r.Err? {
        return Some(r.error);
      }
      if !writes {
        return Some(WriteFailed);
      }
      stored := Some(r.value);
      return None;
    }

    method Clear(writes: bool) returns (error: Option<Error>)
      modifies this
      ensures error.None? <==>
                old(stored).Some? && Valid(old(stored).value) && Terminal(old(stored).value.phase) && writes
      ensures stored == if error.None? then None else old(stored)
    {
      if stored.None? {
        return Some(Missing);
      }
      if !Valid(stored.value) {
        return Some(Invalid);
      }
      if !Terminal(stored.value.phase) {
        return Some(Unfinished);
      }
      if !writes {
        return Some(WriteFailed);
      }
      stored := None;
      return None;
    }
  }

  // ---------------------------------------------------------------- runs

  datatype Event =
    | Init(requested: Document, now: int, writes: bool)
    | Update(phase: Phase, c: Changes, now: int, writes: bool)
    | Clear(writes: bool)

  /** The documents written for the transaction the journal holds, oldest first; none when the
      journal is empty. */
  function Step(trace: seq<Document>, e: Event): seq<Document> {
    var stored := if trace == [] then None else Some(trace[|trace| - 1]);
    match e
    case Init(requested, now, writes) =>
      var d := requested.(phase := Initialized, createdAt := now, updatedAt := now);
      if InitError(stored, d).None? && writes then [d] else trace
    case Update(phase, c, now, writes) =>
      if stored.None? then trace
      else
        var r := UpdateDocument(stored.value, phase, c, now);
        if r.Ok? && writes then trace + [r.value] else trace
    case Clear(writes) =>
      if stored.Some? && Valid(stored.value) && Terminal(stored.value.phase) && writes then [] else trace
  }

  function After(events: seq<Event>): seq<Document> {
    if events == [] then [] else Step(After(events[..|events| - 1]), events[|events| - 1])
  }

  /** One command on the stored journal is one step of the run. */
  method Perform(j: Journal, ghost trace: seq<Document>, e: Event) returns (ghost next: seq<Document>)
    requires j.stored == if trace == [] then None else Some(trace[|trace| - 1])
    modifies j
    ensures next == Step(trace, e)
    ensures j.stored == if next == [] then None else Some(next[|next| - 1])
  {
    next := Step(trace, e);
    match e
    case Init(requested, now, writes) => var _ := j.Init(requested, now, writes);
    case Update(phase, c, now, writes) => var _ := j.Update(phase, c, now, writes);
    case Clear(writes) => var _ := j.Clear(writes);
  }

  /** A transaction: it starts initialized, every document is valid and follows the last. */
  predicate Transaction(trace: seq<Document>) {
    trace != [] && Valid(trace[|trace| - 1]) &&
    if |trace| == 1 then Fresh(trace[0])
    else Follows(trace[|trace| - 2], trace[|trace| - 1]) && Transaction(trace[..|trace| - 1])
  }

  lemma UpdateHolds(trace: seq<Document>, d: Document)
    requires Transaction(trace) && Valid(d) && Follows(trace[|trace| - 1], d)
    ensures Transaction(trace + [d])
  {
    assert (trace + [d])[..|trace|] == trace;
  }

  lemma StepHolds(trace: seq<Document>, e: Event)
    requires trace == [] || Transaction(trace)
    ensures Step(trace, e) == [] || Transaction(Step(trace, e))
  {
    if trace != [] && e.Update? {
      var r := UpdateDocument(trace[|trace| - 1], e.phase, e.c, e.now);
      if r.Ok? {
        UpdateHolds(trace, r.value);
      }
    }
  }

  /** Every journal a run leaves is empty or holds a transaction. */
  lemma {:induction false} RunsHoldTransactions(events: seq<Event>)
    ensures After(events) == [] || Transaction(After(events))
  {
    if events != [] {
      RunsHoldTransactions(events[..|events| - 1]);
      StepHolds(After(events[..|events| - 1]), events[|events| - 1]);
    }
  }

  /** Main result: an unfinished transaction is neither replaced nor cleared; one command adds at
      most one document to it. */
  lemma UnfinishedStays(events: seq<Event>, e: Event)
    requires After(events) != [] && !Terminal(After(events)[|After(events)| - 1].phase)
    ensures After(events) <= After(events + [e]) && |After(events + [e])| <= |After(events)| + 1
  {
    assert (events + [e])[..|events|] == events;
    RunsHoldTransactions(events);
  }

  /** A finished transaction leaves only through a clear, and then a new one can start. */
  lemma FinishedLeavesOnlyByClear(events: seq<Event>, e: Event)
    requires After(events) != [] && Terminal(After(events)[|After(events)| - 1].phase)
    ensures After(events + [e]) == if e.Clear? && e.writes then [] else After(events)
  {
    assert (events + [e])[..|events|] == events;
    RunsHoldTransactions(events);
    StepFinished(After(events), e);
  }

  lemma FinishedRefuses(d: Document, phase: Phase, c: Changes, now: int)
    requires Terminal(d.phase)
    ensures UpdateDocument(d, phase, c, now).Err?
  {
    assert Allowed(d.phase) == {};
  }

  lemma StepFinished(trace: seq<Document>, e: Event)
    requires trace != [] && Valid(trace[|trace| - 1]) && Terminal(trace[|trace| - 1].phase)
    ensures Step(trace, e) == if e.Clear? && e.writes then [] else trace
  {
    if e.Update? {
      FinishedRefuses(trace[|trace| - 1], e.phase, e.c, e.now);
    }
  }

  // ---------------------------------------------------------------- properties of a transaction

  /** Main result: every update uses up at least one of at most nine, so a transaction has at
      most ten documents. */
  lemma {:induction false} TransactionsEnd(trace: seq<Document>)
    requires Transaction(trace)
    ensures |trace| + Remaining(trace[|trace| - 1].phase) <= 10
    ensures Remaining(trace[|trace| - 1].phase) == 0 <==> Terminal(trace[|trace| - 1].phase)
  {
    if |trace| > 1 {
      TransactionsEnd(trace[..|trace| - 1]);
      PhasesDescend(trace[|trace| - 2].phase, trace[|trace| - 1].phase);
    }
  }

  lemma PhasesDescend(p: Phase, q: Phase)
    requires q in Allowed(p)
    ensures Remaining(q) < Remaining(p)
  {
  }

  /** Two documents of one transaction. */
  predicate SameTransaction(a: Document, b: Document) {
    && b.operation == a.operation && b.previous == a.previous && b.candidate == a.candidate
    && b.revisionBefore == a.revisionBefore && b.createdAt == a.createdAt
  }

  /** Main result: what identifies a transaction never changes, and its update time strictly
      increases even when the clock goes back. */
  lemma {:induction false} IdentityIsFixed(trace: seq<Document>, i: nat, j: nat)
    requires Transaction(trace) && i < j < |trace|
    ensures SameTransaction(trace[i], trace[j]) && trace[i].updatedAt < trace[j].updatedAt
  {
    var init := trace[..|trace| - 1];
    if j < |init| {
      IdentityIsFixed(init, i, j);
    } else if i < j - 1 {
      IdentityIsFixed(init, i, j - 1);
    }
  }

  predicate Passed(trace: seq<Document>, p: Phase) {
    exists d <- trace :: d.phase == p
  }

  lemma PassedGrows(trace: seq<Document>, p: Phase)
    requires trace != []
    ensures Passed(trace, p) <==> Passed(trace[..|trace| - 1], p) || trace[|trace| - 1].phase == p
  {
    var init := trace[..|trace| - 1];
    assert trace == init + [trace[|trace| - 1]];
  }

  predicate Recovering(p: Phase) {
    p == RecoveryRequired || p == RecoveryStarted || p == PreviousRestored
  }

  /** What a phase says about the phases passed: whether recovery was required and started, and
      the candidate activated and verified. */
  predicate Consistent(p: Phase, required: bool, started: bool, activated: bool, verified: bool) {
    && (required ==> Recovering(p) || p == Aborted)
    && (Recovering(p) ==> required)
    && (p == RecoveryStarted || p == PreviousRestored ==> started)
    && (started ==> required)
    && (activated && p == Aborted ==> started)
    && (p == Initialized || p == Prepared ==> !activated)
    && (p == Verified || p == Committed ==> activated && !required)
    && (p == Committed ==> verified)
    && (p == Verified ==> verified)
  }

  lemma ConsistentStep(p: Phase, q: Phase, required: bool, started: bool, activated: bool, verified: bool)
    requires q in Allowed(p) && Consistent(p, required, started, activated, verified)
    requires p == CandidateActivated ==> activated
    ensures Consistent(q, required || q == RecoveryRequired, started || q == RecoveryStarted,
                       activated || q == CandidateActivated, verified || q == Verified)
  {
  }

  predicate Explained(trace: seq<Document>)
    requires trace != []
  {
    Consistent(trace[|trace| - 1].phase, Passed(trace, RecoveryRequired), Passed(trace, RecoveryStarted),
               Passed(trace, CandidateActivated), Passed(trace, Verified))
  }

  lemma FirstIsExplained(trace: seq<Document>)
    requires |trace| == 1 && trace[0].phase == Initialized
    ensures Explained(trace)
  {
    assert forall p | p != Initialized :: !Passed(trace, p);
  }

  lemma ExplainedGrows(trace: seq<Document>)
    requires |trace| > 1 && Explained(trace[..|trace| - 1])
    requires trace[|trace| - 1].phase in Allowed(trace[|trace| - 2].phase)
    ensures Explained(trace)
  {
    var init := trace[..|trace| - 1];
    PassedGrows(trace, RecoveryRequired);
    PassedGrows(trace, RecoveryStarted);
    PassedGrows(trace, CandidateActivated);
    PassedGrows(trace, Verified);
    assert Passed(init, init[|init| - 1].phase);
    ConsistentStep(init[|init| - 1].phase, trace[|trace| - 1].phase, Passed(init, RecoveryRequired),
                   Passed(init, RecoveryStarted), Passed(init, CandidateActivated), Passed(init, Verified));
  }

  lemma {:induction false} TransactionsAreExplained(trace: seq<Document>)
    requires Transaction(trace)
    ensures Explained(trace)
  {
    if |trace| == 1 {
      FirstIsExplained(trace);
    } else {
      TransactionsAreExplained(trace[..|trace| - 1]);
      ExplainedGrows(trace);
    }
  }

  /** Main result: a commit comes only after the candidate was activated and verified, and never
      after recovery was required; an activated candidate is given up only through recovery; the
      previous release is restored only through recovery, and never by an install. */
  lemma EndingsAreEarned(trace: seq<Document>)
    requires Transaction(trace)
    ensures var d := trace[|trace| - 1];
            && (d.phase == Committed ==>
                  Passed(trace, CandidateActivated) && Passed(trace, Verified) && !Passed(trace, RecoveryRequired))
            && (d.phase == Aborted && Passed(trace, CandidateActivated) ==> Passed(trace, RecoveryStarted))
            && (d.phase == PreviousRestored ==>
                  Passed(trace, RecoveryStarted) && d.operation != Install && d.previous.Some?)
            && (Passed(trace, RecoveryRequired) && Terminal(d.phase) && d.operation == Install ==> d.phase == Aborted)
  {
    TransactionsAreExplained(trace);
  }

  const NO_CHANGES := Changes(None, None, None, None, None)

  /** Updates through these phases, all accepted, end the transaction. */
  predicate Ends(d: Document, phases: seq<Phase>, now: int)
    decreases |phases|
  {
    if phases == [] then Terminal(d.phase)
    else
      var r := UpdateDocument(d, phases[0], NO_CHANGES, now);
      r.Ok? && Ends(r.value, phases[1..], now)
  }

  /** An update that changes only the phase is accepted. */
  lemma PlainUpdate(d: Document, phase: Phase, now: int)
    requires Valid(d) && phase in Allowed(d.phase) && phase != PreviousRestored
    ensures UpdateDocument(d, phase, NO_CHANGES, now) == Ok(Rewritten(d, phase, NO_CHANGES, now))
  {
  }

  lemma EndsThrough(d: Document, phase: Phase, rest: seq<Phase>, now: int)
    requires Valid(d) && phase in Allowed(d.phase) && phase != PreviousRestored
    requires Ends(Rewritten(d, phase, NO_CHANGES, now), rest, now)
    ensures Ends(d, [phase] + rest, now)
  {
    PlainUpdate(d, phase, now);
    assert ([phase] + rest)[1..] == rest;
  }

  /** The way out of an unfinished phase. */
  function WayOut(p: Phase): seq<Phase> {
    if Terminal(p) then []
    else if p == RecoveryStarted then [Aborted]
    else if p == RecoveryRequired then [RecoveryStarted, Aborted]
    else [RecoveryRequired, RecoveryStarted, Aborted]
  }

  /** No transaction is stuck: from any unfinished one, at most three updates that change only the
      phase are all accepted and end it. */
  lemma {:induction false} NothingIsStuck(d: Document, now: int)
    requires Valid(d)
    ensures |WayOut(d.phase)| <= 3 && Ends(d, WayOut(d.phase), now)
    decreases Remaining(d.phase)
  {
    if !Terminal(d.phase) {
      var next := WayOut(d.phase)[0];
      PhasesDescend(d.phase, next);
      PlainUpdate(d, next, now);
      NothingIsStuck(Rewritten(d, next, NO_CHANGES, now), now);
      EndsThrough(d, next, WayOut(next), now);
    }
  }
}
