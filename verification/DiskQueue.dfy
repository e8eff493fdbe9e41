/** The agent's bounded event queue on disk and the loop that uses it
    (agent/queue.go:39-109, agent/main.go:29-73, agent/metrics.go:119). */
module DiskQueue {
  import opened Base

  /** An encoded event. */
  type Record = string

  const SNAPSHOT_LIMIT := 100

  function TotalLength(records: seq<Record>): nat {
    if records == [] then 0 else |records[0]| + TotalLength(records[1..])
  }

  /** The length of the JSON array: brackets, records, commas. */
  function EncodedSize(records: seq<Record>): nat {
    2 + TotalLength(records) + if |records| == 0 then 0 else |records| - 1
  }

  predicate Settled(records: seq<Record>, maxBytes: int) {
    EncodedSize(records) <= maxBytes || |records| <= 1
  }

  /** How many of the oldest records a write leaves out. */
  function Overflow(records: seq<Record>, maxBytes: int): (n: nat)
    ensures n <= |records|
  {
    if Settled(records, maxBytes) then 0 else 1 + Overflow(records[1..], maxBytes)
  }

  /** The overflow is the fewest oldest records whose removal makes the rest fit, or leaves one. */
  lemma {:induction false} OverflowIsLeast(records: seq<Record>, maxBytes: int, d: nat)
    requires d <= |records|
    ensures Settled(records[Overflow(records, maxBytes)..], maxBytes)
    ensures d < Overflow(records, maxBytes) ==> !Settled(records[d..], maxBytes)
  {
    if Settled(records, maxBytes) {
      assert records[0..] == records;
    } else {
      OverflowIsLeast(records[1..], maxBytes, if d == 0 then 0 else d - 1);
      assert records[1..][Overflow(records[1..], maxBytes)..] == records[Overflow(records, maxBytes)..];
      if d > 0 {
        assert records[1..][d - 1..] == records[d..];
      } else {
        assert records[d..] == records;
      }
    }
  }

  /** The encoded records with commas between them. */
  function Listed(records: seq<Record>): string {
    if records == [] then ""
    else if |records| == 1 then records[0]
    else records[0] + "," + Listed(records[1..])
  }

  lemma {:induction false} SizeIsLength(records: seq<Record>)
    ensures EncodedSize(records) == |"[" + Listed(records) + "]"|
  {
    if |records| > 1 {
      SizeIsLength(records[1..]);
    } else if |records| == 1 {
      assert TotalLength(records[1..]) == 0;
    }
  }

  /** The JSON array without its `d` oldest records fits the file, or holds at most one record. */
  predicate Fits(records: seq<Record>, maxBytes: int, d: nat)
    requires d <= |records|
  {
    |"[" + Listed(records[d..]) + "]"| <= maxBytes || |records| - d <= 1
  }

  /** Main result: a write drops `d` records if and only if the text of the rest fits and the text of
      no longer rest does. */
  lemma OverflowIff(records: seq<Record>, maxBytes: int, d: nat)
    requires d <= |records|
    ensures Overflow(records, maxBytes) == d <==>
            Fits(records, maxBytes, d) && forall c: nat | c < d :: !Fits(records, maxBytes, c)
  {
    var n := Overflow(records, maxBytes);
    forall c: nat | c <= |records|
      ensures Fits(records, maxBytes, c) <==> Settled(records[c..], maxBytes)
    {
      SizeIsLength(records[c..]);
    }
    OverflowIsLeast(records, maxBytes, n);
    forall c: nat | c < n ensures !Fits(records, maxBytes, c) {
      OverflowIsLeast(records, maxBytes, c);
    }
  }

  lemma {:induction false} DroppingShortens(records: seq<Record>, n: nat)
    requires n <= |records|
    ensures EncodedSize(records[n..]) <= EncodedSize(records)
  {
    if n == 0 {
      assert records[0..] == records;
    } else {
      DroppingShortens(records[1..], n - 1);
      assert records[1..][n - 1..] == records[n..];
    }
  }

  function Take(records: seq<Record>, limit: nat): seq<Record> {
    if |records| > limit then records[..limit] else records
  }

  class Queue {
    const maxBytes: int
    var stored: seq<Record>

    /** A start of the agent: the queue is what the file holds, perhaps left from a larger limit. */
    constructor (maxBytes: int, file: seq<Record>)
      ensures this.maxBytes == maxBytes && stored == file
    {
      this.maxBytes := maxBytes;
      stored := file;
    }

    /** Trim from the front until the encoding fits, then replace the file. */
    method Write(records: seq<Record>, diskWrites: bool)
      modifies this`stored
      ensures stored == if diskWrites then records[Overflow(records, maxBytes)..] else old(stored)
    {
      var kept := records;
      ghost var dropped: nat := 0;
      while EncodedSize(kept) > maxBytes && |kept| > 1
        invariant dropped <= |records| && kept == records[dropped..]
        invariant Overflow(records, maxBytes) == dropped + Overflow(kept, maxBytes)
        decreases |kept|
      {
        kept := kept[1..];
        dropped := dropped + 1;
      }
      if diskWrites {
        stored := kept;
      }
    }

    method Enqueue(value: Record, diskReads: bool, diskWrites: bool)
      modifies this`stored
      ensures var longer := old(stored) + [value];
              stored == if diskReads && diskWrites then longer[Overflow(longer, maxBytes)..] else old(stored)
    {
      if diskReads {
        Write(stored + [value], diskWrites);
      }
    }

    method Snapshot(limit: nat) returns (records: seq<Record>)
      ensures records == Take(stored, limit)
    {
      records := stored;
      if |records| > limit {
        records := records[..limit];
      }
    }

    method Ack(count: nat, diskWrites: bool)
      modifies this`stored
      ensures var rest := old(stored)[Min(count, |old(stored)|)..];
              stored == if diskWrites then rest[Overflow(rest, maxBytes)..] else old(stored)
    {
      var n := count;
      if n > |stored| {
        n := |stored|;
      }
      Write(stored[n..], diskWrites);
    }

    /** One round of the agent loop after a successful snapshot of the queue. */
    method Round(r: Reply)
      modifies this`stored
      ensures stored == Rounded(old(stored), maxBytes, r)
      ensures Settled(old(stored), maxBytes) ==> Settled(stored, maxBytes)
    {
      var batch := Snapshot(SNAPSHOT_LIMIT);
      match r {
        case Unreachable(note) =>
          Enqueue(note.record, note.readable, note.writable);
          NotedSettled(old(stored), maxBytes, note);
        case NotActive =>
        case Accepted(ackWrites, results) =>
          Ack(|batch|, ackWrites);
          AckedSettled(old(stored), maxBytes, ackWrites);
          for k := 0 to |results|
            invariant stored == NotedAll(Acked(old(stored), maxBytes, ackWrites), maxBytes, results[..k])
            invariant Settled(old(stored), maxBytes) ==> Settled(stored, maxBytes)
          {
            assert results[..k + 1][..k] == results[..k];
            NotedSettled(stored, maxBytes, results[k]);
            Enqueue(results[k].record, results[k].readable, results[k].writable);
          }
          assert results[..|results|] == results;
      }
    }
  }

  // ---------------------------------------------------------------- one round as a function

  /** An event to be queued, and how the disk treats it. */
  datatype Note = Note(record: Record, readable: bool, writable: bool)

  /** What the heartbeat brings back. */
  datatype Reply =
    | Unreachable(note: Note)
    | NotActive
    | Accepted(ackWrites: bool, results: seq<Note>)

  function Noted(stored: seq<Record>, maxBytes: int, n: Note): seq<Record> {
    if n.readable && n.writable then (stored + [n.record])[Overflow(stored + [n.record], maxBytes)..] else stored
  }

  function NotedAll(stored: seq<Record>, maxBytes: int, notes: seq<Note>): seq<Record> {
    if notes == [] then stored
    else Noted(NotedAll(stored, maxBytes, notes[..|notes| - 1]), maxBytes, notes[|notes| - 1])
  }

  function Acked(stored: seq<Record>, maxBytes: int, writes: bool): seq<Record> {
    var rest := stored[|Take(stored, SNAPSHOT_LIMIT)|..];
    if writes then rest[Overflow(rest, maxBytes)..] else stored
  }

  function Rounded(stored: seq<Record>, maxBytes: int, r: Reply): seq<Record> {
    match r
    case Unreachable(note) => Noted(stored, maxBytes, note)
    case NotActive => stored
    case Accepted(ackWrites, results) => NotedAll(Acked(stored, maxBytes, ackWrites), maxBytes, results)
  }

  lemma NotedSettled(stored: seq<Record>, maxBytes: int, n: Note)
    ensures Settled(stored, maxBytes) || (n.readable && n.writable) ==> Settled(Noted(stored, maxBytes, n), maxBytes)
  {
    OverflowIsLeast(stored + [n.record], maxBytes, 0);
  }

  /** An acknowledgement removes exactly the batch that was sent: what is left of a queue that
      fitted still fits, so nothing overflows. */
  lemma AckRemovesTheBatch(stored: seq<Record>, maxBytes: int)
    requires Settled(stored, maxBytes)
    ensures Take(stored, SNAPSHOT_LIMIT) + Acked(stored, maxBytes, true) == stored
  {
    var n := |Take(stored, SNAPSHOT_LIMIT)|;
    DroppingShortens(stored, n);
    assert Settled(stored[n..], maxBytes);
    assert stored[n..][0..] == stored[n..];
  }

  /** Main result: from a queue that fits, an accepted round without results removes exactly the 100
      oldest records, or all of fewer, and one whose acknowledgement is not written removes none. */
  lemma RoundDelivers(stored: seq<Record>, maxBytes: int)
    requires stored == [] || Fits(stored, maxBytes, 0)
    ensures Rounded(stored, maxBytes, Accepted(true, [])) == if |stored| <= 100 then [] else stored[100..]
    ensures Rounded(stored, maxBytes, Accepted(false, [])) == stored
  {
    assert stored[0..] == stored;
    SizeIsLength(stored);
    AckRemovesTheBatch(stored, maxBytes);
    var n := |Take(stored, SNAPSHOT_LIMIT)|;
    assert (Take(stored, SNAPSHOT_LIMIT) + Acked(stored, maxBytes, true))[n..] == Acked(stored, maxBytes, true);
  }

  /** A record to be queued is appended, and only an overflow takes any away. */
  lemma RoundQueues(stored: seq<Record>, maxBytes: int, record: Record, d: nat)
    requires d <= |stored| + 1
    requires Fits(stored + [record], maxBytes, d) && forall c: nat | c < d :: !Fits(stored + [record], maxBytes, c)
    ensures Rounded(stored, maxBytes, Unreachable(Note(record, true, true))) == (stored + [record])[d..]
    ensures forall readable, writable :: !(readable && writable) ==>
              Rounded(stored, maxBytes, Unreachable(Note(record, readable, writable))) == stored
    ensures Rounded(stored, maxBytes, NotActive) == stored
  {
    OverflowIff(stored + [record], maxBytes, d);
  }

  lemma AckedSettled(stored: seq<Record>, maxBytes: int, writes: bool)
    ensures Settled(stored, maxBytes) || writes ==> Settled(Acked(stored, maxBytes, writes), maxBytes)
  {
    var rest := stored[|Take(stored, SNAPSHOT_LIMIT)|..];
    OverflowIsLeast(rest, maxBytes, 0);
  }

  // ---------------------------------------------------------------- runs

  /** Why a record is no longer queued. */
  datatype Fate = Delivered | Dropped

  /** The queue with its history: every record ever stored, in order, and the fate of those
      that left, oldest first. */
  datatype History = History(stored: seq<Record>, log: seq<Record>, fates: seq<Fate>, sent: set<nat>)

  /** The history an agent starts with: its queue file. */
  function Opened(file: seq<Record>): History {
    History(file, file, [], {})
  }

  function NotedIn(h: History, maxBytes: int, n: Note): History {
    if n.readable && n.writable then
      History(Noted(h.stored, maxBytes, n), h.log + [n.record],
              h.fates + seq(Overflow(h.stored + [n.record], maxBytes), _ => Dropped), h.sent)
    else h
  }

  function NotedAllIn(h: History, maxBytes: int, notes: seq<Note>): History {
    if notes == [] then h
    else NotedIn(NotedAllIn(h, maxBytes, notes[..|notes| - 1]), maxBytes, notes[|notes| - 1])
  }

  /** The `n` positions from `first` on. */
  function Positions(first: nat, n: nat): (r: set<nat>)
    ensures forall k :: k in r <==> first <= k < first + n
  {
    if n == 0 then {} else Positions(first, n - 1) + {first + n - 1}
  }

  /** The positions, in the log, of the batch now at the head of the queue. */
  function BatchPositions(h: History): set<nat> {
    Positions(|h.fates|, |Take(h.stored, SNAPSHOT_LIMIT)|)
  }

  function AckedIn(h: History, maxBytes: int, writes: bool): History {
    var n := |Take(h.stored, SNAPSHOT_LIMIT)|;
    var sent := h.sent + BatchPositions(h);
    if writes then
      History(Acked(h.stored, maxBytes, true), h.log,
              h.fates + (seq(n, _ => Delivered) + seq(Overflow(h.stored[n..], maxBytes), _ => Dropped)), sent)
    else h.(sent := sent)
  }

  function RoundIn(h: History, maxBytes: int, r: Reply): History {
    match r
    case Unreachable(note) => NotedIn(h, maxBytes, note)
    case NotActive => h
    case Accepted(ackWrites, results) => NotedAllIn(AckedIn(h, maxBytes, ackWrites), maxBytes, results)
  }

  function After(file: seq<Record>, maxBytes: int, replies: seq<Reply>): History {
    if replies == [] then Opened(file)
    else RoundIn(After(file, maxBytes, replies[..|replies| - 1]), maxBytes, replies[|replies| - 1])
  }

  /** The queue is what is left of the log once the fated records are taken off its front, and
      a delivered record was in a batch that the controller accepted. */
  ghost predicate Accounted(h: History) {
    && |h.fates| <= |h.log|
    && h.stored == h.log[|h.fates|..]
    && (forall k: nat | k < |h.fates| && h.fates[k].Delivered? :: k in h.sent)
    && (forall k: nat | k in h.sent :: k < |h.log|)
  }

  lemma DropFront(h: History, n: nat, m: nat)
    requires n <= m <= |h.log|
    ensures h.log[n..][m - n..] == h.log[m..]
  {
  }

  lemma NotedAccounted(h: History, maxBytes: int, n: Note)
    requires Accounted(h)
    ensures Accounted(NotedIn(h, maxBytes, n))
    ensures NotedIn(h, maxBytes, n).stored == Noted(h.stored, maxBytes, n)
  {
    if n.readable && n.writable {
      var h' := NotedIn(h, maxBytes, n);
      var longer, d := h.stored + [n.record], Overflow(h.stored + [n.record], maxBytes);
      assert longer == h'.log[|h.fates|..];
      DropFront(h', |h.fates|, |h.fates| + d);
    }
  }

  lemma {:induction false} NotedAllAccounted(h: History, maxBytes: int, notes: seq<Note>)
    requires Accounted(h)
    ensures Accounted(NotedAllIn(h, maxBytes, notes))
    ensures NotedAllIn(h, maxBytes, notes).stored == NotedAll(h.stored, maxBytes, notes)
  {
    if notes != [] {
      NotedAllAccounted(h, maxBytes, notes[..|notes| - 1]);
      NotedAccounted(NotedAllIn(h, maxBytes, notes[..|notes| - 1]), maxBytes, notes[|notes| - 1]);
    }
  }

  lemma AckAccounted(h: History, maxBytes: int, writes: bool)
    requires Accounted(h)
    ensures Accounted(AckedIn(h, maxBytes, writes))
    ensures AckedIn(h, maxBytes, writes).stored == Acked(h.stored, maxBytes, writes)
  {
    if writes {
      var n, h' := |Take(h.stored, SNAPSHOT_LIMIT)|, AckedIn(h, maxBytes, writes);
      var d := Overflow(h.stored[n..], maxBytes);
      assert h.stored[n..][d..] == h.stored[n + d..];
      DropFront(h, |h.fates|, |h.fates| + n + d);
      forall k: nat | k < |h'.fates| && h'.fates[k].Delivered?
        ensures k in h'.sent
      {
        if k >= |h.fates| {
          assert k < |h.fates| + n;
        }
      }
    }
  }

  /** From a queue that fits, an acknowledgement drops nothing: every record it removes was
      delivered. */
  lemma AckOnlyDelivers(h: History, maxBytes: int)
    requires Settled(h.stored, maxBytes)
    ensures var n := |Take(h.stored, SNAPSHOT_LIMIT)|;
            AckedIn(h, maxBytes, true).fates == h.fates + seq(n, _ => Delivered)
  {
    var n := |Take(h.stored, SNAPSHOT_LIMIT)|;
    DroppingShortens(h.stored, n);
    assert Overflow(h.stored[n..], maxBytes) == 0;
  }

  /** Main result: from any queue file, in every run of the agent loop, the disk queue is a suffix
      of everything ever stored; every record that left it was in a batch the controller accepted,
      or was dropped as the oldest by an overflowing write. The history runs alongside the real
      queue. */
  lemma {:induction false} QueueRefinesLog(file: seq<Record>, maxBytes: int, replies: seq<Reply>)
    ensures Accounted(After(file, maxBytes, replies))
    ensures replies != [] ==>
              After(file, maxBytes, replies).stored
              == Rounded(After(file, maxBytes, replies[..|replies| - 1]).stored, maxBytes, replies[|replies| - 1])
  {
    if replies != [] {
      var h, r := After(file, maxBytes, replies[..|replies| - 1]), replies[|replies| - 1];
      QueueRefinesLog(file, maxBytes, replies[..|replies| - 1]);
      match r
      case Unreachable(note) =>
        NotedAccounted(h, maxBytes, note);
      case NotActive =>
      case Accepted(ackWrites, results) =>
        AckAccounted(h, maxBytes, ackWrites);
        NotedAllAccounted(AckedIn(h, maxBytes, ackWrites), maxBytes, results);
    }
  }

  /** A record is dropped only by a write that could not fit it, and the fewest are. */
  lemma DropsAreNecessary(h: History, maxBytes: int, n: Note, d: nat)
    requires Accounted(h) && n.readable && n.writable
    requires d < |NotedIn(h, maxBytes, n).fates| - |h.fates|
    ensures NotedIn(h, maxBytes, n).fates[|h.fates| + d].Dropped?
    ensures EncodedSize((h.stored + [n.record])[d..]) > maxBytes && |(h.stored + [n.record])[d..]| > 1
  {
    OverflowIsLeast(h.stored + [n.record], maxBytes, d);
  }
}
