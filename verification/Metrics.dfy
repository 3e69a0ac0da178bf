/** The proxy's counters under concurrency: every interleaving of requests and snapshots. */
module Metrics {
  import opened Wrappers
  import opened Detectors
  import opened Stats

  /** `fetch_add` on an `AtomicU64`, which wraps around. */
  function FetchAdd(counter: u64, n: nat): u64 { Wrap(counter + n) }

  function Wrap(n: nat): u64 { n % (U64_MAX + 1) }

  // ----- threads

  /** Where a request stands in `proxy`. */
  datatype Phase =
    | Waiting        // not yet counted
    | Counted        // counted in `requests`
    | Received       // its body was read and its bytes were counted
    | BodyRecorded   // the report of its body is being or has been recorded
    | Forwarded      // its forwarded bytes were counted; headers are redacted and recorded
    | Rejected       // ended, counted in `rejected_payloads`
    | Failed         // ended, counted in `upstream_errors`
    | Answered       // ended well

  /** Where a thread stands in `record_report` or `record_kind`. */
  datatype Recorder =
    | Idle
    | Added(rest: map<DetectorKind, u64>)     // the total is added, the lock is not yet taken
    | Merging(rest: map<DetectorKind, u64>)   // holds the lock
    | Read(rest: map<DetectorKind, u64>, kind: DetectorKind, current: u64)   // holds the lock and has read one entry

  datatype Snapshot = Snapshot(requests: u64, upstreamErrors: u64, rejectedPayloads: u64, requestBytes: u64,
                               forwardedBytes: u64, redactionsTotal: u64, byType: map<DetectorKind, u64>)

  const BLANK := Snapshot(0, 0, 0, 0, 0, 0, map[])

  /** Where a thread stands in `snapshot`, which reads in this order. */
  datatype SnapStep =
    | Start | Locked | Cloned | Unlocked
    | HasRequests | HasUpstream | HasRejected | HasRequestBytes | HasForwarded | Taken

  /** What a snapshot met on its way; this is history, of which the program keeps no record. `pending` and `atClone` are
      what was in the making and what had been added when the map was cloned, `atLoad` what had been added when the
      total was read. `early` are the requests counted when `requests` was read, `failed` and `rejected` those that had
      failed or been rejected when these counters were read, `atRejected` and `atBytes` those counted at the reading of
      `rejected_payloads` and of `request_bytes`; `earlyBytes` and `lateBytes` divide the bytes read then. */
  datatype History = History(pending: nat, atClone: nat, atLoad: nat, early: set<nat>, failed: set<nat>,
                             rejected: set<nat>, atRejected: set<nat>, atBytes: set<nat>, earlyBytes: nat,
                             lateBytes: nat)

  /** A thread serves one request or takes one snapshot. */
  datatype Thread =
    | Request(phase: Phase, bytes: nat, forwarded: nat, added: nat, recorder: Recorder)
    | Snapshotter(step: SnapStep, view: Snapshot, seen: History)

  const NEW_REQUEST := Request(Waiting, 0, 0, 0, Idle)
  const NEW_SNAPSHOT := Snapshotter(Start, BLANK, History(0, 0, 0, {}, {}, {}, {}, {}, 0, 0))

  datatype State = State(requests: u64, upstreamErrors: u64, rejectedPayloads: u64, requestBytes: u64,
                         forwardedBytes: u64, redactionsTotal: u64, byType: map<DetectorKind, u64>,
                         lock: Option<nat>, threads: seq<Thread>)

  predicate IsNew(t: Thread) { t == NEW_REQUEST || t == NEW_SNAPSHOT }

  /** Any number of requests and snapshots, in any order, none of which has begun. */
  predicate Init(s: State) {
    && s.requests == s.upstreamErrors == s.rejectedPayloads == 0
    && s.requestBytes == s.forwardedBytes == s.redactionsTotal == 0
    && s.byType == map[] && s.lock.None?
    && forall i | 0 <= i < |s.threads| :: IsNew(s.threads[i])
  }

  // ----- sums over the threads

  function SumOver(threads: seq<Thread>, f: Thread -> nat): nat {
    if threads == [] then 0 else SumOver(threads[..|threads| - 1], f) + f(threads[|threads| - 1])
  }

  lemma {:induction false} SumReplace(threads: seq<Thread>, f: Thread -> nat, i: nat, t: Thread)
    requires i < |threads|
    ensures SumOver(threads[i := t], f) == SumOver(threads, f) - f(threads[i]) + f(t)
  {
    var n := |threads| - 1;
    if i < n {
      SumReplace(threads[..n], f, i, t);
      assert threads[i := t][..n] == threads[..n][i := t];
    } else {
      assert threads[i := t][..n] == threads[..n];
    }
  }

  lemma {:induction false} SumAtLeast(threads: seq<Thread>, f: Thread -> nat, i: nat)
    requires i < |threads|
    ensures SumOver(threads, f) >= f(threads[i])
  {
    if i < |threads| - 1 {
      SumAtLeast(threads[..|threads| - 1], f, i);
    }
  }

  function HasArrived(t: Thread): nat { if t.Request? && !t.phase.Waiting? then 1 else 0 }

  function WasRejected(t: Thread): nat { if t.Request? && t.phase.Rejected? then 1 else 0 }

  function HasFailed(t: Thread): nat { if t.Request? && t.phase.Failed? then 1 else 0 }

  function BytesOf(t: Thread): nat { if t.Request? then t.bytes else 0 }

  function ForwardedOf(t: Thread): nat { if t.Request? then t.forwarded else 0 }

  /** What a thread has added to the total. */
  function AddedOf(t: Thread): nat { if t.Request? then t.added else 0 }

  /** What a thread has added to the total and not yet merged into the map. */
  ghost function PendingOf(t: Thread): nat {
    if t.Request? && !t.recorder.Idle? then Sum(t.recorder.rest) else 0
  }

  /** The threads, by number, that `f` counts. */
  function Those(threads: seq<Thread>, f: Thread -> nat): set<nat> {
    set i: nat | i < |threads| && f(threads[i]) > 0
  }

  /** The bytes of the requests in `group`, and of the others. */
  function BytesIn(threads: seq<Thread>, group: set<nat>): nat {
    if threads == [] then 0
    else
      var n := |threads| - 1;
      BytesIn(threads[..n], group) + if n in group then BytesOf(threads[n]) else 0
  }

  function BytesOutside(threads: seq<Thread>, group: set<nat>): nat {
    if threads == [] then 0
    else
      var n := |threads| - 1;
      BytesOutside(threads[..n], group) + if n in group then 0 else BytesOf(threads[n])
  }

  ghost function Arrivals(s: State): nat { SumOver(s.threads, HasArrived) }

  ghost function TotalAdded(s: State): nat { SumOver(s.threads, AddedOf) }

  ghost function Pending(): Thread -> nat { t => PendingOf(t) }

  ghost function TotalPending(s: State): nat { SumOver(s.threads, Pending()) }

  // ----- steps

  datatype Action =
    | Count
    | RefuseBody                              // longer than `max_body_bytes`
    | Accept(n: nat)
    | RefusePayload                           // encoding, decompressed size, gzip data or UTF-8
    | FailRedaction
    | RecordBody(kinds: seq<DetectorKind>)
    | Forward(n: nat)
    | RecordHeader(kinds: seq<DetectorKind>)
    | FailUpstream
    | Answer
    | TakeLock
    | ReadEntry(kind: DetectorKind)
    | WriteEntry
    | ReleaseLock
    | Advance                                 // the next step of a snapshot

  function Put(s: State, i: nat, t: Thread): State
    requires i < |s.threads|
  {
    s.(threads := s.threads[i := t])
  }

  /** The first step of `record_report`: it adds the total, and is done if there is nothing to merge. */
  function Add(s: State, i: nat, t: Thread, report: Report): State
    requires i < |s.threads| && t.Request?
  {
    Put(s.(redactionsTotal := FetchAdd(s.redactionsTotal, report.total)), i,
        t.(added := t.added + report.total, recorder := if report.byType == map[] then Idle else Added(report.byType)))
  }

  ghost function Advanced(s: State, i: nat, t: Thread): Option<State>
    requires i < |s.threads| && t.Snapshotter?
  {
    var view, seen, threads := t.view, t.seen, s.threads;
    match t.step
    case Start => if s.lock.None? then Some(Put(s.(lock := Some(i)), i, t.(step := Locked))) else None
    case Locked =>
      Some(Put(s, i, Snapshotter(Cloned, view.(byType := s.byType),
                                 seen.(pending := TotalPending(s), atClone := TotalAdded(s)))))
    case Cloned => Some(Put(s.(lock := None), i, t.(step := Unlocked)))
    case Unlocked =>
      Some(Put(s, i, Snapshotter(HasRequests, view.(requests := s.requests),
                                 seen.(early := Those(threads, HasArrived)))))
    case HasRequests =>
      Some(Put(s, i, Snapshotter(HasUpstream, view.(upstreamErrors := s.upstreamErrors),
                                 seen.(failed := Those(threads, HasFailed)))))
    case HasUpstream =>
      Some(Put(s, i, Snapshotter(HasRejected, view.(rejectedPayloads := s.rejectedPayloads),
                                 seen.(rejected := Those(threads, WasRejected),
                                       atRejected := Those(threads, HasArrived)))))
    case HasRejected =>
      Some(Put(s, i, Snapshotter(HasRequestBytes, view.(requestBytes := s.requestBytes),
                                 seen.(atBytes := Those(threads, HasArrived),
                                       earlyBytes := BytesIn(threads, seen.early),
                                       lateBytes := BytesOutside(threads, seen.early)))))
    case HasRequestBytes => Some(Put(s, i, t.(step := HasForwarded, view := view.(forwardedBytes := s.forwardedBytes))))
    case HasForwarded =>
      Some(Put(s, i, Snapshotter(Taken, view.(redactionsTotal := s.redactionsTotal), seen.(atLoad := TotalAdded(s)))))
    case Taken => None
  }

  /** What an action of thread `i` makes of a state; nothing if the thread cannot take it. */
  ghost function Act(s: State, maxBodyBytes: nat, i: nat, action: Action): Option<State>
    requires i < |s.threads|
  {
    var t := s.threads[i];
    match t
    case Snapshotter(_, _, _) => if action.Advance? then Advanced(s, i, t) else None
    case Request(phase, _, _, _, recorder) =>
      match action
      case Count =>
        if phase.Waiting? then Some(Put(s.(requests := FetchAdd(s.requests, 1)), i, t.(phase := Counted))) else None
      case RefuseBody =>
        if phase.Counted?
          then Some(Put(s.(rejectedPayloads := FetchAdd(s.rejectedPayloads, 1)), i, t.(phase := Rejected))) else None
      case Accept(n) =>
        if phase.Counted? && n <= maxBodyBytes
          then Some(Put(s.(requestBytes := FetchAdd(s.requestBytes, n)), i, t.(phase := Received, bytes := n)))
        else None
      case RefusePayload =>
        if phase.Received?
          then Some(Put(s.(rejectedPayloads := FetchAdd(s.rejectedPayloads, 1)), i, t.(phase := Rejected))) else None
      case FailRedaction =>
        if phase.Received?
          then Some(Put(s.(upstreamErrors := FetchAdd(s.upstreamErrors, 1)), i, t.(phase := Failed))) else None
      case RecordBody(kinds) =>
        if phase.Received? && |kinds| <= U64_MAX
          then Some(Add(s, i, t.(phase := BodyRecorded), Tally(kinds))) else None
      case Forward(n) =>
        if phase.BodyRecorded? && recorder.Idle?
          then Some(Put(s.(forwardedBytes := FetchAdd(s.forwardedBytes, n)), i, t.(phase := Forwarded, forwarded := n)))
        else None
      case RecordHeader(kinds) =>
        if phase.Forwarded? && recorder.Idle? && |kinds| <= U64_MAX then Some(Add(s, i, t, Tally(kinds))) else None
      case FailUpstream =>
        if phase.Forwarded? && recorder.Idle?
          then Some(Put(s.(upstreamErrors := FetchAdd(s.upstreamErrors, 1)), i, t.(phase := Failed))) else None
      case Answer => if phase.Forwarded? && recorder.Idle? then Some(Put(s, i, t.(phase := Answered))) else None
      case TakeLock =>
        if recorder.Added? && s.lock.None?
          then Some(Put(s.(lock := Some(i)), i, t.(recorder := Merging(recorder.rest)))) else None
      case ReadEntry(kind) =>
        if recorder.Merging? && kind in recorder.rest
          then Some(Put(s, i, t.(recorder := Read(recorder.rest, kind, Get(s.byType, kind))))) else None
      case WriteEntry =>
        if recorder.Read? && recorder.kind in recorder.rest then
          var count := recorder.rest[recorder.kind];
          Some(Put(s.(byType := s.byType[recorder.kind := SaturatingAdd(recorder.current, count)]), i,
                   t.(recorder := Merging(recorder.rest - {recorder.kind}))))
        else None
      case ReleaseLock =>
        if recorder.Merging? && recorder.rest == map[]
          then Some(Put(s.(lock := None), i, t.(recorder := Idle))) else None
      case Advance => None
  }

  /** A schedule says which thread acts next, and how. */
  ghost function Run(s: State, maxBodyBytes: nat, schedule: seq<(nat, Action)>): Option<State> {
    if schedule == [] then Some(s)
    else
      match Run(s, maxBodyBytes, schedule[..|schedule| - 1])
      case None => None
      case Some(before) =>
        var (i, action) := schedule[|schedule| - 1];
        if i < |before.threads| then Act(before, maxBodyBytes, i, action) else None
  }

  /** A run goes on by one step. */
  lemma RunOn(s: State, maxBodyBytes: nat, schedule: seq<(nat, Action)>, now: State, i: nat, action: Action)
    returns (next: State)
    requires Run(s, maxBodyBytes, schedule) == Some(now)
    requires i < |now.threads| && Act(now, maxBodyBytes, i, action).Some?
    ensures Act(now, maxBodyBytes, i, action) == Some(next)
    ensures Run(s, maxBodyBytes, schedule + [(i, action)]) == Some(next)
  {
    next := Act(now, maxBodyBytes, i, action).value;
    assert (schedule + [(i, action)])[..|schedule|] == schedule;
  }
}
