/** What holds in every state that concurrent requests and snapshots can reach. */
module MetricsLaws {
  import opened Wrappers
  import opened Detectors
  import opened Stats
  import opened Metrics

  // ----- one step changes one thread, and the counters by what that thread did

  ghost predicate Moves(s: State, s2: State, i: nat) {
    i < |s.threads| && |s2.threads| == |s.threads| && s2.threads == s.threads[i := s2.threads[i]]
  }

  /** A counter that grows, modulo its width, from accounting for `a` to accounting for `b`. */
  predicate Grows(counter: u64, counter2: u64, a: nat, b: nat) {
    a <= b && if a == b then counter2 == counter else counter2 == FetchAdd(counter, b - a)
  }

  /** The counters grow by what thread `i` newly accounts for. */
  ghost predicate CountersMove(s: State, s2: State, t: Thread, t2: Thread) {
    && Grows(s.requests, s2.requests, HasArrived(t), HasArrived(t2))
    && Grows(s.upstreamErrors, s2.upstreamErrors, HasFailed(t), HasFailed(t2))
    && Grows(s.rejectedPayloads, s2.rejectedPayloads, WasRejected(t), WasRejected(t2))
    && Grows(s.requestBytes, s2.requestBytes, BytesOf(t), BytesOf(t2))
    && Grows(s.forwardedBytes, s2.forwardedBytes, ForwardedOf(t), ForwardedOf(t2))
    && Grows(s.redactionsTotal, s2.redactionsTotal, AddedOf(t), AddedOf(t2))
  }

  /** What holds of a thread by itself. */
  predicate ThreadOk(t: Thread, maxBodyBytes: nat) {
    t.Request? ==>
      && t.bytes <= maxBodyBytes
      && (t.phase.Waiting? || t.phase.Counted? ==> t.bytes == 0)
      && (t.phase.Waiting? || t.phase.Counted? || t.phase.Received? || t.phase.BodyRecorded? ==> t.forwarded == 0)
      && (!t.recorder.Idle? ==> t.phase.BodyRecorded? || t.phase.Forwarded?)
  }

  lemma AddNothing(counter: u64)
    ensures FetchAdd(counter, 0) == counter
  {
  }

  lemma AddMoves(s: State, i: nat, t: Thread, report: Report)
    requires i < |s.threads| && t.Request?
    ensures var s2 := Add(s, i, t, report);
            && Moves(s, s2, i) && CountersMove(s, s2, t, s2.threads[i])
            && s2 == s.(redactionsTotal := s2.redactionsTotal, threads := s2.threads)
            && s2.threads[i] == t.(added := t.added + report.total, recorder := s2.threads[i].recorder)
            && s2.threads[i].recorder == if report.byType == map[] then Idle else Added(report.byType)
  {
    AddNothing(s.redactionsTotal);
  }

  /** A snapshot changes no counter and no other thread. */
  lemma AdvanceMoves(s: State, i: nat)
    requires i < |s.threads| && s.threads[i].Snapshotter?
    requires Advanced(s, i, s.threads[i]).Some?
    ensures var s2 := Advanced(s, i, s.threads[i]).value;
            && Moves(s, s2, i) && s2.threads[i].Snapshotter?
            && s2 == s.(lock := s2.lock, threads := s2.threads)
  {
  }

  /** A step that changes thread `i` alone, and the counters by what that thread newly accounts for. */
  ghost predicate Accounts(s: State, next: Option<State>, i: nat, maxBodyBytes: nat)
    requires i < |s.threads|
  {
    next.Some? ==>
      && Moves(s, next.value, i) && CountersMove(s, next.value, s.threads[i], next.value.threads[i])
      && ThreadOk(next.value.threads[i], maxBodyBytes)
  }

  lemma CountingMoves(s: State, maxBodyBytes: nat, i: nat, action: Action)
    requires i < |s.threads| && ThreadOk(s.threads[i], maxBodyBytes)
    requires action.Count? || action.RefuseBody? || action.RefusePayload?
    ensures Accounts(s, Act(s, maxBodyBytes, i, action), i, maxBodyBytes)
  {
  }

  lemma AnswerMoves(s: State, maxBodyBytes: nat, i: nat, action: Action)
    requires i < |s.threads| && ThreadOk(s.threads[i], maxBodyBytes)
    requires action.FailRedaction? || action.FailUpstream? || action.Answer?
    ensures Accounts(s, Act(s, maxBodyBytes, i, action), i, maxBodyBytes)
  {
  }

  lemma ByteMoves(s: State, maxBodyBytes: nat, i: nat, action: Action)
    requires i < |s.threads| && ThreadOk(s.threads[i], maxBodyBytes)
    requires action.Accept? || action.Forward?
    ensures Accounts(s, Act(s, maxBodyBytes, i, action), i, maxBodyBytes)
  {
    AddNothing(s.requestBytes);
    AddNothing(s.forwardedBytes);
  }

  lemma RecordMoves(s: State, maxBodyBytes: nat, i: nat, action: Action)
    requires i < |s.threads| && ThreadOk(s.threads[i], maxBodyBytes)
    requires action.RecordBody? || action.RecordHeader?
    ensures Accounts(s, Act(s, maxBodyBytes, i, action), i, maxBodyBytes)
  {
    var t := s.threads[i];
    if t.Request? {
      AddMoves(s, i, if action.RecordBody? then t.(phase := BodyRecorded) else t, Tally(action.kinds));
    }
  }

  lemma LockingMoves(s: State, maxBodyBytes: nat, i: nat, action: Action)
    requires i < |s.threads| && ThreadOk(s.threads[i], maxBodyBytes)
    requires action.TakeLock? || action.ReadEntry? || action.WriteEntry? || action.ReleaseLock?
    ensures Accounts(s, Act(s, maxBodyBytes, i, action), i, maxBodyBytes)
  {
  }

  lemma StepMoves(s: State, maxBodyBytes: nat, i: nat, action: Action)
    requires i < |s.threads| && ThreadOk(s.threads[i], maxBodyBytes)
    requires Act(s, maxBodyBytes, i, action).Some?
    ensures var s2 := Act(s, maxBodyBytes, i, action).value;
            && Moves(s, s2, i)
            && CountersMove(s, s2, s.threads[i], s2.threads[i])
            && ThreadOk(s2.threads[i], maxBodyBytes)
  {
    if action.Count? || action.RefuseBody? || action.RefusePayload? {
      CountingMoves(s, maxBodyBytes, i, action);
    } else if action.FailRedaction? || action.FailUpstream? || action.Answer? {
      AnswerMoves(s, maxBodyBytes, i, action);
    } else if action.Accept? || action.Forward? {
      ByteMoves(s, maxBodyBytes, i, action);
    } else if action.RecordBody? || action.RecordHeader? {
      RecordMoves(s, maxBodyBytes, i, action);
    } else if action.Advance? {
      AdvanceMoves(s, i);
    } else {
      LockingMoves(s, maxBodyBytes, i, action);
    }
  }

  lemma WrapAdds(a: nat, n: nat)
    ensures FetchAdd(Wrap(a), n) == Wrap(a + n)
  {
  }

  lemma CounterKept(threads: seq<Thread>, f: Thread -> nat, i: nat, t2: Thread, counter: u64, counter2: u64)
    requires i < |threads| && counter == Wrap(SumOver(threads, f)) && Grows(counter, counter2, f(threads[i]), f(t2))
    ensures counter2 == Wrap(SumOver(threads[i := t2], f))
    ensures SumOver(threads, f) <= SumOver(threads[i := t2], f)
  {
    SumReplace(threads, f, i, t2);
    WrapAdds(SumOver(threads, f), f(t2) - f(threads[i]));
  }

  // ----- the counters count

  /** Each counter is, modulo its width, the exact sum of what the threads have done. */
  ghost predicate CountersOk(s: State) {
    && s.requests == Wrap(SumOver(s.threads, HasArrived))
    && s.upstreamErrors == Wrap(SumOver(s.threads, HasFailed))
    && s.rejectedPayloads == Wrap(SumOver(s.threads, WasRejected))
    && s.requestBytes == Wrap(SumOver(s.threads, BytesOf))
    && s.forwardedBytes == Wrap(SumOver(s.threads, ForwardedOf))
    && s.redactionsTotal == Wrap(SumOver(s.threads, AddedOf))
  }

  /** The sums never shrink. */
  ghost predicate SumsGrow(s: State, s2: State) {
    && Arrivals(s) <= Arrivals(s2)
    && SumOver(s.threads, HasFailed) <= SumOver(s2.threads, HasFailed)
    && SumOver(s.threads, WasRejected) <= SumOver(s2.threads, WasRejected)
    && SumOver(s.threads, BytesOf) <= SumOver(s2.threads, BytesOf)
    && SumOver(s.threads, ForwardedOf) <= SumOver(s2.threads, ForwardedOf)
    && TotalAdded(s) <= TotalAdded(s2)
  }

  lemma CountersKept(s: State, s2: State, i: nat)
    requires CountersOk(s) && Moves(s, s2, i) && CountersMove(s, s2, s.threads[i], s2.threads[i])
    ensures CountersOk(s2) && SumsGrow(s, s2)
  {
    var t2 := s2.threads[i];
    CounterKept(s.threads, HasArrived, i, t2, s.requests, s2.requests);
    CounterKept(s.threads, HasFailed, i, t2, s.upstreamErrors, s2.upstreamErrors);
    CounterKept(s.threads, WasRejected, i, t2, s.rejectedPayloads, s2.rejectedPayloads);
    CounterKept(s.threads, BytesOf, i, t2, s.requestBytes, s2.requestBytes);
    CounterKept(s.threads, ForwardedOf, i, t2, s.forwardedBytes, s2.forwardedBytes);
    CounterKept(s.threads, AddedOf, i, t2, s.redactionsTotal, s2.redactionsTotal);
  }

  // ----- the lock excludes

  predicate Holds(t: Thread) {
    match t
    case Request(_, _, _, _, recorder) => recorder.Merging? || recorder.Read?
    case Snapshotter(step, _, _) => step.Locked? || step.Cloned?
  }

  ghost predicate ReadOk(t: Thread, byType: map<DetectorKind, u64>) {
    t.Request? && t.recorder.Read? ==>
      t.recorder.kind in t.recorder.rest && t.recorder.current == Get(byType, t.recorder.kind)
  }

  /** Just the owner of the lock is inside, and an entry that was read is still what it was. */
  ghost predicate LockOk(s: State) {
    && (s.lock.Some? ==> s.lock.value < |s.threads|)
    && (forall i | 0 <= i < |s.threads| :: Holds(s.threads[i]) <==> s.lock == Some(i))
    && (forall i | 0 <= i < |s.threads| :: ReadOk(s.threads[i], s.byType))
  }

  /** What a step does to the lock and the map. */
  ghost predicate LockMoves(s: State, s2: State, i: nat, t: Thread, t2: Thread) {
    || (s2.lock == s.lock && Holds(t) == Holds(t2) && (Holds(t) || s2.byType == s.byType))
    || (s.lock.None? && s2.lock == Some(i) && Holds(t2) && s2.byType == s.byType)
    || (Holds(t) && !Holds(t2) && s2.lock.None? && s2.byType == s.byType)
  }

  lemma StepLocks(s: State, maxBodyBytes: nat, i: nat, action: Action)
    requires i < |s.threads| && ThreadOk(s.threads[i], maxBodyBytes) && ReadOk(s.threads[i], s.byType)
    requires Act(s, maxBodyBytes, i, action).Some?
    ensures var s2 := Act(s, maxBodyBytes, i, action).value;
            && Moves(s, s2, i)
            && LockMoves(s, s2, i, s.threads[i], s2.threads[i]) && ReadOk(s2.threads[i], s2.byType)
  {
  }

  lemma LockKept(s: State, s2: State, i: nat)
    requires LockOk(s) && Moves(s, s2, i)
    requires LockMoves(s, s2, i, s.threads[i], s2.threads[i]) && ReadOk(s2.threads[i], s2.byType)
    ensures LockOk(s2)
  {
    assert Holds(s.threads[i]) <==> s.lock == Some(i);
    forall j | 0 <= j < |s2.threads|
      ensures Holds(s2.threads[j]) <==> s2.lock == Some(j)
      ensures ReadOk(s2.threads[j], s2.byType)
    {
      if j != i {
        assert s2.threads[j] == s.threads[j];
        assert Holds(s.threads[j]) <==> s.lock == Some(j);
      }
    }
  }

  // ----- the map and what is pending add up to the total

  /** While the exact total fits the counter, nothing is lost on the way from the total to the map. */
  ghost predicate MapOk(s: State) {
    TotalAdded(s) <= U64_MAX ==> Sum(s.byType) + TotalPending(s) == TotalAdded(s)
  }

  /** What a step moves between the total, the pending reports and the map. */
  ghost predicate Moved(s: State, s2: State, t: Thread, t2: Thread) {
    Sum(s2.byType) + PendingOf(t2) + AddedOf(t) == Sum(s.byType) + PendingOf(t) + AddedOf(t2)
  }

  lemma SumEmpty(m: map<DetectorKind, nat>)
    ensures m == map[] ==> Sum(m) == 0
  {
  }

  lemma EntryInSum(m: map<DetectorKind, nat>, kind: DetectorKind)
    ensures kind in m ==> m[kind] <= Sum(m)
  {
    if kind in m {
      SumWithout(m, kind);
    }
  }

  lemma AddBalances(s: State, i: nat, t: Thread, kinds: seq<DetectorKind>)
    requires i < |s.threads| && t.Request? && t.recorder.Idle? && |kinds| <= U64_MAX
    ensures Moved(s, Add(s, i, t, Tally(kinds)), t, Add(s, i, t, Tally(kinds)).threads[i])
  {
    TallyAddsUp(kinds);
    SumEmpty(Tally(kinds).byType);
  }

  lemma WriteBalances(s: State, rest: map<DetectorKind, u64>, kind: DetectorKind)
    requires kind in rest && Sum(s.byType) + Sum(rest) <= U64_MAX
    ensures var merged := s.byType[kind := SaturatingAdd(Get(s.byType, kind), rest[kind])];
            Sum(merged) + Sum(rest - {kind}) == Sum(s.byType) + Sum(rest)
  {
    EntryInSum(s.byType, kind);
    EntryInSum(rest, kind);
    SumWithout(rest, kind);
    SumUpdate(s.byType, kind, SaturatingAdd(Get(s.byType, kind), rest[kind]));
  }

  /** A step that loses nothing between the total, the pending reports and the map. */
  ghost predicate Balances(s: State, next: Option<State>, i: nat)
    requires i < |s.threads|
  {
    next.Some? ==> Moves(s, next.value, i) && Moved(s, next.value, s.threads[i], next.value.threads[i])
  }

  lemma RecordBalances(s: State, maxBodyBytes: nat, i: nat, action: Action)
    requires i < |s.threads| && ThreadOk(s.threads[i], maxBodyBytes)
    requires action.RecordBody? || action.RecordHeader?
    ensures Balances(s, Act(s, maxBodyBytes, i, action), i)
  {
    var t := s.threads[i];
    if Act(s, maxBodyBytes, i, action).Some? {
      AddBalances(s, i, if action.RecordBody? then t.(phase := BodyRecorded) else t, action.kinds);
    }
  }

  lemma LockBalances(s: State, maxBodyBytes: nat, i: nat, action: Action)
    requires i < |s.threads| && ReadOk(s.threads[i], s.byType)
    requires Sum(s.byType) + PendingOf(s.threads[i]) <= U64_MAX
    requires action.TakeLock? || action.ReadEntry? || action.WriteEntry? || action.ReleaseLock?
    ensures Balances(s, Act(s, maxBodyBytes, i, action), i)
  {
    var t := s.threads[i];
    if Act(s, maxBodyBytes, i, action).Some? {
      match action {
        case WriteEntry => WriteBalances(s, t.recorder.rest, t.recorder.kind);
        case ReleaseLock => SumEmpty(t.recorder.rest);
        case _ =>
      }
    }
  }

  lemma OtherBalances(s: State, maxBodyBytes: nat, i: nat, action: Action)
    requires i < |s.threads| && ThreadOk(s.threads[i], maxBodyBytes)
    requires !action.RecordBody? && !action.RecordHeader?
    requires !action.TakeLock? && !action.ReadEntry? && !action.WriteEntry? && !action.ReleaseLock?
    ensures Balances(s, Act(s, maxBodyBytes, i, action), i)
  {
  }

  lemma StepBalances(s: State, maxBodyBytes: nat, i: nat, action: Action)
    requires i < |s.threads| && ThreadOk(s.threads[i], maxBodyBytes) && ReadOk(s.threads[i], s.byType)
    requires Act(s, maxBodyBytes, i, action).Some?
    requires Sum(s.byType) + PendingOf(s.threads[i]) <= U64_MAX
    ensures var s2 := Act(s, maxBodyBytes, i, action).value;
            Moves(s, s2, i) && Moved(s, s2, s.threads[i], s2.threads[i])
  {
    if action.RecordBody? || action.RecordHeader? {
      RecordBalances(s, maxBodyBytes, i, action);
    } else if action.TakeLock? || action.ReadEntry? || action.WriteEntry? || action.ReleaseLock? {
      LockBalances(s, maxBodyBytes, i, action);
    } else {
      OtherBalances(s, maxBodyBytes, i, action);
    }
  }

  lemma MapKept(s: State, s2: State, i: nat)
    requires Moves(s, s2, i) && SumsGrow(s, s2) && MapOk(s)
    requires TotalAdded(s) <= U64_MAX ==> Moved(s, s2, s.threads[i], s2.threads[i])
    ensures MapOk(s2)
  {
    SumReplace(s.threads, Pending(), i, s2.threads[i]);
    SumReplace(s.threads, AddedOf, i, s2.threads[i]);
  }

  // ----- snapshots

  function Rank(step: SnapStep): nat {
    match step
    case Start => 0
    case Locked => 1
    case Cloned => 2
    case Unlocked => 3
    case HasRequests => 4
    case HasUpstream => 5
    case HasRejected => 6
    case HasRequestBytes => 7
    case HasForwarded => 8
    case Taken => 9
  }

  ghost predicate MapSeen(t: Thread, s: State)
    requires t.Snapshotter?
  {
    Rank(t.step) >= 2 && TotalAdded(s) <= U64_MAX ==>
      Sum(t.view.byType) + t.seen.pending == t.seen.atClone && t.seen.atClone <= TotalAdded(s)
  }

  ghost predicate CountersSeen(t: Thread, s: State)
    requires t.Snapshotter?
  {
    && (Rank(t.step) >= 5 ==> t.view.upstreamErrors <= SumOver(s.threads, HasFailed))
    && (Rank(t.step) >= 6 ==> t.view.rejectedPayloads <= SumOver(s.threads, WasRejected))
    && (Rank(t.step) >= 7 ==> t.view.requestBytes <= SumOver(s.threads, BytesOf))
  }

  ghost predicate TotalSeen(t: Thread, s: State)
    requires t.Snapshotter?
  {
    Rank(t.step) >= 9 && TotalAdded(s) <= U64_MAX ==>
      t.view.redactionsTotal == t.seen.atLoad && t.seen.atClone <= t.seen.atLoad <= TotalAdded(s)
  }

  /** What a snapshot has seen so far, against what has happened so far. */
  ghost predicate SnapshotOk(t: Thread, s: State) {
    t.Snapshotter? ==> MapSeen(t, s) && CountersSeen(t, s) && TotalSeen(t, s)
  }

  lemma SnapshotStays(t: Thread, s: State, s2: State)
    requires SnapshotOk(t, s) && SumsGrow(s, s2)
    ensures SnapshotOk(t, s2)
  {
  }

  lemma WrapShrinks(n: nat)
    ensures Wrap(n) <= n && (n <= U64_MAX ==> Wrap(n) == n)
  {
  }

  /** The thread after the next step of a snapshot. */
  ghost function Next(s: State, i: nat): Thread
    requires i < |s.threads| && s.threads[i].Snapshotter?
    requires Advanced(s, i, s.threads[i]).Some?
  {
    Advanced(s, i, s.threads[i]).value.threads[i]
  }

  lemma AdvanceSeesMap(s: State, i: nat)
    requires i < |s.threads| && s.threads[i].Snapshotter? && MapOk(s) && MapSeen(s.threads[i], s)
    requires Advanced(s, i, s.threads[i]).Some?
    ensures Next(s, i).Snapshotter? && MapSeen(Next(s, i), s)
  {
  }

  lemma AdvanceSeesCounters(s: State, i: nat)
    requires i < |s.threads| && s.threads[i].Snapshotter? && CountersOk(s) && CountersSeen(s.threads[i], s)
    requires Advanced(s, i, s.threads[i]).Some?
    ensures Next(s, i).Snapshotter? && CountersSeen(Next(s, i), s)
  {
    WrapShrinks(SumOver(s.threads, HasFailed));
    WrapShrinks(SumOver(s.threads, WasRejected));
    WrapShrinks(SumOver(s.threads, BytesOf));
  }

  lemma AdvanceSeesTotal(s: State, i: nat)
    requires i < |s.threads| && s.threads[i].Snapshotter? && CountersOk(s)
    requires MapSeen(s.threads[i], s) && TotalSeen(s.threads[i], s)
    requires Advanced(s, i, s.threads[i]).Some?
    ensures Next(s, i).Snapshotter? && TotalSeen(Next(s, i), s)
  {
    WrapShrinks(TotalAdded(s));
  }

  lemma SnapshotAdvances(s: State, i: nat)
    requires i < |s.threads| && s.threads[i].Snapshotter? && SnapshotOk(s.threads[i], s)
    requires CountersOk(s) && MapOk(s)
    requires Advanced(s, i, s.threads[i]).Some?
    ensures SnapshotOk(Next(s, i), s)
  {
    AdvanceSeesMap(s, i);
    AdvanceSeesCounters(s, i);
    AdvanceSeesTotal(s, i);
  }

  // ----- every reachable state

  ghost predicate Inv(s: State, maxBodyBytes: nat) {
    && CountersOk(s) && LockOk(s) && MapOk(s)
    && (forall i | 0 <= i < |s.threads| :: ThreadOk(s.threads[i], maxBodyBytes))
    && (forall i | 0 <= i < |s.threads| :: SnapshotOk(s.threads[i], s))
  }

  lemma PendingFits(s: State, i: nat)
    requires i < |s.threads| && MapOk(s) && TotalAdded(s) <= U64_MAX
    ensures Sum(s.byType) + PendingOf(s.threads[i]) <= U64_MAX
  {
    SumAtLeast(s.threads, Pending(), i);
  }

  lemma SnapshotStepped(s: State, maxBodyBytes: nat, i: nat, action: Action)
    requires Inv(s, maxBodyBytes) && i < |s.threads| && Act(s, maxBodyBytes, i, action).Some?
    ensures var s2 := Act(s, maxBodyBytes, i, action).value; i < |s2.threads| && SnapshotOk(s2.threads[i], s)
  {
    assert ThreadOk(s.threads[i], maxBodyBytes) && SnapshotOk(s.threads[i], s);
    StepMoves(s, maxBodyBytes, i, action);
    if s.threads[i].Snapshotter? {
      SnapshotAdvances(s, i);
    }
  }

  /** Every step keeps the invariant. */
  lemma StepKeepsInv(s: State, maxBodyBytes: nat, i: nat, action: Action)
    requires Inv(s, maxBodyBytes) && i < |s.threads| && Act(s, maxBodyBytes, i, action).Some?
    ensures Inv(Act(s, maxBodyBytes, i, action).value, maxBodyBytes)
  {
    var s2 := Act(s, maxBodyBytes, i, action).value;
    assert ThreadOk(s.threads[i], maxBodyBytes) && ReadOk(s.threads[i], s.byType);
    StepMoves(s, maxBodyBytes, i, action);
    CountersKept(s, s2, i);
    StepLocks(s, maxBodyBytes, i, action);
    LockKept(s, s2, i);
    if TotalAdded(s) <= U64_MAX {
      PendingFits(s, i);
      StepBalances(s, maxBodyBytes, i, action);
    }
    MapKept(s, s2, i);
    SnapshotStepped(s, maxBodyBytes, i, action);
    forall j | 0 <= j < |s2.threads|
      ensures ThreadOk(s2.threads[j], maxBodyBytes) && SnapshotOk(s2.threads[j], s2)
    {
      if j != i {
        assert s2.threads[j] == s.threads[j];
        assert ThreadOk(s.threads[j], maxBodyBytes) && SnapshotOk(s.threads[j], s);
      }
      SnapshotStays(s2.threads[j], s, s2);
    }
  }

  lemma {:induction false} NothingYet(threads: seq<Thread>, f: Thread -> nat)
    requires forall i | 0 <= i < |threads| :: f(threads[i]) == 0
    ensures SumOver(threads, f) == 0
  {
    if threads != [] {
      NothingYet(threads[..|threads| - 1], f);
    }
  }

  lemma InitCounters(s: State)
    requires Init(s)
    ensures CountersOk(s)
  {
    assert forall i | 0 <= i < |s.threads| :: IsNew(s.threads[i]);
    NothingYet(s.threads, HasArrived);
    NothingYet(s.threads, HasFailed);
    NothingYet(s.threads, WasRejected);
    NothingYet(s.threads, BytesOf);
    NothingYet(s.threads, ForwardedOf);
    NothingYet(s.threads, AddedOf);
  }

  lemma InitMap(s: State)
    requires Init(s)
    ensures MapOk(s)
  {
    assert forall i | 0 <= i < |s.threads| :: IsNew(s.threads[i]);
    NothingYet(s.threads, AddedOf);
    NothingYet(s.threads, Pending());
    SumEmpty(s.byType);
  }

  lemma NewThreadOk(t: Thread, s: State, maxBodyBytes: nat)
    requires IsNew(t)
    ensures ThreadOk(t, maxBodyBytes) && SnapshotOk(t, s) && !Holds(t) && ReadOk(t, s.byType)
  {
  }

  lemma InitInv(s: State, maxBodyBytes: nat)
    requires Init(s)
    ensures Inv(s, maxBodyBytes)
  {
    InitCounters(s);
    InitMap(s);
    forall i | 0 <= i < |s.threads|
      ensures var t := s.threads[i]; ThreadOk(t, maxBodyBytes) && SnapshotOk(t, s) && !Holds(t) && ReadOk(t, s.byType)
    {
      NewThreadOk(s.threads[i], s, maxBodyBytes);
    }
  }

  /** In every interleaving of any number of requests and snapshots the invariant holds. */
  lemma {:induction false} ReachableInv(s: State, maxBodyBytes: nat, schedule: seq<(nat, Action)>)
    requires Init(s) && Run(s, maxBodyBytes, schedule).Some?
    ensures Inv(Run(s, maxBodyBytes, schedule).value, maxBodyBytes)
  {
    if schedule == [] {
      InitInv(s, maxBodyBytes);
    } else {
      var n := |schedule| - 1;
      ReachableInv(s, maxBodyBytes, schedule[..n]);
      StepKeepsInv(Run(s, maxBodyBytes, schedule[..n]).value, maxBodyBytes, schedule[n].0, schedule[n].1);
    }
  }

  /** A snapshot never shows more redactions by type than in total, as long as fewer than 2^64 were added; and it
      shows as many exactly when no report was between total and map when the map was cloned, and none was added
      between that and the reading of the total. */
  lemma SnapshotsAddUp(s: State, maxBodyBytes: nat, schedule: seq<(nat, Action)>, i: nat)
    requires Init(s) && Run(s, maxBodyBytes, schedule).Some?
    requires var now := Run(s, maxBodyBytes, schedule).value;
             && TotalAdded(now) <= U64_MAX
             && i < |now.threads| && now.threads[i].Snapshotter? && now.threads[i].step.Taken?
    ensures var t := Run(s, maxBodyBytes, schedule).value.threads[i];
            && Sum(t.view.byType) <= t.view.redactionsTotal
            && (Sum(t.view.byType) == t.view.redactionsTotal <==>
                  t.seen.pending == 0 && t.seen.atClone == t.seen.atLoad)
  {
    ReachableInv(s, maxBodyBytes, schedule);
    assert SnapshotOk(Run(s, maxBodyBytes, schedule).value.threads[i], Run(s, maxBodyBytes, schedule).value);
  }

  lemma {:induction false} BytesBound(threads: seq<Thread>, maxBodyBytes: nat)
    requires forall i | 0 <= i < |threads| :: ThreadOk(threads[i], maxBodyBytes)
    ensures SumOver(threads, BytesOf) <= SumOver(threads, HasArrived) * maxBodyBytes
  {
    if threads != [] {
      BytesBound(threads[..|threads| - 1], maxBodyBytes);
    }
  }

  lemma {:induction false} FailuresBound(threads: seq<Thread>)
    ensures SumOver(threads, WasRejected) + SumOver(threads, HasFailed) <= SumOver(threads, HasArrived) <= |threads|
  {
    if threads != [] {
      FailuresBound(threads[..|threads| - 1]);
    }
  }

  /** In every reachable state, each request is counted at most once among the failures, and for at most the
      permitted number of bytes, as long as the counters do not wrap around. */
  lemma RequestsAccounted(s: State, maxBodyBytes: nat, schedule: seq<(nat, Action)>)
    requires Init(s) && Run(s, maxBodyBytes, schedule).Some?
    ensures var now := Run(s, maxBodyBytes, schedule).value;
            && (Arrivals(now) <= U64_MAX ==> now.rejectedPayloads + now.upstreamErrors <= now.requests)
            && (Arrivals(now) <= U64_MAX ==> now.requestBytes <= now.requests * maxBodyBytes)
  {
    var now := Run(s, maxBodyBytes, schedule).value;
    ReachableInv(s, maxBodyBytes, schedule);
    FailuresBound(now.threads);
    BytesBound(now.threads, maxBodyBytes);
    WrapShrinks(SumOver(now.threads, WasRejected));
    WrapShrinks(SumOver(now.threads, HasFailed));
    WrapShrinks(SumOver(now.threads, BytesOf));
    WrapShrinks(Arrivals(now));
  }
}
