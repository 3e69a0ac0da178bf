/** From every reachable state the lock can be freed and every request can be brought to an end. */
module MetricsProgress {
  import opened Wrappers
  import opened Detectors
  import opened Stats
  import opened Metrics
  import opened MetricsLaws

  /** The steps that a thread has to take to give back the lock that it holds. */
  function WorkLeft(t: Thread): nat {
    match t
    case Request(_, _, _, _, recorder) =>
      (match recorder
       case Merging(rest) => 2 * |rest| + 1
       case Read(rest, _, _) => 2 * |rest|
       case _ => 0)
    case Snapshotter(step, _, _) => if step.Locked? then 2 else if step.Cloned? then 1 else 0
  }

  /** The next step of a thread that holds the lock. */
  ghost function NextAction(t: Thread): Action
    requires Holds(t)
  {
    match t
    case Snapshotter(_, _, _) => Advance
    case Request(_, _, _, _, recorder) =>
      if recorder.Read? then WriteEntry
      else if recorder.rest == map[] then ReleaseLock
      else
        var kind :| kind in recorder.rest;
        ReadEntry(kind)
  }

  /** A thread that held the lock, and what has become of it on the way to giving it back. */
  predicate OnTheWay(t: Thread, t2: Thread) {
    match t
    case Snapshotter(_, _, _) => t2.Snapshotter?
    case Request(phase, _, _, _, recorder) =>
      && t2.Request? && t2.phase == phase
      && (Holds(t2) || t2.recorder.Idle?)
  }

  lemma FewerEntries(rest: map<DetectorKind, u64>, kind: DetectorKind)
    requires kind in rest
    ensures |rest - {kind}| == |rest| - 1
  {
    assert rest == (rest - {kind})[kind := rest[kind]];
  }

  /** A step of the holder: the lock is kept or given back, and less is left to do. */
  ghost predicate Nearer(now: State, next: Option<State>, i: nat)
    requires i < |now.threads|
  {
    && next.Some? && Moves(now, next.value, i) && OnTheWay(now.threads[i], next.value.threads[i])
    && (if Holds(next.value.threads[i]) then next.value.lock == Some(i) else next.value.lock.None?)
    && WorkLeft(next.value.threads[i]) < WorkLeft(now.threads[i])
  }

  lemma SnapshotMoves(now: State, maxBodyBytes: nat, i: nat)
    requires i < |now.threads| && now.threads[i].Snapshotter? && Holds(now.threads[i]) && now.lock == Some(i)
    ensures Nearer(now, Act(now, maxBodyBytes, i, Advance), i)
  {
  }

  lemma ReleaseMoves(now: State, maxBodyBytes: nat, i: nat)
    requires i < |now.threads| && now.threads[i].Request? && now.threads[i].recorder == Merging(map[])
    ensures Nearer(now, Act(now, maxBodyBytes, i, ReleaseLock), i)
  {
  }

  lemma ReadMoves(now: State, maxBodyBytes: nat, i: nat, kind: DetectorKind)
    requires i < |now.threads| && now.threads[i].Request? && now.threads[i].recorder.Merging? && now.lock == Some(i)
    requires kind in now.threads[i].recorder.rest
    ensures Nearer(now, Act(now, maxBodyBytes, i, ReadEntry(kind)), i)
  {
  }

  lemma WriteMoves(now: State, maxBodyBytes: nat, i: nat)
    requires i < |now.threads| && now.threads[i].Request? && now.threads[i].recorder.Read? && now.lock == Some(i)
    requires now.threads[i].recorder.kind in now.threads[i].recorder.rest
    ensures Nearer(now, Act(now, maxBodyBytes, i, WriteEntry), i)
  {
    FewerEntries(now.threads[i].recorder.rest, now.threads[i].recorder.kind);
  }

  /** The holder of the lock can always go on, and comes nearer to giving it back. */
  lemma HolderMoves(now: State, maxBodyBytes: nat, i: nat)
    requires Inv(now, maxBodyBytes) && now.lock == Some(i)
    ensures i < |now.threads| && Holds(now.threads[i])
    ensures Nearer(now, Act(now, maxBodyBytes, i, NextAction(now.threads[i])), i)
  {
    var t := now.threads[i];
    assert Holds(t) && ReadOk(t, now.byType);
    match NextAction(t) {
      case Advance => SnapshotMoves(now, maxBodyBytes, i);
      case ReleaseLock => ReleaseMoves(now, maxBodyBytes, i);
      case ReadEntry(kind) => ReadMoves(now, maxBodyBytes, i, kind);
      case WriteEntry => WriteMoves(now, maxBodyBytes, i);
    }
  }

  /** The holder of the lock runs on until the lock is free; no other thread moves. */
  lemma {:induction false} FreeLock(s: State, maxBodyBytes: nat, schedule: seq<(nat, Action)>, now: State)
    returns (longer: seq<(nat, Action)>, free: State)
    requires Run(s, maxBodyBytes, schedule) == Some(now) && Inv(now, maxBodyBytes)
    ensures Run(s, maxBodyBytes, longer) == Some(free) && Inv(free, maxBodyBytes) && schedule <= longer
    ensures free.lock.None? && |free.threads| == |now.threads|
    ensures forall j | 0 <= j < |now.threads| ::
              if Holds(now.threads[j]) then OnTheWay(now.threads[j], free.threads[j])
              else free.threads[j] == now.threads[j]
    decreases if now.lock.Some? && now.lock.value < |now.threads| then WorkLeft(now.threads[now.lock.value]) + 1 else 0
  {
    longer, free := schedule, now;
    if now.lock.Some? {
      var i := now.lock.value;
      HolderMoves(now, maxBodyBytes, i);
      var action := NextAction(now.threads[i]);
      StepKeepsInv(now, maxBodyBytes, i, action);
      var next := RunOn(s, maxBodyBytes, schedule, now, i, action);
      longer, free := FreeLock(s, maxBodyBytes, schedule + [(i, action)], next);
    }
  }

  // ----- requests

  predicate HasEnded(t: Thread) { t.Request? && (t.phase.Rejected? || t.phase.Failed? || t.phase.Answered?) }

  /** The steps that a request which records nothing still takes to one of its ends. */
  function StepsLeft(phase: Phase): nat {
    match phase
    case Waiting => 2
    case BodyRecorded => 2
    case Counted => 1
    case Received => 1
    case Forwarded => 1
    case _ => 0
  }

  function EndingAction(phase: Phase): Action {
    match phase
    case Waiting => Count
    case Counted => RefuseBody
    case Received => RefusePayload
    case BodyRecorded => Forward(0)
    case _ => Answer
  }

  lemma EndingMoves(now: State, maxBodyBytes: nat, i: nat)
    requires i < |now.threads| && now.threads[i].Request? && now.threads[i].recorder.Idle? && !HasEnded(now.threads[i])
    ensures var next := Act(now, maxBodyBytes, i, EndingAction(now.threads[i].phase));
            && next.Some? && Moves(now, next.value, i)
            && next.value.threads[i].Request? && next.value.threads[i].recorder.Idle?
            && StepsLeft(next.value.threads[i].phase) < StepsLeft(now.threads[i].phase)
  {
  }

  lemma {:induction false} EndIdle(s: State, maxBodyBytes: nat, schedule: seq<(nat, Action)>, now: State, i: nat)
    returns (longer: seq<(nat, Action)>, end: State)
    requires Run(s, maxBodyBytes, schedule) == Some(now)
    requires i < |now.threads| && now.threads[i].Request? && now.threads[i].recorder.Idle?
    ensures Run(s, maxBodyBytes, longer) == Some(end) && schedule <= longer
    ensures i < |end.threads| && HasEnded(end.threads[i])
    decreases StepsLeft(now.threads[i].phase)
  {
    longer, end := schedule, now;
    if !HasEnded(now.threads[i]) {
      var action := EndingAction(now.threads[i].phase);
      EndingMoves(now, maxBodyBytes, i);
      var next := RunOn(s, maxBodyBytes, schedule, now, i, action);
      longer, end := EndIdle(s, maxBodyBytes, schedule + [(i, action)], next, i);
    }
  }

  lemma LockTaken(now: State, maxBodyBytes: nat, i: nat)
    requires Inv(now, maxBodyBytes) && i < |now.threads| && now.lock.None?
    requires now.threads[i].Request? && now.threads[i].recorder.Added?
    ensures var next := Act(now, maxBodyBytes, i, TakeLock);
            && next.Some? && Inv(next.value, maxBodyBytes) && |next.value.threads| == |now.threads|
            && next.value.threads[i].Request? && Holds(next.value.threads[i])
  {
    StepKeepsInv(now, maxBodyBytes, i, TakeLock);
  }

  /** A request finishes what it records, waiting for the lock if need be. */
  lemma GoIdle(s: State, maxBodyBytes: nat, schedule: seq<(nat, Action)>, now: State, i: nat)
    returns (longer: seq<(nat, Action)>, idle: State)
    requires Run(s, maxBodyBytes, schedule) == Some(now) && Inv(now, maxBodyBytes)
    requires i < |now.threads| && now.threads[i].Request?
    ensures Run(s, maxBodyBytes, longer) == Some(idle) && schedule <= longer
    ensures i < |idle.threads| && idle.threads[i].Request? && idle.threads[i].recorder.Idle?
  {
    longer, idle := FreeLock(s, maxBodyBytes, schedule, now);
    assert !Holds(idle.threads[i]);
    if idle.threads[i].recorder.Added? {
      LockTaken(idle, maxBodyBytes, i);
      var next := RunOn(s, maxBodyBytes, longer, idle, i, TakeLock);
      ghost var before := longer + [(i, TakeLock)];
      longer, idle := FreeLock(s, maxBodyBytes, before, next);
      assert !Holds(idle.threads[i]) && schedule <= before;
    }
  }

  /** No two threads are inside the lock, and no state is a dead end: every run can go on to free the lock, and to bring
      any request to an end. */
  lemma NothingIsStuck(s: State, maxBodyBytes: nat, schedule: seq<(nat, Action)>, i: nat)
    requires Init(s) && Run(s, maxBodyBytes, schedule).Some?
    requires var threads := Run(s, maxBodyBytes, schedule).value.threads; i < |threads| && threads[i].Request?
    ensures var threads := Run(s, maxBodyBytes, schedule).value.threads;
            forall j, k | 0 <= j < k < |threads| :: !(Holds(threads[j]) && Holds(threads[k]))
    ensures exists longer :: schedule <= longer &&
              Run(s, maxBodyBytes, longer).Some? && Run(s, maxBodyBytes, longer).value.lock.None?
    ensures exists longer :: schedule <= longer && Run(s, maxBodyBytes, longer).Some? &&
              var end := Run(s, maxBodyBytes, longer).value; i < |end.threads| && HasEnded(end.threads[i])
  {
    var now := Run(s, maxBodyBytes, schedule).value;
    ReachableInv(s, maxBodyBytes, schedule);
    var freeing, free := FreeLock(s, maxBodyBytes, schedule, now);
    var idling, idle := GoIdle(s, maxBodyBytes, schedule, now, i);
    var ending, end := EndIdle(s, maxBodyBytes, idling, idle, i);
    assert schedule <= ending;
  }
}
