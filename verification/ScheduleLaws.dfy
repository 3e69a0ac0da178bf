/** What the counters and the map hold after a schedule, by the actions in it. */
module ScheduleLaws {
  import opened Wrappers
  import opened Detectors
  import opened Stats
  import opened Metrics
  import opened MetricsLaws

  // ----- what an action is worth

  function ArrivalsBy(action: Action): nat { if action.Count? then 1 else 0 }

  function RejectionsBy(action: Action): nat { if action.RefuseBody? || action.RefusePayload? then 1 else 0 }

  function ErrorsBy(action: Action): nat { if action.FailRedaction? || action.FailUpstream? then 1 else 0 }

  function BytesBy(action: Action): nat { if action.Accept? then action.n else 0 }

  function ForwardedBy(action: Action): nat { if action.Forward? then action.n else 0 }

  function KindsBy(action: Action): seq<DetectorKind> {
    match action
    case RecordBody(kinds) => kinds
    case RecordHeader(kinds) => kinds
    case _ => []
  }

  function RedactionsBy(action: Action): nat { |KindsBy(action)| }

  function RedactionsOf(kind: DetectorKind): Action -> nat { action => multiset(KindsBy(action))[kind] }

  /** The worth of all actions of a schedule. */
  function Total(schedule: seq<(nat, Action)>, worth: Action -> nat): nat {
    if schedule == [] then 0
    else Total(schedule[..|schedule| - 1], worth) + worth(schedule[|schedule| - 1].1)
  }

  // ----- the counters

  /** Each counter is, modulo its width, the worth of the actions that it counts. */
  ghost predicate CountersAre(s: State, schedule: seq<(nat, Action)>) {
    && s.requests == Wrap(Total(schedule, ArrivalsBy))
    && s.rejectedPayloads == Wrap(Total(schedule, RejectionsBy))
    && s.upstreamErrors == Wrap(Total(schedule, ErrorsBy))
    && s.requestBytes == Wrap(Total(schedule, BytesBy))
    && s.forwardedBytes == Wrap(Total(schedule, ForwardedBy))
    && s.redactionsTotal == Wrap(Total(schedule, RedactionsBy))
  }

  /** A step adds to each counter what its action is worth. */
  ghost predicate CountersAdd(s: State, s2: State, action: Action) {
    && s2.requests == FetchAdd(s.requests, ArrivalsBy(action))
    && s2.rejectedPayloads == FetchAdd(s.rejectedPayloads, RejectionsBy(action))
    && s2.upstreamErrors == FetchAdd(s.upstreamErrors, ErrorsBy(action))
    && s2.requestBytes == FetchAdd(s.requestBytes, BytesBy(action))
    && s2.forwardedBytes == FetchAdd(s.forwardedBytes, ForwardedBy(action))
    && s2.redactionsTotal == FetchAdd(s.redactionsTotal, RedactionsBy(action))
  }

  lemma NothingAdded(s: State)
    ensures FetchAdd(s.requests, 0) == s.requests && FetchAdd(s.rejectedPayloads, 0) == s.rejectedPayloads
    ensures FetchAdd(s.upstreamErrors, 0) == s.upstreamErrors && FetchAdd(s.requestBytes, 0) == s.requestBytes
    ensures FetchAdd(s.forwardedBytes, 0) == s.forwardedBytes && FetchAdd(s.redactionsTotal, 0) == s.redactionsTotal
  {
  }

  lemma TallyTotal(kinds: seq<DetectorKind>)
    requires |kinds| <= U64_MAX
    ensures Tally(kinds).total == |kinds|
  {
    TallyIsExact(kinds);
  }

  lemma StepAdds(s: State, maxBodyBytes: nat, i: nat, action: Action)
    requires i < |s.threads| && Act(s, maxBodyBytes, i, action).Some?
    ensures CountersAdd(s, Act(s, maxBodyBytes, i, action).value, action)
  {
    NothingAdded(s);
    if |KindsBy(action)| <= U64_MAX {
      TallyTotal(KindsBy(action));
    }
    if s.threads[i].Snapshotter? {
      AdvanceMoves(s, i);
    }
  }

  /** In every interleaving the counters count the actions of the schedule. */
  lemma {:induction false} CountersCount(s: State, maxBodyBytes: nat, schedule: seq<(nat, Action)>)
    requires Init(s) && Run(s, maxBodyBytes, schedule).Some?
    ensures CountersAre(Run(s, maxBodyBytes, schedule).value, schedule)
  {
    if schedule != [] {
      var n := |schedule| - 1;
      var (i, action) := schedule[n];
      var before := Run(s, maxBodyBytes, schedule[..n]).value;
      CountersCount(s, maxBodyBytes, schedule[..n]);
      StepAdds(before, maxBodyBytes, i, action);
      TotalsAdd(before, Act(before, maxBodyBytes, i, action).value, schedule[..n], action, schedule);
    }
  }

  lemma TotalsAdd(s: State, s2: State, front: seq<(nat, Action)>, action: Action, schedule: seq<(nat, Action)>)
    requires CountersAre(s, front) && CountersAdd(s, s2, action)
    requires schedule != [] && schedule[..|schedule| - 1] == front && schedule[|schedule| - 1].1 == action
    ensures CountersAre(s2, schedule)
  {
    WrapAdds(Total(front, ArrivalsBy), ArrivalsBy(action));
    WrapAdds(Total(front, RejectionsBy), RejectionsBy(action));
    WrapAdds(Total(front, ErrorsBy), ErrorsBy(action));
    WrapAdds(Total(front, BytesBy), BytesBy(action));
    WrapAdds(Total(front, ForwardedBy), ForwardedBy(action));
    WrapAdds(Total(front, RedactionsBy), RedactionsBy(action));
  }

  // ----- the entries of the map

  /** What a thread has added to the total and not yet merged into the entry of a kind. */
  function PendingFor(kind: DetectorKind, t: Thread): nat {
    if t.Request? && !t.recorder.Idle? then Get(t.recorder.rest, kind) else 0
  }

  function PendingOfKind(kind: DetectorKind): Thread -> nat { t => PendingFor(kind, t) }

  /** What a step adds to the entry of a kind and to what is pending for it. */
  ghost predicate Reaches(s: State, s2: State, i: nat, action: Action, kind: DetectorKind) {
    && Moves(s, s2, i)
    && Get(s2.byType, kind) + PendingFor(kind, s2.threads[i]) ==
       Get(s.byType, kind) + PendingFor(kind, s.threads[i]) + RedactionsOf(kind)(action)
  }

  lemma TallyEntry(kinds: seq<DetectorKind>, kind: DetectorKind)
    requires |kinds| <= U64_MAX
    ensures Get(Tally(kinds).byType, kind) == multiset(kinds)[kind]
  {
    TallyIsExact(kinds);
    CountedAt(multiset(kinds), kind);
    AtMostAll(multiset(kinds), kind);
  }

  lemma AtMostAll(kinds: multiset<DetectorKind>, kind: DetectorKind)
    ensures kinds[kind] <= |kinds|
  {
    assert kinds == kinds[kind := 0] + multiset{}[kind := kinds[kind]];
    assert |multiset{}[kind := kinds[kind]]| == kinds[kind];
  }

  lemma RecordReaches(s: State, maxBodyBytes: nat, i: nat, action: Action, kind: DetectorKind)
    requires i < |s.threads| && ThreadOk(s.threads[i], maxBodyBytes)
    requires action.RecordBody? || action.RecordHeader?
    requires Act(s, maxBodyBytes, i, action).Some?
    ensures Reaches(s, Act(s, maxBodyBytes, i, action).value, i, action, kind)
  {
    TallyEntry(action.kinds, kind);
  }

  /** The entry of the kind that was read takes what the report holds of it; no other entry changes. */
  lemma WriteReaches(s: State, maxBodyBytes: nat, i: nat, kind: DetectorKind)
    requires i < |s.threads| && ReadOk(s.threads[i], s.byType)
    requires Sum(s.byType) + PendingOf(s.threads[i]) <= U64_MAX
    requires Act(s, maxBodyBytes, i, WriteEntry).Some?
    ensures Reaches(s, Act(s, maxBodyBytes, i, WriteEntry).value, i, WriteEntry, kind)
  {
    var recorder := s.threads[i].recorder;
    EntryInSum(s.byType, recorder.kind);
    EntryInSum(recorder.rest, recorder.kind);
  }

  lemma OtherReaches(s: State, maxBodyBytes: nat, i: nat, action: Action, kind: DetectorKind)
    requires i < |s.threads| && ThreadOk(s.threads[i], maxBodyBytes)
    requires !action.RecordBody? && !action.RecordHeader? && !action.WriteEntry?
    requires Act(s, maxBodyBytes, i, action).Some?
    ensures Reaches(s, Act(s, maxBodyBytes, i, action).value, i, action, kind)
  {
  }

  lemma StepReaches(s: State, maxBodyBytes: nat, i: nat, action: Action, kind: DetectorKind)
    requires i < |s.threads| && ThreadOk(s.threads[i], maxBodyBytes) && ReadOk(s.threads[i], s.byType)
    requires Sum(s.byType) + PendingOf(s.threads[i]) <= U64_MAX
    requires Act(s, maxBodyBytes, i, action).Some?
    ensures Reaches(s, Act(s, maxBodyBytes, i, action).value, i, action, kind)
  {
    if action.RecordBody? || action.RecordHeader? {
      RecordReaches(s, maxBodyBytes, i, action, kind);
    } else if action.WriteEntry? {
      WriteReaches(s, maxBodyBytes, i, kind);
    } else {
      OtherReaches(s, maxBodyBytes, i, action, kind);
    }
  }

  /** The entry of a kind, with what is pending for it, is what the actions of the schedule recorded of it. */
  ghost predicate EntryIs(s: State, schedule: seq<(nat, Action)>, kind: DetectorKind) {
    Get(s.byType, kind) + SumOver(s.threads, PendingOfKind(kind)) == Total(schedule, RedactionsOf(kind))
  }

  lemma EntryAdds(s: State, s2: State, i: nat, action: Action, kind: DetectorKind, front: seq<(nat, Action)>,
                  schedule: seq<(nat, Action)>)
    requires EntryIs(s, front, kind) && Reaches(s, s2, i, action, kind)
    requires schedule != [] && schedule[..|schedule| - 1] == front && schedule[|schedule| - 1].1 == action
    ensures EntryIs(s2, schedule, kind)
  {
    SumReplace(s.threads, PendingOfKind(kind), i, s2.threads[i]);
  }

  lemma InitEntry(s: State, kind: DetectorKind)
    requires Init(s)
    ensures EntryIs(s, [], kind)
  {
    assert forall i | 0 <= i < |s.threads| :: IsNew(s.threads[i]);
    NothingYet(s.threads, PendingOfKind(kind));
  }

  /** What the threads have added to the total is what the actions recorded. */
  lemma {:induction false} AddedIs(s: State, maxBodyBytes: nat, schedule: seq<(nat, Action)>)
    requires Init(s) && Run(s, maxBodyBytes, schedule).Some?
    ensures TotalAdded(Run(s, maxBodyBytes, schedule).value) == Total(schedule, RedactionsBy)
  {
    if schedule == [] {
      assert forall i | 0 <= i < |s.threads| :: IsNew(s.threads[i]);
      NothingYet(s.threads, AddedOf);
    } else {
      var n := |schedule| - 1;
      var (i, action) := schedule[n];
      var before := Run(s, maxBodyBytes, schedule[..n]).value;
      AddedIs(s, maxBodyBytes, schedule[..n]);
      StepAdded(before, maxBodyBytes, i, action);
    }
  }

  lemma StepAdded(s: State, maxBodyBytes: nat, i: nat, action: Action)
    requires i < |s.threads| && Act(s, maxBodyBytes, i, action).Some?
    ensures TotalAdded(Act(s, maxBodyBytes, i, action).value) == TotalAdded(s) + RedactionsBy(action)
  {
    var s2 := Act(s, maxBodyBytes, i, action).value;
    ThreadAdded(s, maxBodyBytes, i, action);
    SumReplace(s.threads, AddedOf, i, s2.threads[i]);
  }

  lemma ThreadAdded(s: State, maxBodyBytes: nat, i: nat, action: Action)
    requires i < |s.threads| && Act(s, maxBodyBytes, i, action).Some?
    ensures var s2 := Act(s, maxBodyBytes, i, action).value;
            Moves(s, s2, i) && AddedOf(s2.threads[i]) == AddedOf(s.threads[i]) + RedactionsBy(action)
  {
    if |KindsBy(action)| <= U64_MAX {
      TallyTotal(KindsBy(action));
    }
    if s.threads[i].Snapshotter? {
      AdvanceMoves(s, i);
    }
  }

  /** In every interleaving, while fewer than 2^64 redactions were recorded: what is recorded of a kind is in the entry
      of that kind, but for what the reports on their way still hold of it. */
  lemma {:induction false} EntriesCount(s: State, maxBodyBytes: nat, schedule: seq<(nat, Action)>, kind: DetectorKind)
    requires Init(s) && Run(s, maxBodyBytes, schedule).Some? && Total(schedule, RedactionsBy) <= U64_MAX
    ensures EntryIs(Run(s, maxBodyBytes, schedule).value, schedule, kind)
  {
    if schedule == [] {
      InitEntry(s, kind);
    } else {
      var n := |schedule| - 1;
      var (i, action) := schedule[n];
      var before := Run(s, maxBodyBytes, schedule[..n]).value;
      EntriesCount(s, maxBodyBytes, schedule[..n], kind);
      StepMayReach(s, before, maxBodyBytes, schedule[..n], i, action, kind);
      EntryAdds(before, Act(before, maxBodyBytes, i, action).value, i, action, kind, schedule[..n], schedule);
    }
  }

  lemma StepMayReach(s: State, before: State, maxBodyBytes: nat, front: seq<(nat, Action)>, i: nat, action: Action,
                     kind: DetectorKind)
    requires Init(s) && Run(s, maxBodyBytes, front) == Some(before) && Total(front, RedactionsBy) <= U64_MAX
    requires i < |before.threads| && Act(before, maxBodyBytes, i, action).Some?
    ensures Reaches(before, Act(before, maxBodyBytes, i, action).value, i, action, kind)
  {
    ReachableInv(s, maxBodyBytes, front);
    AddedIs(s, maxBodyBytes, front);
    PendingFits(before, i);
    assert ThreadOk(before.threads[i], maxBodyBytes) && ReadOk(before.threads[i], before.byType);
    StepReaches(before, maxBodyBytes, i, action, kind);
  }

  /** When no report is on its way, the map is the count by kind of all that was recorded. */
  lemma QuietEntries(s: State, maxBodyBytes: nat, schedule: seq<(nat, Action)>, kind: DetectorKind)
    requires Init(s) && Run(s, maxBodyBytes, schedule).Some? && Total(schedule, RedactionsBy) <= U64_MAX
    requires forall t | t in Run(s, maxBodyBytes, schedule).value.threads && t.Request? :: t.recorder.Idle?
    ensures Get(Run(s, maxBodyBytes, schedule).value.byType, kind) == Total(schedule, RedactionsOf(kind))
  {
    EntriesCount(s, maxBodyBytes, schedule, kind);
    NothingYet(Run(s, maxBodyBytes, schedule).value.threads, PendingOfKind(kind));
  }
}
