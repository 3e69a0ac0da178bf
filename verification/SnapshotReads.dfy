/** What a snapshot shows, by the schedule: each field as it was at one point, the points in the order of the reads. */
module SnapshotReads {
  import opened Detectors
  import opened Stats
  import opened Metrics
  import opened MetricsLaws
  import opened ScheduleLaws

  /** How many actions had been carried out at each read; all of them for the reads to come. */
  datatype Reads = Reads(byType: nat, requests: nat, upstream: nat, rejected: nat, requestBytes: nat, forwarded: nat,
                         total: nat)

  /** The state after the first `n` actions of a schedule. */
  ghost function After(s: State, maxBodyBytes: nat, schedule: seq<(nat, Action)>, n: nat): State {
    if n <= |schedule| && Run(s, maxBodyBytes, schedule[..n]).Some? then Run(s, maxBodyBytes, schedule[..n]).value
    else s
  }

  lemma AfterFront(s: State, maxBodyBytes: nat, schedule: seq<(nat, Action)>, n: nat)
    requires n < |schedule|
    ensures After(s, maxBodyBytes, schedule, n) == After(s, maxBodyBytes, schedule[..|schedule| - 1], n)
  {
    assert schedule[..|schedule| - 1][..n] == schedule[..n];
  }

  lemma {:induction false} RunsBefore(s: State, maxBodyBytes: nat, schedule: seq<(nat, Action)>, n: nat)
    requires n <= |schedule| && Run(s, maxBodyBytes, schedule).Some?
    ensures Run(s, maxBodyBytes, schedule[..n]).Some?
  {
    if n == |schedule| {
      assert schedule[..n] == schedule;
    } else {
      var front := schedule[..|schedule| - 1];
      RunsBefore(s, maxBodyBytes, front, n);
      assert front[..n] == schedule[..n];
    }
  }

  predicate InOrder(at: Reads, end: nat) {
    at.byType <= at.requests <= at.upstream <= at.rejected <= at.requestBytes <= at.forwarded <= at.total <= end
  }

  /** The reads that a snapshot at a step has still before it are put at `end`. */
  function PutOff(at: Reads, step: SnapStep, end: nat): Reads {
    var rank := Rank(step);
    Reads(if rank >= 2 then at.byType else end, if rank >= 4 then at.requests else end,
          if rank >= 5 then at.upstream else end, if rank >= 6 then at.rejected else end,
          if rank >= 7 then at.requestBytes else end, if rank >= 8 then at.forwarded else end,
          if rank >= 9 then at.total else end)
  }

  /** What the snapshot has read so far is what was there at the points. */
  ghost predicate Shows(t: Thread, at: Reads, states: nat -> State)
    requires t.Snapshotter?
  {
    var view, rank := t.view, Rank(t.step);
    && (rank >= 2 ==> view.byType == states(at.byType).byType)
    && (rank >= 4 ==> view.requests == states(at.requests).requests)
    && (rank >= 5 ==> view.upstreamErrors == states(at.upstream).upstreamErrors)
    && (rank >= 6 ==> view.rejectedPayloads == states(at.rejected).rejectedPayloads)
    && (rank >= 7 ==> view.requestBytes == states(at.requestBytes).requestBytes)
    && (rank >= 8 ==> view.forwardedBytes == states(at.forwarded).forwardedBytes)
    && (rank >= 9 ==> view.redactionsTotal == states(at.total).redactionsTotal)
  }

  ghost function StatesOf(s: State, maxBodyBytes: nat, schedule: seq<(nat, Action)>): nat -> State {
    (n: nat) => After(s, maxBodyBytes, schedule, n)
  }

  /** A snapshot that takes a step reads at most one field, as it is now. */
  lemma AdvanceShows(s: State, i: nat, at: Reads, states: nat -> State, now: nat)
    requires i < |s.threads| && s.threads[i].Snapshotter? && Advanced(s, i, s.threads[i]).Some?
    requires Shows(s.threads[i], at, states) && states(now) == s && at == PutOff(at, s.threads[i].step, now)
    ensures Next(s, i).Snapshotter? && Shows(Next(s, i), at, states)
  {
  }

  lemma StatesLonger(t: Thread, at: Reads, states: nat -> State, longer: nat -> State, end: nat)
    requires t.Snapshotter? && Shows(t, at, states) && InOrder(at, end)
    requires forall n: nat | n <= end :: states(n) == longer(n)
    ensures Shows(t, PutOff(at, t.step, end + 1), longer)
  {
  }

  lemma StaysSnapshotter(s: State, maxBodyBytes: nat, i: nat, action: Action, j: nat)
    requires i < |s.threads| && Act(s, maxBodyBytes, i, action).Some?
    requires var s2 := Act(s, maxBodyBytes, i, action).value; j < |s2.threads| && s2.threads[j].Snapshotter?
    ensures j < |s.threads| && s.threads[j].Snapshotter?
    ensures j != i ==> Act(s, maxBodyBytes, i, action).value.threads[j] == s.threads[j]
    ensures j == i ==> Act(s, maxBodyBytes, i, action) == Advanced(s, i, s.threads[i])
  {
  }

  /** In every interleaving each field that a snapshot has read is the field of an earlier state, and the fields were
      read in this order: map, requests, upstream errors, rejected payloads, request bytes, forwarded bytes, total. */
  lemma {:induction false} ReadPoints(s: State, maxBodyBytes: nat, schedule: seq<(nat, Action)>, j: nat)
    returns (at: Reads)
    requires Init(s) && Run(s, maxBodyBytes, schedule).Some?
    requires var now := Run(s, maxBodyBytes, schedule).value; j < |now.threads| && now.threads[j].Snapshotter?
    ensures var t := Run(s, maxBodyBytes, schedule).value.threads[j];
            && InOrder(at, |schedule|) && at == PutOff(at, t.step, |schedule|)
            && Shows(t, at, StatesOf(s, maxBodyBytes, schedule))
  {
    if schedule == [] {
      assert IsNew(s.threads[j]);
      at := Reads(0, 0, 0, 0, 0, 0, 0);
    } else {
      var n := |schedule| - 1;
      var front := schedule[..n];
      var (i, action) := schedule[n];
      var before := Run(s, maxBodyBytes, front).value;
      var now := Act(before, maxBodyBytes, i, action).value;
      StaysSnapshotter(before, maxBodyBytes, i, action, j);
      var earlier := ReadPoints(s, maxBodyBytes, front, j);
      assert front[..n] == front;
      if j == i {
        AdvanceShows(before, i, earlier, StatesOf(s, maxBodyBytes, front), n);
      }
      forall k: nat | k <= n
        ensures StatesOf(s, maxBodyBytes, front)(k) == StatesOf(s, maxBodyBytes, schedule)(k)
      {
        AfterFront(s, maxBodyBytes, schedule, k);
      }
      StatesLonger(now.threads[j], earlier, StatesOf(s, maxBodyBytes, front), StatesOf(s, maxBodyBytes, schedule), n);
      at := PutOff(earlier, now.threads[j].step, n + 1);
    }
  }

  /** The actions of a schedule up to a point. */
  function UpTo(schedule: seq<(nat, Action)>, n: nat): seq<(nat, Action)>
    requires n <= |schedule|
  {
    schedule[..n]
  }

  /** What a snapshot shows that was taken. */
  ghost predicate ShowsCounts(view: Snapshot, schedule: seq<(nat, Action)>, at: Reads)
    requires InOrder(at, |schedule|)
  {
    && view.requests == Wrap(Total(UpTo(schedule, at.requests), ArrivalsBy))
    && view.upstreamErrors == Wrap(Total(UpTo(schedule, at.upstream), ErrorsBy))
    && view.rejectedPayloads == Wrap(Total(UpTo(schedule, at.rejected), RejectionsBy))
    && view.requestBytes == Wrap(Total(UpTo(schedule, at.requestBytes), BytesBy))
    && view.forwardedBytes == Wrap(Total(UpTo(schedule, at.forwarded), ForwardedBy))
    && view.redactionsTotal == Wrap(Total(UpTo(schedule, at.total), RedactionsBy))
  }

  lemma CountsAt(s: State, maxBodyBytes: nat, schedule: seq<(nat, Action)>, n: nat)
    requires Init(s) && Run(s, maxBodyBytes, schedule).Some? && n <= |schedule|
    ensures CountersAre(StatesOf(s, maxBodyBytes, schedule)(n), UpTo(schedule, n))
  {
    RunsBefore(s, maxBodyBytes, schedule, n);
    CountersCount(s, maxBodyBytes, schedule[..n]);
  }

  lemma CountsShown(t: Thread, at: Reads, states: nat -> State, schedule: seq<(nat, Action)>)
    requires t.Snapshotter? && t.step.Taken? && Shows(t, at, states) && InOrder(at, |schedule|)
    requires forall n: nat | n <= |schedule| :: CountersAre(states(n), UpTo(schedule, n))
    ensures ShowsCounts(t.view, schedule, at)
  {
  }

  /** Each counter that a snapshot shows is the count of the actions before the point at which it was read, and the
      points come one after the other. */
  lemma SnapshotCounts(s: State, maxBodyBytes: nat, schedule: seq<(nat, Action)>, j: nat) returns (at: Reads)
    requires Init(s) && Run(s, maxBodyBytes, schedule).Some?
    requires var now := Run(s, maxBodyBytes, schedule).value;
             j < |now.threads| && now.threads[j].Snapshotter? && now.threads[j].step.Taken?
    ensures InOrder(at, |schedule|)
    ensures var view := Run(s, maxBodyBytes, schedule).value.threads[j].view;
            ShowsCounts(view, schedule, at) && view.byType == After(s, maxBodyBytes, schedule, at.byType).byType
  {
    at := ReadPoints(s, maxBodyBytes, schedule, j);
    forall n: nat | n <= |schedule|
      ensures CountersAre(StatesOf(s, maxBodyBytes, schedule)(n), UpTo(schedule, n))
    {
      CountsAt(s, maxBodyBytes, schedule, n);
    }
    CountsShown(Run(s, maxBodyBytes, schedule).value.threads[j], at, StatesOf(s, maxBodyBytes, schedule), schedule);
  }

  /** While fewer than 2^64 redactions were recorded, every entry that a snapshot shows is what had been recorded of its
      kind when the map was copied, less what reports on their way then still held of it. */
  lemma SnapshotEntries(s: State, maxBodyBytes: nat, schedule: seq<(nat, Action)>, j: nat, kind: DetectorKind)
    returns (at: nat)
    requires Init(s) && Run(s, maxBodyBytes, schedule).Some? && Total(schedule, RedactionsBy) <= U64_MAX
    requires var now := Run(s, maxBodyBytes, schedule).value;
             j < |now.threads| && now.threads[j].Snapshotter? && Rank(now.threads[j].step) >= 2
    ensures at <= |schedule|
    ensures Get(Run(s, maxBodyBytes, schedule).value.threads[j].view.byType, kind)
            + SumOver(After(s, maxBodyBytes, schedule, at).threads, PendingOfKind(kind)) ==
            Total(UpTo(schedule, at), RedactionsOf(kind))
    ensures Get(Run(s, maxBodyBytes, schedule).value.threads[j].view.byType, kind) <=
            Total(schedule, RedactionsOf(kind))
  {
    var points := ReadPoints(s, maxBodyBytes, schedule, j);
    at := points.byType;
    RunsBefore(s, maxBodyBytes, schedule, at);
    TotalsGrow(schedule, RedactionsBy, at);
    TotalsGrow(schedule, RedactionsOf(kind), at);
    EntriesCount(s, maxBodyBytes, schedule[..at], kind);
  }

  lemma {:induction false} TotalsGrow(schedule: seq<(nat, Action)>, worth: Action -> nat, n: nat)
    requires n <= |schedule|
    ensures Total(schedule[..n], worth) <= Total(schedule, worth)
  {
    if n == |schedule| {
      assert schedule[..n] == schedule;
    } else {
      var front := schedule[..|schedule| - 1];
      TotalsGrow(front, worth, n);
      assert front[..n] == schedule[..n];
    }
  }
}
