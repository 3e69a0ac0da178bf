/** When the separately read fields of a snapshot fit together. */
module SnapshotLaws {
  import opened Stats
  import opened Metrics
  import opened MetricsLaws

  // ----- counters and the threads they count

  /** A sum of zeros and ones counts the threads with a one. */
  lemma {:induction false} SumCounts(threads: seq<Thread>, f: Thread -> nat)
    requires forall t :: f(t) <= 1
    ensures SumOver(threads, f) == |Those(threads, f)|
  {
    if threads == [] {
      assert Those(threads, f) == {};
    } else {
      var n := |threads| - 1;
      SumCounts(threads[..n], f);
      assert Those(threads, f) == Those(threads[..n], f) + if f(threads[n]) > 0 then {n} else {};
    }
  }

  lemma ThoseCounted(s: State)
    requires CountersOk(s)
    ensures s.requests == Wrap(|Those(s.threads, HasArrived)|) && Arrivals(s) == |Those(s.threads, HasArrived)|
    ensures s.upstreamErrors == Wrap(|Those(s.threads, HasFailed)|)
    ensures s.rejectedPayloads == Wrap(|Those(s.threads, WasRejected)|)
  {
    SumCounts(s.threads, HasArrived);
    SumCounts(s.threads, HasFailed);
    SumCounts(s.threads, WasRejected);
  }

  /** A request ends in one way, and only after it was counted. */
  lemma EndsOnce(threads: seq<Thread>)
    ensures Those(threads, HasFailed) !! Those(threads, WasRejected)
    ensures Those(threads, HasFailed) + Those(threads, WasRejected) <= Those(threads, HasArrived)
  {
  }

  lemma ThoseGrow(s: State, s2: State, i: nat, f: Thread -> nat)
    requires Moves(s, s2, i) && f(s.threads[i]) <= f(s2.threads[i])
    ensures Those(s.threads, f) <= Those(s2.threads, f)
  {
  }

  lemma {:induction false} BytesDivide(threads: seq<Thread>, group: set<nat>)
    ensures SumOver(threads, BytesOf) == BytesIn(threads, group) + BytesOutside(threads, group)
  {
    if threads != [] {
      BytesDivide(threads[..|threads| - 1], group);
    }
  }

  /** The requests of a group are within the limit, each for itself. */
  lemma {:induction false} BytesInBound(threads: seq<Thread>, group: set<nat>, maxBodyBytes: nat)
    requires forall i | 0 <= i < |threads| :: ThreadOk(threads[i], maxBodyBytes)
    ensures BytesIn(threads, group) <= |group| * maxBodyBytes
  {
    if threads != [] {
      var n := |threads| - 1;
      if n in group {
        BytesInBound(threads[..n], group - {n}, maxBodyBytes);
        SameBytesIn(threads[..n], group, n);
        OneMoreTimes(|group|, maxBodyBytes);
      } else {
        BytesInBound(threads[..n], group, maxBodyBytes);
      }
    }
  }

  lemma OneMoreTimes(count: nat, max: nat)
    requires count > 0
    ensures count * max == (count - 1) * max + max
  {
  }

  lemma {:induction false} SameBytesIn(threads: seq<Thread>, group: set<nat>, n: nat)
    requires |threads| <= n
    ensures BytesIn(threads, group) == BytesIn(threads, group - {n})
  {
    if threads != [] {
      SameBytesIn(threads[..|threads| - 1], group, n);
    }
  }

  /** Without requests outside the group that have arrived there are no bytes outside it. */
  lemma {:induction false} NoneOutside(threads: seq<Thread>, group: set<nat>, maxBodyBytes: nat)
    requires Those(threads, HasArrived) <= group
    requires forall i | 0 <= i < |threads| :: ThreadOk(threads[i], maxBodyBytes)
    ensures BytesOutside(threads, group) == 0
  {
    if threads != [] {
      var n := |threads| - 1;
      assert Those(threads[..n], HasArrived) <= Those(threads, HasArrived);
      NoneOutside(threads[..n], group, maxBodyBytes);
      assert n !in group ==> n !in Those(threads, HasArrived);
    }
  }

  // ----- what a snapshot met

  ghost predicate RequestsMet(t: Thread, s: State)
    requires t.Snapshotter?
  {
    Rank(t.step) >= 4 ==> t.view.requests == Wrap(|t.seen.early|) && t.seen.early <= Those(s.threads, HasArrived)
  }

  ghost predicate FailuresMet(t: Thread, s: State)
    requires t.Snapshotter?
  {
    && (Rank(t.step) >= 5 ==>
          t.view.upstreamErrors == Wrap(|t.seen.failed|) && t.seen.failed <= Those(s.threads, HasFailed))
    && (Rank(t.step) >= 6 ==>
          && t.view.rejectedPayloads == Wrap(|t.seen.rejected|) && t.seen.failed !! t.seen.rejected
          && t.seen.failed + t.seen.rejected <= t.seen.atRejected <= Those(s.threads, HasArrived))
  }

  ghost predicate BytesMet(t: Thread, s: State, maxBodyBytes: nat)
    requires t.Snapshotter?
  {
    Rank(t.step) >= 7 ==>
      && t.view.requestBytes == Wrap(t.seen.earlyBytes + t.seen.lateBytes)
      && t.seen.earlyBytes + t.seen.lateBytes <= SumOver(s.threads, BytesOf)
      && t.seen.earlyBytes <= |t.seen.early| * maxBodyBytes
      && (t.seen.atBytes == t.seen.early ==> t.seen.lateBytes == 0)
  }

  ghost predicate MetOk(t: Thread, s: State, maxBodyBytes: nat) {
    t.Snapshotter? ==> RequestsMet(t, s) && FailuresMet(t, s) && BytesMet(t, s, maxBodyBytes)
  }

  ghost predicate AllMet(s: State, maxBodyBytes: nat) {
    && Inv(s, maxBodyBytes)
    && forall i | 0 <= i < |s.threads| :: MetOk(s.threads[i], s, maxBodyBytes)
  }

  lemma MetStays(t: Thread, s: State, s2: State, i: nat, maxBodyBytes: nat)
    requires MetOk(t, s, maxBodyBytes) && SumsGrow(s, s2)
    requires Moves(s, s2, i) && CountersMove(s, s2, s.threads[i], s2.threads[i])
    ensures MetOk(t, s2, maxBodyBytes)
  {
    ThoseGrow(s, s2, i, HasArrived);
    ThoseGrow(s, s2, i, HasFailed);
  }

  lemma AdvanceMeetsRequests(s: State, i: nat)
    requires i < |s.threads| && s.threads[i].Snapshotter? && Advanced(s, i, s.threads[i]).Some?
    requires CountersOk(s) && RequestsMet(s.threads[i], s)
    ensures Next(s, i).Snapshotter? && RequestsMet(Next(s, i), s)
  {
    ThoseCounted(s);
  }

  lemma FailedStayApart(failed: set<nat>, threads: seq<Thread>)
    ensures failed <= Those(threads, HasFailed) ==>
              && failed !! Those(threads, WasRejected)
              && failed + Those(threads, WasRejected) <= Those(threads, HasArrived)
  {
    EndsOnce(threads);
  }

  lemma ReadUpstream(s: State, i: nat)
    requires i < |s.threads| && s.threads[i].Snapshotter? && s.threads[i].step.HasRequests? && CountersOk(s)
    ensures Advanced(s, i, s.threads[i]).Some? && Next(s, i).Snapshotter? && FailuresMet(Next(s, i), s)
  {
    ThoseCounted(s);
  }

  lemma ReadRejected(s: State, i: nat)
    requires i < |s.threads| && s.threads[i].Snapshotter? && s.threads[i].step.HasUpstream?
    requires CountersOk(s) && FailuresMet(s.threads[i], s)
    ensures Advanced(s, i, s.threads[i]).Some? && Next(s, i).Snapshotter? && FailuresMet(Next(s, i), s)
  {
    ThoseCounted(s);
    FailedStayApart(s.threads[i].seen.failed, s.threads);
  }

  lemma AdvanceMeetsFailures(s: State, i: nat)
    requires i < |s.threads| && s.threads[i].Snapshotter? && Advanced(s, i, s.threads[i]).Some?
    requires CountersOk(s) && FailuresMet(s.threads[i], s)
    ensures Next(s, i).Snapshotter? && FailuresMet(Next(s, i), s)
  {
    match s.threads[i].step {
      case HasRequests => ReadUpstream(s, i);
      case HasUpstream => ReadRejected(s, i);
      case _ =>
    }
  }

  lemma AdvanceMeetsBytes(s: State, i: nat, maxBodyBytes: nat)
    requires i < |s.threads| && s.threads[i].Snapshotter? && Advanced(s, i, s.threads[i]).Some?
    requires CountersOk(s) && BytesMet(s.threads[i], s, maxBodyBytes)
    requires forall j | 0 <= j < |s.threads| :: ThreadOk(s.threads[j], maxBodyBytes)
    ensures Next(s, i).Snapshotter? && BytesMet(Next(s, i), s, maxBodyBytes)
  {
    var early := s.threads[i].seen.early;
    BytesDivide(s.threads, early);
    BytesInBound(s.threads, early, maxBodyBytes);
    if Those(s.threads, HasArrived) == early {
      NoneOutside(s.threads, early, maxBodyBytes);
    }
  }

  lemma StepMeets(s: State, maxBodyBytes: nat, i: nat, action: Action)
    requires AllMet(s, maxBodyBytes) && i < |s.threads| && Act(s, maxBodyBytes, i, action).Some?
    ensures AllMet(Act(s, maxBodyBytes, i, action).value, maxBodyBytes)
  {
    var s2 := Act(s, maxBodyBytes, i, action).value;
    StepKeepsInv(s, maxBodyBytes, i, action);
    assert ThreadOk(s.threads[i], maxBodyBytes) && MetOk(s.threads[i], s, maxBodyBytes);
    StepMoves(s, maxBodyBytes, i, action);
    CountersKept(s, s2, i);
    StepperMeets(s, maxBodyBytes, i, action);
    forall j | 0 <= j < |s2.threads|
      ensures MetOk(s2.threads[j], s2, maxBodyBytes)
    {
      if j != i {
        assert s2.threads[j] == s.threads[j];
        assert MetOk(s.threads[j], s, maxBodyBytes);
      }
      MetStays(s2.threads[j], s, s2, i, maxBodyBytes);
    }
  }

  lemma StepperMeets(s: State, maxBodyBytes: nat, i: nat, action: Action)
    requires AllMet(s, maxBodyBytes) && i < |s.threads| && Act(s, maxBodyBytes, i, action).Some?
    ensures var s2 := Act(s, maxBodyBytes, i, action).value;
            i < |s2.threads| && MetOk(s2.threads[i], s, maxBodyBytes)
  {
    assert ThreadOk(s.threads[i], maxBodyBytes) && MetOk(s.threads[i], s, maxBodyBytes);
    StepMoves(s, maxBodyBytes, i, action);
    if s.threads[i].Snapshotter? {
      AdvanceMeetsRequests(s, i);
      AdvanceMeetsFailures(s, i);
      AdvanceMeetsBytes(s, i, maxBodyBytes);
    }
  }

  lemma {:induction false} ReachableMet(s: State, maxBodyBytes: nat, schedule: seq<(nat, Action)>)
    requires Init(s) && Run(s, maxBodyBytes, schedule).Some?
    ensures AllMet(Run(s, maxBodyBytes, schedule).value, maxBodyBytes)
  {
    if schedule == [] {
      InitInv(s, maxBodyBytes);
      assert forall i | 0 <= i < |s.threads| :: IsNew(s.threads[i]);
    } else {
      var n := |schedule| - 1;
      ReachableMet(s, maxBodyBytes, schedule[..n]);
      StepMeets(Run(s, maxBodyBytes, schedule[..n]).value, maxBodyBytes, schedule[n].0, schedule[n].1);
    }
  }

  // ----- what a snapshot shows

  ghost predicate IsTaken(s: State, i: nat) {
    i < |s.threads| && s.threads[i].Snapshotter? && s.threads[i].step.Taken?
  }

  /** Two sets compare as what each has for itself. */
  lemma Apart(a: set<nat>, b: set<nat>)
    ensures |a| <= |b| <==> |a - b| <= |b - a|
  {
    assert a == (a - b) + (a * b) && b == (b - a) + (a * b);
  }

  lemma Within(a: set<nat>, b: set<nat>)
    requires a <= b
    ensures |a| <= |b|
  {
    assert b == a + (b - a);
  }

  /** The failures that a snapshot shows exceed the requests that it shows exactly when the failures among requests
      that arrived after `requests` was read outnumber the earlier requests not seen to fail. */
  lemma SnapshotFailuresIff(s: State, maxBodyBytes: nat, schedule: seq<(nat, Action)>, i: nat)
    requires Init(s) && Run(s, maxBodyBytes, schedule).Some?
    requires IsTaken(Run(s, maxBodyBytes, schedule).value, i)
    requires Arrivals(Run(s, maxBodyBytes, schedule).value) <= U64_MAX
    ensures var t := Run(s, maxBodyBytes, schedule).value.threads[i];
            var ended := t.seen.failed + t.seen.rejected;
            t.view.rejectedPayloads + t.view.upstreamErrors <= t.view.requests <==>
            |ended - t.seen.early| <= |t.seen.early - ended|
  {
    SnapshotShows(s, maxBodyBytes, schedule, i);
    var t := Run(s, maxBodyBytes, schedule).value.threads[i];
    Apart(t.seen.failed + t.seen.rejected, t.seen.early);
  }

  /** While the counters do not wrap around, the fields show the numbers of requests met. */
  lemma SnapshotShows(s: State, maxBodyBytes: nat, schedule: seq<(nat, Action)>, i: nat)
    requires Init(s) && Run(s, maxBodyBytes, schedule).Some?
    requires IsTaken(Run(s, maxBodyBytes, schedule).value, i)
    requires Arrivals(Run(s, maxBodyBytes, schedule).value) <= U64_MAX
    ensures var t := Run(s, maxBodyBytes, schedule).value.threads[i];
            && t.view.requests == |t.seen.early|
            && t.view.rejectedPayloads + t.view.upstreamErrors == |t.seen.failed + t.seen.rejected|
            && t.seen.failed + t.seen.rejected <= t.seen.atRejected
  {
    var now := Run(s, maxBodyBytes, schedule).value;
    var t := now.threads[i];
    ReachableMet(s, maxBodyBytes, schedule);
    assert MetOk(t, now, maxBodyBytes);
    ThoseCounted(now);
    Within(t.seen.early, Those(now.threads, HasArrived));
    Within(t.seen.failed + t.seen.rejected, Those(now.threads, HasArrived));
    WrapShrinks(|t.seen.early|);
    WrapShrinks(|t.seen.failed|);
    WrapShrinks(|t.seen.rejected|);
  }

  /** In particular the failures do not exceed the requests shown when no request is counted between the reading of
      `requests` and that of `rejected_payloads`; and they never exceed the requests that have arrived by now. */
  lemma SnapshotFailuresBound(s: State, maxBodyBytes: nat, schedule: seq<(nat, Action)>, i: nat)
    requires Init(s) && Run(s, maxBodyBytes, schedule).Some?
    requires IsTaken(Run(s, maxBodyBytes, schedule).value, i)
    ensures var now := Run(s, maxBodyBytes, schedule).value;
            var t := now.threads[i];
            && t.view.rejectedPayloads + t.view.upstreamErrors <= Arrivals(now)
            && (Arrivals(now) <= U64_MAX && t.seen.atRejected == t.seen.early ==>
                  t.view.rejectedPayloads + t.view.upstreamErrors <= t.view.requests)
  {
    var now := Run(s, maxBodyBytes, schedule).value;
    var seen := now.threads[i].seen;
    ReachableInv(s, maxBodyBytes, schedule);
    FailuresBound(now.threads);
    assert SnapshotOk(now.threads[i], now);
    if Arrivals(now) <= U64_MAX && seen.atRejected == seen.early {
      SnapshotShows(s, maxBodyBytes, schedule, i);
      Within(seen.failed + seen.rejected, seen.early);
    }
  }

  lemma MetShowsBytes(t: Thread, now: State, maxBodyBytes: nat) returns (permitted: nat)
    requires t.Snapshotter? && t.step.Taken? && BytesMet(t, now, maxBodyBytes) && t.view.requests == |t.seen.early|
    ensures permitted == t.view.requests * maxBodyBytes && permitted == |t.seen.early| * maxBodyBytes
    ensures t.seen.earlyBytes <= permitted && t.view.requestBytes <= t.seen.earlyBytes + t.seen.lateBytes
    ensures SumOver(now.threads, BytesOf) <= U64_MAX ==> t.view.requestBytes == t.seen.earlyBytes + t.seen.lateBytes
    ensures t.seen.atBytes == t.seen.early ==> t.seen.lateBytes == 0
  {
    WrapShrinks(t.seen.earlyBytes + t.seen.lateBytes);
    permitted := |t.seen.early| * maxBodyBytes;
  }

  lemma TakenMet(s: State, maxBodyBytes: nat, schedule: seq<(nat, Action)>, i: nat) returns (now: State)
    requires Init(s) && Run(s, maxBodyBytes, schedule).Some?
    requires IsTaken(Run(s, maxBodyBytes, schedule).value, i)
    ensures now == Run(s, maxBodyBytes, schedule).value && i < |now.threads|
    ensures now.threads[i].Snapshotter? && now.threads[i].step.Taken? && BytesMet(now.threads[i], now, maxBodyBytes)
  {
    now := Run(s, maxBodyBytes, schedule).value;
    ReachableMet(s, maxBodyBytes, schedule);
    assert MetOk(now.threads[i], now, maxBodyBytes);
  }

  /** The bytes that a snapshot shows exceed what its requests permit exactly when the bytes of requests that arrived
      after `requests` was read exceed what the earlier ones left unused. */
  lemma SnapshotBytesIff(s: State, maxBodyBytes: nat, schedule: seq<(nat, Action)>, i: nat)
    requires Init(s) && Run(s, maxBodyBytes, schedule).Some?
    requires IsTaken(Run(s, maxBodyBytes, schedule).value, i)
    requires Arrivals(Run(s, maxBodyBytes, schedule).value) <= U64_MAX
    requires SumOver(Run(s, maxBodyBytes, schedule).value.threads, BytesOf) <= U64_MAX
    ensures var t := Run(s, maxBodyBytes, schedule).value.threads[i];
            t.view.requestBytes <= t.view.requests * maxBodyBytes <==>
            t.seen.lateBytes <= |t.seen.early| * maxBodyBytes - t.seen.earlyBytes
  {
    SnapshotShows(s, maxBodyBytes, schedule, i);
    var now := TakenMet(s, maxBodyBytes, schedule, i);
    var permitted := MetShowsBytes(now.threads[i], now, maxBodyBytes);
  }

  /** In particular they do not when no request is counted between the reading of `requests` and that of
      `request_bytes`. */
  lemma SnapshotBytesHold(s: State, maxBodyBytes: nat, schedule: seq<(nat, Action)>, i: nat)
    requires Init(s) && Run(s, maxBodyBytes, schedule).Some?
    requires IsTaken(Run(s, maxBodyBytes, schedule).value, i)
    requires Arrivals(Run(s, maxBodyBytes, schedule).value) <= U64_MAX
    requires var seen := Run(s, maxBodyBytes, schedule).value.threads[i].seen; seen.atBytes == seen.early
    ensures var view := Run(s, maxBodyBytes, schedule).value.threads[i].view;
            view.requestBytes <= view.requests * maxBodyBytes
  {
    SnapshotShows(s, maxBodyBytes, schedule, i);
    var now := TakenMet(s, maxBodyBytes, schedule, i);
    var permitted := MetShowsBytes(now.threads[i], now, maxBodyBytes);
  }
}
