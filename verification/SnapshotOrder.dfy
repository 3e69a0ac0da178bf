/** A later snapshot never shows less than an earlier one, as counters must not. */
module SnapshotOrder {
  import opened Wrappers
  import opened Detectors
  import opened Stats
  import opened Metrics
  import opened MetricsLaws

  /** Every entry of `a` is in `b`, and no larger. */
  predicate EntriesAtMost(a: map<DetectorKind, u64>, b: map<DetectorKind, u64>) {
    forall kind | kind in a :: kind in b && a[kind] <= b[kind]
  }

  /** A snapshot that shows at least what another shows, field by field. */
  predicate ShowsAtLeast(later: Snapshot, earlier: Snapshot) {
    && earlier.requests <= later.requests && earlier.upstreamErrors <= later.upstreamErrors
    && earlier.rejectedPayloads <= later.rejectedPayloads && earlier.requestBytes <= later.requestBytes
    && earlier.forwardedBytes <= later.forwardedBytes && earlier.redactionsTotal <= later.redactionsTotal
    && EntriesAtMost(earlier.byType, later.byType)
  }

  /** No counter has wrapped around. */
  ghost predicate NoWrap(s: State) {
    && Arrivals(s) <= U64_MAX && SumOver(s.threads, HasFailed) <= U64_MAX
    && SumOver(s.threads, WasRejected) <= U64_MAX && SumOver(s.threads, BytesOf) <= U64_MAX
    && SumOver(s.threads, ForwardedOf) <= U64_MAX && TotalAdded(s) <= U64_MAX
  }

  // ----- what a snapshot shows, against a state

  /** What the snapshot has read so far is at most what there is in `s`. */
  ghost predicate AtMost(t: Thread, s: State) {
    t.Snapshotter? ==>
      && (Rank(t.step) >= 2 ==> EntriesAtMost(t.view.byType, s.byType))
      && (Rank(t.step) >= 4 ==> t.view.requests <= Arrivals(s))
      && (Rank(t.step) >= 5 ==> t.view.upstreamErrors <= SumOver(s.threads, HasFailed))
      && (Rank(t.step) >= 6 ==> t.view.rejectedPayloads <= SumOver(s.threads, WasRejected))
      && (Rank(t.step) >= 7 ==> t.view.requestBytes <= SumOver(s.threads, BytesOf))
      && (Rank(t.step) >= 8 ==> t.view.forwardedBytes <= SumOver(s.threads, ForwardedOf))
      && (Rank(t.step) >= 9 ==> t.view.redactionsTotal <= TotalAdded(s))
  }

  /** What the snapshot has read so far is at least what there was in `base`. */
  ghost predicate AtLeast(t: Thread, base: State) {
    t.Snapshotter? ==>
      && (Rank(t.step) >= 2 ==> EntriesAtMost(base.byType, t.view.byType))
      && (Rank(t.step) >= 4 ==> Arrivals(base) <= t.view.requests)
      && (Rank(t.step) >= 5 ==> SumOver(base.threads, HasFailed) <= t.view.upstreamErrors)
      && (Rank(t.step) >= 6 ==> SumOver(base.threads, WasRejected) <= t.view.rejectedPayloads)
      && (Rank(t.step) >= 7 ==> SumOver(base.threads, BytesOf) <= t.view.requestBytes)
      && (Rank(t.step) >= 8 ==> SumOver(base.threads, ForwardedOf) <= t.view.forwardedBytes)
      && (Rank(t.step) >= 9 ==> TotalAdded(base) <= t.view.redactionsTotal)
  }

  lemma CountersShrink(s: State)
    requires CountersOk(s)
    ensures s.requests <= Arrivals(s) && s.upstreamErrors <= SumOver(s.threads, HasFailed)
    ensures s.rejectedPayloads <= SumOver(s.threads, WasRejected) && s.requestBytes <= SumOver(s.threads, BytesOf)
    ensures s.forwardedBytes <= SumOver(s.threads, ForwardedOf) && s.redactionsTotal <= TotalAdded(s)
  {
    WrapShrinks(Arrivals(s));
    WrapShrinks(SumOver(s.threads, HasFailed));
    WrapShrinks(SumOver(s.threads, WasRejected));
    WrapShrinks(SumOver(s.threads, BytesOf));
    WrapShrinks(SumOver(s.threads, ForwardedOf));
    WrapShrinks(TotalAdded(s));
  }

  lemma CountersExact(s: State)
    requires CountersOk(s) && NoWrap(s)
    ensures s.requests == Arrivals(s) && s.upstreamErrors == SumOver(s.threads, HasFailed)
    ensures s.rejectedPayloads == SumOver(s.threads, WasRejected) && s.requestBytes == SumOver(s.threads, BytesOf)
    ensures s.forwardedBytes == SumOver(s.threads, ForwardedOf) && s.redactionsTotal == TotalAdded(s)
  {
    WrapShrinks(Arrivals(s));
    WrapShrinks(SumOver(s.threads, HasFailed));
    WrapShrinks(SumOver(s.threads, WasRejected));
    WrapShrinks(SumOver(s.threads, BytesOf));
    WrapShrinks(SumOver(s.threads, ForwardedOf));
    WrapShrinks(TotalAdded(s));
  }

  lemma AdvanceAtMost(s: State, i: nat)
    requires i < |s.threads| && s.threads[i].Snapshotter? && Advanced(s, i, s.threads[i]).Some?
    requires CountersOk(s) && AtMost(s.threads[i], s)
    ensures AtMost(Next(s, i), s)
  {
    CountersShrink(s);
  }

  lemma AdvanceAtLeast(s: State, i: nat, base: State)
    requires i < |s.threads| && s.threads[i].Snapshotter? && Advanced(s, i, s.threads[i]).Some?
    requires CountersOk(s) && NoWrap(s) && SumsGrow(base, s) && EntriesAtMost(base.byType, s.byType)
    requires AtLeast(s.threads[i], base)
    ensures AtLeast(Next(s, i), base)
  {
    CountersExact(s);
  }

  // ----- steps

  /** The map only grows. */
  lemma StepEntries(s: State, maxBodyBytes: nat, i: nat, action: Action)
    requires i < |s.threads| && ReadOk(s.threads[i], s.byType) && Act(s, maxBodyBytes, i, action).Some?
    ensures EntriesAtMost(s.byType, Act(s, maxBodyBytes, i, action).value.byType)
  {
  }

  lemma StepGrows(s: State, maxBodyBytes: nat, i: nat, action: Action)
    requires Inv(s, maxBodyBytes) && i < |s.threads| && Act(s, maxBodyBytes, i, action).Some?
    ensures var s2 := Act(s, maxBodyBytes, i, action).value;
            Moves(s, s2, i) && SumsGrow(s, s2) && EntriesAtMost(s.byType, s2.byType) && Inv(s2, maxBodyBytes)
  {
    assert ThreadOk(s.threads[i], maxBodyBytes) && ReadOk(s.threads[i], s.byType);
    StepMoves(s, maxBodyBytes, i, action);
    CountersKept(s, Act(s, maxBodyBytes, i, action).value, i);
    StepEntries(s, maxBodyBytes, i, action);
    StepKeepsInv(s, maxBodyBytes, i, action);
  }

  /** A step of a request leaves a request. */
  lemma RequestStays(s: State, maxBodyBytes: nat, i: nat, action: Action)
    requires i < |s.threads| && ThreadOk(s.threads[i], maxBodyBytes) && Act(s, maxBodyBytes, i, action).Some?
    ensures var s2 := Act(s, maxBodyBytes, i, action).value;
            && i < |s2.threads| && s2.threads[i].Request? == s.threads[i].Request?
            && (s.threads[i].Snapshotter? ==> Advanced(s, i, s.threads[i]) == Some(s2))
  {
    StepMoves(s, maxBodyBytes, i, action);
  }

  ghost predicate AllAtMost(s: State) { forall i | 0 <= i < |s.threads| :: AtMost(s.threads[i], s) }

  lemma AtMostStays(t: Thread, s: State, s2: State)
    requires AtMost(t, s) && SumsGrow(s, s2) && EntriesAtMost(s.byType, s2.byType)
    ensures AtMost(t, s2)
  {
  }

  lemma StepAtMost(s: State, maxBodyBytes: nat, i: nat, action: Action)
    requires Inv(s, maxBodyBytes) && AllAtMost(s) && i < |s.threads| && Act(s, maxBodyBytes, i, action).Some?
    ensures AllAtMost(Act(s, maxBodyBytes, i, action).value)
  {
    var s2 := Act(s, maxBodyBytes, i, action).value;
    StepGrows(s, maxBodyBytes, i, action);
    RequestStays(s, maxBodyBytes, i, action);
    forall j | 0 <= j < |s2.threads|
      ensures AtMost(s2.threads[j], s2)
    {
      if j != i {
        assert s2.threads[j] == s.threads[j];
      } else if s.threads[i].Snapshotter? {
        AdvanceAtMost(s, i);
      }
      AtMostStays(s2.threads[j], s, s2);
    }
  }

  lemma {:induction false} RunAtMost(s: State, maxBodyBytes: nat, schedule: seq<(nat, Action)>)
    requires Init(s) && Run(s, maxBodyBytes, schedule).Some?
    ensures AllAtMost(Run(s, maxBodyBytes, schedule).value)
  {
    if schedule == [] {
      assert forall i | 0 <= i < |s.threads| :: IsNew(s.threads[i]);
    } else {
      var n := |schedule| - 1;
      RunAtMost(s, maxBodyBytes, schedule[..n]);
      ReachableInv(s, maxBodyBytes, schedule[..n]);
      StepAtMost(Run(s, maxBodyBytes, schedule[..n]).value, maxBodyBytes, schedule[n].0, schedule[n].1);
    }
  }

  // ----- two runs, one after the other

  /** What holds of a state that comes after `base`, in which thread `j` had not yet copied the map. */
  ghost predicate Follows(base: State, s: State, maxBodyBytes: nat, j: nat) {
    && Inv(s, maxBodyBytes) && SumsGrow(base, s) && EntriesAtMost(base.byType, s.byType)
    && j < |s.threads| && (NoWrap(s) ==> AtLeast(s.threads[j], base))
  }

  lemma NoWrapBefore(s: State, s2: State)
    requires SumsGrow(s, s2) && NoWrap(s2)
    ensures NoWrap(s)
  {
  }

  lemma StepFollows(base: State, s: State, maxBodyBytes: nat, i: nat, action: Action, j: nat)
    requires Follows(base, s, maxBodyBytes, j) && i < |s.threads| && Act(s, maxBodyBytes, i, action).Some?
    ensures Follows(base, Act(s, maxBodyBytes, i, action).value, maxBodyBytes, j)
  {
    var s2 := Act(s, maxBodyBytes, i, action).value;
    StepGrows(s, maxBodyBytes, i, action);
    RequestStays(s, maxBodyBytes, i, action);
    if NoWrap(s2) {
      NoWrapBefore(s, s2);
      if j != i {
        assert s2.threads[j] == s.threads[j];
      } else if s.threads[i].Snapshotter? {
        AdvanceAtLeast(s, i, base);
      }
    }
  }

  lemma {:induction false} RunFollows(base: State, maxBodyBytes: nat, schedule: seq<(nat, Action)>, j: nat)
    requires Inv(base, maxBodyBytes) && j < |base.threads|
    requires base.threads[j].Snapshotter? && Rank(base.threads[j].step) <= 1
    requires Run(base, maxBodyBytes, schedule).Some?
    ensures Follows(base, Run(base, maxBodyBytes, schedule).value, maxBodyBytes, j)
  {
    if schedule != [] {
      var n := |schedule| - 1;
      RunFollows(base, maxBodyBytes, schedule[..n], j);
      StepFollows(base, Run(base, maxBodyBytes, schedule[..n]).value, maxBodyBytes, schedule[n].0, schedule[n].1, j);
    }
  }

  /** A run and its continuation are one run. */
  lemma {:induction false} RunsCompose(s: State, maxBodyBytes: nat, a: seq<(nat, Action)>, b: seq<(nat, Action)>)
    ensures Run(s, maxBodyBytes, a + b) ==
            match Run(s, maxBodyBytes, a) case None => None case Some(mid) => Run(mid, maxBodyBytes, b)
  {
    if b == [] {
      assert a + b == a;
    } else {
      var n := |b| - 1;
      RunsCompose(s, maxBodyBytes, a, b[..n]);
      assert (a + b)[..|a + b| - 1] == a + b[..n];
    }
  }

  lemma Between(earlier: Thread, later: Thread, base: State)
    requires earlier.Snapshotter? && earlier.step.Taken? && AtMost(earlier, base)
    requires later.Snapshotter? && later.step.Taken? && AtLeast(later, base)
    ensures ShowsAtLeast(later.view, earlier.view)
  {
  }

  /** When snapshot `j` copies the map after snapshot `i` was taken, no field and no entry that it shows is less, unless
      a counter has wrapped around. */
  lemma LaterShowsMore(s: State, maxBodyBytes: nat, a: seq<(nat, Action)>, b: seq<(nat, Action)>, mid: State,
                       now: State, i: nat, j: nat)
    requires Init(s) && Run(s, maxBodyBytes, a) == Some(mid) && Run(s, maxBodyBytes, a + b) == Some(now)
    requires i < |mid.threads| && mid.threads[i].Snapshotter? && mid.threads[i].step.Taken?
    requires j < |mid.threads| && mid.threads[j].Snapshotter? && Rank(mid.threads[j].step) <= 1
    requires j < |now.threads| && now.threads[j].Snapshotter? && now.threads[j].step.Taken? && NoWrap(now)
    ensures ShowsAtLeast(now.threads[j].view, mid.threads[i].view)
  {
    ReachableInv(s, maxBodyBytes, a);
    RunAtMost(s, maxBodyBytes, a);
    RunsCompose(s, maxBodyBytes, a, b);
    RunFollows(mid, maxBodyBytes, b, j);
    Between(mid.threads[i], now.threads[j], mid);
  }
}
