/** A snapshot reads its fields one after the other, so it can show more failures, and more bytes, than its requests
    account for. */
module MetricsExample {
  import opened Wrappers
  import opened Metrics

  /** A snapshot and two requests, none of which has begun. */
  const AT_FIRST := State(0, 0, 0, 0, 0, 0, map[], None, [NEW_SNAPSHOT, NEW_REQUEST, NEW_REQUEST])

  /** The snapshot has read `requests`. */
  ghost predicate ReadNoRequests(s: State) {
    && |s.threads| == 3 && s.threads[1] == s.threads[2] == NEW_REQUEST
    && s.rejectedPayloads == s.requestBytes == 0
    && s.threads[0].Snapshotter? && s.threads[0].step.HasRequests? && s.threads[0].view.requests == 0
  }

  /** One request was rejected since. */
  ghost predicate OneRejected(s: State) {
    && |s.threads| == 3 && s.threads[2] == NEW_REQUEST && s.rejectedPayloads == 1 && s.requestBytes == 0
    && s.threads[0].Snapshotter? && s.threads[0].step.HasRequests? && s.threads[0].view.requests == 0
  }

  /** One request was rejected since, and one received with a byte. */
  ghost predicate ArrivedSince(s: State) {
    && |s.threads| == 3 && s.rejectedPayloads == 1 && s.requestBytes == 1
    && s.threads[0].Snapshotter? && s.threads[0].step.HasRequests? && s.threads[0].view.requests == 0
  }

  ghost predicate ShowsMoreThanRequests(s: State) {
    && |s.threads| == 3 && s.threads[0].Snapshotter? && s.threads[0].step.Taken?
    && var view := s.threads[0].view; view.requests == 0 && view.rejectedPayloads == 1 && view.requestBytes == 1
  }

  lemma Begin() returns (schedule: seq<(nat, Action)>, now: State)
    ensures Run(AT_FIRST, 1, schedule) == Some(now) && ReadNoRequests(now)
  {
    schedule, now := [], AT_FIRST;
    for k := 0 to 4
      invariant Run(AT_FIRST, 1, schedule) == Some(now)
      invariant |now.threads| == 3 && now.threads[1] == now.threads[2] == NEW_REQUEST
      invariant now.requests == now.rejectedPayloads == now.requestBytes == 0 && (k == 0 ==> now.lock.None?)
      invariant now.threads[0].Snapshotter? && now.threads[0].view.requests == 0
      invariant now.threads[0].step == [Start, Locked, Cloned, Unlocked, HasRequests][k]
    {
      var after := RunOn(AT_FIRST, 1, schedule, now, 0, Advance);
      schedule, now := schedule + [(0, Advance)], after;
    }
  }

  lemma FirstCount()
    ensures FetchAdd(0, 1) == 1
  {
  }

  lemma Arrive(schedule: seq<(nat, Action)>, now: State, i: nat) returns (longer: seq<(nat, Action)>, next: State)
    requires Run(AT_FIRST, 1, schedule) == Some(now) && 0 < i < |now.threads| && now.threads[i] == NEW_REQUEST
    ensures Run(AT_FIRST, 1, longer) == Some(next) && next.threads == now.threads[i := NEW_REQUEST.(phase := Counted)]
    ensures next.rejectedPayloads == now.rejectedPayloads && next.requestBytes == now.requestBytes
  {
    next := RunOn(AT_FIRST, 1, schedule, now, i, Count);
    longer := schedule + [(i, Count)];
  }

  lemma Reject(schedule: seq<(nat, Action)>, now: State) returns (longer: seq<(nat, Action)>, next: State)
    requires Run(AT_FIRST, 1, schedule) == Some(now) && ReadNoRequests(now)
    ensures Run(AT_FIRST, 1, longer) == Some(next) && OneRejected(next)
  {
    var counting, counted := Arrive(schedule, now, 1);
    FirstCount();
    next := RunOn(AT_FIRST, 1, counting, counted, 1, RefuseBody);
    longer := counting + [(1, RefuseBody)];
  }

  lemma Receive(schedule: seq<(nat, Action)>, now: State) returns (longer: seq<(nat, Action)>, next: State)
    requires Run(AT_FIRST, 1, schedule) == Some(now) && OneRejected(now)
    ensures Run(AT_FIRST, 1, longer) == Some(next) && ArrivedSince(next)
  {
    var counting, counted := Arrive(schedule, now, 2);
    FirstCount();
    next := RunOn(AT_FIRST, 1, counting, counted, 2, Accept(1));
    longer := counting + [(2, Accept(1))];
  }

  lemma Finish(schedule: seq<(nat, Action)>, now: State) returns (longer: seq<(nat, Action)>, next: State)
    requires Run(AT_FIRST, 1, schedule) == Some(now) && ArrivedSince(now)
    ensures Run(AT_FIRST, 1, longer) == Some(next) && ShowsMoreThanRequests(next)
  {
    longer, next := schedule, now;
    for k := 0 to 5
      invariant Run(AT_FIRST, 1, longer) == Some(next)
      invariant |next.threads| == 3 && next.rejectedPayloads == next.requestBytes == 1
      invariant var t := next.threads[0];
                && t.Snapshotter? && t.view.requests == 0
                && t.step == [HasRequests, HasUpstream, HasRejected, HasRequestBytes, HasForwarded, Taken][k]
                && (k >= 2 ==> t.view.rejectedPayloads == 1) && (k >= 3 ==> t.view.requestBytes == 1)
    {
      var after := RunOn(AT_FIRST, 1, longer, next, 0, Advance);
      longer, next := longer + [(0, Advance)], after;
    }
  }

  /** The bounds that every state meets are not met by every snapshot: with bodies of one byte permitted, here one shows
      a rejected payload and a byte, and no request. */
  lemma SnapshotCanShowMoreThanRequests()
    ensures Init(AT_FIRST)
    ensures exists schedule ::
              Run(AT_FIRST, 1, schedule).Some? && ShowsMoreThanRequests(Run(AT_FIRST, 1, schedule).value)
  {
    var schedule, now := Begin();
    schedule, now := Reject(schedule, now);
    schedule, now := Receive(schedule, now);
    schedule, now := Finish(schedule, now);
  }
}
