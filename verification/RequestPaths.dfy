/** The way that each request takes through `proxy`, whatever the others do in between. */
module RequestPaths {
  import opened Metrics
  import opened MetricsLaws

  predicate IsLocking(action: Action) {
    action.TakeLock? || action.ReadEntry? || action.WriteEntry? || action.ReleaseLock?
  }

  /** What one thread does in a schedule, but for the merging of reports. */
  function Log(schedule: seq<(nat, Action)>, i: nat): seq<Action> {
    if schedule == [] then []
    else
      var n := |schedule| - 1;
      Log(schedule[..n], i) +
      if schedule[n].0 == i && !IsLocking(schedule[n].1) then [schedule[n].1] else []
  }

  /** Counted, received within the limit, recorded, forwarded, and then one header after the other. */
  predicate IsForwarded(log: seq<Action>, maxBodyBytes: nat) {
    && |log| >= 4 && log[0].Count? && log[1].Accept? && log[1].n <= maxBodyBytes
    && log[2].RecordBody? && log[3].Forward?
    && forall k | 4 <= k < |log| :: log[k].RecordHeader?
  }

  /** The ways to each phase. */
  predicate LeadsTo(log: seq<Action>, phase: Phase, maxBodyBytes: nat) {
    match phase
    case Waiting => log == []
    case Counted => |log| == 1 && log[0].Count?
    case Received => |log| == 2 && log[0].Count? && log[1].Accept? && log[1].n <= maxBodyBytes
    case BodyRecorded =>
      |log| == 3 && log[0].Count? && log[1].Accept? && log[1].n <= maxBodyBytes && log[2].RecordBody?
    case Forwarded => IsForwarded(log, maxBodyBytes)
    case Rejected =>
      || (|log| == 2 && log[0].Count? && log[1].RefuseBody?)
      || (|log| == 3 && log[0].Count? && log[1].Accept? && log[1].n <= maxBodyBytes && log[2].RefusePayload?)
    case Failed =>
      || (|log| == 3 && log[0].Count? && log[1].Accept? && log[1].n <= maxBodyBytes && log[2].FailRedaction?)
      || (log != [] && IsForwarded(log[..|log| - 1], maxBodyBytes) && log[|log| - 1].FailUpstream?)
    case Answered => log != [] && IsForwarded(log[..|log| - 1], maxBodyBytes) && log[|log| - 1].Answer?
  }

  /** A request does nothing else before its last report is merged. */
  predicate MergesFirst(log: seq<Action>, recorder: Recorder) {
    recorder.Idle? || (log != [] && (log[|log| - 1].RecordBody? || log[|log| - 1].RecordHeader?))
  }

  lemma Onward(log: seq<Action>, action: Action)
    ensures (log + [action])[..|log|] == log
  {
  }

  lemma StepLeads(s: State, maxBodyBytes: nat, i: nat, action: Action, log: seq<Action>)
    requires i < |s.threads| && s.threads[i].Request?
    requires LeadsTo(log, s.threads[i].phase, maxBodyBytes) && MergesFirst(log, s.threads[i].recorder)
    requires Act(s, maxBodyBytes, i, action).Some?
    ensures var t, after := Act(s, maxBodyBytes, i, action).value.threads[i],
                if IsLocking(action) then log else log + [action];
            t.Request? && LeadsTo(after, t.phase, maxBodyBytes) && MergesFirst(after, t.recorder)
  {
    Onward(log, action);
  }

  /** In every interleaving each request has taken one of the ways to the phase that it is in, and has merged all its
      reports but the last. */
  lemma {:induction false} RequestsTakePaths(s: State, maxBodyBytes: nat, schedule: seq<(nat, Action)>, i: nat)
    requires Init(s) && Run(s, maxBodyBytes, schedule).Some?
    requires i < |s.threads| && s.threads[i].Request?
    ensures var now := Run(s, maxBodyBytes, schedule).value;
            && i < |now.threads| && now.threads[i].Request?
            && LeadsTo(Log(schedule, i), now.threads[i].phase, maxBodyBytes)
            && MergesFirst(Log(schedule, i), now.threads[i].recorder)
  {
    if schedule == [] {
      assert IsNew(s.threads[i]);
    } else {
      var n := |schedule| - 1;
      var (j, action) := schedule[n];
      var before := Run(s, maxBodyBytes, schedule[..n]).value;
      RequestsTakePaths(s, maxBodyBytes, schedule[..n], i);
      StepMovesOne(before, maxBodyBytes, j, action);
      if i == j {
        StepLeads(before, maxBodyBytes, i, action, Log(schedule[..n], i));
      }
      LogOneMore(schedule, i);
    }
  }

  lemma LogOneMore(schedule: seq<(nat, Action)>, i: nat)
    requires schedule != []
    ensures var n := |schedule| - 1;
            var front := Log(schedule[..n], i);
            Log(schedule, i) ==
            if schedule[n].0 != i || IsLocking(schedule[n].1) then front else front + [schedule[n].1]
  {
  }

  lemma StepMovesOne(s: State, maxBodyBytes: nat, i: nat, action: Action)
    requires i < |s.threads| && Act(s, maxBodyBytes, i, action).Some?
    ensures Moves(s, Act(s, maxBodyBytes, i, action).value, i)
  {
    if s.threads[i].Snapshotter? {
      AdvanceMoves(s, i);
    }
  }
}
