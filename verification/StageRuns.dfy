/** Runs of the pipeline in which no stage, or only one or two stages, find something. */
module StageRuns {
  import opened Wrappers
  import opened Detectors
  import opened Policy
  import opened Splicing
  import opened Pipeline
  import opened PipelineLaws
  import IbanCount
  import IbanPass
  import Parts

  /** The enabled stages from `from` on and before `to` find nothing in the text. */
  ghost predicate QuietTo(engine: Engine, p: Policy, from: Option<Stage>, to: Option<Stage>, text: string) {
    && Left(from) >= Left(to)
    && forall stage: Stage {:trigger Finds(engine, stage, p, text)} ::
         Left(from) >= Left(Some(stage)) > Left(to) && Gate(stage) in engine.enabled ==>
           Finds(engine, stage, p, text) == []
  }

  lemma SameLeft(a: Option<Stage>, b: Option<Stage>)
    ensures Left(a) == Left(b) <==> a == b
  {
  }

  lemma OneLess(stage: Stage)
    ensures Left(Next(stage)) == Left(Some(stage)) - 1
    ensures Left(Some(stage)) <= Left(Some(BearerTokens))
  {
  }

  lemma QuietStage(engine: Engine, p: Policy, stage: Stage, text: string, recorded: seq<DetectorKind>)
    requires Gate(stage) in engine.enabled ==> Finds(engine, stage, p, text) == []
    ensures RunFrom(engine, p, Some(stage), text, recorded) == RunFrom(engine, p, Next(stage), text, recorded)
  {
    FewerLeft(stage);
    if Gate(stage) in engine.enabled {
      StageOutcome(engine, stage, p, text);
      RunPasses(engine, p, stage, text, recorded);
    }
  }

  /** Stages that find nothing do nothing. */
  lemma {:induction false} QuietRun(engine: Engine, p: Policy, from: Option<Stage>, to: Option<Stage>, text: string,
                                    recorded: seq<DetectorKind>)
    requires QuietTo(engine, p, from, to, text)
    ensures RunFrom(engine, p, from, text, recorded) == RunFrom(engine, p, to, text, recorded)
    decreases Left(from)
  {
    SameLeft(from, to);
    if Left(from) > Left(to) {
      OneLess(from.value);
      QuietStage(engine, p, from.value, text, recorded);
      QuietRun(engine, p, Next(from.value), to, text, recorded);
    }
  }

  /** A stage that finds something, and those after it that do not. */
  lemma ActRun(engine: Engine, p: Policy, stage: Stage, to: Option<Stage>, text: string, pass: Pass,
               recorded: seq<DetectorKind>)
    requires Gate(stage) in engine.enabled && StagePass(engine, stage, p, text) == Some(pass)
    requires QuietTo(engine, p, Next(stage), to, pass.text)
    ensures RunFrom(engine, p, Some(stage), text, recorded) ==
            RunFrom(engine, p, to, pass.text, recorded + pass.events)
  {
    FewerLeft(stage);
    QuietRun(engine, p, Next(stage), to, pass.text, recorded + pass.events);
  }

  /** A policy that has its key records nothing exactly when no stage from `at` on finds anything in the text itself. */
  lemma {:induction false} NothingRecordedIff(engine: Engine, p: Policy, at: Option<Stage>, text: string)
    requires !p.Keyless()
    ensures RunFrom(engine, p, at, text, []).Some?
    ensures RunFrom(engine, p, at, text, []).value.events == [] <==> QuietTo(engine, p, at, None, text)
    decreases Left(at)
  {
    KeyedRunEnds(engine, p, at, text, []);
    if at.Some? {
      FewerLeft(at.value);
      OneLess(at.value);
      var quiet := StageVerdict(engine, p, at.value, text);
      if quiet {
        NothingRecordedIff(engine, p, Next(at.value), text);
        QuietFirst(engine, p, at.value, text);
      }
    }
  }

  /** The policy records nothing. */
  predicate CountsNothing(engine: Engine, p: Policy, text: string) {
    RedactedStr(engine, p, text).Some? && RedactedStr(engine, p, text).value.events == []
  }

  /** That is so exactly when no enabled stage finds anything in the text itself. */
  lemma CountsNothingIff(engine: Engine, p: Policy, text: string)
    requires !p.Keyless()
    ensures CountsNothing(engine, p, text) <==>
              forall stage: Stage | Gate(stage) in engine.enabled :: Finds(engine, stage, p, text) == []
  {
    NothingRecordedIff(engine, p, Some(BearerTokens), text);
    forall stage: Stage
      ensures Left(Some(BearerTokens)) >= Left(Some(stage)) > Left(None)
    {
      OneLess(stage);
    }
  }

  lemma QuietFirst(engine: Engine, p: Policy, stage: Stage, text: string)
    requires Gate(stage) in engine.enabled ==> Finds(engine, stage, p, text) == []
    ensures QuietTo(engine, p, Some(stage), None, text) <==> QuietTo(engine, p, Next(stage), None, text)
  {
    OneLess(stage);
    forall other: Stage | Left(Some(other)) == Left(Some(stage))
      ensures other == stage
    {
      SameLeft(Some(other), Some(stage));
    }
  }

  lemma IbanFinds(engine: Engine, p: Policy, ibans: Stage, text: string)
    requires ibans.Ibans?
    ensures Finds(engine, ibans, p, text) ==
            PassOver(text, IbanPass.StageMatches(text), IbanPass.IbanDecisions(text, p)).events
  {
    assert MatchesOf(engine, ibans, text) == IbanPass.StageMatches(text);
    assert Closure(engine, ibans, p, text) == IbanPass.IbanDecisions(text, p);
  }

  /** What the IBAN stage finds: one record for each IBAN of the count. */
  lemma IbansFound(engine: Engine, p: Policy, ibans: Stage, text: string)
    requires ibans.Ibans?
    ensures Finds(engine, ibans, p, text) == Parts.Repeat(DetectorKind.Iban, IbanCount.Count(false, text))
  {
    IbanFinds(engine, p, ibans, text);
    IbanCount.PassCounts(text, p);
  }

  lemma NothingBefore(events: seq<DetectorKind>)
    ensures [] + events == events
  {
  }

  /** The first stage that finds something, and the quiet ones around it. */
  lemma FirstAct(engine: Engine, p: Policy, start: Stage, stage: Stage, to: Option<Stage>, text: string, pass: Pass)
    requires Gate(stage) in engine.enabled && StagePass(engine, stage, p, text) == Some(pass)
    requires QuietTo(engine, p, Some(start), Some(stage), text) && QuietTo(engine, p, Next(stage), to, pass.text)
    ensures RunFrom(engine, p, Some(start), text, []) == RunFrom(engine, p, to, pass.text, pass.events)
  {
    QuietRun(engine, p, Some(start), Some(stage), text, []);
    ActRun(engine, p, stage, to, text, pass, []);
    NothingBefore(pass.events);
  }

  lemma RunEnds(engine: Engine, p: Policy, start: Stage, text: string, pass: Pass)
    requires start.BearerTokens?
    requires RunFrom(engine, p, Some(start), text, []) == RunFrom(engine, p, None, pass.text, pass.events)
    ensures RedactedStr(engine, p, text) == Some(pass)
  {
  }

  // ----- one stage

  /** No other enabled stage finds anything in the text. */
  ghost predicate OnlyStageIn(engine: Engine, p: Policy, only: Stage, text: string) {
    forall stage: Stage {:trigger Finds(engine, stage, p, text)} ::
      stage != only && Gate(stage) in engine.enabled ==> Finds(engine, stage, p, text) == []
  }

  lemma OnlyStageQuiet(engine: Engine, p: Policy, only: Stage, text: string)
    requires OnlyStageIn(engine, p, only, text)
    ensures QuietTo(engine, p, Some(BearerTokens), Some(only), text) && QuietTo(engine, p, Next(only), None, text)
  {
    OneLess(only);
  }

  /** When one stage alone finds something in the text and in what it makes of it, the pipeline comes to that stage. */
  lemma PipelineIsStage(engine: Engine, p: Policy, only: Stage, text: string, pass: Pass)
    requires Gate(only) in engine.enabled && StagePass(engine, only, p, text) == Some(pass)
    requires OnlyStageIn(engine, p, only, text) && OnlyStageIn(engine, p, only, pass.text)
    ensures RedactedStr(engine, p, text) == Some(pass)
  {
    OnlyStageQuiet(engine, p, only, text);
    OnlyStageQuiet(engine, p, only, pass.text);
    FirstAct(engine, p, BearerTokens, only, None, text, pass);
    RunEnds(engine, p, BearerTokens, text, pass);
  }

  /** Two policies that have their keys record the same when, under each, one stage alone finds something in the text
      and in what it makes of it. */
  lemma OneStageSameRecords(engine: Engine, p: Policy, q: Policy, only: Stage, text: string, one: Pass, other: Pass)
    requires Gate(only) in engine.enabled && !p.Keyless() && !q.Keyless()
    requires StagePass(engine, only, p, text) == Some(one) && StagePass(engine, only, q, text) == Some(other)
    requires OnlyStageIn(engine, p, only, text)
    requires OnlyStageIn(engine, p, only, one.text) && OnlyStageIn(engine, q, only, other.text)
    ensures RedactedStr(engine, p, text) == Some(one) && RedactedStr(engine, q, text) == Some(other)
    ensures one.events == other.events
  {
    OnlyStageAnyPolicy(engine, p, q, only, text);
    PipelineIsStage(engine, p, only, text, one);
    PipelineIsStage(engine, q, only, text, other);
    StageFindsTheSame(engine, only, p, q, text);
    StageRecordsFinds(engine, p, only, text);
    StageRecordsFinds(engine, q, only, text);
  }

  lemma StageRecordsFinds(engine: Engine, p: Policy, stage: Stage, text: string)
    requires !p.Keyless()
    ensures StagePass(engine, stage, p, text).Some?
    ensures StagePass(engine, stage, p, text).value.events == Finds(engine, stage, p, text)
  {
    StageOutcome(engine, stage, p, text);
  }

  /** Which stages find something in a text does not depend on the policy. */
  lemma OnlyStageAnyPolicy(engine: Engine, p: Policy, q: Policy, only: Stage, text: string)
    requires OnlyStageIn(engine, p, only, text)
    ensures OnlyStageIn(engine, q, only, text)
  {
    forall stage: Stage | stage != only && Gate(stage) in engine.enabled
      ensures Finds(engine, stage, q, text) == []
    {
      StageFindsTheSame(engine, stage, p, q, text);
    }
  }

  // ----- two stages

  /** No other enabled stage finds anything in the text. */
  ghost predicate OnlyStagesIn(engine: Engine, p: Policy, first: Stage, second: Stage, text: string) {
    forall stage: Stage {:trigger Finds(engine, stage, p, text)} ::
      stage != first && stage != second && Gate(stage) in engine.enabled ==> Finds(engine, stage, p, text) == []
  }

  lemma OnlyStagesQuiet(engine: Engine, p: Policy, first: Stage, second: Stage, text: string)
    requires OnlyStagesIn(engine, p, first, second, text) && Left(Some(first)) > Left(Some(second))
    ensures QuietTo(engine, p, Some(BearerTokens), Some(first), text)
    ensures QuietTo(engine, p, Next(first), Some(second), text) && QuietTo(engine, p, Next(second), None, text)
  {
    OneLess(first);
    OneLess(second);
  }

  /** When two stages alone find something in the text and in what each makes of it, the pipeline comes to the two. */
  lemma PipelineIsTwoStages(engine: Engine, p: Policy, first: Stage, second: Stage, text: string, one: Pass, two: Pass)
    requires Gate(first) in engine.enabled && Gate(second) in engine.enabled && Left(Some(first)) > Left(Some(second))
    requires StagePass(engine, first, p, text) == Some(one) && StagePass(engine, second, p, one.text) == Some(two)
    requires OnlyStagesIn(engine, p, first, second, text) && OnlyStagesIn(engine, p, first, second, one.text)
    requires OnlyStagesIn(engine, p, first, second, two.text)
    ensures RedactedStr(engine, p, text) == Some(Pass(two.text, one.events + two.events))
  {
    OnlyStagesQuiet(engine, p, first, second, text);
    OnlyStagesQuiet(engine, p, first, second, one.text);
    OnlyStagesQuiet(engine, p, first, second, two.text);
    FirstAct(engine, p, BearerTokens, first, Some(second), text, one);
    ActRun(engine, p, second, None, one.text, two, one.events);
    RunEnds(engine, p, BearerTokens, text, Pass(two.text, one.events + two.events));
  }

  /** The same of the text, of what the first stage makes of it, and of what the second makes of that. */
  ghost predicate OnlyStagesThrough(engine: Engine, p: Policy, first: Stage, second: Stage, text: string) {
    && OnlyStagesIn(engine, p, first, second, text)
    && match StagePass(engine, first, p, text)
       case None => true
       case Some(one) =>
         && OnlyStagesIn(engine, p, first, second, one.text)
         && match StagePass(engine, second, p, one.text)
            case None => true
            case Some(two) => OnlyStagesIn(engine, p, first, second, two.text)
  }

  lemma PipelineThrough(engine: Engine, p: Policy, first: Stage, second: Stage, text: string, one: Pass, two: Pass)
    requires Gate(first) in engine.enabled && Gate(second) in engine.enabled && Left(Some(first)) > Left(Some(second))
    requires StagePass(engine, first, p, text) == Some(one) && StagePass(engine, second, p, one.text) == Some(two)
    requires OnlyStagesThrough(engine, p, first, second, text)
    ensures RedactedStr(engine, p, text).Some?
    ensures RedactedStr(engine, p, text).value.events == one.events + two.events
  {
    PipelineIsTwoStages(engine, p, first, second, text, one, two);
  }

  /** That is so of every text when no other stage is enabled. */
  lemma OnlyStagesEnabled(engine: Engine, p: Policy, first: Stage, second: Stage, text: string)
    requires forall stage: Stage :: Gate(stage) in engine.enabled ==> stage == first || stage == second
    ensures OnlyStagesThrough(engine, p, first, second, text)
  {
  }
}
