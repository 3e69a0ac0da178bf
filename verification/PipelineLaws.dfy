/** The verdict on a string does not depend on the mode, and masking counts what a scan counts. */
module PipelineLaws {
  import opened Wrappers
  import opened Text
  import opened Detectors
  import opened Policy
  import opened Splicing
  import opened Pipeline
  import CookieBody
  import Parts
  import SensitiveUrl

  // ----- one match, one stage

  /** Whether a match is acted on, and what is recorded for it, does not depend on the policy; acting fails
      exactly for want of a key. */
  lemma DecisionsAgree(engine: Engine, stage: Stage, p: Policy, q: Policy, input: string, c: Captures)
    ensures var d, e := Closure(engine, stage, p, input)(c), Closure(engine, stage, q, input)(c);
            && d.Decline? == e.Decline?
            && (d.Act? ==> d.kinds == e.kinds && d.kinds != [] && d.Fails() == p.Keyless() && e.Fails() == q.Keyless())
  {
  }

  lemma StageFailsWithoutKey(engine: Engine, stage: Stage, p: Policy, input: string)
    ensures forall c | c in MatchesOf(engine, stage, input) && Closure(engine, stage, p, input)(c).Act? ::
              && Closure(engine, stage, p, input)(c).kinds != []
              && Closure(engine, stage, p, input)(c).Fails() == p.Keyless()
  {
    forall c | c in MatchesOf(engine, stage, input) && Closure(engine, stage, p, input)(c).Act?
      ensures Closure(engine, stage, p, input)(c).kinds != []
      ensures Closure(engine, stage, p, input)(c).Fails() == p.Keyless()
    {
      DecisionsAgree(engine, stage, p, p, input, c);
    }
  }

  /** What a stage finds in a text, under any policy. */
  function Finds(engine: Engine, stage: Stage, p: Policy, input: string): seq<DetectorKind> {
    PassOver(input, MatchesOf(engine, stage, input), Closure(engine, stage, p, input)).events
  }

  lemma StageFindsTheSame(engine: Engine, stage: Stage, p: Policy, q: Policy, input: string)
    ensures Finds(engine, stage, p, input) == Finds(engine, stage, q, input)
  {
    var matches := MatchesOf(engine, stage, input);
    forall c | c in matches
      ensures var d, e := Closure(engine, stage, p, input)(c), Closure(engine, stage, q, input)(c);
              d.Decline? == e.Decline? && (d.Act? && e.Act? ==> d.kinds == e.kinds)
    {
      DecisionsAgree(engine, stage, p, q, input, c);
    }
    SamePicks(matches, Closure(engine, stage, p, input), Closure(engine, stage, q, input), 0);
  }

  /** A stage fails exactly when it finds something and has no key; it rewrites only when it records. */
  lemma StageOutcome(engine: Engine, stage: Stage, p: Policy, input: string)
    ensures var finds := Finds(engine, stage, p, input);
            if finds == [] then StagePass(engine, stage, p, input) == Some(Pass(input, []))
            else if p.Keyless() then StagePass(engine, stage, p, input).None?
            else StagePass(engine, stage, p, input).Some? && StagePass(engine, stage, p, input).value.events == finds
  {
    var matches, decide := MatchesOf(engine, stage, input), Closure(engine, stage, p, input);
    StageFailsWithoutKey(engine, stage, p, input);
    QuietPass(input, matches, decide, p.Keyless(), 0);
    assert input[0..] == input;
  }

  // ----- the verdict on a string

  /** A run that ends has kept what was recorded before. */
  lemma {:induction false} RunKeepsRecords(engine: Engine, p: Policy, at: Option<Stage>, text: string,
                                           recorded: seq<DetectorKind>)
    ensures var r := RunFrom(engine, p, at, text, recorded); r.Some? ==> recorded <= r.value.events
    decreases Left(at)
  {
    if at.Some? {
      FewerLeft(at.value);
      var pass := StagePass(engine, at.value, p, text);
      if Gate(at.value) !in engine.enabled {
        RunKeepsRecords(engine, p, Next(at.value), text, recorded);
      } else if pass.Some? {
        RunKeepsRecords(engine, p, Next(at.value), pass.value.text, recorded + pass.value.events);
      }
    }
  }

  lemma {:induction false} KeyedRunEnds(engine: Engine, p: Policy, at: Option<Stage>, text: string,
                                        recorded: seq<DetectorKind>)
    requires !p.Keyless()
    ensures RunFrom(engine, p, at, text, recorded).Some?
    decreases Left(at)
  {
    if at.Some? {
      FewerLeft(at.value);
      StageOutcome(engine, at.value, p, text);
      if Gate(at.value) !in engine.enabled {
        KeyedRunEnds(engine, p, Next(at.value), text, recorded);
      } else {
        var pass := StagePass(engine, at.value, p, text).value;
        KeyedRunEnds(engine, p, Next(at.value), pass.text, recorded + pass.events);
      }
    }
  }

  /** The outcomes that a scan allows a policy. */
  predicate Matches(p: Policy, scan: Option<Pass>, r: Option<Pass>, text: string) {
    && scan.Some?
    && if scan.value.events == [] then scan.value.text == text && r == Some(Pass(text, []))
       else if p.Keyless() then r.None?
       else r.Some? && r.value.events != []
  }

  /** What a stage does to a text, as far as the verdict goes: nothing, or something that needs a key. */
  lemma StageVerdict(engine: Engine, p: Policy, stage: Stage, text: string) returns (quiet: bool)
    ensures quiet == (Gate(stage) !in engine.enabled || Finds(engine, stage, p, text) == [])
    ensures quiet ==> RunFrom(engine, p, Some(stage), text, []) == RunFrom(engine, p, Next(stage), text, [])
    ensures !quiet && p.Keyless() ==> RunFrom(engine, p, Some(stage), text, []).None?
    ensures !quiet && !p.Keyless() ==>
              var r := RunFrom(engine, p, Some(stage), text, []); r.Some? && r.value.events != []
  {
    quiet := Gate(stage) !in engine.enabled || Finds(engine, stage, p, text) == [];
    if Gate(stage) in engine.enabled {
      StageOutcome(engine, stage, p, text);
      if quiet {
        RunPasses(engine, p, stage, text, []);
      } else if !p.Keyless() {
        FirstFinding(engine, p, stage, text);
      }
    }
  }

  lemma RunPasses(engine: Engine, p: Policy, stage: Stage, text: string, recorded: seq<DetectorKind>)
    requires Gate(stage) in engine.enabled && StagePass(engine, stage, p, text) == Some(Pass(text, []))
    ensures RunFrom(engine, p, Some(stage), text, recorded) == RunFrom(engine, p, Next(stage), text, recorded)
  {
    FewerLeft(stage);
    assert recorded + [] == recorded;
  }

  lemma {:induction false} RunsAgree(engine: Engine, scan: Policy, p: Policy, at: Option<Stage>, text: string)
    requires !scan.Keyless()
    ensures Matches(p, RunFrom(engine, scan, at, text, []), RunFrom(engine, p, at, text, []), text)
    decreases Left(at)
  {
    if at.Some? {
      FewerLeft(at.value);
      StageFindsTheSame(engine, at.value, scan, p, text);
      var quietScan := StageVerdict(engine, scan, at.value, text);
      var quiet := StageVerdict(engine, p, at.value, text);
      if quiet {
        RunsAgree(engine, scan, p, Next(at.value), text);
      }
    }
  }

  lemma FirstFinding(engine: Engine, p: Policy, stage: Stage, text: string)
    requires !p.Keyless() && Gate(stage) in engine.enabled && Finds(engine, stage, p, text) != []
    ensures var r := RunFrom(engine, p, Some(stage), text, []); r.Some? && r.value.events != []
  {
    StageOutcome(engine, stage, p, text);
    var pass := StagePass(engine, stage, p, text).value;
    KeyedRunEnds(engine, p, Some(stage), text, []);
    RunKeepsRecords(engine, p, Next(stage), pass.text, [] + pass.events);
  }

  /** For every string, scanning reports nothing exactly when redaction in any mode records nothing, and then
      redaction returns its input. A hashing policy without a key fails on the other strings, and only there. */
  lemma StringVerdict(engine: Engine, scan: Policy, p: Policy, input: string)
    requires !scan.Keyless()
    ensures Matches(p, RedactedStr(engine, scan, input), RedactedStr(engine, p, input), input)
  {
    RunsAgree(engine, scan, p, Some(BearerTokens), input);
  }

  // ----- masking does not look at key, environment or secret

  lemma MaskDecisionsEqual(engine: Engine, stage: Stage, p: Policy, q: Policy, input: string, c: Captures)
    requires p.mode.Mask? && q.mode.Mask?
    ensures Closure(engine, stage, p, input)(c) == Closure(engine, stage, q, input)(c)
  {
    if stage.CookieHeaders? || stage.CookieAssignments? {
      match (Group(input, c, 1), Group(input, c, 2)) {
        case (Some(prefix), Some(body)) => MaskedCookiesEqual(p, q, body);
        case _ =>
      }
    } else if stage.SensitiveUrlParams? {
      match Group(input, c, 0) {
        case Some(url) => MaskedUrlsEqual(p, q, url);
        case None =>
      }
    }
  }

  lemma {:induction false} SameRewrites(parts: seq<string>, f: string -> string, g: string -> string)
    requires forall s :: f(s) == g(s)
    ensures Parts.RewriteAll(parts, f) == Parts.RewriteAll(parts, g)
  {
    if parts != [] {
      SameRewrites(parts[..|parts| - 1], f, g);
    }
  }

  lemma MaskedCookiesEqual(p: Policy, q: Policy, body: string)
    requires p.mode.Mask? && q.mode.Mask?
    ensures CookieBody.DecideCookie(body, p) == CookieBody.DecideCookie(body, q)
  {
    forall s
      ensures CookieBody.CookieRewrite(p)(s) == CookieBody.CookieRewrite(q)(s)
    {
      assert CookieBody.RewritePart(s, p) == CookieBody.RewritePart(s, q);
    }
    SameRewrites(Split(body, ';'), CookieBody.CookieRewrite(p), CookieBody.CookieRewrite(q));
  }

  lemma MaskedUrlsEqual(p: Policy, q: Policy, url: string)
    requires p.mode.Mask? && q.mode.Mask?
    ensures SensitiveUrl.DecideUrl(url, p) == SensitiveUrl.DecideUrl(url, q)
  {
    if SensitiveUrl.ParseUrl(url).Some? {
      forall s
        ensures SensitiveUrl.ParamRewrite(p)(s) == SensitiveUrl.ParamRewrite(q)(s)
      {
        assert SensitiveUrl.RewriteParam(s, p) == SensitiveUrl.RewriteParam(s, q);
      }
      SameRewrites(SensitiveUrl.ParseUrl(url).value.params, SensitiveUrl.ParamRewrite(p), SensitiveUrl.ParamRewrite(q));
    }
  }

  lemma MaskStagesEqual(engine: Engine, stage: Stage, p: Policy, q: Policy, input: string)
    requires p.mode.Mask? && q.mode.Mask?
    ensures StagePass(engine, stage, p, input) == StagePass(engine, stage, q, input)
  {
    var matches := MatchesOf(engine, stage, input);
    var d, e := Closure(engine, stage, p, input), Closure(engine, stage, q, input);
    forall c | c in matches
      ensures d(c) == e(c)
    {
      MaskDecisionsEqual(engine, stage, p, q, input, c);
    }
    SamePass(input, matches, d, e, 0);
    StageOutcome(engine, stage, p, input);
    StageOutcome(engine, stage, q, input);
  }

  lemma {:induction false} MaskRunsEqual(engine: Engine, p: Policy, q: Policy, at: Option<Stage>, text: string,
                                         recorded: seq<DetectorKind>)
    requires p.mode.Mask? && q.mode.Mask?
    ensures RunFrom(engine, p, at, text, recorded) == RunFrom(engine, q, at, text, recorded)
    decreases Left(at)
  {
    if at.Some? {
      FewerLeft(at.value);
      MaskStagesEqual(engine, at.value, p, q, text);
      if Gate(at.value) !in engine.enabled {
        MaskRunsEqual(engine, p, q, Next(at.value), text, recorded);
      } else if StagePass(engine, at.value, p, text).Some? {
        var pass := StagePass(engine, at.value, p, text).value;
        MaskRunsEqual(engine, p, q, Next(at.value), pass.text, recorded + pass.events);
      }
    }
  }

  /** Scanning a string counts exactly what masking it records. */
  lemma ScanIsMask(engine: Engine, p: Policy, q: Policy, input: string)
    requires p.mode.Mask? && q.mode.Mask?
    ensures RedactedStr(engine, p, input) == RedactedStr(engine, q, input)
  {
    MaskRunsEqual(engine, p, q, Some(BearerTokens), input, []);
  }
}
