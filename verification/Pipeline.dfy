/** `redact_str_with_policy`: the detector stages, one after the other. */
module Pipeline {
  import opened Wrappers
  import opened Text
  import opened Detectors
  import opened Policy
  import opened Stats
  import opened Fields
  import opened Splicing
  import opened Luhn
  import opened CookieBody
  import opened SensitiveUrl
  import IbanPass

  /** A regex, known only by its matches, which lie within the text. */
  type Matcher = f: string -> seq<Captures> | forall s :: AllInBounds(f(s), |s|) witness (s: string) => []

  /** The regexes, and the address parsers of the standard library. */
  datatype Patterns = Patterns(bearer: Matcher, cookieHeader: Matcher, cookieAssignment: Matcher, creditCard: Matcher,
                               email: Matcher, ipv4: Matcher, ipv6: Matcher, jwt: Matcher, url: Matcher,
                               parsesIpv4: string -> bool, parsesIpv6: string -> bool)

  datatype Engine = Engine(enabled: set<DetectorKind>, rules: FieldRules, patterns: Patterns)

  datatype Stage =
    | BearerTokens | CookieHeaders | CookieAssignments | SensitiveUrlParams | Jwts
    | Emails | Ipv4Addresses | Ipv6Addresses | Ibans | CreditCards

  function Next(stage: Stage): Option<Stage> {
    match stage
    case BearerTokens => Some(CookieHeaders)
    case CookieHeaders => Some(CookieAssignments)
    case CookieAssignments => Some(SensitiveUrlParams)
    case SensitiveUrlParams => Some(Jwts)
    case Jwts => Some(Emails)
    case Emails => Some(Ipv4Addresses)
    case Ipv4Addresses => Some(Ipv6Addresses)
    case Ipv6Addresses => Some(Ibans)
    case Ibans => Some(CreditCards)
    case CreditCards => None
  }

  /** How many stages are left. */
  function Left(at: Option<Stage>): nat {
    match at
    case None => 0
    case Some(stage) =>
      match stage
      case BearerTokens => 10
      case CookieHeaders => 9
      case CookieAssignments => 8
      case SensitiveUrlParams => 7
      case Jwts => 6
      case Emails => 5
      case Ipv4Addresses => 4
      case Ipv6Addresses => 3
      case Ibans => 2
      case CreditCards => 1
  }

  lemma FewerLeft(stage: Stage)
    ensures Left(Next(stage)) < Left(Some(stage))
  {
  }

  /** The detector that must be enabled for a stage to run. */
  function Gate(stage: Stage): DetectorKind {
    match stage
    case BearerTokens => BearerToken
    case CookieHeaders => Cookie
    case CookieAssignments => Cookie
    case SensitiveUrlParams => DetectorKind.UrlSensitiveParams
    case Jwts => Jwt
    case Emails => Email
    case Ipv4Addresses => Ip
    case Ipv6Addresses => Ip
    case Ibans => DetectorKind.Iban
    case CreditCards => CreditCard
  }

  // ----- what each stage does with one match

  /** The text of a capture group. */
  function Group(input: string, c: Captures, i: nat): Option<string> {
    match c.Get(i)
    case None => None
    case Some(span) => if span.start <= span.end <= |input| then Some(input[span.start..span.end]) else None
  }

  function Prefixed(prefix: string, text: Result<string, Error>): Result<string, Error> {
    match text
    case Success(t) => Success(prefix + t)
    case Failure(e) => Failure(e)
  }

  function After(prefix: string, decision: Decision): Decision {
    match decision
    case Decline => Decline
    case Act(kinds, text) => Act(kinds, Prefixed(prefix, text))
  }

  function Replace(kind: DetectorKind, policy: Policy, secret: string): Decision {
    Act([kind], policy.Replacement(kind, secret))
  }

  predicate LooksLikeJwt(candidate: string) {
    var parts := Split(candidate, '.');
    |parts| == 3 && "eyJ" <= parts[0] && |parts[1]| >= 8 && |parts[2]| >= 8
  }

  predicate IsCardNumber(digits: string) { 13 <= |digits| <= 19 && IsLuhn(digits) }

  function DecideCard(candidate: string, policy: Policy): Decision {
    var digits := DigitsOnly(candidate);
    if IsCardNumber(digits) then Replace(CreditCard, policy, digits) else Decline
  }

  /** The stages that look at the whole match. */
  function DecideCandidate(engine: Engine, stage: Stage, policy: Policy, candidate: string): Decision {
    match stage
    case SensitiveUrlParams => DecideUrl(candidate, policy)
    case Jwts => if LooksLikeJwt(candidate) then Replace(Jwt, policy, candidate) else Decline
    case Emails => Replace(Email, policy, candidate)
    case Ipv4Addresses => if engine.patterns.parsesIpv4(candidate) then Replace(Ip, policy, candidate) else Decline
    case Ipv6Addresses => if engine.patterns.parsesIpv6(candidate) then Replace(Ip, policy, candidate) else Decline
    case CreditCards => DecideCard(candidate, policy)
    case _ => Decline
  }

  function DecideMatch(engine: Engine, stage: Stage, policy: Policy, input: string, c: Captures): Decision {
    match stage
    case BearerTokens =>
      (match (Group(input, c, 1), Group(input, c, 2))
       case (Some(prefix), Some(token)) => After(prefix, Replace(BearerToken, policy, token))
       case _ => Decline)
    case CookieHeaders =>
      (match (Group(input, c, 1), Group(input, c, 2))
       case (Some(header), Some(body)) => After(header + ": ", DecideCookie(body, policy))
       case _ => Decline)
    case CookieAssignments =>
      (match (Group(input, c, 1), Group(input, c, 2))
       case (Some(prefix), Some(body)) => After(prefix, DecideCookie(body, policy))
       case _ => Decline)
    case Ibans => IbanPass.DecideIban(input, policy, c)
    case _ =>
      (match Group(input, c, 0)
       case Some(candidate) => DecideCandidate(engine, stage, policy, candidate)
       case None => Decline)
  }

  /** The closure a stage gives to `replace_matches`. */
  function Closure(engine: Engine, stage: Stage, policy: Policy, input: string): Captures -> Decision {
    if stage.Ibans? then IbanPass.IbanDecisions(input, policy)
    else c => DecideMatch(engine, stage, policy, input, c)
  }

  function MatchesOf(engine: Engine, stage: Stage, input: string): (matches: seq<Captures>)
    ensures AllInBounds(matches, |input|)
  {
    match stage
    case BearerTokens => engine.patterns.bearer(input)
    case CookieHeaders => engine.patterns.cookieHeader(input)
    case CookieAssignments => engine.patterns.cookieAssignment(input)
    case SensitiveUrlParams => engine.patterns.url(input)
    case Jwts => engine.patterns.jwt(input)
    case Emails => engine.patterns.email(input)
    case Ipv4Addresses => engine.patterns.ipv4(input)
    case Ipv6Addresses => engine.patterns.ipv6(input)
    case Ibans => IbanPass.StageMatches(input)
    case CreditCards => engine.patterns.creditCard(input)
  }

  /** The result of a stage that is enabled; nothing if it fails. */
  function StagePass(engine: Engine, stage: Stage, policy: Policy, input: string): Option<Pass> {
    var matches, decide := MatchesOf(engine, stage, input), Closure(engine, stage, policy, input);
    if PassFails(matches, decide) then None else Some(PassOver(input, matches, decide))
  }

  // ----- the closures

  /** What a closure returns and records, for what its match comes to. */
  ghost predicate Obeys(r: Result<Option<string>, Error>, decision: Decision, before: Report, after: Report) {
    match decision
    case Decline => r == Success(None) && after == before
    case Act(kinds, text) =>
      && (r.Failure? <==> text.Failure?)
      && (r.Success? ==> r.value == Some(text.value) && after == RecordedAll(before, kinds))
  }

  /** Records a secret and replaces it. */
  method ReplaceSecret(kind: DetectorKind, secret: string, policy: Policy, stats: ScanReport)
    returns (r: Result<Option<string>, Error>)
    modifies stats
    ensures Obeys(r, Replace(kind, policy, secret), old(stats.View()), stats.View())
  {
    RecordOne(stats.View(), kind);
    stats.Record(kind);
    var replacement := policy.Replacement(kind, secret);
    r := if replacement.Success? then Success(Some(replacement.value)) else Failure(replacement.error);
  }

  lemma RecordOne(before: Report, kind: DetectorKind)
    ensures RecordedAll(before, [kind]) == Recorded(before, kind)
  {
    RecordOneMore(before, [], kind);
    assert [] + [kind] == [kind];
  }

  method ReplaceBearerToken(input: string, c: Captures, policy: Policy, stats: ScanReport, ghost decision: Decision)
    returns (r: Result<Option<string>, Error>)
    requires decision == match (Group(input, c, 1), Group(input, c, 2))
                         case (Some(prefix), Some(token)) => After(prefix, Replace(BearerToken, policy, token))
                         case _ => Decline
    modifies stats
    ensures Obeys(r, decision, old(stats.View()), stats.View())
  {
    var prefix, token := Group(input, c, 1), Group(input, c, 2);
    if prefix.None? || token.None? {
      return Success(None);
    }
    r := ReplaceSecret(BearerToken, token.value, policy, stats);
    if r.Success? {
      r := Success(Some(prefix.value + r.value.value));
    }
  }

  method ReplaceCookies(prefix: string, body: string, policy: Policy, stats: ScanReport)
    returns (r: Result<Option<string>, Error>)
    modifies stats
    ensures Obeys(r, After(prefix, DecideCookie(body, policy)), old(stats.View()), stats.View())
  {
    r := RedactCookieBody(body, policy, stats);
    if r.Success? && r.value.Some? {
      r := Success(Some(prefix + r.value.value));
    }
  }

  method ReplaceCard(candidate: string, policy: Policy, stats: ScanReport) returns (r: Result<Option<string>, Error>)
    modifies stats
    ensures Obeys(r, DecideCard(candidate, policy), old(stats.View()), stats.View())
  {
    var digits := DigitsOnly(candidate);
    var valid := false;
    if 13 <= |digits| <= 19 {
      valid := IsLuhnValid(digits);
    }
    if !valid {
      return Success(None);
    }
    r := ReplaceSecret(CreditCard, digits, policy, stats);
  }

  /** The closure of a stage, carried out. */
  method ReplaceMatch(engine: Engine, stage: Stage, input: string, c: Captures, policy: Policy, stats: ScanReport)
    returns (r: Result<Option<string>, Error>)
    requires !stage.Ibans?
    modifies stats
    ensures Obeys(r, DecideMatch(engine, stage, policy, input, c), old(stats.View()), stats.View())
  {
    r := Success(None);
    if stage.BearerTokens? {
      r := ReplaceBearerToken(input, c, policy, stats, DecideMatch(engine, stage, policy, input, c));
    } else if stage.CookieHeaders? {
      var header, body := Group(input, c, 1), Group(input, c, 2);
      if header.Some? && body.Some? {
        r := ReplaceCookies(header.value + ": ", body.value, policy, stats);
      }
    } else if stage.CookieAssignments? {
      var prefix, body := Group(input, c, 1), Group(input, c, 2);
      if prefix.Some? && body.Some? {
        r := ReplaceCookies(prefix.value, body.value, policy, stats);
      }
    } else {
      var candidate := Group(input, c, 0);
      if candidate.Some? {
        r := ReplaceCandidate(engine, stage, candidate.value, policy, stats);
      }
    }
  }

  /** The same for the stages that look at the whole match. */
  method ReplaceCandidate(engine: Engine, stage: Stage, candidate: string, policy: Policy, stats: ScanReport)
    returns (r: Result<Option<string>, Error>)
    requires !stage.BearerTokens? && !stage.CookieHeaders? && !stage.CookieAssignments? && !stage.Ibans?
    modifies stats
    ensures Obeys(r, DecideCandidate(engine, stage, policy, candidate), old(stats.View()), stats.View())
  {
    r := Success(None);
    match stage {
      case SensitiveUrlParams => r := RedactSensitiveUrl(candidate, policy, stats);
      case Jwts =>
        if LooksLikeJwt(candidate) {
          r := ReplaceSecret(Jwt, candidate, policy, stats);
        }
      case Emails => r := ReplaceSecret(Email, candidate, policy, stats);
      case Ipv4Addresses =>
        if engine.patterns.parsesIpv4(candidate) {
          r := ReplaceSecret(Ip, candidate, policy, stats);
        }
      case Ipv6Addresses =>
        if engine.patterns.parsesIpv6(candidate) {
          r := ReplaceSecret(Ip, candidate, policy, stats);
        }
      case CreditCards => r := ReplaceCard(candidate, policy, stats);
    }
  }

  // ----- one stage

  /** The matches and the closure of a stage, and what the pass over them comes to. */
  lemma StageStream(engine: Engine, stage: Stage, input: string, policy: Policy)
    returns (matches: seq<Captures>, decide: Captures -> Decision)
    requires !stage.Ibans?
    ensures matches == MatchesOf(engine, stage, input)
    ensures forall c :: decide(c) == DecideMatch(engine, stage, policy, input, c)
    ensures WholePass(input, matches, decide) == StagePass(engine, stage, policy, input)
  {
    matches, decide := MatchesOf(engine, stage, input), Closure(engine, stage, policy, input);
    WholePassIs(input, matches, decide);
  }

  /** `replace_matches` over the regex of a stage, with its closure. */
  method ReplaceMatches(engine: Engine, stage: Stage, input: string, policy: Policy, stats: ScanReport)
    returns (r: Result<string, Error>)
    requires !stage.Ibans?
    modifies stats
    ensures r.Failure? <==> StagePass(engine, stage, policy, input).None?
    ensures r.Success? ==>
              && r.value == StagePass(engine, stage, policy, input).value.text
              && stats.View() == RecordedAll(old(stats.View()), StagePass(engine, stage, policy, input).value.events)
  {
    var output := "";
    var lastEnd: nat := 0;
    var changed := false;
    var matches := MatchesOf(engine, stage, input);
    ghost var recorded: seq<DetectorKind> := [];
    ghost var stream, decide := StageStream(engine, stage, input, policy);
    ghost var goal := StagePass(engine, stage, policy, input);
    for i := 0 to |matches|
      invariant stats.View() == RecordedAll(old(stats.View()), recorded)
      invariant lastEnd <= |input|
      invariant Finish(input, matches, decide, i, lastEnd, output, recorded) == goal
      invariant !changed ==> output == "" && lastEnd == 0
    {
      var captures := matches[i];
      assert InBounds(captures, |input|);
      if captures.Get(0).None? {
        FinishSkips(input, matches, decide, i, lastEnd, output, recorded);
        continue;
      }
      var fullMatch := captures.Get(0).value;
      if fullMatch.start < lastEnd {
        FinishSkips(input, matches, decide, i, lastEnd, output, recorded);
        continue;
      }
      var replacement := ReplaceMatch(engine, stage, input, captures, policy, stats);
      recorded := StepTaken(input, matches, decide, i, lastEnd, output, recorded, replacement, old(stats.View()),
                            stats.View());
      if replacement.Failure? {
        return Failure(replacement.error);
      }
      if replacement.value.None? {
        continue;
      }
      output := output + input[lastEnd..fullMatch.start];
      output := output + replacement.value.value;
      lastEnd := fullMatch.end;
      changed := true;
    }
    if changed {
      output := output + input[lastEnd..];
      r := Success(output);
    } else {
      NothingWritten(input);
      r := Success(input);
    }
  }

  /** What is recorded, and how the pass ends, after the closure was carried out on a match. */
  lemma StepTaken(input: string, matches: seq<Captures>, decide: Captures -> Decision, i: nat, lastEnd: nat,
                  output: string, recorded: seq<DetectorKind>, r: Result<Option<string>, Error>, start: Report,
                  now: Report)
    returns (after: seq<DetectorKind>)
    requires AllInBounds(matches, |input|) && i < |matches| && matches[i].Get(0).Some?
    requires lastEnd <= matches[i].Get(0).value.start <= matches[i].Get(0).value.end <= |input|
    requires Obeys(r, decide(matches[i]), RecordedAll(start, recorded), now)
    ensures r.Failure? ==> Finish(input, matches, decide, i, lastEnd, output, recorded).None?
    ensures r.Success? ==> now == RecordedAll(start, after)
    ensures r.Success? && r.value.None? ==>
              Finish(input, matches, decide, i, lastEnd, output, recorded) ==
              Finish(input, matches, decide, i + 1, lastEnd, output, after)
    ensures r.Success? && r.value.Some? ==>
              Finish(input, matches, decide, i, lastEnd, output, recorded) ==
              Finish(input, matches, decide, i + 1, matches[i].Get(0).value.end,
                     output + input[lastEnd..matches[i].Get(0).value.start] + r.value.value, after)
  {
    var whole := matches[i].Get(0).value;
    after := recorded;
    match decide(matches[i]) {
      case Decline => FinishSkips(input, matches, decide, i, lastEnd, output, recorded);
      case Act(kinds, text) =>
        FinishActs(input, matches, decide, i, lastEnd, output, recorded, whole.start, whole.end, kinds, text);
        RecordInTwoRuns(start, recorded, kinds);
        after := recorded + kinds;
    }
  }

  method RunStage(engine: Engine, stage: Stage, input: string, policy: Policy, stats: ScanReport)
    returns (r: Result<string, Error>)
    modifies stats
    ensures r.Failure? <==> StagePass(engine, stage, policy, input).None?
    ensures r.Success? ==>
              && r.value == StagePass(engine, stage, policy, input).value.text
              && stats.View() == RecordedAll(old(stats.View()), StagePass(engine, stage, policy, input).value.events)
  {
    if stage.Ibans? {
      r := IbanPass.ReplaceIbans(input, policy, stats);
    } else {
      r := ReplaceMatches(engine, stage, input, policy, stats);
    }
  }

  // ----- the stages in order

  /** What the stages from `at` on make of a text; nothing if one fails. */
  function RunFrom(engine: Engine, policy: Policy, at: Option<Stage>, text: string,
                   recorded: seq<DetectorKind>): Option<Pass>
    decreases Left(at)
  {
    match at
    case None => Some(Pass(text, recorded))
    case Some(stage) =>
      FewerLeft(stage);
      if Gate(stage) !in engine.enabled then RunFrom(engine, policy, Next(stage), text, recorded)
      else
        match StagePass(engine, stage, policy, text)
        case None => None
        case Some(pass) => RunFrom(engine, policy, Next(stage), pass.text, recorded + pass.events)
  }

  /** What a policy makes of a string; nothing if it fails. */
  function RedactedStr(engine: Engine, policy: Policy, input: string): Option<Pass> {
    RunFrom(engine, policy, Some(BearerTokens), input, [])
  }

  /** Where the pipeline stands before stage `at`: it has failed, as it must, or what is left leads to `goal`. */
  ghost predicate Stands(engine: Engine, policy: Policy, at: Option<Stage>, text: Result<string, Error>,
                         recorded: seq<DetectorKind>, goal: Option<Pass>)
  {
    match text
    case Failure(_) => goal.None?
    case Success(t) => RunFrom(engine, policy, at, t, recorded) == goal
  }

  /** One conditional stage, given what the stages before it came to. */
  method RunIfEnabled(engine: Engine, stage: Stage, text: Result<string, Error>, policy: Policy, stats: ScanReport,
                      ghost recorded: seq<DetectorKind>, ghost goal: Option<Pass>)
    returns (r: Result<string, Error>, ghost after: seq<DetectorKind>)
    requires Stands(engine, policy, Some(stage), text, recorded, goal)
    requires text.Success? ==> stats.View() == Tally(recorded)
    modifies stats
    ensures Stands(engine, policy, Next(stage), r, after, goal)
    ensures r.Success? ==> stats.View() == Tally(after)
  {
    after := recorded;
    if text.Failure? || Gate(stage) !in engine.enabled {
      return text, recorded;
    }
    r := RunStage(engine, stage, text.value, policy, stats);
    if r.Success? {
      ghost var events := StagePass(engine, stage, policy, text.value).value.events;
      RecordInTwoRuns(EMPTY, recorded, events);
      after := recorded + events;
    }
  }

  /** The first five stages. */
  method RunEarlyStages(engine: Engine, input: string, policy: Policy, stats: ScanReport, ghost goal: Option<Pass>)
    returns (r: Result<string, Error>, ghost events: seq<DetectorKind>)
    requires Stands(engine, policy, Some(BearerTokens), Success(input), [], goal) && stats.View() == Tally([])
    modifies stats
    ensures Stands(engine, policy, Some(Emails), r, events, goal)
    ensures r.Success? ==> stats.View() == Tally(events)
  {
    r, events := RunIfEnabled(engine, BearerTokens, Success(input), policy, stats, [], goal);
    r, events := RunIfEnabled(engine, CookieHeaders, r, policy, stats, events, goal);
    r, events := RunIfEnabled(engine, CookieAssignments, r, policy, stats, events, goal);
    r, events := RunIfEnabled(engine, SensitiveUrlParams, r, policy, stats, events, goal);
    r, events := RunIfEnabled(engine, Jwts, r, policy, stats, events, goal);
  }

  /** The last five stages. */
  method RunLateStages(engine: Engine, text: Result<string, Error>, policy: Policy, stats: ScanReport,
                       ghost recorded: seq<DetectorKind>, ghost goal: Option<Pass>)
    returns (r: Result<string, Error>, ghost events: seq<DetectorKind>)
    requires Stands(engine, policy, Some(Emails), text, recorded, goal)
    requires text.Success? ==> stats.View() == Tally(recorded)
    modifies stats
    ensures Stands(engine, policy, None, r, events, goal)
    ensures r.Success? ==> stats.View() == Tally(events)
  {
    r, events := RunIfEnabled(engine, Emails, text, policy, stats, recorded, goal);
    r, events := RunIfEnabled(engine, Ipv4Addresses, r, policy, stats, events, goal);
    r, events := RunIfEnabled(engine, Ipv6Addresses, r, policy, stats, events, goal);
    r, events := RunIfEnabled(engine, Ibans, r, policy, stats, events, goal);
    r, events := RunIfEnabled(engine, CreditCards, r, policy, stats, events, goal);
  }

  method RedactStrWithPolicy(engine: Engine, input: string, policy: Policy)
    returns (r: Result<string, Error>, stats: ScanReport)
    ensures fresh(stats)
    ensures r.Failure? <==> RedactedStr(engine, policy, input).None?
    ensures r.Success? ==>
              && r.value == RedactedStr(engine, policy, input).value.text
              && stats.View() == Tally(RedactedStr(engine, policy, input).value.events)
  {
    stats := new ScanReport();
    ghost var goal := RedactedStr(engine, policy, input);
    ghost var events: seq<DetectorKind>;
    r, events := RunEarlyStages(engine, input, policy, stats, goal);
    r, events := RunLateStages(engine, r, policy, stats, events, goal);
    PipelineEnds(engine, policy, r, events, goal);
  }

  lemma PipelineEnds(engine: Engine, policy: Policy, text: Result<string, Error>, recorded: seq<DetectorKind>,
                     goal: Option<Pass>)
    requires Stands(engine, policy, None, text, recorded, goal)
    ensures text.Failure? <==> goal.None?
    ensures text.Success? ==> goal == Some(Pass(text.value, recorded))
  {
  }
}
