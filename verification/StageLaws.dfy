/** What a stage makes of a text with one match. */
module StageLaws {
  import opened Wrappers
  import opened Text
  import opened Detectors
  import opened Policy
  import opened Splicing
  import opened CookieBody
  import opened Pipeline

  /** A match of the text between two others. */
  function Placed(before: string, candidate: string): Captures {
    Captures([Some(Span(|before|, |before| + |candidate|))])
  }

  lemma PlacedGroup(before: string, candidate: string, after: string)
    ensures Group(before + candidate + after, Placed(before, candidate), 0) == Some(candidate)
  {
    assert (before + candidate + after)[|before|..|before| + |candidate|] == candidate;
  }

  /** A pass over one match copies what is around it. */
  lemma OneMatchPass(before: string, candidate: string, after: string, c: Captures, decide: Captures -> Decision)
    requires c.Get(0) == Some(Span(|before|, |before| + |candidate|))
    requires AllInBounds([c], |before + candidate + after|)
    ensures var input, decision := before + candidate + after, decide(c);
            match decision
            case Decline => PassOver(input, [c], decide) == Pass(input, []) && !PassFails([c], decide)
            case Act(kinds, text) =>
              && (PassFails([c], decide) <==> text.Failure?)
              && PassOver(input, [c], decide) == Pass(before + decision.Text() + after, kinds)
  {
    var input := before + candidate + after;
    assert [c][1..] == [];
    if decide(c).Decline? {
      PassSkips(input, [c], decide, 0);
      assert input[0..] == input;
    } else {
      PassActs(input, [c], decide, 0);
      assert input[0..|before|] == before && input[|before| + |candidate|..] == after;
      assert decide(c).kinds + [] == decide(c).kinds;
    }
  }

  /** The stage has this one match. */
  predicate HasOne(engine: Engine, stage: Stage, text: string, c: Captures) {
    MatchesOf(engine, stage, text) == [c]
  }

  lemma OneMatch(engine: Engine, stage: Stage, p: Policy, before: string, candidate: string, after: string,
                 c: Captures, decision: Decision)
    requires HasOne(engine, stage, before + candidate + after, c)
    requires c.Get(0) == Some(Span(|before|, |before| + |candidate|))
    requires Closure(engine, stage, p, before + candidate + after)(c) == decision
    ensures StagePass(engine, stage, p, before + candidate + after) ==
            match decision
            case Decline => Some(Pass(before + candidate + after, []))
            case Act(kinds, text) =>
              if text.Failure? then None else Some(Pass(before + text.value + after, kinds))
  {
    OneMatchPass(before, candidate, after, c, Closure(engine, stage, p, before + candidate + after));
  }

  /** The stage replaces the candidate and records its kind. */
  ghost predicate Replaces(engine: Engine, stage: Stage, p: Policy, kind: DetectorKind, secret: string,
                           before: string, candidate: string, after: string)
  {
    StagePass(engine, stage, p, before + candidate + after) ==
    Some(Pass(before + Placeholder(p, kind, secret) + after, [kind]))
  }

  /** The stage leaves the text as it is and records nothing. */
  ghost predicate Leaves(engine: Engine, stage: Stage, p: Policy, text: string) {
    StagePass(engine, stage, p, text) == Some(Pass(text, []))
  }

  /** The stages that take the whole match for the secret. */
  lemma CandidateStage(engine: Engine, stage: Stage, p: Policy, before: string, candidate: string, after: string,
                       kind: DetectorKind, secret: string)
    requires !p.Keyless() && (stage.Jwts? || stage.Emails? || stage.Ipv4Addresses? || stage.Ipv6Addresses?
                              || stage.CreditCards?)
    requires HasOne(engine, stage, before + candidate + after, Placed(before, candidate))
    ensures DecideCandidate(engine, stage, p, candidate) == Replace(kind, p, secret) ==>
              Replaces(engine, stage, p, kind, secret, before, candidate, after)
    ensures DecideCandidate(engine, stage, p, candidate).Decline? ==>
              Leaves(engine, stage, p, before + candidate + after)
  {
    PlacedGroup(before, candidate, after);
    var decision := DecideCandidate(engine, stage, p, candidate);
    OneMatch(engine, stage, p, before, candidate, after, Placed(before, candidate), decision);
  }

  /** The stage replaces the candidate if it is one, and leaves it otherwise. */
  ghost predicate Decides(engine: Engine, stage: Stage, p: Policy, kind: DetectorKind, secret: string, before: string,
                          candidate: string, after: string, isOne: bool)
  {
    if isOne then Replaces(engine, stage, p, kind, secret, before, candidate, after)
    else Leaves(engine, stage, p, before + candidate + after)
  }

  lemma CandidateDecided(engine: Engine, stage: Stage, p: Policy, before: string, candidate: string, after: string,
                         kind: DetectorKind, secret: string, isOne: bool)
    requires !p.Keyless() && (stage.Jwts? || stage.Emails? || stage.Ipv4Addresses? || stage.Ipv6Addresses?
                              || stage.CreditCards?)
    requires HasOne(engine, stage, before + candidate + after, Placed(before, candidate))
    requires DecideCandidate(engine, stage, p, candidate) == if isOne then Replace(kind, p, secret) else Decline
    ensures Decides(engine, stage, p, kind, secret, before, candidate, after, isOne)
  {
    CandidateStage(engine, stage, p, before, candidate, after, kind, secret);
  }

  // ----- stage by stage

  lemma HasOneIf(engine: Engine, stage: Stage, text: string, c: Captures, found: seq<Captures>)
    requires MatchesOf(engine, stage, text) == found && found == [c]
    ensures HasOne(engine, stage, text, c)
  {
  }

  lemma MatcherIs(engine: Engine, stage: Stage, text: string)
    ensures stage.BearerTokens? ==> MatchesOf(engine, stage, text) == engine.patterns.bearer(text)
    ensures stage.CookieHeaders? ==> MatchesOf(engine, stage, text) == engine.patterns.cookieHeader(text)
    ensures stage.CookieAssignments? ==> MatchesOf(engine, stage, text) == engine.patterns.cookieAssignment(text)
    ensures stage.SensitiveUrlParams? ==> MatchesOf(engine, stage, text) == engine.patterns.url(text)
    ensures stage.Jwts? ==> MatchesOf(engine, stage, text) == engine.patterns.jwt(text)
    ensures stage.Emails? ==> MatchesOf(engine, stage, text) == engine.patterns.email(text)
    ensures stage.Ipv4Addresses? ==> MatchesOf(engine, stage, text) == engine.patterns.ipv4(text)
    ensures stage.Ipv6Addresses? ==> MatchesOf(engine, stage, text) == engine.patterns.ipv6(text)
    ensures stage.CreditCards? ==> MatchesOf(engine, stage, text) == engine.patterns.creditCard(text)
  {
  }

  /** A match of the e-mail regex is replaced. */
  lemma EmailReplaced(engine: Engine, stage: Stage, p: Policy, before: string, mail: string, after: string)
    requires stage.Emails? && !p.Keyless() && engine.patterns.email(before + mail + after) == [Placed(before, mail)]
    ensures Decides(engine, stage, p, Email, mail, before, mail, after, true)
  {
    MatcherIs(engine, stage, before + mail + after);
    HasOneIf(engine, stage, before + mail + after, Placed(before, mail), [Placed(before, mail)]);
    CandidateDecided(engine, stage, p, before, mail, after, Email, mail, true);
  }

  /** Three parts, of which the first begins with "eyJ" and the others have eight characters or more. */
  predicate IsToken(parts: seq<string>) {
    |parts| == 3 && "eyJ" <= parts[0] && |parts[1]| >= 8 && |parts[2]| >= 8
  }

  lemma TokenLooks(parts: seq<string>, token: string)
    requires parts != [] && (forall part | part in parts :: '.' !in part) && token == Join(parts, '.')
    ensures LooksLikeJwt(token) <==> IsToken(parts)
  {
    SplitJoin(parts, '.');
  }

  /** A match of the JWT regex is replaced exactly when its parts between dots are those of a token. */
  lemma JwtDecided(engine: Engine, stage: Stage, p: Policy, before: string, parts: seq<string>, token: string,
                   after: string)
    requires stage.Jwts? && !p.Keyless()
    requires parts != [] && (forall part | part in parts :: '.' !in part) && token == Join(parts, '.')
    requires engine.patterns.jwt(before + token + after) == [Placed(before, token)]
    ensures Decides(engine, stage, p, Jwt, token, before, token, after, IsToken(parts))
  {
    TokenLooks(parts, token);
    MatcherIs(engine, stage, before + token + after);
    HasOneIf(engine, stage, before + token + after, Placed(before, token), [Placed(before, token)]);
    CandidateDecided(engine, stage, p, before, token, after, Jwt, token, IsToken(parts));
  }

  /** A match of an address regex is replaced exactly when the address parser takes it. */
  lemma Ipv4Decided(engine: Engine, stage: Stage, p: Policy, before: string, address: string, after: string)
    requires stage.Ipv4Addresses? && !p.Keyless()
    requires engine.patterns.ipv4(before + address + after) == [Placed(before, address)]
    ensures Decides(engine, stage, p, Ip, address, before, address, after, engine.patterns.parsesIpv4(address))
  {
    MatcherIs(engine, stage, before + address + after);
    HasOneIf(engine, stage, before + address + after, Placed(before, address), [Placed(before, address)]);
    CandidateDecided(engine, stage, p, before, address, after, Ip, address, engine.patterns.parsesIpv4(address));
  }

  lemma Ipv6Decided(engine: Engine, stage: Stage, p: Policy, before: string, address: string, after: string)
    requires stage.Ipv6Addresses? && !p.Keyless()
    requires engine.patterns.ipv6(before + address + after) == [Placed(before, address)]
    ensures Decides(engine, stage, p, Ip, address, before, address, after, engine.patterns.parsesIpv6(address))
  {
    MatcherIs(engine, stage, before + address + after);
    HasOneIf(engine, stage, before + address + after, Placed(before, address), [Placed(before, address)]);
    CandidateDecided(engine, stage, p, before, address, after, Ip, address, engine.patterns.parsesIpv6(address));
  }

  /** A match with two groups, one after the other. */
  function PlacedPair(before: string, first: string, second: string): Captures {
    var a, b, c := |before|, |before| + |first|, |before| + |first| + |second|;
    Captures([Some(Span(a, c)), Some(Span(a, b)), Some(Span(b, c))])
  }

  lemma PairGroups(before: string, first: string, second: string, after: string)
    ensures var input, c := before + (first + second) + after, PlacedPair(before, first, second);
            && c.Get(0) == Some(Span(|before|, |before| + |first + second|))
            && Group(input, c, 1) == Some(first) && Group(input, c, 2) == Some(second)
  {
    var input := before + (first + second) + after;
    assert input[|before|..|before| + |first|] == first;
    assert input[|before| + |first|..|before| + |first| + |second|] == second;
  }

  /** The stage comes to this text and records these kinds. */
  ghost predicate Yields(engine: Engine, stage: Stage, p: Policy, input: string, output: string,
                         kinds: seq<DetectorKind>)
  {
    StagePass(engine, stage, p, input) == Some(Pass(output, kinds))
  }

  /** The closure acts on the match, recording these kinds and inserting this text. */
  predicate Acts(engine: Engine, stage: Stage, p: Policy, input: string, c: Captures, kinds: seq<DetectorKind>,
                 text: string)
  {
    Closure(engine, stage, p, input)(c) == Act(kinds, Success(text))
  }

  lemma OneMatchActs(engine: Engine, stage: Stage, p: Policy, before: string, candidate: string, after: string,
                     c: Captures, kinds: seq<DetectorKind>, text: string)
    requires HasOne(engine, stage, before + candidate + after, c)
    requires c.Get(0) == Some(Span(|before|, |before| + |candidate|))
    requires Acts(engine, stage, p, before + candidate + after, c, kinds, text)
    ensures Yields(engine, stage, p, before + candidate + after, before + text + after, kinds)
  {
    OneMatch(engine, stage, p, before, candidate, after, c, Act(kinds, Success(text)));
  }

  /** The match is the one of the stage, covers the candidate, and has these two groups. */
  predicate IsPair(engine: Engine, stage: Stage, before: string, candidate: string, after: string, c: Captures,
                   first: string, second: string)
  {
    && HasOne(engine, stage, before + candidate + after, c)
    && c.Get(0) == Some(Span(|before|, |before| + |candidate|))
    && Group(before + candidate + after, c, 1) == Some(first) && Group(before + candidate + after, c, 2) == Some(second)
  }

  /** What the stages that look at two groups do with them. */
  predicate PairComesTo(stage: Stage, p: Policy, first: string, second: string, kinds: seq<DetectorKind>,
                        text: string)
  {
    match stage
    case BearerTokens => After(first, Replace(BearerToken, p, second)) == Act(kinds, Success(text))
    case CookieHeaders => After(first + ": ", DecideCookie(second, p)) == Act(kinds, Success(text))
    case CookieAssignments => After(first, DecideCookie(second, p)) == Act(kinds, Success(text))
    case _ => false
  }

  lemma PairDecided(engine: Engine, stage: Stage, p: Policy, input: string, c: Captures, first: string,
                    second: string, kinds: seq<DetectorKind>, text: string)
    requires Group(input, c, 1) == Some(first) && Group(input, c, 2) == Some(second)
    requires PairComesTo(stage, p, first, second, kinds, text)
    ensures Acts(engine, stage, p, input, c, kinds, text)
  {
  }

  lemma PairActs(engine: Engine, stage: Stage, p: Policy, before: string, candidate: string, after: string,
                 c: Captures, first: string, second: string, kinds: seq<DetectorKind>, text: string)
    requires IsPair(engine, stage, before, candidate, after, c, first, second)
    requires PairComesTo(stage, p, first, second, kinds, text)
    ensures Yields(engine, stage, p, before + candidate + after, before + text + after, kinds)
  {
    PairDecided(engine, stage, p, before + candidate + after, c, first, second, kinds, text);
    OneMatchActs(engine, stage, p, before, candidate, after, c, kinds, text);
  }

  lemma PairIs(engine: Engine, stage: Stage, before: string, first: string, second: string, after: string, c: Captures)
    requires c == PlacedPair(before, first, second)
    requires MatchesOf(engine, stage, before + (first + second) + after) == [c]
    ensures IsPair(engine, stage, before, first + second, after, c, first, second)
  {
    PairGroups(before, first, second, after);
  }

  lemma BearerAct(p: Policy, word: string, token: string)
    requires !p.Keyless()
    ensures After(word, Replace(BearerToken, p, token)) ==
            Act([BearerToken], Success(word + Placeholder(p, BearerToken, token)))
  {
  }

  /** The word before a bearer token stays, and the token is replaced. */
  lemma BearerReplaced(engine: Engine, stage: Stage, p: Policy, before: string, word: string, token: string,
                       after: string)
    requires stage.BearerTokens? && !p.Keyless()
    requires engine.patterns.bearer(before + (word + token) + after) == [PlacedPair(before, word, token)]
    ensures Yields(engine, stage, p, before + (word + token) + after,
                   before + (word + Placeholder(p, BearerToken, token)) + after, [BearerToken])
  {
    var c := PlacedPair(before, word, token);
    MatcherIs(engine, stage, before + (word + token) + after);
    PairIs(engine, stage, before, word, token, after, c);
    BearerAct(p, word, token);
    PairActs(engine, stage, p, before, word + token, after, c, word, token, [BearerToken],
             word + Placeholder(p, BearerToken, token));
  }

  // ----- the order of the stages

  /** The stages in order, each with the detector that must be enabled. */
  const TEN: seq<(Stage, DetectorKind)> := [
    (BearerTokens, BearerToken), (CookieHeaders, Cookie), (CookieAssignments, Cookie),
    (SensitiveUrlParams, UrlSensitiveParams), (Jwts, Jwt), (Emails, Email),
    (Ipv4Addresses, Ip), (Ipv6Addresses, Ip), (Ibans, DetectorKind.Iban), (CreditCards, CreditCard)]

  /** Each stage whose detector is enabled runs over what the stages before it made of the text. */
  function RunAll(engine: Engine, p: Policy, stages: seq<(Stage, DetectorKind)>, text: string,
                  recorded: seq<DetectorKind>): Option<Pass>
  {
    if stages == [] then Some(Pass(text, recorded))
    else if stages[0].1 !in engine.enabled then RunAll(engine, p, stages[1..], text, recorded)
    else
      match StagePass(engine, stages[0].0, p, text)
      case None => None
      case Some(pass) => RunAll(engine, p, stages[1..], pass.text, recorded + pass.events)
  }

  lemma StageAt(k: nat)
    requires k < 10
    ensures |TEN| == 10 && Gate(TEN[k].0) == TEN[k].1
    ensures Next(TEN[k].0) == if k == 9 then None else Some(TEN[k + 1].0)
  {
  }

  lemma {:induction false} RunsAre(engine: Engine, p: Policy, stages: seq<(Stage, DetectorKind)>, text: string,
                                   recorded: seq<DetectorKind>, at: Option<Stage>)
    requires Chained(stages, at)
    ensures RunFrom(engine, p, at, text, recorded) == RunAll(engine, p, stages, text, recorded)
    decreases |stages|
  {
    if stages != [] {
      FewerLeft(stages[0].0);
      if stages[0].1 !in engine.enabled {
        RunsAre(engine, p, stages[1..], text, recorded, Next(stages[0].0));
      } else {
        match StagePass(engine, stages[0].0, p, text) {
          case None =>
          case Some(pass) => RunsAre(engine, p, stages[1..], pass.text, recorded + pass.events, Next(stages[0].0));
        }
      }
    }
  }

  /** The stages follow one another from `at` on. */
  predicate Chained(stages: seq<(Stage, DetectorKind)>, at: Option<Stage>) {
    if stages == [] then at.None?
    else at == Some(stages[0].0) && Gate(stages[0].0) == stages[0].1 && Chained(stages[1..], Next(stages[0].0))
  }

  lemma {:induction false} TenChained(k: nat)
    requires k <= 10
    ensures |TEN| == 10 && Chained(TEN[k..], if k == 10 then None else Some(TEN[k].0))
    decreases 10 - k
  {
    if k < 10 {
      StageAt(k);
      TenChained(k + 1);
      assert TEN[k..][1..] == TEN[k + 1..];
    }
  }

  /** The pipeline is the ten stages in this order. */
  lemma StagesInOrder(engine: Engine, p: Policy, text: string)
    ensures RedactedStr(engine, p, text) == RunAll(engine, p, TEN, text, [])
  {
    TenChained(0);
    assert TEN[0..] == TEN;
    RunsAre(engine, p, TEN, text, [], Some(BearerTokens));
  }
}
