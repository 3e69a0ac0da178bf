/** Which parts of a cookie body are redacted, and what the body becomes. */
module CookieParts {
  import opened Wrappers
  import opened Text
  import opened Detectors
  import opened Policy
  import opened Splicing
  import opened Parts
  import opened CookieBody
  import opened Spelling
  import opened Pipeline
  import opened StageLaws

  /** A part without an equals sign, or a name and what follows its equals sign. */
  datatype CookiePart = Bare(text: string) | Pair(name: string, value: string)

  function TextOf(part: CookiePart): string {
    match part
    case Bare(text) => text
    case Pair(name, value) => name + ['='] + value
  }

  /** A part with a value that is not white space alone. */
  predicate IsSecret(part: CookiePart) { part.Pair? && !AllSpace(part.value) }

  /** What becomes of a part: the name stays, and the placeholder for the trimmed value stands after it. */
  function Hidden(p: Policy, part: CookiePart): string {
    if IsSecret(part) then part.name + ['='] + Placeholder(p, Cookie, Trim(part.value)) else TextOf(part)
  }

  function AllTexts(parts: seq<CookiePart>): (texts: seq<string>)
    ensures |texts| == |parts|
  {
    if parts == [] then [] else AllTexts(parts[..|parts| - 1]) + [TextOf(parts[|parts| - 1])]
  }

  function AllHidden(p: Policy, parts: seq<CookiePart>): (texts: seq<string>)
    ensures |texts| == |parts|
  {
    if parts == [] then [] else AllHidden(p, parts[..|parts| - 1]) + [Hidden(p, parts[|parts| - 1])]
  }

  function Secrets(parts: seq<CookiePart>): nat {
    if parts == [] then 0 else Secrets(parts[..|parts| - 1]) + if IsSecret(parts[|parts| - 1]) then 1 else 0
  }

  predicate IsPart(part: CookiePart) {
    match part
    case Bare(text) => ';' !in text && '=' !in text
    case Pair(name, value) => ';' !in name && '=' !in name && ';' !in value
  }

  lemma PartIs(p: Policy, part: CookiePart)
    requires IsPart(part)
    ensures IsHit(TextOf(part)) <==> IsSecret(part)
    ensures RewritePart(TextOf(part), p) == Hidden(p, part)
  {
    match part {
      case Bare(text) => FindIsFirst(text, '=');
      case Pair(name, value) =>
        FindAt(name, '=', value);
        BlankIff(value);
        var text := name + ['='] + value;
        assert text[..|name| + 1] == name + ['='] && text[|name| + 1..] == value;
    }
  }

  lemma {:induction false} PartsAre(p: Policy, parts: seq<CookiePart>)
    requires forall part | part in parts :: IsPart(part)
    ensures RewriteAll(AllTexts(parts), CookieRewrite(p)) == AllHidden(p, parts)
    ensures Hits(AllTexts(parts), CookieHit()) == Secrets(parts)
    ensures forall text | text in AllTexts(parts) :: ';' !in text
  {
    if parts != [] {
      var n := |parts| - 1;
      assert parts[n] in parts;
      PartsAre(p, parts[..n]);
      PartIs(p, parts[n]);
      assert AllTexts(parts)[..n] == AllTexts(parts[..n]);
    }
  }

  lemma {:induction false} NoneSecret(parts: seq<CookiePart>)
    ensures Secrets(parts) == 0 <==> forall part | part in parts :: !IsSecret(part)
  {
    if parts != [] {
      var n := |parts| - 1;
      NoneSecret(parts[..n]);
      assert forall part :: part in parts <==> part in parts[..n] || part == parts[n];
    }
  }

  /** A cookie body is acted on exactly when some part has a value; then each of these keeps its name and has the
      placeholder for its value, with one record for each, and all else stays. */
  lemma CookiesRedacted(p: Policy, parts: seq<CookiePart>)
    requires parts != [] && forall part | part in parts :: IsPart(part)
    ensures DecideCookie(Join(AllTexts(parts), ';'), p) ==
            if Secrets(parts) == 0 then Decline
            else Act(Repeat(Cookie, Secrets(parts)),
                     if p.Keyless() then Failure(MissingHashKey(p.hashEnv))
                     else Success(Join(AllHidden(p, parts), ';')))
    ensures Secrets(parts) == 0 <==> forall part | part in parts :: !IsSecret(part)
  {
    NoneSecret(parts);
    PartsAre(p, parts);
    SplitJoin(AllTexts(parts), ';');
  }

  // ----- the two stages

  /** A header name, a separator that is not kept, and a body. */
  function PlacedHeader(before: string, header: string, separator: string, body: string): Captures {
    var a, b := |before|, |before| + |header|;
    var c := b + |separator|;
    Captures([Some(Span(a, c + |body|)), Some(Span(a, b)), Some(Span(c, c + |body|))])
  }

  lemma CutOfFive(before: string, a: string, b: string, c: string, after: string)
    ensures var s := before + (a + b + c) + after;
            && s[|before|..|before| + |a|] == a
            && s[|before| + |a| + |b|..|before| + |a| + |b| + |c|] == c
  {
  }

  lemma HeaderGroups(before: string, header: string, separator: string, body: string, after: string)
    ensures var candidate, c := header + separator + body, PlacedHeader(before, header, separator, body);
            && c.Get(0) == Some(Span(|before|, |before| + |candidate|))
            && Group(before + candidate + after, c, 1) == Some(header)
            && Group(before + candidate + after, c, 2) == Some(body)
  {
    CutOfFive(before, header, separator, body, after);
  }

  lemma HeaderIs(engine: Engine, stage: Stage, before: string, header: string, separator: string, body: string,
                 after: string, c: Captures)
    requires c == PlacedHeader(before, header, separator, body)
    requires MatchesOf(engine, stage, before + (header + separator + body) + after) == [c]
    ensures IsPair(engine, stage, before, header + separator + body, after, c, header, body)
  {
    HeaderGroups(before, header, separator, body, after);
  }

  lemma CookiesAct(p: Policy, prefix: string, parts: seq<CookiePart>, body: string, kinds: seq<DetectorKind>)
    requires !p.Keyless() && parts != [] && forall part | part in parts :: IsPart(part)
    requires Secrets(parts) > 0 && body == Join(AllTexts(parts), ';') && kinds == Repeat(Cookie, Secrets(parts))
    ensures After(prefix, DecideCookie(body, p)) == Act(kinds, Success(prefix + Join(AllHidden(p, parts), ';')))
  {
    CookiesRedacted(p, parts);
  }

  /** A cookie header keeps its name, and a colon and a blank come between it and the redacted body. */
  lemma HeaderRedacted(engine: Engine, stage: Stage, p: Policy, before: string, header: string, separator: string,
                       parts: seq<CookiePart>, body: string, after: string)
    requires stage.CookieHeaders? && !p.Keyless() && parts != [] && forall part | part in parts :: IsPart(part)
    requires Secrets(parts) > 0 && body == Join(AllTexts(parts), ';')
    requires engine.patterns.cookieHeader(before + (header + separator + body) + after) ==
             [PlacedHeader(before, header, separator, body)]
    ensures Yields(engine, stage, p, before + (header + separator + body) + after,
                   before + (header + ": " + Join(AllHidden(p, parts), ';')) + after, Repeat(Cookie, Secrets(parts)))
  {
    var c := PlacedHeader(before, header, separator, body);
    MatcherIs(engine, stage, before + (header + separator + body) + after);
    HeaderIs(engine, stage, before, header, separator, body, after, c);
    CookiesAct(p, header + ": ", parts, body, Repeat(Cookie, Secrets(parts)));
    PairActs(engine, stage, p, before, header + separator + body, after, c, header, body,
             Repeat(Cookie, Secrets(parts)), header + ": " + Join(AllHidden(p, parts), ';'));
  }

  /** Cookies after the word keep it, and what is between. */
  lemma AssignmentRedacted(engine: Engine, stage: Stage, p: Policy, before: string, word: string,
                           parts: seq<CookiePart>, body: string, after: string)
    requires stage.CookieAssignments? && !p.Keyless() && parts != [] && forall part | part in parts :: IsPart(part)
    requires Secrets(parts) > 0 && body == Join(AllTexts(parts), ';')
    requires engine.patterns.cookieAssignment(before + (word + body) + after) == [PlacedPair(before, word, body)]
    ensures Yields(engine, stage, p, before + (word + body) + after,
                   before + (word + Join(AllHidden(p, parts), ';')) + after, Repeat(Cookie, Secrets(parts)))
  {
    var c := PlacedPair(before, word, body);
    MatcherIs(engine, stage, before + (word + body) + after);
    PairIs(engine, stage, before, word, body, after, c);
    CookiesAct(p, word, parts, body, Repeat(Cookie, Secrets(parts)));
    PairActs(engine, stage, p, before, word + body, after, c, word, body, Repeat(Cookie, Secrets(parts)),
             word + Join(AllHidden(p, parts), ';'));
  }
}
