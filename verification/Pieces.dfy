/** What a stage writes, but for the text that stands for the secrets: the same under every policy. */
module Pieces {
  import opened Wrappers
  import opened Text
  import opened Detectors
  import opened Policy
  import opened Splicing
  import opened Parts
  import opened Pipeline
  import opened PipelineLaws
  import CookieBody
  import Iban
  import Luhn
  import SensitiveUrl

  datatype Piece = Plain(text: string) | Secret(kind: DetectorKind, secret: string)

  function Show(p: Policy, piece: Piece): string {
    match piece
    case Plain(text) => text
    case Secret(kind, secret) => Placeholder(p, kind, secret)
  }

  /** The pieces as a policy writes them. */
  function Render(p: Policy, pieces: seq<Piece>): string {
    if pieces == [] then "" else Show(p, pieces[0]) + Render(p, pieces[1..])
  }

  lemma RenderFront(p: Policy, piece: Piece, rest: seq<Piece>)
    ensures Render(p, [piece] + rest) == Show(p, piece) + Render(p, rest)
  {
    assert ([piece] + rest)[1..] == rest;
  }

  lemma FirstAndRest<T>(a: seq<T>, b: seq<T>)
    requires a != []
    ensures a == [a[0]] + a[1..] && a + b == [a[0]] + (a[1..] + b)
  {
  }

  lemma NothingAround<T>(a: seq<T>)
    ensures [] + a == a && a + [] == a
  {
  }

  lemma {:induction false} RenderConcat(p: Policy, a: seq<Piece>, b: seq<Piece>)
    ensures Render(p, a + b) == Render(p, a) + Render(p, b)
  {
    if a == [] {
      NothingAround(b);
      NothingAround(Render(p, b));
    } else {
      RenderConcat(p, a[1..], b);
      FirstAndRest(a, b);
      RenderFront(p, a[0], a[1..] + b);
      RenderFront(p, a[0], a[1..]);
      ConcatThree(Show(p, a[0]), Render(p, a[1..]), Render(p, b));
    }
  }

  lemma RenderOne(p: Policy, piece: Piece)
    ensures Render(p, [piece]) == Show(p, piece)
  {
    assert [piece][1..] == [];
  }

  lemma RenderTwo(p: Policy, a: Piece, b: Piece)
    ensures Render(p, [a, b]) == Show(p, a) + Show(p, b)
  {
    RenderOne(p, b);
    assert [a, b][1..] == [b];
  }

  // ----- joined parts

  function JoinPieces(parts: seq<string>, sep: char, piecesOf: string -> seq<Piece>): seq<Piece> {
    if |parts| == 0 then []
    else if |parts| == 1 then piecesOf(parts[0])
    else JoinPieces(parts[..|parts| - 1], sep, piecesOf) + [Plain([sep])] + piecesOf(parts[|parts| - 1])
  }

  lemma {:induction false} JoinShown(p: Policy, parts: seq<string>, sep: char, piecesOf: string -> seq<Piece>,
                                     rewrite: string -> string)
    requires forall part | part in parts :: Render(p, piecesOf(part)) == rewrite(part)
    ensures Render(p, JoinPieces(parts, sep, piecesOf)) == Join(RewriteAll(parts, rewrite), sep)
  {
    RewriteAt(parts, rewrite);
    var n := |parts| - 1;
    if n == 0 {
      assert parts[0] in parts;
    } else if n > 0 {
      assert parts[n] in parts;
      JoinShown(p, parts[..n], sep, piecesOf, rewrite);
      JoinOneMore(p, JoinPieces(parts[..n], sep, piecesOf), sep, piecesOf(parts[n]));
      assert RewriteAll(parts, rewrite)[..n] == RewriteAll(parts[..n], rewrite);
    }
  }

  lemma JoinOneMore(p: Policy, front: seq<Piece>, sep: char, last: seq<Piece>)
    ensures Render(p, front + [Plain([sep])] + last) == Render(p, front) + [sep] + Render(p, last)
  {
    RenderConcat(p, front + [Plain([sep])], last);
    RenderConcat(p, front, [Plain([sep])]);
    RenderOne(p, Plain([sep]));
  }

  function CookiePart(part: string): seq<Piece> {
    if CookieBody.IsHit(part) then
      var eq := Find(part, '=').value;
      [Plain(part[..eq + 1]), Secret(Cookie, Trim(part[eq + 1..]))]
    else [Plain(part)]
  }

  function CookiePieces(body: string): seq<Piece> { JoinPieces(Split(body, ';'), ';', part => CookiePart(part)) }

  lemma CookiePartShown(p: Policy, part: string)
    ensures Render(p, CookiePart(part)) == CookieBody.RewritePart(part, p)
  {
    if CookieBody.IsHit(part) {
      var eq := Find(part, '=').value;
      RenderTwo(p, Plain(part[..eq + 1]), Secret(Cookie, Trim(part[eq + 1..])));
    } else {
      RenderOne(p, Plain(part));
    }
  }

  lemma CookieShown(p: Policy, body: string)
    ensures Render(p, CookiePieces(body)) == CookieBody.RewrittenBody(body, p)
  {
    forall part
      ensures Render(p, CookiePart(part)) == CookieBody.CookieRewrite(p)(part)
    {
      CookiePartShown(p, part);
    }
    JoinShown(p, Split(body, ';'), ';', part => CookiePart(part), CookieBody.CookieRewrite(p));
  }

  function ParamPieces(param: string): seq<Piece> {
    if SensitiveUrl.IsSensitive(param) then
      [Plain(SensitiveUrl.KeyOf(param) + ['=']), Secret(UrlSensitiveParams, SensitiveUrl.ValueOf(param))]
    else [Plain(param)]
  }

  function UrlPieces(url: SensitiveUrl.Url): seq<Piece> {
    [Plain(url.base + ['?'])] + JoinPieces(url.params, '&', param => ParamPieces(param))
    + [Plain(url.fragment + url.trailing)]
  }

  lemma ParamShown(p: Policy, param: string)
    ensures Render(p, ParamPieces(param)) == SensitiveUrl.RewriteParam(param, p)
  {
    if SensitiveUrl.IsSensitive(param) {
      RenderTwo(p, Plain(SensitiveUrl.KeyOf(param) + ['=']), Secret(UrlSensitiveParams, SensitiveUrl.ValueOf(param)));
    } else {
      RenderOne(p, Plain(param));
    }
  }

  lemma AroundShown(p: Policy, before: string, pieces: seq<Piece>, after: string, end: string)
    ensures Render(p, [Plain(before)] + pieces + [Plain(after + end)]) == before + Render(p, pieces) + after + end
  {
    RenderConcat(p, [Plain(before)] + pieces, [Plain(after + end)]);
    RenderConcat(p, [Plain(before)], pieces);
    RenderOne(p, Plain(before));
    RenderOne(p, Plain(after + end));
    ConcatThree(before + Render(p, pieces), after, end);
  }

  lemma UrlShown(p: Policy, url: SensitiveUrl.Url)
    ensures Render(p, UrlPieces(url)) == SensitiveUrl.PrintUrl(SensitiveUrl.RewriteUrl(url, p))
  {
    forall param
      ensures Render(p, ParamPieces(param)) == SensitiveUrl.ParamRewrite(p)(param)
    {
      ParamShown(p, param);
    }
    JoinShown(p, url.params, '&', param => ParamPieces(param), SensitiveUrl.ParamRewrite(p));
    var query := JoinPieces(url.params, '&', param => ParamPieces(param));
    AroundShown(p, url.base + ['?'], query, url.fragment, url.trailing);
  }

  // ----- one match

  /** What a stage writes for a match that it acts on. */
  function MatchPieces(stage: Stage, input: string, c: Captures): seq<Piece> {
    match stage
    case BearerTokens =>
      (match (Group(input, c, 1), Group(input, c, 2))
       case (Some(prefix), Some(token)) => [Plain(prefix), Secret(BearerToken, token)]
       case _ => [])
    case CookieHeaders =>
      (match (Group(input, c, 1), Group(input, c, 2))
       case (Some(header), Some(body)) => [Plain(header + ": ")] + CookiePieces(body)
       case _ => [])
    case CookieAssignments =>
      (match (Group(input, c, 1), Group(input, c, 2))
       case (Some(prefix), Some(body)) => [Plain(prefix)] + CookiePieces(body)
       case _ => [])
    case SensitiveUrlParams =>
      (match Group(input, c, 0)
       case Some(url) =>
         (match SensitiveUrl.ParseUrl(url)
          case Some(parts) => UrlPieces(parts)
          case None => [])
       case None => [])
    case _ =>
      (match Group(input, c, 0)
       case Some(candidate) => [Secret(Gate(stage), SecretOf(stage, candidate))]
       case None => [])
  }

  /** The secret in the match of a stage that replaces its match whole. */
  function SecretOf(stage: Stage, candidate: string): string {
    match stage
    case Ibans => Iban.NormalizeIban(candidate)
    case CreditCards => Luhn.DigitsOnly(candidate)
    case _ => candidate
  }

  lemma SecretShown(p: Policy, kind: DetectorKind, secret: string)
    requires !p.Keyless()
    ensures Replace(kind, p, secret).Text() == Render(p, [Secret(kind, secret)])
  {
    RenderOne(p, Secret(kind, secret));
  }

  lemma TokenShown(p: Policy, prefix: string, token: string)
    requires !p.Keyless()
    ensures After(prefix, Replace(BearerToken, p, token)).Text() ==
            Render(p, [Plain(prefix), Secret(BearerToken, token)])
  {
    RenderTwo(p, Plain(prefix), Secret(BearerToken, token));
  }

  lemma BodyShown(p: Policy, before: string, body: string)
    requires !p.Keyless() && CookieBody.DecideCookie(body, p).Act?
    ensures After(before, CookieBody.DecideCookie(body, p)).Text() == Render(p, [Plain(before)] + CookiePieces(body))
  {
    CookieShown(p, body);
    RenderFront(p, Plain(before), CookiePieces(body));
  }

  lemma MatchedUrlShown(p: Policy, url: string)
    requires !p.Keyless() && SensitiveUrl.DecideUrl(url, p).Act?
    ensures SensitiveUrl.ParseUrl(url).Some?
    ensures SensitiveUrl.DecideUrl(url, p).Text() == Render(p, UrlPieces(SensitiveUrl.ParseUrl(url).value))
  {
    UrlShown(p, SensitiveUrl.ParseUrl(url).value);
  }

  /** A match is acted on in every mode with the same pieces. */
  lemma MatchShown(engine: Engine, stage: Stage, p: Policy, input: string, c: Captures)
    requires !p.Keyless() && Closure(engine, stage, p, input)(c).Act?
    ensures Closure(engine, stage, p, input)(c).Text() == Render(p, MatchPieces(stage, input, c))
  {
    match stage {
      case BearerTokens => TokenShown(p, Group(input, c, 1).value, Group(input, c, 2).value);
      case CookieHeaders => BodyShown(p, Group(input, c, 1).value + ": ", Group(input, c, 2).value);
      case CookieAssignments => BodyShown(p, Group(input, c, 1).value, Group(input, c, 2).value);
      case SensitiveUrlParams => MatchedUrlShown(p, Group(input, c, 0).value);
      case _ => SecretShown(p, Gate(stage), SecretOf(stage, Group(input, c, 0).value));
    }
  }

  // ----- one stage

  function Cut(input: string, from: nat, end: nat): string { if from <= end <= |input| then input[from..end] else "" }

  /** The stretches between the picked matches, and what is written for these. */
  function PassPieces(input: string, picked: seq<Captures>, of: Captures -> seq<Piece>, from: nat): seq<Piece> {
    if picked == [] then [Plain(Cut(input, from, |input|))]
    else
      match picked[0].Get(0)
      case None => []
      case Some(whole) =>
        [Plain(Cut(input, from, whole.start))] + of(picked[0]) + PassPieces(input, picked[1..], of, whole.end)
  }

  lemma BetweenShown(p: Policy, gap: string, pieces: seq<Piece>, rest: seq<Piece>)
    ensures Render(p, [Plain(gap)] + pieces + rest) == gap + Render(p, pieces) + Render(p, rest)
  {
    RenderConcat(p, [Plain(gap)] + pieces, rest);
    RenderFront(p, Plain(gap), pieces);
  }

  lemma {:induction false} PassShown(p: Policy, input: string, picked: seq<Captures>, decide: Captures -> Decision,
                                     of: Captures -> seq<Piece>, from: nat)
    requires forall c | c in picked :: c.Get(0).Some? && decide(c).Text() == Render(p, of(c))
    requires Ordered(Edits(picked, decide), from, |input|)
    ensures Splice(input, Edits(picked, decide), from) == Render(p, PassPieces(input, picked, of, from))
  {
    OrderedBound(Edits(picked, decide), from, |input|);
    if picked == [] {
      RenderOne(p, Plain(input[from..]));
    } else {
      var whole := picked[0].Get(0).value;
      OrderedBound(Edits(picked[1..], decide), whole.end, |input|);
      PassShown(p, input, picked[1..], decide, of, whole.end);
      BetweenShown(p, input[from..whole.start], of(picked[0]), PassPieces(input, picked[1..], of, whole.end));
    }
  }

  function PiecesOf(stage: Stage, input: string): Captures -> seq<Piece> { c => MatchPieces(stage, input, c) }

  /** What a stage writes. */
  function StagePieces(engine: Engine, stage: Stage, p: Policy, input: string): seq<Piece> {
    PassPieces(input, Picked(MatchesOf(engine, stage, input), Closure(engine, stage, p, input), 0),
               PiecesOf(stage, input), 0)
  }

  lemma PiecesAnyPolicy(engine: Engine, stage: Stage, p: Policy, q: Policy, input: string)
    ensures StagePieces(engine, stage, p, input) == StagePieces(engine, stage, q, input)
  {
    forall c | c in MatchesOf(engine, stage, input)
      ensures var d, e := Closure(engine, stage, p, input)(c), Closure(engine, stage, q, input)(c);
              d.Decline? == e.Decline? && (d.Act? && e.Act? ==> d.kinds == e.kinds)
    {
      DecisionsAgree(engine, stage, p, q, input, c);
    }
    SamePicks(MatchesOf(engine, stage, input), Closure(engine, stage, p, input), Closure(engine, stage, q, input), 0);
  }

  /** A stage writes the same under every policy that has its key, but for the texts inserted for the secrets. */
  lemma StageShown(engine: Engine, stage: Stage, p: Policy, q: Policy, input: string)
    requires !q.Keyless()
    ensures StagePass(engine, stage, q, input).Some?
    ensures StagePass(engine, stage, q, input).value.text == Render(q, StagePieces(engine, stage, p, input))
  {
    var matches, decide := MatchesOf(engine, stage, input), Closure(engine, stage, q, input);
    PiecesAnyPolicy(engine, stage, p, q, input);
    StageOutcome(engine, stage, q, input);
    PickedOrdered(matches, decide, 0, |input|);
    forall c | c in Picked(matches, decide, 0)
      ensures decide(c).Text() == Render(q, PiecesOf(stage, input)(c))
    {
      MatchShown(engine, stage, q, input, c);
    }
    PassShown(q, input, Picked(matches, decide, 0), decide, PiecesOf(stage, input), 0);
  }
}
