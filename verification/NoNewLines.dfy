/** Redaction brings no line break into a text, so a line stays one line. */
module NoNewLines {
  import opened Wrappers
  import opened Text
  import opened Detectors
  import opened Policy
  import opened Splicing
  import opened Parts
  import opened Pipeline
  import CookieBody
  import Iban
  import SensitiveUrl
  import IbanPass
  import Luhn

  predicate OneLine(s: string) { '\n' !in s }

  lemma PlaceholderOneLine(p: Policy, kind: DetectorKind, secret: string)
    ensures OneLine(Placeholder(p, kind, secret))
  {
    PlaceholderChars(p, kind, secret);
  }

  lemma {:induction false} RewrittenOneLine(parts: seq<string>, rewrite: string -> string)
    requires forall part | part in parts :: OneLine(rewrite(part))
    ensures forall part | part in RewriteAll(parts, rewrite) :: OneLine(part)
  {
    if parts != [] {
      RewrittenOneLine(parts[..|parts| - 1], rewrite);
    }
  }

  lemma {:induction false} PartsOneLine(s: string, sep: char)
    requires OneLine(s)
    ensures forall part | part in Split(s, sep) :: OneLine(part)
  {
    if s != [] {
      PartsOneLine(s[..|s| - 1], sep);
      var parts := Split(s[..|s| - 1], sep);
      assert parts[|parts| - 1] in parts;
    }
  }

  lemma CookieOneLine(body: string, p: Policy)
    requires OneLine(body)
    ensures OneLine(CookieBody.DecideCookie(body, p).Text())
  {
    var parts := Split(body, ';');
    PartsOneLine(body, ';');
    forall part | part in parts
      ensures OneLine(CookieBody.CookieRewrite(p)(part))
    {
      if CookieBody.IsHit(part) {
        PlaceholderOneLine(p, Cookie, Trim(part[Find(part, '=').value + 1..]));
      }
    }
    RewrittenOneLine(parts, CookieBody.CookieRewrite(p));
    JoinAvoids(CookieBody.RewrittenParts(body, p), ';', '\n');
  }

  predicate OneLineUrl(url: SensitiveUrl.Url) {
    && OneLine(url.base) && OneLine(url.fragment) && OneLine(url.trailing)
    && forall param | param in url.params :: OneLine(param)
  }

  lemma ParsedOneLine(input: string)
    requires OneLine(input)
    ensures var parsed := SensitiveUrl.ParseUrl(input); parsed.Some? ==> OneLineUrl(parsed.value)
  {
    var url := input[..SensitiveUrl.TrailStart(input)];
    if Find(url, '?').Some? {
      PartsOneLine(SensitiveUrl.SplitFragment(url[Find(url, '?').value + 1..]).0, '&');
    }
  }

  lemma PrintedOneLine(url: SensitiveUrl.Url)
    requires OneLineUrl(url)
    ensures OneLine(SensitiveUrl.PrintUrl(url))
  {
    JoinAvoids(url.params, '&', '\n');
  }

  lemma ParamOneLine(param: string, p: Policy)
    requires OneLine(param)
    ensures OneLine(SensitiveUrl.ParamRewrite(p)(param))
  {
    PlaceholderOneLine(p, UrlSensitiveParams, SensitiveUrl.ValueOf(param));
  }

  lemma RewrittenUrlOneLine(url: SensitiveUrl.Url, p: Policy)
    requires OneLineUrl(url)
    ensures OneLineUrl(SensitiveUrl.RewriteUrl(url, p))
  {
    forall param | param in url.params
      ensures OneLine(SensitiveUrl.ParamRewrite(p)(param))
    {
      ParamOneLine(param, p);
    }
    RewrittenOneLine(url.params, SensitiveUrl.ParamRewrite(p));
  }

  lemma UrlOneLine(input: string, p: Policy)
    requires OneLine(input)
    ensures OneLine(SensitiveUrl.DecideUrl(input, p).Text())
  {
    ParsedOneLine(input);
    match SensitiveUrl.ParseUrl(input) {
      case None =>
      case Some(url) =>
        RewrittenUrlOneLine(url, p);
        PrintedOneLine(SensitiveUrl.RewriteUrl(url, p));
    }
  }

  lemma ReplaceOneLine(kind: DetectorKind, p: Policy, secret: string)
    ensures OneLine(Replace(kind, p, secret).Text())
  {
    PlaceholderOneLine(p, kind, secret);
  }

  lemma AfterOneLine(prefix: string, decision: Decision)
    requires OneLine(prefix) && OneLine(decision.Text())
    ensures OneLine(After(prefix, decision).Text())
  {
  }

  /** Nothing that a stage writes for a match in one line holds a line break. */
  lemma DecisionOneLine(engine: Engine, stage: Stage, p: Policy, input: string, c: Captures)
    requires OneLine(input)
    ensures OneLine(Closure(engine, stage, p, input)(c).Text())
  {
    match stage {
      case BearerTokens =>
        match (Group(input, c, 1), Group(input, c, 2)) {
          case (Some(prefix), Some(token)) =>
            ReplaceOneLine(BearerToken, p, token);
            AfterOneLine(prefix, Replace(BearerToken, p, token));
          case _ =>
        }
      case CookieHeaders =>
        match (Group(input, c, 1), Group(input, c, 2)) {
          case (Some(header), Some(body)) =>
            CookieOneLine(body, p);
            AfterOneLine(header + ": ", CookieBody.DecideCookie(body, p));
          case _ =>
        }
      case CookieAssignments =>
        match (Group(input, c, 1), Group(input, c, 2)) {
          case (Some(prefix), Some(body)) =>
            CookieOneLine(body, p);
            AfterOneLine(prefix, CookieBody.DecideCookie(body, p));
          case _ =>
        }
      case SensitiveUrlParams =>
        match Group(input, c, 0) {
          case Some(url) => UrlOneLine(url, p);
          case None =>
        }
      case _ => PlainDecisionOneLine(engine, stage, p, input, c);
    }
  }

  lemma IbanOneLine(input: string, p: Policy, c: Captures)
    ensures OneLine(IbanPass.DecideIban(input, p, c).Text())
  {
    if c.Get(0).Some? && c.Get(0).value.start <= c.Get(0).value.end <= |input| {
      PlaceholderOneLine(p, DetectorKind.Iban, Iban.NormalizeIban(input[c.Get(0).value.start..c.Get(0).value.end]));
    }
  }

  /** The stages that put a placeholder in the place of the whole match. */
  lemma PlainDecisionOneLine(engine: Engine, stage: Stage, p: Policy, input: string, c: Captures)
    requires stage in {Jwts, Emails, Ipv4Addresses, Ipv6Addresses, Ibans, CreditCards}
    ensures OneLine(Closure(engine, stage, p, input)(c).Text())
  {
    if stage.Ibans? {
      IbanOneLine(input, p, c);
    } else if Group(input, c, 0).Some? {
      var secret := Group(input, c, 0).value;
      match stage {
        case CreditCards => ReplaceOneLine(CreditCard, p, Luhn.DigitsOnly(secret));
        case Jwts => ReplaceOneLine(Jwt, p, secret);
        case Emails => ReplaceOneLine(Email, p, secret);
        case _ => ReplaceOneLine(Ip, p, secret);
      }
    }
  }

  lemma {:induction false} PassOneLine(input: string, matches: seq<Captures>, decide: Captures -> Decision,
                                       lastEnd: nat)
    requires AllInBounds(matches, |input|) && lastEnd <= |input| && OneLine(input)
    requires forall c | c in matches :: OneLine(decide(c).Text())
    ensures OneLine(PassFrom(input, matches, decide, lastEnd).text)
  {
    if matches != [] {
      var c := matches[0];
      assert InBounds(c, |input|);
      if c.Get(0).None? || c.Get(0).value.start < lastEnd || decide(c).Decline? {
        PassOneLine(input, matches[1..], decide, lastEnd);
        PassSkips(input, matches, decide, lastEnd);
      } else {
        PassOneLine(input, matches[1..], decide, c.Get(0).value.end);
        PassActs(input, matches, decide, lastEnd);
      }
    }
  }

  lemma StageOneLine(engine: Engine, stage: Stage, p: Policy, input: string)
    requires OneLine(input)
    ensures var r := StagePass(engine, stage, p, input); r.Some? ==> OneLine(r.value.text)
  {
    var matches, decide := MatchesOf(engine, stage, input), Closure(engine, stage, p, input);
    forall c | c in matches
      ensures OneLine(decide(c).Text())
    {
      DecisionOneLine(engine, stage, p, input, c);
    }
    PassOneLine(input, matches, decide, 0);
  }

  lemma {:induction false} RunOneLine(engine: Engine, p: Policy, at: Option<Stage>, text: string,
                                      recorded: seq<DetectorKind>)
    requires OneLine(text)
    ensures var r := RunFrom(engine, p, at, text, recorded); r.Some? ==> OneLine(r.value.text)
    decreases Left(at)
  {
    if at.Some? {
      FewerLeft(at.value);
      StageOneLine(engine, at.value, p, text);
      if Gate(at.value) !in engine.enabled {
        RunOneLine(engine, p, Next(at.value), text, recorded);
      } else if StagePass(engine, at.value, p, text).Some? {
        var pass := StagePass(engine, at.value, p, text).value;
        RunOneLine(engine, p, Next(at.value), pass.text, recorded + pass.events);
      }
    }
  }

  /** No detector, in any mode, breaks a line in two. */
  lemma RedactedOneLine(engine: Engine, p: Policy, input: string)
    requires OneLine(input)
    ensures var r := RedactedStr(engine, p, input); r.Some? ==> OneLine(r.value.text)
  {
    RunOneLine(engine, p, Some(BearerTokens), input, []);
  }
}
