/** `redact_sensitive_url`: the values of sensitive query parameters of one URL. */
module SensitiveUrl {
  import opened Wrappers
  import opened Text
  import opened Detectors
  import opened Policy
  import opened Stats
  import opened Fields
  import opened Splicing
  import opened Parts

  predicate IsTrailing(c: char) { c == '.' || c == ',' || c == ';' || c == '!' }

  /** Where the trailing punctuation begins. */
  function TrailStart(input: string): (end: nat)
    ensures end <= |input|
  {
    if input != [] && IsTrailing(input[|input| - 1]) then TrailStart(input[..|input| - 1]) else |input|
  }

  method SplitTrailingUrlPunctuation(input: string) returns (url: string, trailing: string)
    ensures url == input[..TrailStart(input)] && trailing == input[TrailStart(input)..]
  {
    var end := |input|;
    assert input[..end] == input;
    while end > 0
      invariant end <= |input| && TrailStart(input[..end]) == TrailStart(input)
      invariant end == 0 ==> TrailStart(input) == 0
    {
      var ch := input[end - 1];
      assert input[..end][..end - 1] == input[..end - 1];
      if IsTrailing(ch) {
        end := end - 1;
      } else {
        break;
      }
    }
    assert end == TrailStart(input);
    return input[..end], input[end..];
  }

  predicate IsSensitiveKey(key: string) {
    var normalized := NormalizeFieldName(key);
    || normalized in {"token", "key", "secret", "password", "code", "session"}
    || EndsWith(normalized, "token") || EndsWith(normalized, "key") || EndsWith(normalized, "secret")
    || EndsWith(normalized, "password") || EndsWith(normalized, "code") || EndsWith(normalized, "session")
  }

  function KeyOf(param: string): string {
    var eq := Find(param, '=');
    if eq.None? then param else param[..eq.value]
  }

  function ValueOf(param: string): string {
    var eq := Find(param, '=');
    if eq.None? then "" else param[eq.value + 1..]
  }

  predicate IsSensitive(param: string) { IsSensitiveKey(KeyOf(param)) }

  function RewriteParam(param: string, policy: Policy): string {
    if IsSensitive(param) then KeyOf(param) + ['='] + Placeholder(policy, UrlSensitiveParams, ValueOf(param)) else param
  }

  function ParamHit(): string -> bool { param => IsSensitive(param) }

  function ParamRewrite(policy: Policy): string -> string { param => RewriteParam(param, policy) }

  // ----- the parts of a URL

  datatype Url = Url(base: string, params: seq<string>, fragment: string, trailing: string)

  function SplitFragment(s: string): (string, string) {
    match Find(s, '#')
    case Some(i) => (s[..i], s[i..])
    case None => (s, "")
  }

  function ParseUrl(input: string): Option<Url> {
    var url, trailing := input[..TrailStart(input)], input[TrailStart(input)..];
    match Find(url, '?')
    case None => None
    case Some(queryStart) =>
      var (query, fragment) := SplitFragment(url[queryStart + 1..]);
      Some(Url(url[..queryStart], Split(query, '&'), fragment, trailing))
  }

  function PrintUrl(url: Url): string {
    url.base + ['?'] + Join(url.params, '&') + url.fragment + url.trailing
  }

  function RewriteUrl(url: Url, policy: Policy): Url {
    url.(params := RewriteAll(url.params, ParamRewrite(policy)))
  }

  function UrlHits(url: Url): nat { Hits(url.params, ParamHit()) }

  /** What becomes of a URL. */
  function DecideUrl(input: string, policy: Policy): Decision {
    match ParseUrl(input)
    case None => Decline
    case Some(url) =>
      if UrlHits(url) == 0 then Decline
      else Act(Repeat(UrlSensitiveParams, UrlHits(url)),
               if policy.Keyless() then Failure(MissingHashKey(policy.hashEnv))
               else Success(PrintUrl(RewriteUrl(url, policy))))
  }

  ghost predicate ParamTurn(params: seq<string>, policy: Policy, done: nat -> string, count: nat -> nat, i: nat) {
    i < |params| ==>
      Turn(i, '&', done, count, Hits(params, ParamHit()), IsSensitive(params[i]), RewriteParam(params[i], policy))
  }

  lemma ParamRun(params: seq<string>, policy: Policy) returns (done: nat -> string, count: nat -> nat)
    ensures done(0) == "" && count(0) == 0
    ensures done(|params|) == Join(RewriteAll(params, ParamRewrite(policy)), '&')
    ensures count(|params|) == Hits(params, ParamHit())
    ensures forall i: nat :: ParamTurn(params, policy, done, count, i)
  {
    done, count := Run(params, '&', ParamHit(), ParamRewrite(policy));
    forall i: nat
      ensures ParamTurn(params, policy, done, count, i)
    {
      assert Turns(params, '&', ParamHit(), ParamRewrite(policy), done, count, i);
    }
  }

  lemma ParamTurnTaken(params: seq<string>, policy: Policy, done: nat -> string, count: nat -> nat, i: nat)
    requires ParamTurn(params, policy, done, count, i) && i < |params|
    ensures var param, sep := params[i], if i > 0 then ['&'] else [];
            && (!IsSensitiveKey(KeyOf(param)) ==> done(i + 1) == done(i) + sep + param && count(i + 1) == count(i))
            && (IsSensitiveKey(KeyOf(param)) ==>
                  && done(i + 1) ==
                     done(i) + sep + KeyOf(param) + ['='] + Placeholder(policy, UrlSensitiveParams, ValueOf(param))
                  && count(i + 1) == count(i) + 1 <= Hits(params, ParamHit()))
  {
    var param, sep := params[i], if i > 0 then ['&'] else [];
    if IsSensitive(param) {
      ConcatAssociates(done(i) + sep, KeyOf(param), ['='], Placeholder(policy, UrlSensitiveParams, ValueOf(param)));
    }
  }

  /** The loop over the parameters. */
  method RewriteQuery(params: seq<string>, policy: Policy, stats: ScanReport)
    returns (r: Result<(string, bool), Error>)
    modifies stats
    ensures r.Failure? <==> policy.Keyless() && Hits(params, ParamHit()) > 0
    ensures r.Success? ==>
              && r.value == (Join(RewriteAll(params, ParamRewrite(policy)), '&'), Hits(params, ParamHit()) > 0)
              && stats.View() == RecordedAll(old(stats.View()), Repeat(UrlSensitiveParams, Hits(params, ParamHit())))
  {
    var changed := false;
    var redactedQuery := "";
    ghost var done, count := ParamRun(params, policy);
    ghost var recorded: seq<DetectorKind> := [];
    for index := 0 to |params|
      invariant redactedQuery == done(index)
      invariant changed <==> count(index) > 0
      invariant changed ==> !policy.Keyless()
      invariant recorded == Repeat(UrlSensitiveParams, count(index))
      invariant stats.View() == RecordedAll(old(stats.View()), recorded)
    {
      ParamTurnTaken(params, policy, done, count, index);
      if index > 0 {
        redactedQuery := redactedQuery + ['&'];
      }
      var param := params[index];
      var key, value := KeyOf(param), ValueOf(param);
      if IsSensitiveKey(key) {
        stats.Record(UrlSensitiveParams);
        RecordOneMore(old(stats.View()), recorded, UrlSensitiveParams);
        recorded := recorded + [UrlSensitiveParams];
        redactedQuery := redactedQuery + key;
        redactedQuery := redactedQuery + ['='];
        var replacement := policy.Replacement(UrlSensitiveParams, value);
        if replacement.Failure? {
          return Failure(replacement.error);
        }
        redactedQuery := redactedQuery + replacement.value;
        changed := true;
      } else {
        redactedQuery := redactedQuery + param;
      }
    }
    return Success((redactedQuery, changed));
  }

  lemma ParsedIs(input: string, url: string, queryStart: nat, query: string, fragment: string)
    requires url == input[..TrailStart(input)] && Find(url, '?') == Some(queryStart)
    requires SplitFragment(url[queryStart + 1..]) == (query, fragment)
    ensures ParseUrl(input) == Some(Url(url[..queryStart], Split(query, '&'), fragment, input[TrailStart(input)..]))
  {
  }

  lemma RewrittenIs(base: string, params: seq<string>, fragment: string, trailing: string, policy: Policy)
    ensures PrintUrl(RewriteUrl(Url(base, params, fragment, trailing), policy)) ==
            base + ['?'] + Join(RewriteAll(params, ParamRewrite(policy)), '&') + fragment + trailing
  {
  }

  /** What becomes of a URL, by its parts. */
  lemma UrlDecision(input: string, policy: Policy, base: string, params: seq<string>, fragment: string,
                    trailing: string)
    requires ParseUrl(input) == Some(Url(base, params, fragment, trailing))
    ensures var hits := Hits(params, ParamHit());
            var text := base + ['?'] + Join(RewriteAll(params, ParamRewrite(policy)), '&') + fragment + trailing;
            DecideUrl(input, policy) ==
            if hits == 0 then Decline
            else Act(Repeat(UrlSensitiveParams, hits),
                     if policy.Keyless() then Failure(MissingHashKey(policy.hashEnv)) else Success(text))
  {
    RewrittenIs(base, params, fragment, trailing, policy);
  }

  method RedactSensitiveUrl(input: string, policy: Policy, stats: ScanReport)
    returns (r: Result<Option<string>, Error>)
    modifies stats
    ensures match DecideUrl(input, policy)
            case Decline => r == Success(None) && stats.View() == old(stats.View())
            case Act(kinds, text) =>
              && (r.Failure? <==> text.Failure?)
              && (r.Success? ==> r.value == Some(text.value) && stats.View() == RecordedAll(old(stats.View()), kinds))
  {
    var url, trailing := SplitTrailingUrlPunctuation(input);
    var queryStart := Find(url, '?');
    if queryStart.None? {
      return Success(None);
    }
    var base, queryAndFragment := url[..queryStart.value], url[queryStart.value + 1..];
    var (query, fragment) := SplitFragment(queryAndFragment);
    ParsedIs(input, url, queryStart.value, query, fragment);
    UrlDecision(input, policy, base, Split(query, '&'), fragment, trailing);
    var rewritten := RewriteQuery(Split(query, '&'), policy, stats);
    if rewritten.Failure? {
      return Failure(rewritten.error);
    }
    var (redactedQuery, changed) := rewritten.value;
    if !changed {
      return Success(None);
    }
    return Success(Some(base + ['?'] + redactedQuery + fragment + trailing));
  }
}
