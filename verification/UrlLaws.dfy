/** Reading a URL, writing it back, and what redaction leaves in place. */
module UrlLaws {
  import opened Wrappers
  import opened Text
  import opened Detectors
  import opened Policy
  import opened Parts
  import opened SensitiveUrl

  // ----- reading and writing are inverse

  predicate AllTrailing(s: string) { forall c | c in s :: IsTrailing(c) }

  predicate EndsClean(s: string) { s != [] && !IsTrailing(s[|s| - 1]) }

  function Query(url: Url): string { Join(url.params, '&') }

  predicate WellFormed(url: Url) {
    && '?' !in url.base
    && url.params != [] && (forall p | p in url.params :: '&' !in p && '#' !in p)
    && (url.fragment == "" || url.fragment[0] == '#')
    && AllTrailing(url.trailing)
    && EndsClean(url.base + ['?'] + Query(url) + url.fragment)
  }

  lemma {:induction false} TrailAt(front: string, trailing: string)
    requires EndsClean(front) && AllTrailing(trailing)
    ensures TrailStart(front + trailing) == |front|
  {
    if trailing == [] {
      assert front + trailing == front;
    } else {
      var n := |trailing| - 1;
      assert trailing[n] in trailing;
      TrailAt(front, trailing[..n]);
      assert (front + trailing)[..|front| + n] == front + trailing[..n];
    }
  }

  lemma {:induction false} TrailIs(s: string)
    ensures AllTrailing(s[TrailStart(s)..])
    ensures s[..TrailStart(s)] == [] || EndsClean(s[..TrailStart(s)])
  {
    if s != [] && IsTrailing(s[|s| - 1]) {
      var front := s[..|s| - 1];
      TrailIs(front);
      assert s[..TrailStart(front)] == front[..TrailStart(front)];
      assert s[TrailStart(front)..] == front[TrailStart(front)..] + [s[|s| - 1]];
    } else {
      assert s[..|s|] == s;
    }
  }

  lemma FragmentSplits(s: string)
    ensures var (query, fragment) := SplitFragment(s);
            query + fragment == s && '#' !in query && (fragment == "" || fragment[0] == '#')
  {
    FindIsFirst(s, '#');
  }

  lemma FragmentAt(query: string, fragment: string)
    requires '#' !in query && (fragment == "" || fragment[0] == '#')
    ensures SplitFragment(query + fragment) == (query, fragment)
  {
    if fragment == "" {
      assert query + fragment == query;
      FindIsFirst(query, '#');
    } else {
      FindAt(query, '#', fragment[1..]);
      assert query + fragment == query + ['#'] + fragment[1..];
    }
  }

  lemma ParsedText(input: string)
    requires ParseUrl(input).Some?
    ensures var u := ParseUrl(input).value;
            && u.base + ['?'] + Query(u) + u.fragment == input[..TrailStart(input)]
            && u.trailing == input[TrailStart(input)..]
  {
    var url := input[..TrailStart(input)];
    var at := Find(url, '?').value;
    var rest := url[at + 1..];
    var (query, fragment) := SplitFragment(rest);
    FindIsFirst(url, '?');
    FragmentSplits(rest);
    JoinSplit(query, '&');
    CutAt(url, at);
    Reassemble(url[..at], query, fragment, rest);
  }

  lemma CutAt(s: string, at: nat)
    requires at < |s|
    ensures s == s[..at] + [s[at]] + s[at + 1..]
  {
  }

  lemma Reassemble(base: string, query: string, fragment: string, rest: string)
    requires query + fragment == rest
    ensures base + ['?'] + query + fragment == base + ['?'] + rest
  {
  }

  lemma ParsedForm(input: string)
    requires ParseUrl(input).Some?
    ensures var u := ParseUrl(input).value;
            && '?' !in u.base && u.params != []
            && (forall p | p in u.params :: '&' !in p && '#' !in p)
            && (u.fragment == "" || u.fragment[0] == '#')
  {
    var url := input[..TrailStart(input)];
    var rest := url[Find(url, '?').value + 1..];
    var (query, _) := SplitFragment(rest);
    FindIsFirst(url, '?');
    FragmentSplits(rest);
    SplitAvoids(query, '&');
    PartsWithin(query, '#');
  }

  /** Writing out what was read gives the same characters. */
  lemma PrintAfterParse(input: string)
    requires ParseUrl(input).Some?
    ensures PrintUrl(ParseUrl(input).value) == input && WellFormed(ParseUrl(input).value)
  {
    var end := TrailStart(input);
    ParsedText(input);
    ParsedForm(input);
    TrailIs(input);
    assert input == input[..end] + input[end..];
  }

  /** The parts of a text have no characters that the text lacks. */
  lemma {:induction false} PartsWithin(s: string, c: char)
    requires c !in s
    ensures forall p | p in Split(s, '&') :: c !in p
  {
    if s != [] {
      var front := s[..|s| - 1];
      PartsWithin(front, c);
      var parts := Split(front, '&');
      assert parts[|parts| - 1] in parts;
      assert s[|s| - 1] in s;
    }
  }

  /** Reading what was written gives the same parts. */
  lemma ParseAfterPrint(u: Url)
    requires WellFormed(u)
    ensures ParseUrl(PrintUrl(u)) == Some(u)
  {
    var query := Query(u);
    var front := u.base + ['?'] + query + u.fragment;
    TrailAt(front, u.trailing);
    assert PrintUrl(u) == front + u.trailing;
    assert (front + u.trailing)[..|front|] == front && (front + u.trailing)[|front|..] == u.trailing;
    assert front == u.base + ['?'] + (query + u.fragment);
    FindAt(u.base, '?', query + u.fragment);
    assert front[..|u.base|] == u.base && front[|u.base| + 1..] == query + u.fragment;
    JoinAvoids(u.params, '&', '#');
    FragmentAt(query, u.fragment);
    SplitJoin(u.params, '&');
  }

  // ----- redaction respects the parts

  lemma RewrittenParam(param: string, policy: Policy)
    ensures var out := RewriteParam(param, policy);
            && KeyOf(out) == KeyOf(param) && IsSensitive(out) == IsSensitive(param)
            && (IsSensitive(param) ==> ValueOf(out) == Placeholder(policy, UrlSensitiveParams, ValueOf(param)))
            && (!IsSensitive(param) ==> out == param)
  {
    FindIsFirst(param, '=');
    if IsSensitive(param) {
      var key, text := KeyOf(param), Placeholder(policy, UrlSensitiveParams, ValueOf(param));
      KeyAndValue(key, text);
    }
  }

  lemma KeyAndValue(key: string, value: string)
    requires '=' !in key
    ensures KeyOf(key + ['='] + value) == key && ValueOf(key + ['='] + value) == value
  {
    FindAt(key, '=', value);
    var param := key + ['='] + value;
    assert param[..|key|] == key && param[|key| + 1..] == value;
  }

  lemma KeyWithin(param: string, c: char)
    requires c !in param
    ensures c !in KeyOf(param)
  {
  }

  lemma RewriteParamAvoids(param: string, policy: Policy, c: char)
    requires c !in param && c != '=' && !IsPlaceholderChar(c)
    ensures c !in RewriteParam(param, policy)
  {
    if IsSensitive(param) {
      KeyWithin(param, c);
      PlaceholderChars(policy, UrlSensitiveParams, ValueOf(param));
    }
  }

  lemma RewriteAllAvoids(params: seq<string>, policy: Policy, c: char)
    requires c != '=' && !IsPlaceholderChar(c)
    requires forall p | p in params :: c !in p
    ensures forall p | p in RewriteAll(params, ParamRewrite(policy)) :: c !in p
  {
    var after := RewriteAll(params, ParamRewrite(policy));
    RewriteAt(params, ParamRewrite(policy));
    forall p | p in after
      ensures c !in p
    {
      var i :| 0 <= i < |after| && after[i] == p;
      assert params[i] in params;
      RewriteParamAvoids(params[i], policy, c);
    }
  }

  lemma LastOfJoin(parts: seq<string>)
    requires parts != []
    ensures var last, joined := parts[|parts| - 1], Join(parts, '&');
            if last != "" then joined != "" && joined[|joined| - 1] == last[|last| - 1]
            else if |parts| > 1 then joined != "" && joined[|joined| - 1] == '&'
            else joined == ""
  {
  }

  predicate LastParamClean(params: seq<string>)
    requires params != []
  {
    var last := params[|params| - 1];
    last == "" || !IsTrailing(last[|last| - 1])
  }

  lemma EndsCleanIff(base: string, params: seq<string>, fragment: string)
    requires params != []
    ensures EndsClean(base + ['?'] + Join(params, '&') + fragment) <==>
              if fragment == "" then LastParamClean(params) else EndsClean(fragment)
  {
    var front := base + ['?'] + Join(params, '&') + fragment;
    LastOfJoin(params);
    if fragment != "" {
      assert front[|front| - 1] == fragment[|fragment| - 1];
    } else {
      assert front == base + ['?'] + Join(params, '&');
    }
  }

  lemma RewrittenEndsClean(param: string, policy: Policy)
    requires !policy.Keyless() && (param == "" || !IsTrailing(param[|param| - 1]))
    ensures var out := RewriteParam(param, policy); out == "" || !IsTrailing(out[|out| - 1])
  {
    PlaceholderChars(policy, UrlSensitiveParams, ValueOf(param));
  }

  lemma RewriteKeepsForm(u: Url, policy: Policy)
    requires WellFormed(u) && !policy.Keyless()
    ensures WellFormed(RewriteUrl(u, policy))
  {
    var after := RewriteAll(u.params, ParamRewrite(policy));
    RewriteAllAvoids(u.params, policy, '&');
    RewriteAllAvoids(u.params, policy, '#');
    EndsCleanIff(u.base, u.params, u.fragment);
    EndsCleanIff(u.base, after, u.fragment);
    RewriteKeepsEnd(u.params, policy);
  }

  lemma RewriteKeepsEnd(params: seq<string>, policy: Policy)
    requires params != [] && !policy.Keyless()
    ensures LastParamClean(params) ==> LastParamClean(RewriteAll(params, ParamRewrite(policy)))
  {
    RewriteAt(params, ParamRewrite(policy));
    if LastParamClean(params) {
      RewrittenEndsClean(params[|params| - 1], policy);
    }
  }

  /** Read again, the redacted URL has the same base, fragment and trailing punctuation, the same keys in the
      same order, the other parameters as they were, and the placeholder for every sensitive value. */
  lemma UrlStructureKept(input: string, policy: Policy)
    requires ParseUrl(input).Some? && !policy.Keyless()
    ensures var u := ParseUrl(input).value;
            var after := ParseUrl(PrintUrl(RewriteUrl(u, policy)));
            && after.Some? && |after.value.params| == |u.params|
            && after.value.base == u.base && after.value.fragment == u.fragment && after.value.trailing == u.trailing
            && forall i | 0 <= i < |u.params| ::
                 && KeyOf(after.value.params[i]) == KeyOf(u.params[i])
                 && (!IsSensitive(u.params[i]) ==> after.value.params[i] == u.params[i])
                 && (IsSensitive(u.params[i]) ==>
                       ValueOf(after.value.params[i]) == Placeholder(policy, UrlSensitiveParams, ValueOf(u.params[i])))
  {
    var u := ParseUrl(input).value;
    PrintAfterParse(input);
    RewriteKeepsForm(u, policy);
    ParseAfterPrint(RewriteUrl(u, policy));
    RewriteAt(u.params, ParamRewrite(policy));
    forall i | 0 <= i < |u.params|
      ensures var out := RewriteUrl(u, policy).params[i];
              && KeyOf(out) == KeyOf(u.params[i])
              && (!IsSensitive(u.params[i]) ==> out == u.params[i])
              && (IsSensitive(u.params[i]) ==>
                    ValueOf(out) == Placeholder(policy, UrlSensitiveParams, ValueOf(u.params[i])))
    {
      RewrittenParam(u.params[i], policy);
    }
  }

  /** The text of a URL after redaction, changed or not. */
  function RedactedUrl(input: string, policy: Policy): string {
    match DecideUrl(input, policy)
    case Decline => input
    case Act(_, text) => if text.Success? then text.value else ""
  }

  lemma RedactedUrlIs(input: string, policy: Policy)
    requires !policy.Keyless()
    ensures RedactedUrl(input, policy) ==
            match ParseUrl(input) case None => input case Some(u) => PrintUrl(RewriteUrl(u, policy))
  {
    if ParseUrl(input).Some? && UrlHits(ParseUrl(input).value) == 0 {
      PrintAfterParse(input);
      NoHitsNoChange(ParseUrl(input).value.params, ParamHit(), ParamRewrite(policy));
    }
  }

  /** In mask and drop mode redacting twice is redacting once, also where a parameter gained an equals sign. */
  lemma UrlIdempotent(input: string, policy: Policy)
    requires !policy.mode.Hash?
    ensures RedactedUrl(RedactedUrl(input, policy), policy) == RedactedUrl(input, policy)
  {
    RedactedUrlIs(input, policy);
    RedactedUrlIs(RedactedUrl(input, policy), policy);
    if ParseUrl(input).Some? {
      var u := ParseUrl(input).value;
      PrintAfterParse(input);
      RewriteKeepsForm(u, policy);
      ParseAfterPrint(RewriteUrl(u, policy));
      forall p | p in u.params
        ensures ParamRewrite(policy)(ParamRewrite(policy)(p)) == ParamRewrite(policy)(p)
      {
        RewrittenParam(p, policy);
        PlaceholderIgnoresSecret(policy, policy, UrlSensitiveParams, ValueOf(p), ValueOf(RewriteParam(p, policy)));
      }
      RewriteTwice(u.params, ParamRewrite(policy));
    }
  }

  /** URLs that differ only in the values of sensitive parameters. */
  ghost predicate DifferInValues(u: Url, v: Url) {
    && u.(params := []) == v.(params := []) && |u.params| == |v.params|
    && forall i | 0 <= i < |u.params| ::
         || u.params[i] == v.params[i]
         || (KeyOf(u.params[i]) == KeyOf(v.params[i]) && IsSensitiveKey(KeyOf(u.params[i])))
  }

  /** In mask and drop mode such URLs are redacted to the same text. */
  lemma UrlHidesValues(a: string, b: string, policy: Policy)
    requires !policy.mode.Hash? && ParseUrl(a).Some? && ParseUrl(b).Some?
    requires DifferInValues(ParseUrl(a).value, ParseUrl(b).value)
    ensures RedactedUrl(a, policy) == RedactedUrl(b, policy)
  {
    var u, v := ParseUrl(a).value, ParseUrl(b).value;
    RedactedUrlIs(a, policy);
    RedactedUrlIs(b, policy);
    RewriteAt(u.params, ParamRewrite(policy));
    RewriteAt(v.params, ParamRewrite(policy));
    forall i | 0 <= i < |u.params|
      ensures RewriteUrl(u, policy).params[i] == RewriteUrl(v, policy).params[i]
    {
      PlaceholderIgnoresSecret(policy, policy, UrlSensitiveParams, ValueOf(u.params[i]), ValueOf(v.params[i]));
    }
    assert RewriteUrl(u, policy).params == RewriteUrl(v, policy).params;
  }
}
