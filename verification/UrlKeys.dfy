/** Which parameters of a URL are redacted, and what the URL becomes. */
module UrlKeys {
  import opened Wrappers
  import opened Text
  import opened Detectors
  import opened Policy
  import opened Fields
  import opened Splicing
  import opened Parts
  import opened SensitiveUrl
  import opened Spelling
  import opened UrlLaws
  import opened Pipeline
  import opened StageLaws

  // ----- keys

  ghost predicate EndsIn(s: string, word: string) { exists before :: s == before + word }

  /** The key without punctuation and in lower case ends in one of six words. */
  ghost predicate IsSecretKey(key: string) {
    var name := NormalizeFieldName(key);
    || EndsIn(name, "token") || EndsIn(name, "key") || EndsIn(name, "secret")
    || EndsIn(name, "password") || EndsIn(name, "code") || EndsIn(name, "session")
  }

  predicate IsSecretWord(word: string) { word in {"token", "key", "secret", "password", "code", "session"} }

  lemma EndsInIff(s: string, word: string)
    ensures EndsWith(s, word) <==> EndsIn(s, word)
  {
    if EndsWith(s, word) {
      assert s == s[..|s| - |word|] + word;
    }
    if EndsIn(s, word) {
      var before :| s == before + word;
      assert s[|s| - |word|..] == word;
    }
  }

  lemma Itself(word: string)
    ensures EndsIn(word, word)
  {
    assert word == "" + word;
  }

  lemma SecretKeyIff(key: string)
    ensures IsSensitiveKey(key) <==> IsSecretKey(key)
  {
    var name := NormalizeFieldName(key);
    EndsInIff(name, "token");
    EndsInIff(name, "key");
    EndsInIff(name, "secret");
    EndsInIff(name, "password");
    EndsInIff(name, "code");
    EndsInIff(name, "session");
    Itself(name);
  }

  /** A key that ends in one of the words, in any spelling, is secret, whatever stands before it. */
  lemma SpelledKeyIsSecret(before: string, spelled: string, word: string)
    requires IsSecretWord(word) && Spells(spelled, word)
    ensures IsSecretKey(before + spelled)
  {
    SpellsIff(spelled, word);
    NormalizeConcat(before, spelled);
    assert EndsIn(NormalizeFieldName(before + spelled), word);
  }

  // ----- parameters

  /** A key, and what follows its equals sign if it has one. */
  datatype Param = Param(key: string, value: Option<string>)

  function TextOf(param: Param): string {
    if param.value.Some? then param.key + ['='] + param.value.value else param.key
  }

  /** What becomes of a parameter. */
  ghost function Hidden(p: Policy, param: Param): string {
    if !IsSecretKey(param.key) then TextOf(param)
    else
      var value := if param.value.Some? then param.value.value else "";
      param.key + ['='] + Placeholder(p, UrlSensitiveParams, value)
  }

  function AllTexts(params: seq<Param>): (texts: seq<string>)
    ensures |texts| == |params|
  {
    if params == [] then [] else AllTexts(params[..|params| - 1]) + [TextOf(params[|params| - 1])]
  }

  ghost function AllHidden(p: Policy, params: seq<Param>): (texts: seq<string>)
    ensures |texts| == |params|
  {
    if params == [] then [] else AllHidden(p, params[..|params| - 1]) + [Hidden(p, params[|params| - 1])]
  }

  /** How many of the keys are secret. */
  ghost function Secrets(params: seq<Param>): nat {
    if params == [] then 0
    else Secrets(params[..|params| - 1]) + if IsSecretKey(params[|params| - 1].key) then 1 else 0
  }

  predicate IsParam(param: Param) {
    && '=' !in param.key && '&' !in param.key && '#' !in param.key
    && (param.value.Some? ==> '&' !in param.value.value && '#' !in param.value.value)
  }

  lemma ParamIs(p: Policy, param: Param)
    requires IsParam(param)
    ensures IsSensitive(TextOf(param)) <==> IsSecretKey(param.key)
    ensures RewriteParam(TextOf(param), p) == Hidden(p, param)
  {
    SecretKeyIff(param.key);
    if param.value.Some? {
      KeyAndValue(param.key, param.value.value);
    } else {
      FindIsFirst(param.key, '=');
    }
  }

  lemma {:induction false} ParamsAre(p: Policy, params: seq<Param>)
    requires forall param | param in params :: IsParam(param)
    ensures RewriteAll(AllTexts(params), ParamRewrite(p)) == AllHidden(p, params)
    ensures Hits(AllTexts(params), ParamHit()) == Secrets(params)
    ensures forall text | text in AllTexts(params) :: '&' !in text && '#' !in text
  {
    if params != [] {
      var n := |params| - 1;
      assert params[n] in params;
      ParamsAre(p, params[..n]);
      ParamIs(p, params[n]);
      assert AllTexts(params)[..n] == AllTexts(params[..n]);
    }
  }

  lemma {:induction false} NoneSecret(params: seq<Param>)
    ensures Secrets(params) == 0 <==> forall param | param in params :: !IsSecretKey(param.key)
  {
    if params != [] {
      var n := |params| - 1;
      NoneSecret(params[..n]);
      assert forall param :: param in params <==> param in params[..n] || param == params[n];
    }
  }

  // ----- URLs

  predicate IsMark(c: char) { c == '.' || c == ',' || c == ';' || c == '!' }

  function UrlFront(base: string, texts: seq<string>, fragment: string): string {
    base + ['?'] + Join(texts, '&') + fragment
  }

  /** The parts of a URL with a query: base, parameters, fragment and punctuation after it. */
  predicate AreParts(base: string, params: seq<Param>, fragment: string, marks: string) {
    var front := UrlFront(base, AllTexts(params), fragment);
    && '?' !in base && params != [] && (forall param | param in params :: IsParam(param))
    && (fragment == "" || fragment[0] == '#') && (forall c | c in marks :: IsMark(c))
    && !IsMark(front[|front| - 1])
  }

  lemma PartsAreUrl(p: Policy, base: string, params: seq<Param>, fragment: string, marks: string)
    requires AreParts(base, params, fragment, marks)
    ensures ParseUrl(UrlFront(base, AllTexts(params), fragment) + marks) ==
            Some(Url(base, AllTexts(params), fragment, marks))
  {
    ParamsAre(p, params);
    ParseAfterPrint(Url(base, AllTexts(params), fragment, marks));
  }

  /** A URL is acted on exactly when it has a secret key; then each of these keeps its key and has the placeholder for
      its value, with one record for each, and all else stays. */
  lemma SecretsRedacted(p: Policy, base: string, params: seq<Param>, fragment: string, marks: string)
    requires AreParts(base, params, fragment, marks)
    ensures DecideUrl(UrlFront(base, AllTexts(params), fragment) + marks, p) ==
            if Secrets(params) == 0 then Decline
            else Act(Repeat(UrlSensitiveParams, Secrets(params)),
                     if p.Keyless() then Failure(MissingHashKey(p.hashEnv))
                     else Success(UrlFront(base, AllHidden(p, params), fragment) + marks))
    ensures Secrets(params) == 0 <==> forall param | param in params :: !IsSecretKey(param.key)
  {
    NoneSecret(params);
    PartsAreUrl(p, base, params, fragment, marks);
    ParamsAre(p, params);
    UrlDecision(UrlFront(base, AllTexts(params), fragment) + marks, p, base, AllTexts(params), fragment, marks);
  }

  /** A text without a question mark is no URL with a query. */
  lemma NoQueryLeft(p: Policy, input: string)
    requires '?' !in input
    ensures DecideUrl(input, p).Decline?
  {
    FindIsFirst(input[..TrailStart(input)], '?');
  }

  // ----- values

  /** The same parameters, but for the values of secret keys. */
  ghost predicate SameButSecrets(a: seq<Param>, b: seq<Param>) {
    |a| == |b| && forall i | 0 <= i < |a| :: a[i] == b[i] || (a[i].key == b[i].key && IsSecretKey(a[i].key))
  }

  lemma {:induction false} SecretsDoNotShow(p: Policy, a: seq<Param>, b: seq<Param>)
    requires !p.mode.Hash? && SameButSecrets(a, b)
    ensures AllHidden(p, a) == AllHidden(p, b) && Secrets(a) == Secrets(b)
  {
    if a != [] {
      var n := |a| - 1;
      SecretsDoNotShow(p, a[..n], b[..n]);
      if a[n] != b[n] {
        PlaceholderIgnoresSecret(p, p, UrlSensitiveParams, if a[n].value.Some? then a[n].value.value else "",
                                 if b[n].value.Some? then b[n].value.value else "");
      }
    }
  }

  /** In mask and drop mode what a URL becomes does not depend on the values of its secret keys. */
  lemma SecretValuesHidden(p: Policy, base: string, a: seq<Param>, b: seq<Param>, fragment: string, marks: string)
    requires !p.mode.Hash? && SameButSecrets(a, b)
    requires AreParts(base, a, fragment, marks) && AreParts(base, b, fragment, marks)
    ensures var d, e := DecideUrl(UrlFront(base, AllTexts(a), fragment) + marks, p),
                DecideUrl(UrlFront(base, AllTexts(b), fragment) + marks, p);
            d == e && (Secrets(a) > 0 ==> d.Act?)
  {
    SecretsRedacted(p, base, a, fragment, marks);
    SecretsRedacted(p, base, b, fragment, marks);
    SecretsDoNotShow(p, a, b);
  }

  // ----- the stage

  lemma UrlStageActs(engine: Engine, stage: Stage, p: Policy, before: string, url: string, after: string,
                     kinds: seq<DetectorKind>, text: string)
    requires stage.SensitiveUrlParams? && DecideUrl(url, p) == Act(kinds, Success(text))
    requires engine.patterns.url(before + url + after) == [Placed(before, url)]
    ensures Yields(engine, stage, p, before + url + after, before + text + after, kinds)
  {
    var input, c := before + url + after, Placed(before, url);
    MatcherIs(engine, stage, input);
    HasOneIf(engine, stage, input, c, [c]);
    PlacedGroup(before, url, after);
    assert Acts(engine, stage, p, input, c, kinds, text);
    OneMatchActs(engine, stage, p, before, url, after, c, kinds, text);
  }

  /** The stage does that to a URL that its regex matches, and copies what is around it. */
  lemma MatchedUrlRedacted(engine: Engine, stage: Stage, p: Policy, before: string, base: string, params: seq<Param>,
                           fragment: string, marks: string, after: string)
    requires stage.SensitiveUrlParams? && !p.Keyless() && AreParts(base, params, fragment, marks)
    requires Secrets(params) > 0
    requires var url := UrlFront(base, AllTexts(params), fragment) + marks;
             engine.patterns.url(before + url + after) == [Placed(before, url)]
    ensures Yields(engine, stage, p, before + (UrlFront(base, AllTexts(params), fragment) + marks) + after,
                   before + (UrlFront(base, AllHidden(p, params), fragment) + marks) + after,
                   Repeat(UrlSensitiveParams, Secrets(params)))
  {
    SecretsRedacted(p, base, params, fragment, marks);
    UrlStageActs(engine, stage, p, before, UrlFront(base, AllTexts(params), fragment) + marks, after,
                 Repeat(UrlSensitiveParams, Secrets(params)), UrlFront(base, AllHidden(p, params), fragment) + marks);
  }
}
