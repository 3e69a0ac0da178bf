/** `redact_cookie_body`: the values of `name=value` parts separated by semicolons. */
module CookieBody {
  import opened Wrappers
  import opened Text
  import opened Detectors
  import opened Policy
  import opened Stats
  import opened Splicing
  import opened Parts

  /** A part with an equals sign and a value that is not blank. */
  predicate IsHit(part: string) {
    var eq := Find(part, '=');
    eq.Some? && !IsBlank(part[eq.value + 1..])
  }

  function RewritePart(part: string, policy: Policy): string {
    if IsHit(part) then
      var eq := Find(part, '=').value;
      part[..eq + 1] + Placeholder(policy, Cookie, Trim(part[eq + 1..]))
    else part
  }

  function CookieHit(): string -> bool { part => IsHit(part) }

  function CookieRewrite(policy: Policy): string -> string { part => RewritePart(part, policy) }

  function CookieHits(body: string): nat { Hits(Split(body, ';'), CookieHit()) }

  function RewrittenParts(body: string, policy: Policy): (parts: seq<string>)
    ensures |parts| == |Split(body, ';')|
  {
    RewriteAll(Split(body, ';'), CookieRewrite(policy))
  }

  function RewrittenBody(body: string, policy: Policy): string { Join(RewrittenParts(body, policy), ';') }

  /** What becomes of a cookie body. */
  function DecideCookie(body: string, policy: Policy): Decision {
    var hits := CookieHits(body);
    if hits == 0 then Decline
    else Act(Repeat(Cookie, hits),
             if policy.Keyless() then Failure(MissingHashKey(policy.hashEnv)) else Success(RewrittenBody(body, policy)))
  }

  ghost predicate CookieTurn(body: string, policy: Policy, done: nat -> string, count: nat -> nat, i: nat) {
    i < |Split(body, ';')| ==>
      var part := Split(body, ';')[i];
      Turn(i, ';', done, count, CookieHits(body), IsHit(part), RewritePart(part, policy))
  }

  lemma CookieRun(body: string, policy: Policy) returns (done: nat -> string, count: nat -> nat)
    ensures done(0) == "" && count(0) == 0
    ensures done(|Split(body, ';')|) == RewrittenBody(body, policy) && count(|Split(body, ';')|) == CookieHits(body)
    ensures forall i: nat :: CookieTurn(body, policy, done, count, i)
  {
    var parts := Split(body, ';');
    done, count := Run(parts, ';', CookieHit(), CookieRewrite(policy));
    forall i: nat
      ensures CookieTurn(body, policy, done, count, i)
    {
      assert Turns(parts, ';', CookieHit(), CookieRewrite(policy), done, count, i);
    }
  }

  lemma CookieTurnTaken(body: string, policy: Policy, done: nat -> string, count: nat -> nat, i: nat)
    requires CookieTurn(body, policy, done, count, i) && i < |Split(body, ';')|
    ensures var part, sep := Split(body, ';')[i], if i > 0 then [';'] else [];
            var eq := Find(part, '=');
            && count(i) <= CookieHits(body)
            && (eq.None? || IsBlank(part[eq.value + 1..]) ==>
                  done(i + 1) == done(i) + sep + part && count(i + 1) == count(i))
            && (eq.Some? && !IsBlank(part[eq.value + 1..]) ==>
                  && done(i + 1) ==
                     done(i) + sep + part[..eq.value + 1] + Placeholder(policy, Cookie, Trim(part[eq.value + 1..]))
                  && count(i + 1) == count(i) + 1 <= CookieHits(body))
  {
    var part, sep := Split(body, ';')[i], if i > 0 then [';'] else [];
    var eq := Find(part, '=');
    if IsHit(part) {
      ConcatThree(done(i) + sep, part[..eq.value + 1], Placeholder(policy, Cookie, Trim(part[eq.value + 1..])));
    }
  }

  method RedactCookieBody(body: string, policy: Policy, stats: ScanReport)
    returns (r: Result<Option<string>, Error>)
    modifies stats
    ensures match DecideCookie(body, policy)
            case Decline => r == Success(None) && stats.View() == old(stats.View())
            case Act(kinds, text) =>
              && (r.Failure? <==> text.Failure?)
              && (r.Success? ==> r.value == Some(text.value) && stats.View() == RecordedAll(old(stats.View()), kinds))
  {
    var output := "";
    var changed := false;
    var parts := Split(body, ';');
    ghost var done, count := CookieRun(body, policy);
    ghost var recorded: seq<DetectorKind> := [];
    for index := 0 to |parts|
      invariant output == done(index)
      invariant changed <==> count(index) > 0
      invariant changed ==> !policy.Keyless()
      invariant recorded == Repeat(Cookie, count(index))
      invariant stats.View() == RecordedAll(old(stats.View()), recorded)
    {
      var part := parts[index];
      CookieTurnTaken(body, policy, done, count, index);
      if index > 0 {
        output := output + [';'];
      }
      var eqIndex := Find(part, '=');
      if eqIndex.None? {
        output := output + part;
        continue;
      }
      var nameAndEq, value := part[..eqIndex.value + 1], part[eqIndex.value + 1..];
      if IsBlank(value) {
        output := output + part;
        continue;
      }
      stats.Record(Cookie);
      RecordOneMore(old(stats.View()), recorded, Cookie);
      recorded := recorded + [Cookie];
      var replacement := policy.Replacement(Cookie, Trim(value));
      if replacement.Failure? {
        return Failure(replacement.error);
      }
      output := output + nameAndEq;
      output := output + replacement.value;
      changed := true;
    }
    if changed {
      r := Success(Some(output));
    } else {
      r := Success(None);
    }
  }

  // ----- what the rewriting preserves

  /** The name and equals sign of a part, or the whole part if it has none. */
  function NamePart(part: string): string {
    var eq := Find(part, '=');
    if eq.None? then part else part[..eq.value + 1]
  }

  lemma PlaceholderAvoids(policy: Policy, kind: DetectorKind, secret: string, c: char)
    requires !IsPlaceholderChar(c)
    ensures c !in Placeholder(policy, kind, secret)
  {
    PlaceholderChars(policy, kind, secret);
  }

  lemma {:induction false} NotTrimmedAway(s: string, i: nat)
    requires i < |s| && !IsTrimmed(s[i])
    ensures TrimEnd(s) != []
  {
    if IsTrimmed(s[|s| - 1]) {
      NotTrimmedAway(s[..|s| - 1], i);
    }
  }

  lemma NotBlank(s: string)
    requires s != [] && !IsTrimmed(s[0])
    ensures !IsBlank(s)
  {
    NotTrimmedAway(s, 0);
  }

  /** The value of a part that has an equals sign. */
  function ValuePart(part: string): string {
    var eq := Find(part, '=');
    if eq.None? then "" else part[eq.value + 1..]
  }

  lemma NameAndValue(name: string, value: string)
    requires '=' !in name && !IsBlank(value)
    ensures var part := name + ['='] + value;
            IsHit(part) && NamePart(part) == name + ['='] && ValuePart(part) == value
  {
    FindAt(name, '=', value);
    var part := name + ['='] + value;
    assert part[..|name| + 1] == name + ['='] && part[|name| + 1..] == value;
  }

  lemma PlaceholderIsNotBlank(policy: Policy, secret: string)
    requires !policy.Keyless()
    ensures !IsBlank(Placeholder(policy, Cookie, secret))
  {
    PlaceholderChars(policy, Cookie, secret);
    NotBlank(Placeholder(policy, Cookie, secret));
  }

  lemma RewrittenPart(part: string, policy: Policy)
    requires IsHit(part) && !policy.Keyless()
    ensures var out := RewritePart(part, policy);
            && IsHit(out) && NamePart(out) == NamePart(part)
            && out == NamePart(part) + Placeholder(policy, Cookie, Trim(ValuePart(part)))
  {
    var i := Find(part, '=').value;
    FindIsFirst(part, '=');
    assert part[..i + 1] == part[..i] + ['='];
    PlaceholderIsNotBlank(policy, Trim(ValuePart(part)));
    NameAndValue(part[..i], Placeholder(policy, Cookie, Trim(ValuePart(part))));
  }

  lemma PartsAvoidSemicolon(body: string, policy: Policy)
    ensures forall part | part in RewrittenParts(body, policy) :: ';' !in part
  {
    var parts := Split(body, ';');
    SplitAvoids(body, ';');
    RewriteAt(parts, CookieRewrite(policy));
    forall part | part in RewrittenParts(body, policy)
      ensures ';' !in part
    {
      var i :| 0 <= i < |parts| && part == RewrittenParts(body, policy)[i];
      assert parts[i] in parts;
      RewriteAvoidsSemicolon(parts[i], policy);
    }
  }

  lemma RewriteAvoidsSemicolon(part: string, policy: Policy)
    requires ';' !in part
    ensures ';' !in RewritePart(part, policy)
  {
    if IsHit(part) {
      PlaceholderAvoids(policy, Cookie, Trim(part[Find(part, '=').value + 1..]), ';');
    }
  }

  /** Split again, the rewritten body has as many parts, in order: names stay, what is not a hit stays
      whole, and every other value has become the placeholder. */
  lemma CookieStructureKept(body: string, policy: Policy)
    requires !policy.Keyless()
    ensures var parts, after := Split(body, ';'), Split(RewrittenBody(body, policy), ';');
            |after| == |parts| && forall i | 0 <= i < |parts| ::
              && NamePart(after[i]) == NamePart(parts[i])
              && IsHit(after[i]) == IsHit(parts[i])
              && after[i] == if IsHit(parts[i])
                             then NamePart(parts[i]) + Placeholder(policy, Cookie, Trim(ValuePart(parts[i])))
                             else parts[i]
  {
    var parts := Split(body, ';');
    PartsAvoidSemicolon(body, policy);
    SplitJoin(RewrittenParts(body, policy), ';');
    RewriteAt(parts, CookieRewrite(policy));
    forall i | 0 <= i < |parts|
      ensures RewrittenParts(body, policy)[i] == RewritePart(parts[i], policy)
      ensures IsHit(parts[i]) ==>
                var out := RewritePart(parts[i], policy);
                && IsHit(out) && NamePart(out) == NamePart(parts[i])
                && out == NamePart(parts[i]) + Placeholder(policy, Cookie, Trim(ValuePart(parts[i])))
    {
      if IsHit(parts[i]) {
        RewrittenPart(parts[i], policy);
      }
    }
  }

  /** In mask and drop mode a body redacted once is redacted for good. */
  lemma CookieIdempotent(body: string, policy: Policy)
    requires !policy.mode.Hash?
    ensures RewrittenBody(RewrittenBody(body, policy), policy) == RewrittenBody(body, policy)
    ensures CookieHits(RewrittenBody(body, policy)) == CookieHits(body)
  {
    var parts := Split(body, ';');
    PartsAvoidSemicolon(body, policy);
    SplitJoin(RewrittenParts(body, policy), ';');
    forall part | part in parts
      ensures CookieRewrite(policy)(CookieRewrite(policy)(part)) == CookieRewrite(policy)(part)
      ensures CookieHit()(CookieRewrite(policy)(part)) == CookieHit()(part)
    {
      if IsHit(part) {
        RewrittenPart(part, policy);
        RewrittenPart(RewritePart(part, policy), policy);
        PlaceholderIgnoresSecret(policy, policy, Cookie, Trim(ValuePart(part)),
                                 Trim(ValuePart(RewritePart(part, policy))));
      }
    }
    RewriteTwice(parts, CookieRewrite(policy));
    SameHitsAfter(parts, CookieHit(), CookieRewrite(policy));
  }

  /** Bodies that differ only in values that are redacted. */
  ghost predicate DifferInValues(a: string, b: string) {
    var p, q := Split(a, ';'), Split(b, ';');
    |p| == |q| && forall i | 0 <= i < |p| ::
      p[i] == q[i] || (IsHit(p[i]) && IsHit(q[i]) && NamePart(p[i]) == NamePart(q[i]))
  }

  /** In mask and drop mode the output is the same whatever the values are. */
  lemma CookieHidesValues(a: string, b: string, policy: Policy)
    requires !policy.mode.Hash? && DifferInValues(a, b)
    ensures RewrittenBody(a, policy) == RewrittenBody(b, policy)
  {
    var p, q := Split(a, ';'), Split(b, ';');
    RewriteAt(p, CookieRewrite(policy));
    RewriteAt(q, CookieRewrite(policy));
    forall i | 0 <= i < |p|
      ensures RewrittenParts(a, policy)[i] == RewrittenParts(b, policy)[i]
    {
      if p[i] != q[i] {
        RewrittenPart(p[i], policy);
        RewrittenPart(q[i], policy);
        PlaceholderIgnoresSecret(policy, policy, Cookie, Trim(ValuePart(p[i])), Trim(ValuePart(q[i])));
      }
    }
    assert RewrittenParts(a, policy) == RewrittenParts(b, policy);
  }
}
