/** How many IBANs the pass replaces: a count that inserted text divides. */
module IbanCount {
  import opened Wrappers
  import opened Text
  import opened Detectors
  import opened Policy
  import opened Splicing
  import opened Parts
  import opened Iban
  import opened IbanPass
  import opened IbanRerun

  /** The IBANs that a pass from left to right takes, each with its longest span. */
  function Count(afterWord: bool, s: string): nat
    decreases |s|
  {
    if s == [] then 0
    else if StartsIban(afterWord, s) && IbanSpan(s).Some? then
      SpanInBounds(s);
      1 + Count(true, s[IbanSpan(s).value..])
    else Count(IsWord(s[0]), s[1..])
  }

  lemma {:induction false} CountLive(afterWord: bool, s: string)
    ensures Count(afterWord, s) == 0 <==> !Live(afterWord, s)
    decreases |s|
  {
    if s != [] && !(StartsIban(afterWord, s) && IbanSpan(s).Some?) {
      CountLive(IsWord(s[0]), s[1..]);
    }
  }

  // ----- the pass takes as many

  function CountAt(input: string, at: nat): nat
    requires at <= |input|
  {
    Count(AfterWord(input, at), input[at..])
  }

  lemma CountOn(input: string, at: nat)
    requires at < |input| && !BeginsIban(input, at)
    ensures CountAt(input, at) == CountAt(input, at + 1)
  {
    assert input[at..][1..] == input[at + 1..];
  }

  lemma {:induction false} CountPast(input: string, from: nat, end: nat)
    requires from <= end <= |input|
    requires forall at | from <= at < end :: !BeginsIban(input, at)
    ensures CountAt(input, from) == CountAt(input, end)
    decreases end - from
  {
    if from < end {
      CountOn(input, from);
      CountPast(input, from + 1, end);
    }
  }

  lemma CountTakes(input: string, at: nat, end: nat)
    requires BeginsIban(input, at) && end == at + IbanSpan(input[at..]).value
    ensures at + 4 <= end <= |input| && CountAt(input, at) == 1 + CountAt(input, end)
  {
    var n := IbanSpan(input[at..]).value;
    SpanInBounds(input[at..]);
    IbanSpanIsLongest(input[at..]);
    assert IsIbanPrefix(input[at..], n);
    assert input[at..][n - 1] == input[at + n - 1];
    assert input[at..][n..] == input[at + n..];
  }

  lemma NoStartInside(input: string, from: nat)
    requires IsIbanStart(input, from)
    ensures from + 4 <= |input| && forall at | from < at < from + 4 :: !IsIbanStart(input, at)
  {
    forall at | from < at < from + 4
      ensures !IsIbanStart(input, at)
    {
      assert input[from..][at - 1 - from] == input[at - 1];
    }
  }

  function MatchesFrom(input: string, from: nat): seq<Captures> { IbanMatches(input, FindStarts(input, from)) }

  lemma MatchesStep(input: string, from: nat)
    requires from < |input|
    ensures MatchesFrom(input, from) ==
            if IsIbanStart(input, from) then [IbanMatch(input, from)] + MatchesFrom(input, from + 4)
            else MatchesFrom(input, from + 1)
  {
    if IsIbanStart(input, from) {
      assert ([from] + FindStarts(input, from + 4))[1..] == FindStarts(input, from + 4);
    }
  }

  function Taken(input: string, policy: Policy, from: nat, lastEnd: nat): seq<Captures> {
    Picked(MatchesFrom(input, from), IbanDecisions(input, policy), lastEnd)
  }

  /** The first match of those from a start on. */
  lemma FirstMatch(input: string, policy: Policy, from: nat) returns (c: Captures, end: nat)
    requires IsIbanStart(input, from)
    ensures MatchesFrom(input, from) == [c] + MatchesFrom(input, from + 4) && c.Get(0) == Some(Span(from, end))
    ensures IbanDecisions(input, policy)(c).Decline? == IbanSpan(input[from..]).None?
    ensures IbanSpan(input[from..]).Some? ==> end == from + IbanSpan(input[from..]).value
  {
    c := IbanMatch(input, from);
    end := c.Get(0).value.end;
    MatchesStep(input, from);
    MatchDecided(input, policy, from);
  }

  lemma PassesOver(c: Captures, rest: seq<Captures>, decide: Captures -> Decision, lastEnd: nat, start: nat, end: nat)
    requires c.Get(0) == Some(Span(start, end)) && (start < lastEnd || decide(c).Decline?)
    ensures Picked([c] + rest, decide, lastEnd) == Picked(rest, decide, lastEnd)
  {
    assert ([c] + rest)[1..] == rest;
  }

  lemma Picks(c: Captures, rest: seq<Captures>, decide: Captures -> Decision, lastEnd: nat, start: nat, end: nat)
    requires c.Get(0) == Some(Span(start, end)) && start >= lastEnd && !decide(c).Decline?
    ensures |Picked([c] + rest, decide, lastEnd)| == 1 + |Picked(rest, decide, end)|
  {
    assert ([c] + rest)[1..] == rest;
  }

  lemma TakenPassesOver(input: string, policy: Policy, from: nat, lastEnd: nat)
    requires IsIbanStart(input, from) && (from < lastEnd || IbanSpan(input[from..]).None?)
    ensures Taken(input, policy, from, lastEnd) == Taken(input, policy, from + 4, lastEnd)
  {
    var c, end := FirstMatch(input, policy, from);
    PassesOver(c, MatchesFrom(input, from + 4), IbanDecisions(input, policy), lastEnd, from, end);
  }

  lemma TakenPicks(input: string, policy: Policy, from: nat, lastEnd: nat, end: nat)
    requires lastEnd <= from && BeginsIban(input, from) && end == from + IbanSpan(input[from..]).value
    ensures |Taken(input, policy, from, lastEnd)| == 1 + |Taken(input, policy, from + 4, end)|
  {
    var c, spanEnd := FirstMatch(input, policy, from);
    Picks(c, MatchesFrom(input, from + 4), IbanDecisions(input, policy), lastEnd, from, end);
  }

  lemma TakenNoStart(input: string, policy: Policy, from: nat, lastEnd: nat)
    requires from < |input| && !IsIbanStart(input, from)
    ensures Taken(input, policy, from, lastEnd) == Taken(input, policy, from + 1, lastEnd)
    ensures CountAt(input, from) == CountAt(input, from + 1)
  {
    MatchesStep(input, from);
    CountOn(input, from);
  }

  lemma TakenAtEnd(input: string, policy: Policy, lastEnd: nat)
    ensures Taken(input, policy, |input|, lastEnd) == [] && CountAt(input, |input|) == 0
  {
    assert input[|input|..] == [];
  }

  /** Where the count goes on: after the last match taken, and not before `from`. */
  function Later(from: nat, lastEnd: nat): nat { if from < lastEnd then lastEnd else from }

  /** From here on the pass takes as many as the count. */
  predicate Agrees(input: string, policy: Policy, from: nat, lastEnd: nat)
    requires from <= |input| && lastEnd <= |input|
  {
    |Taken(input, policy, from, lastEnd)| == CountAt(input, Later(from, lastEnd))
  }

  lemma AgreesAtEnd(input: string, policy: Policy, lastEnd: nat)
    requires lastEnd <= |input|
    ensures Agrees(input, policy, |input|, lastEnd)
  {
    TakenAtEnd(input, policy, lastEnd);
  }

  lemma AgreesNoStart(input: string, policy: Policy, from: nat, lastEnd: nat)
    requires from < |input| && lastEnd <= |input| && !IsIbanStart(input, from)
    requires Agrees(input, policy, from + 1, lastEnd)
    ensures Agrees(input, policy, from, lastEnd)
  {
    TakenNoStart(input, policy, from, lastEnd);
  }

  lemma AgreesPassedOver(input: string, policy: Policy, from: nat, lastEnd: nat)
    requires lastEnd <= |input| && IsIbanStart(input, from) && from + 4 <= |input|
    requires from < lastEnd || IbanSpan(input[from..]).None?
    requires Agrees(input, policy, from + 4, lastEnd)
    ensures Agrees(input, policy, from, lastEnd)
  {
    TakenPassesOver(input, policy, from, lastEnd);
    NoStartInside(input, from);
    if Later(from, lastEnd) < from + 4 {
      CountPast(input, Later(from, lastEnd), from + 4);
    }
  }

  lemma AgreesWithOneMore(input: string, policy: Policy, from: nat, lastEnd: nat, end: nat)
    requires lastEnd <= from && from + 4 <= end <= |input| && Agrees(input, policy, from + 4, end)
    requires |Taken(input, policy, from, lastEnd)| == 1 + |Taken(input, policy, from + 4, end)|
    requires CountAt(input, from) == 1 + CountAt(input, end)
    ensures Agrees(input, policy, from, lastEnd)
  {
  }

  lemma {:induction false} TakenCount(input: string, policy: Policy, from: nat, lastEnd: nat)
    requires from <= |input| && lastEnd <= |input|
    ensures Agrees(input, policy, from, lastEnd)
    decreases |input| - from
  {
    if from == |input| {
      AgreesAtEnd(input, policy, lastEnd);
    } else if !IsIbanStart(input, from) {
      TakenCount(input, policy, from + 1, lastEnd);
      AgreesNoStart(input, policy, from, lastEnd);
    } else if from < lastEnd || IbanSpan(input[from..]).None? {
      TakenCount(input, policy, from + 4, lastEnd);
      AgreesPassedOver(input, policy, from, lastEnd);
    } else {
      var end := from + IbanSpan(input[from..]).value;
      CountTakes(input, from, end);
      TakenPicks(input, policy, from, lastEnd, end);
      TakenCount(input, policy, from + 4, end);
      AgreesWithOneMore(input, policy, from, lastEnd, end);
    }
  }

  lemma {:induction false} RepeatFront(kind: DetectorKind, n: nat)
    ensures [kind] + Repeat(kind, n) == Repeat(kind, n + 1)
  {
    if n > 0 {
      RepeatFront(kind, n - 1);
      ConcatThree([kind], Repeat(kind, n - 1), [kind]);
    }
  }

  lemma {:induction false} KindsRepeat(picked: seq<Captures>, decide: Captures -> Decision, kind: DetectorKind)
    requires forall c | c in picked :: decide(c).Act? && decide(c).kinds == [kind]
    ensures Kinds(picked, decide) == Repeat(kind, |picked|)
  {
    if picked != [] {
      KindsRepeat(picked[1..], decide, kind);
      RepeatFront(kind, |picked| - 1);
    }
  }

  /** The pass records one IBAN for each that the count takes. */
  lemma PassCounts(input: string, policy: Policy)
    ensures PassOver(input, StageMatches(input), IbanDecisions(input, policy)).events ==
            Repeat(DetectorKind.Iban, Count(false, input))
  {
    var matches, decide := StageMatches(input), IbanDecisions(input, policy);
    PickedOrdered(matches, decide, 0, |input|);
    KindsRepeat(Picked(matches, decide, 0), decide, DetectorKind.Iban);
    TakenCount(input, policy, 0, 0);
    assert input[0..] == input;
  }

  // ----- inserted text divides the count

  lemma {:induction false} CountAcrossBreak(afterWord: bool, g: string, c: char, rest: string)
    requires Breaks(c)
    ensures Count(afterWord, g + [c] + rest) == Count(afterWord, g) + Count(false, rest)
    decreases |g|
  {
    var s := g + [c] + rest;
    if g == [] {
      assert s[0] == c && s[1..] == rest;
    } else {
      SpanStopsAtBreak(g, c, rest);
      StartsBeforeBreak(afterWord, g, c, rest);
      if StartsIban(afterWord, g) && IbanSpan(g).Some? {
        var n := IbanSpan(g).value;
        SpanInBounds(g);
        CountAcrossBreak(true, g[n..], c, rest);
        assert s[n..] == g[n..] + [c] + rest;
      } else {
        CountAcrossBreak(IsWord(g[0]), g[1..], c, rest);
        assert s[1..] == g[1..] + [c] + rest;
      }
    }
  }

  lemma NoDigitsNoCount(s: string)
    requires forall c | c in s :: !IsDigit(c)
    ensures Count(false, s) == 0
  {
    NoDigitsNotLive(false, s);
    CountLive(false, s);
  }

  /** A word in brackets, with a colon after its first part. */
  lemma CountAcrossWords(g: string, word: string, name: string, rest: string)
    requires forall c | c in word :: !IsDigit(c)
    requires forall c | c in name :: !IsDigit(c)
    ensures Count(false, g + ['['] + (word + [':'] + (name + [']'] + rest))) == Count(false, g) + Count(false, rest)
  {
    CountAcrossBreak(false, g, '[', word + [':'] + (name + [']'] + rest));
    CountAcrossBreak(false, word, ':', name + [']'] + rest);
    CountAcrossBreak(false, name, ']', rest);
    NoDigitsNoCount(word);
    NoDigitsNoCount(name);
  }

  /** The same with a digest after a second colon. */
  lemma CountAcrossDigest(g: string, word: string, name: string, hex: string, rest: string)
    requires forall c | c in word :: !IsDigit(c)
    requires forall c | c in name :: !IsDigit(c)
    ensures Count(false, g + ['['] + (word + [':'] + (name + [':'] + (hex + [']'] + rest)))) ==
            Count(false, g) + Count(false, hex) + Count(false, rest)
  {
    var afterName := hex + [']'] + rest;
    CountAcrossBreak(false, hex, ']', rest);
    CountAcrossBreak(false, name, ':', afterName);
    CountAcrossBreak(false, word, ':', name + [':'] + afterName);
    CountAcrossBreak(false, g, '[', word + [':'] + (name + [':'] + afterName));
    NoDigitsNoCount(word);
    NoDigitsNoCount(name);
  }

  lemma RegroupWords(g: string, word: string, name: string, rest: string)
    ensures g + ("[" + word + ":" + (name + "]")) + rest == g + ['['] + (word + [':'] + (name + [']'] + rest))
  {
  }

  lemma RegroupDigest(g: string, word: string, name: string, hex: string, rest: string)
    ensures g + ("[" + word + ":" + (name + (":" + (hex + "]")))) + rest ==
            g + ['['] + (word + [':'] + (name + [':'] + (hex + [']'] + rest)))
  {
  }

  function ModeWord(mode: Mode): string {
    match mode
    case Mask => "REDACTED"
    case Drop => "DROPPED"
    case Hash => "HASHED"
  }

  lemma HeadIs(mode: Mode)
    ensures Head(mode) == "[" + ModeWord(mode) + ":"
  {
  }

  lemma NoDigitsInName(kind: DetectorKind)
    ensures forall c | c in AsStr(kind) :: !IsDigit(c)
  {
  }

  lemma NoDigitsInWord(mode: Mode)
    ensures forall c | c in ModeWord(mode) :: !IsDigit(c)
  {
  }

  lemma {:induction false} WordHasNone(s: string)
    requires forall c | c in s :: IsWord(c)
    ensures Count(true, s) == 0
    decreases s
  {
    if s != [] {
      assert s[0] in s;
      WordHasNone(s[1..]);
    }
  }

  /** In one long word an IBAN can begin at the front only. */
  lemma WordCount(s: string)
    requires forall c | c in s :: IsWord(c)
    ensures Count(false, s) == if Exposed(s) then 1 else 0
  {
    if s != [] {
      assert s[0] in s;
      if Exposed(s) {
        SpanInBounds(s);
        WordHasNone(s[IbanSpan(s).value..]);
      } else {
        WordHasNone(s[1..]);
      }
    }
  }

  /** A policy prints a digest for the secret, and the digest begins with an IBAN. */
  predicate PrintsIban(p: Policy, secret: string) {
    p.mode.Hash? && p.key.Some? && Exposed(HexOf(p.hmac(p.key.value, secret)))
  }

  function PrintedIbans(p: Policy, secret: string): nat { if PrintsIban(p, secret) then 1 else 0 }

  lemma DigestCount(p: Policy, secret: string)
    requires p.mode.Hash? && p.key.Some?
    ensures Count(false, HexOf(p.hmac(p.key.value, secret))) == PrintedIbans(p, secret)
  {
    HexChars(p.hmac(p.key.value, secret));
    WordCount(HexOf(p.hmac(p.key.value, secret)));
  }

  /** The text inserted for a secret keeps what is before it and what is after it apart, and adds an IBAN exactly when
      its digest begins with one. */
  lemma CountAcrossInserted(p: Policy, g: string, kind: DetectorKind, secret: string, rest: string)
    requires !p.Keyless()
    ensures Count(false, g + Placeholder(p, kind, secret) + rest) ==
            Count(false, g) + PrintedIbans(p, secret) + Count(false, rest)
  {
    var word, name := ModeWord(p.mode), AsStr(kind);
    PlaceholderIs(p, kind, secret);
    HeadIs(p.mode);
    NoDigitsInName(kind);
    NoDigitsInWord(p.mode);
    if p.mode.Hash? {
      var hex := HexOf(p.hmac(p.key.value, secret));
      DigestCount(p, secret);
      RegroupDigest(g, word, name, hex, rest);
      CountAcrossDigest(g, word, name, hex, rest);
    } else {
      RegroupWords(g, word, name, rest);
      CountAcrossWords(g, word, name, rest);
    }
  }
}
