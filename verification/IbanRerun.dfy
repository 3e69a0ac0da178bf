/** What the IBAN pass finds, and what a second pass over its own output does. */
module IbanRerun {
  import opened Wrappers
  import opened Text
  import opened Detectors
  import opened Policy
  import opened Splicing
  import opened Iban
  import opened IbanPass

  /** An IBAN begins at `at` and would be redacted there. */
  predicate BeginsIban(input: string, at: nat) {
    IsIbanStart(input, at) && IbanSpan(input[at..]).Some?
  }

  function Chosen(input: string, policy: Policy): seq<Captures> {
    Picked(StageMatches(input), IbanDecisions(input, policy), 0)
  }

  function ChosenEdits(input: string, policy: Policy): (edits: seq<Edit>)
    ensures Ordered(edits, 0, |input|)
  {
    PickedOrdered(StageMatches(input), IbanDecisions(input, policy), 0, |input|);
    Edits(Chosen(input, policy), IbanDecisions(input, policy))
  }

  lemma {:induction false} CandidatesAscend(input: string, from: nat)
    ensures forall i, j | 0 <= i < j < |FindStarts(input, from)| ::
              FindStarts(input, from)[i] < FindStarts(input, from)[j]
    ensures forall i | 0 <= i < |FindStarts(input, from)| :: from <= FindStarts(input, from)[i]
    decreases |input| - from
  {
    if from < |input| {
      CandidatesAscend(input, if IsIbanStart(input, from) then from + 4 else from + 1);
    }
  }

  lemma {:induction false} EditsFollowPicks(picked: seq<Captures>, decide: Captures -> Decision)
    requires forall c | c in picked :: c.Get(0).Some?
    ensures |Edits(picked, decide)| == |picked|
    ensures forall i | 0 <= i < |picked| ::
              Edits(picked, decide)[i] ==
              Edit(picked[i].Get(0).value.start, picked[i].Get(0).value.end, decide(picked[i]).Text())
  {
    if picked != [] {
      EditsFollowPicks(picked[1..], decide);
    }
  }

  /** From a candidate start to the end of the longest IBAN there, replaced by the policy's text. */
  predicate IsIbanEdit(input: string, policy: Policy, e: Edit) {
    && e.start + 15 <= e.end <= |input| && IsIbanStart(input, e.start)
    && IbanSpan(input[e.start..]) == Some(e.end - e.start)
    && e.text == Placeholder(policy, DetectorKind.Iban, NormalizeIban(input[e.start..e.end]))
  }

  /** Sound: what is replaced is, in order and without overlap, the longest IBAN at a candidate start. */
  lemma ChosenAreIbans(input: string, policy: Policy)
    ensures Ordered(ChosenEdits(input, policy), 0, |input|)
    ensures forall e | e in ChosenEdits(input, policy) :: IsIbanEdit(input, policy, e)
  {
    var edits := ChosenEdits(input, policy);
    forall e | e in edits
      ensures IsIbanEdit(input, policy, e)
    {
      var k :| 0 <= k < |edits| && e == edits[k];
      ChosenIsIban(input, policy, k);
    }
  }

  lemma ChosenIsIban(input: string, policy: Policy, k: nat)
    requires k < |ChosenEdits(input, policy)|
    ensures IsIbanEdit(input, policy, ChosenEdits(input, policy)[k])
  {
    var matches, decide := StageMatches(input), IbanDecisions(input, policy);
    var picked := Chosen(input, policy);
    PickedOrdered(matches, decide, 0, |input|);
    EditsFollowPicks(picked, decide);
    assert picked[k] in picked;
    var i :| 0 <= i < |matches| && picked[k] == matches[i];
    CandidateDecided(input, policy, i);
    FindsEveryStart(input, 0);
    assert FindStarts(input, 0)[i] in FindStarts(input, 0);
    DecidedEdit(input, policy, FindStarts(input, 0)[i], picked[k], decide(picked[k]), ChosenEdits(input, policy)[k]);
  }

  lemma DecidedEdit(input: string, policy: Policy, start: nat, c: Captures, decision: Decision, e: Edit)
    requires IsIbanStart(input, start) && Decided(input, policy, start, c, decision) && decision.Act?
    requires e == Edit(start, c.Get(0).value.end, decision.Text())
    ensures IsIbanEdit(input, policy, e)
  {
    SpanInBounds(input[start..]);
  }

  ghost predicate Covered(edits: seq<Edit>, p: nat) { exists e | e in edits :: e.start <= p < e.end }

  lemma MatchStart(input: string, i: nat)
    requires i < |StageMatches(input)|
    ensures StageMatches(input)[i].Get(0).Some? && StageMatches(input)[i].Get(0).value.start == FindStarts(input, 0)[i]
  {
    IbanMatchAt(input, FindStarts(input, 0), i);
  }

  lemma MatchesAscend(input: string)
    ensures StartsAscend(StageMatches(input))
  {
    var matches, starts := StageMatches(input), FindStarts(input, 0);
    CandidatesAscend(input, 0);
    forall i | 0 <= i < |matches|
      ensures matches[i].Get(0).Some? && matches[i].Get(0).value.start == starts[i]
    {
      MatchStart(input, i);
    }
  }

  lemma PickCovers(input: string, policy: Policy, d: Captures, at: nat)
    requires d in Chosen(input, policy) && d.Get(0).Some? && d.Get(0).value.start <= at < d.Get(0).value.end
    ensures Covered(ChosenEdits(input, policy), at)
  {
    var picked, edits := Chosen(input, policy), ChosenEdits(input, policy);
    PickedOrdered(StageMatches(input), IbanDecisions(input, policy), 0, |input|);
    EditsFollowPicks(picked, IbanDecisions(input, policy));
    var k :| 0 <= k < |picked| && picked[k] == d;
    assert edits[k] in edits;
  }

  lemma StartCovered(input: string, policy: Policy, at: nat)
    requires BeginsIban(input, at)
    ensures Covered(ChosenEdits(input, policy), at)
  {
    var matches, decide := StageMatches(input), IbanDecisions(input, policy);
    FindsEveryStart(input, 0);
    var i :| 0 <= i < |FindStarts(input, 0)| && FindStarts(input, 0)[i] == at;
    CandidateDecided(input, policy, i);
    SpanInBounds(input[at..]);
    MatchesAscend(input);
    PickedCover(matches, decide, 0);
    assert matches[i] in matches;
    var d :| d in Chosen(input, policy) && d.Get(0).Some? && d.Get(0).value.start <= at < d.Get(0).value.end;
    PickCovers(input, policy, d, at);
  }

  /** Complete: every candidate start at which an IBAN begins lies inside a replaced span. */
  lemma ChosenCoverIbans(input: string, policy: Policy)
    ensures forall at: nat | BeginsIban(input, at) :: Covered(ChosenEdits(input, policy), at)
  {
    forall at: nat | BeginsIban(input, at)
      ensures Covered(ChosenEdits(input, policy), at)
    {
      StartCovered(input, policy, at);
    }
  }

  // ----- the places in a text where a pass would act

  predicate Live(afterWord: bool, s: string)
    decreases s
  {
    s != [] && ((StartsIban(afterWord, s) && IbanSpan(s).Some?) || Live(IsWord(s[0]), s[1..]))
  }

  lemma {:induction false} LiveMeansBegins(input: string, at: nat)
    requires at <= |input|
    ensures Live(AfterWord(input, at), input[at..]) <==> exists p | at <= p <= |input| :: BeginsIban(input, p)
    decreases |input| - at
  {
    if at == |input| {
      assert input[at..] == [];
      assert !BeginsIban(input, at);
    } else {
      LiveMeansBegins(input, at + 1);
      assert input[at..][1..] == input[at + 1..];
      assert AfterWord(input, at + 1) == IsWord(input[at..][0]);
      assert (StartsIban(AfterWord(input, at), input[at..]) && IbanSpan(input[at..]).Some?) == BeginsIban(input, at);
    }
  }

  /** A pass changes a text exactly when an IBAN begins somewhere in it. */
  lemma PassActsOnLive(input: string, policy: Policy)
    ensures Chosen(input, policy) == [] <==> !Live(false, input)
  {
    LiveMeansBegins(input, 0);
    assert input[0..] == input;
    ChosenCoverIbans(input, policy);
    ChosenAreIbans(input, policy);
    PickedOrdered(StageMatches(input), IbanDecisions(input, policy), 0, |input|);
    EditsFollowPicks(Chosen(input, policy), IbanDecisions(input, policy));
    if Chosen(input, policy) != [] {
      var e := ChosenEdits(input, policy)[0];
      assert e in ChosenEdits(input, policy);
      assert BeginsIban(input, e.start);
    }
  }

  // ----- placeholders separate what stands on either side of them

  predicate Breaks(c: char) { !IsWord(c) && !IsAsciiWhitespace(c) }

  lemma SpanStopsAtBreak(g: string, c: char, rest: string)
    requires Breaks(c)
    ensures IbanSpan(g + [c] + rest) == IbanSpan(g)
  {
    var s := g + [c] + rest;
    IbanSpanIsLongest(g);
    IbanSpanIsLongest(s);
    forall end: nat
      ensures IsIbanPrefix(s, end) <==> IsIbanPrefix(g, end)
    {
      if end <= |g| {
        assert s[..end] == g[..end];
      } else if end <= |s| {
        assert s[..end][|g|] == c;
        assert c in s[..end];
      }
    }
  }

  lemma {:induction false} LiveAcrossBreak(afterWord: bool, g: string, c: char, rest: string)
    requires Breaks(c)
    ensures Live(afterWord, g + [c] + rest) <==> Live(afterWord, g) || Live(false, rest)
    decreases g
  {
    var s := g + [c] + rest;
    if g == [] {
      assert s[0] == c && s[1..] == rest;
    } else {
      LiveAcrossBreak(IsWord(g[0]), g[1..], c, rest);
      assert s[1..] == g[1..] + [c] + rest;
      SpanStopsAtBreak(g, c, rest);
      StartsBeforeBreak(afterWord, g, c, rest);
    }
  }

  lemma StartsBeforeBreak(afterWord: bool, g: string, c: char, rest: string)
    requires Breaks(c)
    ensures StartsIban(afterWord, g + [c] + rest) <==> StartsIban(afterWord, g)
  {
    var s := g + [c] + rest;
    assert s[|g|] == c;
    assert forall i | 0 <= i < |g| :: s[i] == g[i];
  }

  lemma {:induction false} NoDigitsNotLive(afterWord: bool, s: string)
    requires forall c | c in s :: !IsDigit(c)
    ensures !Live(afterWord, s)
    decreases s
  {
    if s != [] {
      NoDigitsNotLive(IsWord(s[0]), s[1..]);
      if |s| > 2 {
        assert s[2] in s;
      }
    }
  }

  /** The text inserted for an IBAN in mask and drop mode. */
  predicate IsPlaceholder(text: string) {
    text == "[" + "REDACTED" + ":iban]" || text == "[" + "DROPPED" + ":iban]"
  }

  lemma LiveAcrossPlaceholder(g: string, text: string, rest: string)
    requires IsPlaceholder(text)
    ensures Live(false, g + text + rest) <==> Live(false, g) || Live(false, rest)
  {
    if text == "[" + "REDACTED" + ":iban]" {
      LiveAcrossWord(g, "REDACTED", rest);
    } else {
      LiveAcrossWord(g, "DROPPED", rest);
    }
  }

  lemma LiveAcrossWord(g: string, word: string, rest: string)
    requires forall c | c in word :: !IsDigit(c)
    ensures Live(false, g + ("[" + word + ":iban]") + rest) <==> Live(false, g) || Live(false, rest)
  {
    var afterColon := "iban" + [']'] + rest;
    PlaceholderParts(g, word, rest);
    LiveAcrossBreak(false, g, '[', word + [':'] + afterColon);
    LiveAcrossBreak(false, word, ':', afterColon);
    LiveAcrossBreak(false, "iban", ']', rest);
    NoDigitsNotLive(false, word);
    NoDigitsNotLive(false, "iban");
  }

  lemma PlaceholderParts(g: string, word: string, rest: string)
    ensures g + ("[" + word + ":iban]") + rest == g + ['['] + (word + [':'] + ("iban" + [']'] + rest))
  {
    assert ":iban]" == [':'] + "iban" + [']'];
  }

  predicate AnyLive(gaps: seq<string>) { gaps != [] && (Live(false, gaps[0]) || AnyLive(gaps[1..])) }

  lemma {:induction false} WovenLive(gaps: seq<string>, texts: seq<string>)
    requires |gaps| == |texts| + 1 && forall t | t in texts :: IsPlaceholder(t)
    ensures Live(false, Weave(gaps, texts)) <==> AnyLive(gaps)
  {
    if texts == [] {
      assert gaps[1..] == [];
    } else {
      WovenLive(gaps[1..], texts[1..]);
      LiveAcrossPlaceholder(gaps[0], texts[0], Weave(gaps[1..], texts[1..]));
    }
  }

  // ----- gaps between replaced spans

  lemma SpanOfPrefix(s: string, length: nat)
    requires length <= |s| && IbanSpan(s[..length]).Some?
    ensures IbanSpan(s).Some?
  {
    IbanSpanIsLongest(s[..length]);
    IbanSpanIsLongest(s);
    var end := IbanSpan(s[..length]).value;
    assert s[..length][..end] == s[..end];
    assert IsIbanPrefix(s, end);
  }

  /** A stretch in which no IBAN begins is not live when it is cut out. */
  lemma {:induction false} StretchNotLive(input: string, from: nat, to: nat)
    requires from <= to <= |input|
    requires forall p | from <= p < to :: !BeginsIban(input, p)
    ensures !Live(AfterWord(input, from), input[from..to])
    decreases |input| - from
  {
    if from < to {
      var s := input[from..to];
      StretchNotLive(input, from + 1, to);
      assert s[1..] == input[from + 1..to];
      assert input[from..][..to - from] == s;
      if IbanSpan(s).Some? {
        SpanOfPrefix(input[from..], to - from);
      }
      assert !BeginsIban(input, from);
    }
  }

  /** A gap whose first characters are an IBAN of their own. */
  predicate Exposed(gap: string) { StartsIban(false, gap) && IbanSpan(gap).Some? }

  predicate AnyExposed(gaps: seq<string>) { gaps != [] && (Exposed(gaps[0]) || AnyExposed(gaps[1..])) }

  lemma StretchLiveIffExposed(input: string, from: nat, to: nat)
    requires from <= to <= |input|
    requires forall p | from < p < to :: !BeginsIban(input, p)
    ensures Live(false, input[from..to]) <==> Exposed(input[from..to])
  {
    if from < to {
      StretchNotLive(input, from + 1, to);
      assert input[from..to][1..] == input[from + 1..to];
    }
  }

  /** If every IBAN of a text begins inside an edit, its gaps are live only where an edit's end exposes one. */
  lemma {:induction false} GapsLiveIffExposed(input: string, edits: seq<Edit>, from: nat)
    requires Ordered(edits, from, |input|) && from <= |input|
    requires forall p: nat | from < p && BeginsIban(input, p) :: Covered(edits, p)
    ensures AnyLive(Gaps(input, edits, from)) <==> AnyExposed(Gaps(input, edits, from))
  {
    OrderedFits(edits, from, |input|);
    if edits == [] {
      StretchLiveIffExposed(input, from, |input|);
      assert input[from..|input|] == input[from..];
      assert Gaps(input, edits, from)[1..] == [];
    } else {
      var e := edits[0];
      OrderedFits(edits[1..], e.end, |input|);
      StretchLiveIffExposed(input, from, e.start);
      forall p: nat | e.end < p && BeginsIban(input, p)
        ensures Covered(edits[1..], p)
      {
        var d :| d in edits && d.start <= p < d.end;
        assert d in edits[1..];
      }
      GapsLiveIffExposed(input, edits[1..], e.end);
      assert Gaps(input, edits, from)[1..] == Gaps(input, edits[1..], e.end);
    }
  }

  // ----- running the pass twice

  /** A policy whose insertions do not depend on the secret. */
  predicate IsMaskOrDrop(policy: Policy) { !policy.mode.Hash? }

  lemma PassInMaskOrDrop(input: string, policy: Policy)
    requires IsMaskOrDrop(policy)
    ensures IbanPassOver(input, policy).Some?
    ensures IbanPassOver(input, policy).value.text == Splice(input, ChosenEdits(input, policy), 0)
  {
    WholePassIs(input, StageMatches(input), IbanDecisions(input, policy));
    assert forall c :: !IbanDecisions(input, policy)(c).Fails();
    NeverFails(StageMatches(input), IbanDecisions(input, policy), 0);
  }

  /** Mask or drop mode: what the pass makes of a text. */
  function Redacted(input: string, policy: Policy): string
    requires IsMaskOrDrop(policy)
  {
    PassInMaskOrDrop(input, policy);
    IbanPassOver(input, policy).value.text
  }

  lemma {:induction false} NeverFails(matches: seq<Captures>, decide: Captures -> Decision, lastEnd: nat)
    requires forall c :: !decide(c).Fails()
    ensures !FailsFrom(matches, decide, lastEnd)
  {
    if matches != [] {
      var c := matches[0];
      var skip := c.Get(0).None? || c.Get(0).value.start < lastEnd || decide(c).Decline?;
      NeverFails(matches[1..], decide, if skip then lastEnd else c.Get(0).value.end);
    }
  }

  lemma EditTexts(edits: seq<Edit>)
    requires forall e | e in edits :: IsPlaceholder(e.text)
    ensures forall t | t in Texts(edits) :: IsPlaceholder(t)
  {
    if edits != [] {
      EditTexts(edits[1..]);
    }
  }

  lemma ChosenTexts(input: string, policy: Policy)
    requires IsMaskOrDrop(policy)
    ensures forall t | t in Texts(ChosenEdits(input, policy)) :: IsPlaceholder(t)
  {
    ChosenAreIbans(input, policy);
    assert ":" + "iban" + "]" == ":iban]";
    forall e | e in ChosenEdits(input, policy)
      ensures IsPlaceholder(e.text)
    {
      PlaceholderText(policy, NormalizeIban(input[e.start..e.end]));
    }
    EditTexts(ChosenEdits(input, policy));
  }

  lemma PlaceholderText(policy: Policy, secret: string)
    requires IsMaskOrDrop(policy)
    ensures IsPlaceholder(Placeholder(policy, DetectorKind.Iban, secret))
  {
    assert "[REDACTED:" + "iban" + "]" == "[" + "REDACTED" + ":iban]";
    assert "[DROPPED:" + "iban" + "]" == "[" + "DROPPED" + ":iban]";
  }

  /** The output of the pass is live exactly when some gap after a replaced span is exposed. */
  lemma OutputLive(input: string, policy: Policy)
    requires IsMaskOrDrop(policy)
    ensures Live(false, Redacted(input, policy)) <==> AnyExposed(Gaps(input, ChosenEdits(input, policy), 0)[1..])
  {
    var edits := ChosenEdits(input, policy);
    var gaps := Gaps(input, edits, 0);
    PassInMaskOrDrop(input, policy);
    SpliceKeepsGaps(input, edits, 0);
    ChosenTexts(input, policy);
    WovenLive(gaps, Texts(edits));
    ChosenCoverIbans(input, policy);
    GapsLiveIffExposed(input, edits, 0);
    FirstGapNotLive(input, policy);
  }

  lemma NotCoveredBefore(edits: seq<Edit>, from: nat, length: nat, p: nat)
    requires Ordered(edits, from, length) && (edits == [] || p < edits[0].start)
    ensures !Covered(edits, p)
  {
    if edits != [] {
      OrderedFits(edits[1..], edits[0].end, length);
      assert forall e | e in edits :: e == edits[0] || e in edits[1..];
    }
  }

  lemma FirstGapNotLive(input: string, policy: Policy)
    ensures !Exposed(Gaps(input, ChosenEdits(input, policy), 0)[0])
  {
    var edits := ChosenEdits(input, policy);
    var to := if edits == [] then |input| else edits[0].start;
    OrderedFits(edits, 0, |input|);
    ChosenCoverIbans(input, policy);
    forall p | 0 <= p < to
      ensures !BeginsIban(input, p)
    {
      NotCoveredBefore(edits, 0, |input|, p);
    }
    StretchNotLive(input, 0, to);
    assert Gaps(input, edits, 0)[0] == input[0..to];
  }

  /** A pass that replaces something changes the text: where an IBAN began there is a bracket now. */
  lemma ActingChangesText(input: string, policy: Policy)
    requires IsMaskOrDrop(policy)
    ensures Redacted(input, policy) == input <==> Chosen(input, policy) == []
  {
    var edits := ChosenEdits(input, policy);
    PassInMaskOrDrop(input, policy);
    PickedOrdered(StageMatches(input), IbanDecisions(input, policy), 0, |input|);
    EditsFollowPicks(Chosen(input, policy), IbanDecisions(input, policy));
    OrderedFits(edits, 0, |input|);
    if edits == [] {
      assert input[0..] == input;
    } else {
      var e := edits[0];
      ChosenIsIban(input, policy, 0);
      PlaceholderText(policy, NormalizeIban(input[e.start..e.end]));
      assert e.text[0] == '[';
      assert Splice(input, edits, 0)[e.start] == '[';
      assert IsAlpha(input[e.start..][0]);
    }
  }

  /** Running the pass again changes nothing exactly when no replaced span is followed by an IBAN that the
      span itself kept from being at a word boundary. */
  lemma SecondPassIdleIff(input: string, policy: Policy)
    requires IsMaskOrDrop(policy)
    ensures Redacted(Redacted(input, policy), policy) == Redacted(input, policy) <==>
              !AnyExposed(Gaps(input, ChosenEdits(input, policy), 0)[1..])
  {
    OutputLive(input, policy);
    PassActsOnLive(Redacted(input, policy), policy);
    ActingChangesText(Redacted(input, policy), policy);
  }

  /** In particular when no replaced span is directly followed by a letter. */
  lemma SecondPassIdle(input: string, policy: Policy)
    requires IsMaskOrDrop(policy)
    requires forall e | e in ChosenEdits(input, policy) :: e.end < |input| ==> !IsAlpha(input[e.end])
    ensures Redacted(Redacted(input, policy), policy) == Redacted(input, policy)
  {
    SecondPassIdleIff(input, policy);
    OrderedFits(ChosenEdits(input, policy), 0, |input|);
    NoLetterNoExposure(input, ChosenEdits(input, policy), 0);
  }

  lemma {:induction false} NoLetterNoExposure(input: string, edits: seq<Edit>, from: nat)
    requires Ordered(edits, from, |input|)
    requires forall e | e in edits :: e.end < |input| ==> !IsAlpha(input[e.end])
    ensures !AnyExposed(Gaps(input, edits, from)[1..])
  {
    OrderedFits(edits, from, |input|);
    var gaps := Gaps(input, edits, from);
    if edits == [] {
      assert gaps[1..] == [];
    } else {
      var e, rest := edits[0], edits[1..];
      OrderedFits(rest, e.end, |input|);
      NoLetterNoExposure(input, rest, e.end);
      assert gaps[1..] == Gaps(input, rest, e.end);
      var gap := gaps[1];
      if |gap| > 0 {
        assert gap[0] == input[e.end];
      }
    }
  }
}
