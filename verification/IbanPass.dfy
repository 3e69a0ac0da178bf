/** `replace_ibans`: where the prefix regex matches, and the pass over a text. */
module IbanPass {
  import opened Wrappers
  import opened Text
  import opened Detectors
  import opened Policy
  import opened Stats
  import opened Splicing
  import opened Iban

  /** A word boundary before two letters and two digits, given what precedes `rest`. */
  predicate StartsIban(afterWord: bool, rest: string) {
    && !afterWord && |rest| >= 4
    && IsAlpha(rest[0]) && IsAlpha(rest[1]) && IsDigit(rest[2]) && IsDigit(rest[3])
  }

  predicate AfterWord(input: string, at: nat)
    requires at <= |input|
  {
    at > 0 && IsWord(input[at - 1])
  }

  predicate IsIbanStart(input: string, at: nat) {
    at <= |input| && StartsIban(AfterWord(input, at), input[at..])
  }

  /** `find_iter`: leftmost matches that do not overlap. */
  function FindStarts(input: string, from: nat): seq<nat>
    decreases |input| - from
  {
    if from >= |input| then []
    else if IsIbanStart(input, from) then [from] + FindStarts(input, from + 4)
    else FindStarts(input, from + 1)
  }

  /** Skipping over a match loses nothing: the matches are exactly the places where the pattern holds. */
  lemma {:induction false} FindsEveryStart(input: string, from: nat)
    ensures forall at :: at in FindStarts(input, from) <==> from <= at && IsIbanStart(input, at)
    decreases |input| - from
  {
    if from >= |input| {
    } else if IsIbanStart(input, from) {
      FindsEveryStart(input, from + 4);
      var starts := FindStarts(input, from);
      assert starts == [from] + FindStarts(input, from + 4);
      forall at | from < at < from + 4
        ensures !IsIbanStart(input, at)
      {
        assert input[from..][at - 1 - from] == input[at - 1];
      }
    } else {
      FindsEveryStart(input, from + 1);
    }
  }

  lemma StartInBounds(input: string, i: nat)
    requires i < |FindStarts(input, 0)|
    ensures FindStarts(input, 0)[i] <= |input|
  {
    FindsEveryStart(input, 0);
    assert FindStarts(input, 0)[i] in FindStarts(input, 0);
  }

  // ----- the pass

  function IbanMatch(input: string, at: nat): Captures {
    var length := if at <= |input| && IbanSpan(input[at..]).Some? then IbanSpan(input[at..]).value else 0;
    Captures([Some(Span(at, at + length))])
  }

  function IbanMatches(input: string, starts: seq<nat>): (matches: seq<Captures>)
    ensures |matches| == |starts|
  {
    if starts == [] then [] else [IbanMatch(input, starts[0])] + IbanMatches(input, starts[1..])
  }

  lemma {:induction false} IbanMatchAt(input: string, starts: seq<nat>, i: nat)
    requires i < |starts|
    ensures IbanMatches(input, starts)[i] == IbanMatch(input, starts[i])
  {
    if i > 0 {
      IbanMatchAt(input, starts[1..], i - 1);
    }
  }

  function StageMatches(input: string): (matches: seq<Captures>)
    ensures |matches| == |FindStarts(input, 0)| && AllInBounds(matches, |input|)
  {
    var starts := FindStarts(input, 0);
    var matches := IbanMatches(input, starts);
    assert AllInBounds(matches, |input|) by {
      FindsEveryStart(input, 0);
      forall c | c in matches
        ensures InBounds(c, |input|)
      {
        var i :| 0 <= i < |starts| && c == matches[i];
        IbanMatchAt(input, starts, i);
        assert starts[i] in starts;
        assert IsIbanStart(input, starts[i]);
        SpanInBounds(input[starts[i]..]);
      }
    }
    matches
  }

  function DecideIban(input: string, policy: Policy, c: Captures): Decision {
    match c.Get(0)
    case None => Decline
    case Some(whole) =>
      if whole.start <= whole.end <= |input| && IbanSpan(input[whole.start..]).Some?
      then Act([DetectorKind.Iban],
               policy.Replacement(DetectorKind.Iban, NormalizeIban(input[whole.start..whole.end])))
      else Decline
  }

  function IbanDecisions(input: string, policy: Policy): Captures -> Decision {
    c => DecideIban(input, policy, c)
  }

  /** The result of the pass; nothing if it fails. */
  function IbanPassOver(input: string, policy: Policy): Option<Pass> {
    if PassFails(StageMatches(input), IbanDecisions(input, policy)) then None
    else Some(PassOver(input, StageMatches(input), IbanDecisions(input, policy)))
  }

  /** A candidate is acted on when an IBAN begins there, and then from its start to the end of the longest one. */
  predicate Decided(input: string, policy: Policy, start: nat, c: Captures, decision: Decision) {
    && start <= |input| && c.Get(0).Some? && c.Get(0).value.start == start
    && var span := IbanSpan(input[start..]);
    && (span.None? ==> decision.Decline?)
    && (span.Some? ==>
          var end := start + span.value;
          && end <= |input| && c.Get(0).value.end == end
          && decision == Act([DetectorKind.Iban],
                             policy.Replacement(DetectorKind.Iban, NormalizeIban(input[start..end]))))
  }

  lemma MatchDecided(input: string, policy: Policy, start: nat)
    requires start <= |input|
    ensures var c := IbanMatch(input, start); Decided(input, policy, start, c, IbanDecisions(input, policy)(c))
  {
    SpanInBounds(input[start..]);
  }

  lemma CandidateDecided(input: string, policy: Policy, i: nat)
    requires i < |FindStarts(input, 0)|
    ensures var c := StageMatches(input)[i];
            Decided(input, policy, FindStarts(input, 0)[i], c, IbanDecisions(input, policy)(c))
  {
    StartInBounds(input, i);
    IbanMatchAt(input, FindStarts(input, 0), i);
    MatchDecided(input, policy, FindStarts(input, 0)[i]);
  }

  /** The matches and the closure of the pass, by what they do. */
  lemma IbanStream(input: string, policy: Policy) returns (matches: seq<Captures>, decide: Captures -> Decision)
    ensures |matches| == |FindStarts(input, 0)| && AllInBounds(matches, |input|)
    ensures WholePass(input, matches, decide) == IbanPassOver(input, policy)
    ensures forall i | 0 <= i < |matches| ::
              Decided(input, policy, FindStarts(input, 0)[i], matches[i], decide(matches[i]))
  {
    matches, decide := StageMatches(input), IbanDecisions(input, policy);
    WholePassIs(input, matches, decide);
    forall i | 0 <= i < |matches|
      ensures Decided(input, policy, FindStarts(input, 0)[i], matches[i], decide(matches[i]))
    {
      CandidateDecided(input, policy, i);
    }
  }

  lemma CandidateActs(input: string, policy: Policy, c: Captures, decision: Decision, start: nat, end: nat,
                      text: Result<string, Error>)
    requires Decided(input, policy, start, c, decision)
    requires start <= |input| && IbanSpan(input[start..]).Some? && end == start + IbanSpan(input[start..]).value
    requires end <= |input| ==> text == policy.Replacement(DetectorKind.Iban, NormalizeIban(input[start..end]))
    ensures end <= |input| && c.Get(0) == Some(Span(start, end)) && decision == Act([DetectorKind.Iban], text)
  {
  }

  method ReplaceIbans(input: string, policy: Policy, stats: ScanReport)
    returns (r: Result<string, Error>)
    modifies stats
    ensures r.Failure? <==> IbanPassOver(input, policy).None?
    ensures r.Success? ==>
              && r.value == IbanPassOver(input, policy).value.text
              && stats.View() == RecordedAll(old(stats.View()), IbanPassOver(input, policy).value.events)
  {
    var output := "";
    var lastEnd: nat := 0;
    var changed := false;
    var starts := FindStarts(input, 0);
    ghost var matches, decide := IbanStream(input, policy);
    ghost var recorded: seq<DetectorKind> := [];
    for i := 0 to |starts|
      invariant stats.View() == RecordedAll(old(stats.View()), recorded)
      invariant lastEnd <= |input|
      invariant Finish(input, matches, decide, i, lastEnd, output, recorded) == IbanPassOver(input, policy)
      invariant !changed ==> output == "" && lastEnd == 0
    {
      var start := starts[i];
      assert Decided(input, policy, start, matches[i], decide(matches[i]));
      if start < lastEnd {
        FinishSkips(input, matches, decide, i, lastEnd, output, recorded);
        continue;
      }
      var span := ValidIbanSpan(input[start..]);
      if span.None? {
        FinishSkips(input, matches, decide, i, lastEnd, output, recorded);
        continue;
      }
      var end := start + span.value;
      SpanInBounds(input[start..]);
      var candidate := input[start..end];
      ghost var text := policy.Replacement(DetectorKind.Iban, NormalizeIban(candidate));
      CandidateActs(input, policy, matches[i], decide(matches[i]), start, end, text);
      FinishActs(input, matches, decide, i, lastEnd, output, recorded, start, end, [DetectorKind.Iban], text);
      output := output + input[lastEnd..start];
      stats.Record(DetectorKind.Iban);
      RecordOneMore(old(stats.View()), recorded, DetectorKind.Iban);
      recorded := recorded + [DetectorKind.Iban];
      var replacement := policy.Replacement(DetectorKind.Iban, NormalizeIban(candidate));
      if replacement.Failure? {
        return Failure(replacement.error);
      }
      output := output + replacement.value;
      lastEnd := end;
      changed := true;
    }
    if changed {
      output := output + input[lastEnd..];
      r := Success(output);
    } else {
      NothingWritten(input);
      r := Success(input);
    }
  }
}
