/** What one pass over a stream of regex matches comes to: it copies or replaces. */
module Splicing {
  import opened Wrappers
  import opened Detectors
  import opened Policy
  import opened Text

  datatype Span = Span(start: nat, end: nat)

  /** The groups of one match; group 0 is the whole match. */
  datatype Captures = Captures(groups: seq<Option<Span>>)
  {
    function Get(i: nat): Option<Span> { if i < |groups| then groups[i] else None }
  }

  predicate InBounds(c: Captures, length: nat) {
    forall i | 0 <= i < |c.groups| ::
      c.groups[i].Some? ==> c.groups[i].value.start <= c.groups[i].value.end <= length
  }

  predicate AllInBounds(matches: seq<Captures>, length: nat) {
    forall c | c in matches :: InBounds(c, length)
  }

  /** What the closure given to `replace_matches` does with a match: `Ok(None)`, or record `kinds` and
      then produce a text or an error. */
  datatype Decision = Decline | Act(kinds: seq<DetectorKind>, text: Result<string, Error>)
  {
    predicate Fails() { Act? && text.Failure? }

    function Text(): string { if Act? && text.Success? then text.value else "" }
  }

  // ----- ordered edits and their effect

  datatype Edit = Edit(start: nat, end: nat, text: string)

  predicate Ordered(edits: seq<Edit>, from: nat, length: nat) {
    if edits == [] then from <= length
    else from <= edits[0].start <= edits[0].end && Ordered(edits[1..], edits[0].end, length)
  }

  lemma {:induction false} OrderedBound(edits: seq<Edit>, from: nat, length: nat)
    requires Ordered(edits, from, length)
    ensures from <= length
  {
    if edits != [] {
      OrderedBound(edits[1..], edits[0].end, length);
    }
  }

  lemma {:induction false} OrderedFits(edits: seq<Edit>, from: nat, length: nat)
    requires Ordered(edits, from, length)
    ensures from <= length
    ensures forall e | e in edits :: from <= e.start <= e.end <= length
    ensures forall i, j | 0 <= i < j < |edits| :: edits[i].end <= edits[j].start
  {
    if edits != [] {
      OrderedFits(edits[1..], edits[0].end, length);
      assert forall e | e in edits :: e == edits[0] || e in edits[1..];
      assert forall j | 0 < j < |edits| :: edits[j] == edits[1..][j - 1];
    }
  }

  /** The text from `from` on, with every edit applied. */
  function Splice(input: string, edits: seq<Edit>, from: nat): string
    requires Ordered(edits, from, |input|)
  {
    OrderedBound(edits, from, |input|);
    if edits == [] then input[from..]
    else
      OrderedBound(edits[1..], edits[0].end, |input|);
      input[from..edits[0].start] + edits[0].text + Splice(input, edits[1..], edits[0].end)
  }

  function Removed(edits: seq<Edit>): int {
    if edits == [] then 0 else edits[0].end - edits[0].start + Removed(edits[1..])
  }

  function Inserted(edits: seq<Edit>): nat {
    if edits == [] then 0 else |edits[0].text| + Inserted(edits[1..])
  }

  lemma {:induction false} SpliceLength(input: string, edits: seq<Edit>, from: nat)
    requires Ordered(edits, from, |input|)
    ensures |Splice(input, edits, from)| == |input| - from - Removed(edits) + Inserted(edits)
  {
    OrderedBound(edits, from, |input|);
    if edits != [] {
      OrderedBound(edits[1..], edits[0].end, |input|);
      SpliceLength(input, edits[1..], edits[0].end);
    }
  }

  // ----- gaps: the stretches that no edit touches

  function Gaps(input: string, edits: seq<Edit>, from: nat): (gaps: seq<string>)
    requires Ordered(edits, from, |input|)
    ensures |gaps| == |edits| + 1
  {
    OrderedBound(edits, from, |input|);
    if edits == [] then [input[from..]]
    else
      OrderedBound(edits[1..], edits[0].end, |input|);
      [input[from..edits[0].start]] + Gaps(input, edits[1..], edits[0].end)
  }

  /** Alternates gaps with the pieces between them. */
  function Weave(gaps: seq<string>, middles: seq<string>): string
    requires |gaps| == |middles| + 1
  {
    if middles == [] then gaps[0] else gaps[0] + middles[0] + Weave(gaps[1..], middles[1..])
  }

  function Texts(edits: seq<Edit>): (texts: seq<string>)
    ensures |texts| == |edits|
  {
    if edits == [] then [] else [edits[0].text] + Texts(edits[1..])
  }

  function Originals(input: string, edits: seq<Edit>): (pieces: seq<string>)
    requires forall e | e in edits :: e.start <= e.end <= |input|
    ensures |pieces| == |edits|
  {
    if edits == [] then [] else [input[edits[0].start..edits[0].end]] + Originals(input, edits[1..])
  }

  /** Input and output are woven from the same gaps, so everything outside the edits is copied verbatim
      and in order; they differ only in what stands between the gaps. */
  lemma {:induction false} SpliceKeepsGaps(input: string, edits: seq<Edit>, from: nat)
    requires Ordered(edits, from, |input|)
    ensures from <= |input| && forall e | e in edits :: e.start <= e.end <= |input|
    ensures Weave(Gaps(input, edits, from), Originals(input, edits)) == input[from..]
    ensures Weave(Gaps(input, edits, from), Texts(edits)) == Splice(input, edits, from)
  {
    OrderedFits(edits, from, |input|);
    if edits != [] {
      var e := edits[0];
      SpliceKeepsGaps(input, edits[1..], e.end);
      CutTwice(input, from, e.start, e.end);
    }
  }

  lemma CutTwice(s: string, a: nat, b: nat, c: nat)
    requires a <= b <= c <= |s|
    ensures s[a..] == s[a..b] + s[b..c] + s[c..]
  {
  }

  // ----- which matches are acted on

  function Picked(matches: seq<Captures>, decide: Captures -> Decision, lastEnd: nat): seq<Captures> {
    if matches == [] then []
    else
      var c := matches[0];
      if c.Get(0).None? || c.Get(0).value.start < lastEnd || decide(c).Decline?
      then Picked(matches[1..], decide, lastEnd)
      else [c] + Picked(matches[1..], decide, c.Get(0).value.end)
  }

  function Edits(picked: seq<Captures>, decide: Captures -> Decision): seq<Edit>
    requires forall c | c in picked :: c.Get(0).Some?
  {
    if picked == [] then []
    else
      var whole := picked[0].Get(0).value;
      [Edit(whole.start, whole.end, decide(picked[0]).Text())] + Edits(picked[1..], decide)
  }

  function Kinds(picked: seq<Captures>, decide: Captures -> Decision): seq<DetectorKind> {
    if picked == [] then []
    else
      (match decide(picked[0]) case Decline => [] case Act(kinds, _) => kinds) +
      Kinds(picked[1..], decide)
  }

  /** What is picked is an ordered, disjoint run of matches that the closure acts on. */
  lemma {:induction false} PickedOrdered(matches: seq<Captures>, decide: Captures -> Decision, lastEnd: nat,
                                         length: nat)
    requires AllInBounds(matches, length) && lastEnd <= length
    ensures forall c | c in Picked(matches, decide, lastEnd) ::
              c in matches && c.Get(0).Some? && decide(c).Act?
    ensures Ordered(Edits(Picked(matches, decide, lastEnd), decide), lastEnd, length)
  {
    if matches != [] {
      var c := matches[0];
      assert InBounds(c, length);
      var next := if c.Get(0).None? || c.Get(0).value.start < lastEnd || decide(c).Decline? then lastEnd
                  else c.Get(0).value.end;
      PickedOrdered(matches[1..], decide, next, length);
    }
  }

  /** Nothing is passed over without cause: every match is declined, picked, or begins before the end of
      a picked one (or of what came before). */
  lemma {:induction false} PickedMaximal(matches: seq<Captures>, decide: Captures -> Decision, lastEnd: nat)
    ensures forall c | c in matches && c.Get(0).Some? ::
              || decide(c).Decline?
              || c in Picked(matches, decide, lastEnd)
              || c.Get(0).value.start < lastEnd
              || exists d | d in Picked(matches, decide, lastEnd) ::
                   d.Get(0).Some? && c.Get(0).value.start < d.Get(0).value.end
  {
    if matches != [] {
      var c := matches[0];
      var picked := Picked(matches, decide, lastEnd);
      if c.Get(0).None? || c.Get(0).value.start < lastEnd || decide(c).Decline? {
        PickedMaximal(matches[1..], decide, lastEnd);
      } else {
        PickedMaximal(matches[1..], decide, c.Get(0).value.end);
        assert picked[0] == c;
        assert forall d | d in picked[1..] :: d in picked;
      }
    }
  }

  predicate StartsAscend(matches: seq<Captures>) {
    forall i, j | 0 <= i < j < |matches| && matches[i].Get(0).Some? && matches[j].Get(0).Some? ::
      matches[i].Get(0).value.start <= matches[j].Get(0).value.start
  }

  /** When matches come in order, as a regex delivers them, each one that would be acted on and is not
      empty begins inside a picked one, or before `lastEnd`. */
  lemma {:induction false} PickedCover(matches: seq<Captures>, decide: Captures -> Decision, lastEnd: nat)
    requires StartsAscend(matches)
    ensures forall c | c in matches && c.Get(0).Some? && decide(c).Act? && c.Get(0).value.start < c.Get(0).value.end ::
              || c.Get(0).value.start < lastEnd
              || exists d | d in Picked(matches, decide, lastEnd) ::
                   d.Get(0).Some? && d.Get(0).value.start <= c.Get(0).value.start < d.Get(0).value.end
  {
    if matches != [] {
      var c := matches[0];
      var picked := Picked(matches, decide, lastEnd);
      if c.Get(0).None? || c.Get(0).value.start < lastEnd || decide(c).Decline? {
        PickedCover(matches[1..], decide, lastEnd);
      } else {
        PickedCover(matches[1..], decide, c.Get(0).value.end);
        assert picked[0] == c;
        assert forall d | d in picked[1..] :: d in picked;
        assert forall d | d in matches[1..] && d.Get(0).Some? :: c.Get(0).value.start <= d.Get(0).value.start;
      }
    }
  }

  /** The text and the recorded kinds of one pass. */
  datatype Pass = Pass(text: string, events: seq<DetectorKind>)

  function PassFrom(input: string, matches: seq<Captures>, decide: Captures -> Decision, lastEnd: nat): Pass
    requires AllInBounds(matches, |input|) && lastEnd <= |input|
  {
    PickedOrdered(matches, decide, lastEnd, |input|);
    var picked := Picked(matches, decide, lastEnd);
    Pass(Splice(input, Edits(picked, decide), lastEnd), Kinds(picked, decide))
  }

  function PassOver(input: string, matches: seq<Captures>, decide: Captures -> Decision): Pass
    requires AllInBounds(matches, |input|)
  {
    PassFrom(input, matches, decide, 0)
  }

  predicate Fails(picked: seq<Captures>, decide: Captures -> Decision) {
    picked != [] && (decide(picked[0]).Fails() || Fails(picked[1..], decide))
  }

  predicate FailsFrom(matches: seq<Captures>, decide: Captures -> Decision, lastEnd: nat) {
    Fails(Picked(matches, decide, lastEnd), decide)
  }

  predicate PassFails(matches: seq<Captures>, decide: Captures -> Decision) {
    FailsFrom(matches, decide, 0)
  }

  lemma PassSkips(input: string, matches: seq<Captures>, decide: Captures -> Decision, lastEnd: nat)
    requires AllInBounds(matches, |input|) && lastEnd <= |input| && matches != []
    requires var c := matches[0]; c.Get(0).None? || c.Get(0).value.start < lastEnd || decide(c).Decline?
    ensures PassFrom(input, matches, decide, lastEnd) == PassFrom(input, matches[1..], decide, lastEnd)
    ensures FailsFrom(matches, decide, lastEnd) == FailsFrom(matches[1..], decide, lastEnd)
  {
  }

  lemma PassActs(input: string, matches: seq<Captures>, decide: Captures -> Decision, lastEnd: nat)
    requires AllInBounds(matches, |input|) && lastEnd <= |input| && matches != []
    requires matches[0].Get(0).Some? && matches[0].Get(0).value.start >= lastEnd && decide(matches[0]).Act?
    ensures var c := matches[0];
            var whole := c.Get(0).value;
            && whole.start <= whole.end <= |input|
            && PassFrom(input, matches, decide, lastEnd) ==
               Pass(input[lastEnd..whole.start] + decide(c).Text()
                    + PassFrom(input, matches[1..], decide, whole.end).text,
                    decide(c).kinds + PassFrom(input, matches[1..], decide, whole.end).events)
            && FailsFrom(matches, decide, lastEnd) == (decide(c).Fails() || FailsFrom(matches[1..], decide, whole.end))
  {
    var c := matches[0];
    assert InBounds(c, |input|);
    var rest := Picked(matches[1..], decide, c.Get(0).value.end);
    assert Picked(matches, decide, lastEnd) == [c] + rest;
    assert ([c] + rest)[1..] == rest;
    PickedOrdered(matches, decide, lastEnd, |input|);
    PickedOrdered(matches[1..], decide, c.Get(0).value.end, |input|);
  }

  /** Two closures that act on the same matches and record the same kinds, whatever text they insert. */
  predicate SameHits(matches: seq<Captures>, d: Captures -> Decision, e: Captures -> Decision) {
    forall c | c in matches ::
      d(c).Decline? == e(c).Decline? && (d(c).Act? && e(c).Act? ==> d(c).kinds == e(c).kinds)
  }

  lemma {:induction false} SamePicks(matches: seq<Captures>, d: Captures -> Decision, e: Captures -> Decision,
                                     lastEnd: nat)
    requires SameHits(matches, d, e)
    ensures Picked(matches, d, lastEnd) == Picked(matches, e, lastEnd)
    ensures Kinds(Picked(matches, d, lastEnd), d) == Kinds(Picked(matches, e, lastEnd), e)
  {
    if matches != [] {
      var c := matches[0];
      var skip := c.Get(0).None? || c.Get(0).value.start < lastEnd || d(c).Decline?;
      SamePicks(matches[1..], d, e, if skip then lastEnd else c.Get(0).value.end);
    }
  }

  /** Same hits and same insertions give the same pass. */
  lemma {:induction false} SamePass(input: string, matches: seq<Captures>, d: Captures -> Decision,
                                    e: Captures -> Decision, lastEnd: nat)
    requires AllInBounds(matches, |input|) && lastEnd <= |input|
    requires SameHits(matches, d, e) && forall c | c in matches :: d(c).Text() == e(c).Text()
    ensures PassFrom(input, matches, d, lastEnd) == PassFrom(input, matches, e, lastEnd)
  {
    if matches != [] {
      var c := matches[0];
      assert InBounds(c, |input|);
      if c.Get(0).None? || c.Get(0).value.start < lastEnd || d(c).Decline? {
        SamePass(input, matches[1..], d, e, lastEnd);
        PassSkips(input, matches, d, lastEnd);
        PassSkips(input, matches, e, lastEnd);
      } else {
        SamePass(input, matches[1..], d, e, c.Get(0).value.end);
        PassActs(input, matches, d, lastEnd);
        PassActs(input, matches, e, lastEnd);
      }
    }
  }

  /** A pass that records nothing picked nothing, cannot have failed, and leaves the text alone. When
      acting on a match means recording it, and failing when `keyless`, it fails exactly when it has
      something to record without a key. */
  lemma {:induction false} QuietPass(input: string, matches: seq<Captures>, decide: Captures -> Decision, keyless: bool,
                                     lastEnd: nat)
    requires AllInBounds(matches, |input|) && lastEnd <= |input|
    requires forall c | c in matches && decide(c).Act? :: decide(c).kinds != [] && decide(c).Fails() == keyless
    ensures PassFrom(input, matches, decide, lastEnd).events == [] ==>
              && Picked(matches, decide, lastEnd) == []
              && PassFrom(input, matches, decide, lastEnd).text == input[lastEnd..]
    ensures FailsFrom(matches, decide, lastEnd) <==>
              keyless && PassFrom(input, matches, decide, lastEnd).events != []
  {
    if matches != [] {
      var c := matches[0];
      assert InBounds(c, |input|);
      if c.Get(0).None? || c.Get(0).value.start < lastEnd || decide(c).Decline? {
        QuietPass(input, matches[1..], decide, keyless, lastEnd);
        PassSkips(input, matches, decide, lastEnd);
      } else {
        QuietPass(input, matches[1..], decide, keyless, c.Get(0).value.end);
        PassActs(input, matches, decide, lastEnd);
      }
    }
  }

  /** How the pass ends when it stands before match `i`, has written `output` and recorded `recorded`;
      nothing if it fails. */
  ghost function Finish(input: string, matches: seq<Captures>, decide: Captures -> Decision, i: nat,
                        lastEnd: nat, output: string, recorded: seq<DetectorKind>): Option<Pass>
    requires AllInBounds(matches, |input|) && i <= |matches| && lastEnd <= |input|
    decreases |matches| - i
  {
    if i == |matches| then Some(Pass(output + input[lastEnd..], recorded))
    else
      var c := matches[i];
      assert InBounds(c, |input|);
      if c.Get(0).None? || c.Get(0).value.start < lastEnd || decide(c).Decline? then
        Finish(input, matches, decide, i + 1, lastEnd, output, recorded)
      else if decide(c).text.Failure? then None
      else
        Finish(input, matches, decide, i + 1, c.Get(0).value.end,
               output + input[lastEnd..c.Get(0).value.start] + decide(c).text.value,
               recorded + decide(c).kinds)
  }

  lemma FinishSkips(input: string, matches: seq<Captures>, decide: Captures -> Decision, i: nat,
                    lastEnd: nat, output: string, recorded: seq<DetectorKind>)
    requires AllInBounds(matches, |input|) && i < |matches| && lastEnd <= |input|
    requires matches[i].Get(0).None? || matches[i].Get(0).value.start < lastEnd || decide(matches[i]).Decline?
    ensures Finish(input, matches, decide, i, lastEnd, output, recorded) ==
            Finish(input, matches, decide, i + 1, lastEnd, output, recorded)
  {
  }

  lemma FinishActs(input: string, matches: seq<Captures>, decide: Captures -> Decision, i: nat,
                   lastEnd: nat, output: string, recorded: seq<DetectorKind>,
                   start: nat, end: nat, kinds: seq<DetectorKind>, text: Result<string, Error>)
    requires AllInBounds(matches, |input|) && i < |matches| && lastEnd <= start <= end <= |input|
    requires matches[i].Get(0) == Some(Span(start, end)) && decide(matches[i]) == Act(kinds, text)
    ensures text.Failure? ==> Finish(input, matches, decide, i, lastEnd, output, recorded).None?
    ensures text.Success? ==>
              Finish(input, matches, decide, i, lastEnd, output, recorded) ==
              Finish(input, matches, decide, i + 1, end, output + input[lastEnd..start] + text.value,
                     recorded + kinds)
  {
  }

  /** Carried out step by step, a pass comes to the splice of the picked matches. */
  lemma {:induction false} FinishIsPass(input: string, matches: seq<Captures>, decide: Captures -> Decision, i: nat,
                                        lastEnd: nat, output: string, recorded: seq<DetectorKind>)
    requires AllInBounds(matches, |input|) && i <= |matches| && lastEnd <= |input|
    ensures var rest := PassFrom(input, matches[i..], decide, lastEnd);
            Finish(input, matches, decide, i, lastEnd, output, recorded) ==
            if FailsFrom(matches[i..], decide, lastEnd) then None
            else Some(Pass(output + rest.text, recorded + rest.events))
    decreases |matches| - i
  {
    if i == |matches| {
      assert matches[i..] == [];
      assert recorded + [] == recorded;
    } else {
      var c := matches[i];
      assert matches[i..][1..] == matches[i + 1..] && matches[i..][0] == c;
      if c.Get(0).None? || c.Get(0).value.start < lastEnd || decide(c).Decline? {
        PassSkips(input, matches[i..], decide, lastEnd);
        FinishIsPass(input, matches, decide, i + 1, lastEnd, output, recorded);
      } else {
        PassActs(input, matches[i..], decide, lastEnd);
        var whole := c.Get(0).value;
        var rest := PassFrom(input, matches[i + 1..], decide, whole.end);
        var gap, text := input[lastEnd..whole.start], decide(c).Text();
        FinishIsPass(input, matches, decide, i + 1, whole.end, output + gap + text,
                     recorded + decide(c).kinds);
        ConcatAssociates(output, gap, text, rest.text);
        ConcatThree(recorded, decide(c).kinds, rest.events);
      }
    }
  }

  /** The end of a whole pass, and what it is. */
  ghost function WholePass(input: string, matches: seq<Captures>, decide: Captures -> Decision): Option<Pass>
    requires AllInBounds(matches, |input|)
  {
    Finish(input, matches, decide, 0, 0, "", [])
  }

  lemma WholePassIs(input: string, matches: seq<Captures>, decide: Captures -> Decision)
    requires AllInBounds(matches, |input|)
    ensures WholePass(input, matches, decide) ==
            if PassFails(matches, decide) then None else Some(PassOver(input, matches, decide))
  {
    FinishIsPass(input, matches, decide, 0, 0, "", []);
    assert matches[0..] == matches;
    assert "" + PassOver(input, matches, decide).text == PassOver(input, matches, decide).text;
    assert [] + PassOver(input, matches, decide).events == PassOver(input, matches, decide).events;
  }

  lemma NothingWritten(input: string)
    ensures "" + input[0..] == input
  {
  }
}
