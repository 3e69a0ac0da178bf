/** How IBANs may be written, and what becomes of one in a text. */
module IbanSpelling {
  import opened Wrappers
  import opened Text
  import opened Detectors
  import opened Policy
  import opened Splicing
  import opened Iban
  import opened IbanPass
  import opened IbanRerun
  import opened Pipeline
  import opened StageLaws
  import StageRuns

  /** The characters that may stand between those of an IBAN: blank, tab, line feed, carriage return and form feed. */
  predicate IsGap(c: char) { c == ' ' || c == '\t' || c == '\n' || c == '\r' || c as int == 12 }

  predicate IsLetter(c: char) { 'a' <= c <= 'z' || 'A' <= c <= 'Z' }

  predicate IsNumeral(c: char) { '0' <= c <= '9' }

  lemma {:induction false} NormalizedConcat(a: string, b: string)
    ensures NormalizeIban(a + b) == NormalizeIban(a) + NormalizeIban(b)
  {
    if b == "" {
      assert a + b == a;
    } else {
      var n := |b| - 1;
      NormalizedConcat(a, b[..n]);
      assert (a + b)[..|a| + n] == a + b[..n];
      var last := if IsAsciiWhitespace(b[n]) then [] else [ToUpper(b[n])];
      ConcatThree(NormalizeIban(a), NormalizeIban(b[..n]), last);
    }
  }

  lemma NormalizedChar(c: char)
    ensures NormalizeIban([c]) == if IsAsciiWhitespace(c) then [] else [ToUpper(c)]
  {
    assert [c][..0] == "";
    assert NormalizeIban("") == "";
  }

  lemma NormalizedMiddle(a: string, c: char, b: string)
    ensures NormalizeIban(a + [c] + b) ==
            NormalizeIban(a) + (if IsAsciiWhitespace(c) then [] else [ToUpper(c)]) + NormalizeIban(b)
  {
    NormalizedConcat(a + [c], b);
    NormalizedConcat(a, [c]);
    NormalizedChar(c);
  }

  lemma WholePrefix(s: string)
    requires s != ""
    ensures IsIbanPrefix(s, |s|) <==> IsIbanText(s) && IsAlnum(s[|s| - 1]) && IsValidIban(s)
  {
    assert s[..|s|] == s;
  }

  lemma GapNormalized(a: string, c: char, b: string)
    requires IsGap(c)
    ensures NormalizeIban(a + [c] + b) == NormalizeIban(a + b)
  {
    NormalizedMiddle(a, c, b);
    NormalizedConcat(a, b);
    assert NormalizeIban(a) + [] == NormalizeIban(a);
  }

  lemma GapIsText(a: string, c: char, b: string)
    requires IsGap(c)
    ensures IsIbanText(a + [c] + b) <==> IsIbanText(a + b)
  {
    assert forall x :: x in a + [c] + b <==> x in a + b || x == c;
  }

  /** Such a character more or less, before the last one, does not matter. */
  lemma GapDoesNotMatter(a: string, c: char, b: string)
    requires IsGap(c) && b != ""
    ensures IsIbanPrefix(a + [c] + b, |a| + 1 + |b|) <==> IsIbanPrefix(a + b, |a| + |b|)
  {
    WholePrefix(a + [c] + b);
    WholePrefix(a + b);
    GapNormalized(a, c, b);
    GapIsText(a, c, b);
  }

  /** A letter in the other case does not matter. */
  lemma CaseDoesNotMatter(a: string, k: nat, b: string)
    requires k < 26
    ensures var upper, lower := (65 + k) as char, (97 + k) as char;
            IsIbanPrefix(a + [upper] + b, |a| + 1 + |b|) <==> IsIbanPrefix(a + [lower] + b, |a| + 1 + |b|)
  {
    var upper, lower := (65 + k) as char, (97 + k) as char;
    WholePrefix(a + [upper] + b);
    WholePrefix(a + [lower] + b);
    NormalizedMiddle(a, upper, b);
    NormalizedMiddle(a, lower, b);
  }

  /** Any other character ends an IBAN. */
  lemma OtherEnds(a: string, c: char, b: string, end: nat)
    requires !IsLetter(c) && !IsNumeral(c) && !IsGap(c) && |a| < end
    ensures !IsIbanPrefix(a + [c] + b, end)
  {
    var s := a + [c] + b;
    if end <= |s| {
      assert s[..end][|a|] == c;
      assert c in s[..end] && !IsAlnum(c) && !IsAsciiWhitespace(c);
    }
  }

  // ----- spelled IBANs

  /** The text is the IBAN, with letters in either case and gaps in between. */
  predicate SpellsIban(text: string, iban: string) {
    if text == "" then iban == ""
    else if IsGap(text[0]) then SpellsIban(text[1..], iban)
    else
      && iban != "" && (text[0] == iban[0] || ('a' <= text[0] <= 'z' && text[0] as int == iban[0] as int + 32))
      && SpellsIban(text[1..], iban[1..])
  }

  lemma {:induction false} SpelledIs(text: string, iban: string)
    requires IbanChars(iban) && SpellsIban(text, iban)
    ensures NormalizeIban(text) == iban && IsIbanText(text)
  {
    if text != "" {
      assert text == [text[0]] + text[1..];
      NormalizedConcat([text[0]], text[1..]);
      NormalizedChar(text[0]);
      if IsGap(text[0]) {
        SpelledIs(text[1..], iban);
        assert [] + iban == iban;
      } else {
        assert iban[0] in iban;
        SpelledIs(text[1..], iban[1..]);
        assert iban == [iban[0]] + iban[1..];
      }
    }
  }

  /** An IBAN in groups of four. */
  function Grouped(iban: string): string {
    if |iban| <= 4 then iban else iban[..4] + [' '] + Grouped(iban[4..])
  }

  lemma {:induction false} SpellsItself(s: string)
    requires IbanChars(s)
    ensures SpellsIban(s, s)
  {
    if s != "" {
      assert s[0] in s;
      SpellsItself(s[1..]);
    }
  }

  lemma {:induction false} SpellsBoth(a: string, b: string, x: string, y: string)
    requires SpellsIban(a, x) && SpellsIban(b, y)
    ensures SpellsIban(a + b, x + y)
  {
    if a == "" {
      assert a + b == b && x + y == y;
    } else {
      assert (a + b)[1..] == a[1..] + b && (a + b)[0] == a[0];
      if IsGap(a[0]) {
        SpellsBoth(a[1..], b, x, y);
      } else {
        SpellsBoth(a[1..], b, x[1..], y);
        assert (x + y)[1..] == x[1..] + y && (x + y)[0] == x[0];
      }
    }
  }

  lemma {:induction false} GroupedSpells(iban: string)
    requires IbanChars(iban)
    ensures SpellsIban(Grouped(iban), iban)
    ensures iban != "" ==> Grouped(iban) != "" && Grouped(iban)[|Grouped(iban)| - 1] == iban[|iban| - 1]
    ensures |iban| >= 4 ==> |Grouped(iban)| >= 4 && Grouped(iban)[..4] == iban[..4]
  {
    if |iban| <= 4 {
      SpellsItself(iban);
    } else {
      GroupedSpells(iban[4..]);
      SpellsItself(iban[..4]);
      assert " "[1..] == "";
      SpellsBoth(iban[..4], " ", iban[..4], "");
      SpellsBoth(iban[..4] + " ", Grouped(iban[4..]), iban[..4] + "", iban[4..]);
      assert iban[..4] + "" + iban[4..] == iban && iban[..4] + [' '] == iban[..4] + " ";
    }
  }

  // ----- in a text

  /** The text is a spelled IBAN that begins with its first four characters together and ends with its last. */
  predicate IsWritten(text: string, iban: string) {
    && IsIban(iban) && SpellsIban(text, iban) && |text| >= 4
    && IsLetter(text[0]) && IsLetter(text[1]) && IsNumeral(text[2]) && IsNumeral(text[3])
    && !IsGap(text[|text| - 1])
  }

  /** What follows does not make a longer IBAN of it. */
  ghost predicate EndsThere(text: string, after: string) {
    forall end: nat | |text| < end :: !IsIbanPrefix(text + after, end)
  }

  /** That is so when nothing follows, or what follows begins with a punctuation mark. */
  lemma MarkEndsThere(text: string, after: string)
    requires after == "" || (!IsLetter(after[0]) && !IsNumeral(after[0]) && !IsGap(after[0]))
    ensures EndsThere(text, after)
  {
    forall end: nat | |text| < end
      ensures !IsIbanPrefix(text + after, end)
    {
      if after != "" {
        OtherEnds(text, after[0], after[1..], end);
        assert text + [after[0]] + after[1..] == text + after;
      }
    }
  }

  /** What stands around it here: no digits, no letter, digit or underscore just before, and nothing that makes it
      longer. */
  ghost predicate StandsApart(before: string, text: string, after: string) {
    && (forall c | c in before :: !IsNumeral(c)) && (forall c | c in after :: !IsNumeral(c))
    && (before == "" || var c := before[|before| - 1]; !IsLetter(c) && c != '_')
    && EndsThere(text, after)
  }

  lemma WrittenSpan(text: string, iban: string, after: string)
    requires IsWritten(text, iban) && EndsThere(text, after)
    ensures NormalizeIban(text) == iban && IbanSpan(text + after) == Some(|text|)
  {
    SpelledIs(text, iban);
    WrittenPrefix(text, iban, text + after);
    IbanSpanIsLongest(text + after);
  }

  lemma WrittenPrefix(text: string, iban: string, s: string)
    requires IsWritten(text, iban) && text <= s
    ensures IsIbanPrefix(s, |text|)
  {
    SpelledIs(text, iban);
    assert s[..|text|] == text;
    assert text[|text| - 1] in text;
  }

  /** An IBAN begins where it stands, and nowhere before or after. */
  lemma BeginsThere(before: string, text: string, iban: string, after: string, at: nat)
    requires IsWritten(text, iban) && StandsApart(before, text, after)
    ensures var input := before + text + after;
            && (at == |before| ==> BeginsIban(input, at) && IbanSpan(input[at..]) == Some(|text|))
            && (at < |before| || at >= |before| + |text| ==> !BeginsIban(input, at))
  {
    var input := before + text + after;
    if at == |before| {
      WrittenSpan(text, iban, after);
      assert input[at..] == text + after;
      if before != "" {
        assert before[|before| - 1] in before && input[at - 1] == before[|before| - 1];
      }
      assert (text + after)[0] == text[0] && (text + after)[1] == text[1];
      assert (text + after)[2] == text[2] && (text + after)[3] == text[3];
    } else if at + 3 < |input| && (at < |before| || at >= |before| + |text|) {
      NoDigitsAt(before, text, after, at);
      assert input[at..][2] == input[at + 2] && input[at..][3] == input[at + 3];
    }
  }

  lemma NoDigitsAt(before: string, text: string, after: string, at: nat)
    requires StandsApart(before, text, after) && |text| >= 4 && IsLetter(text[0]) && IsLetter(text[1])
    requires at + 3 < |before + text + after| && (at < |before| || at >= |before| + |text|)
    ensures var input := before + text + after; !IsDigit(input[at + 2]) || !IsDigit(input[at + 3])
  {
    var input := before + text + after;
    if at >= |before| + |text| {
      assert input[at + 2] == after[at + 2 - |before| - |text|];
      assert after[at + 2 - |before| - |text|] in after;
    } else if at + 2 < |before| {
      assert input[at + 2] == before[at + 2] && before[at + 2] in before;
    } else {
      assert input[at + 2] == text[at + 2 - |before|];
    }
  }

  lemma OneEdit(edits: seq<Edit>, length: nat, start: nat, end: nat)
    requires Ordered(edits, 0, length) && start < end && Covered(edits, start)
    requires forall i | 0 <= i < |edits| ::
               start <= edits[i].start < end && edits[i].start < edits[i].end
               && (edits[i].start == start ==> edits[i].end == end)
    ensures |edits| == 1 && edits[0].start == start && edits[0].end == end
  {
    OrderedFits(edits, 0, length);
    var e :| e in edits && e.start <= start < e.end;
    var k :| 0 <= k < |edits| && edits[k] == e;
    assert edits[k].start == start && edits[k].end == end;
  }

  lemma EditsThere(p: Policy, before: string, text: string, iban: string, after: string, edits: seq<Edit>)
    requires IsWritten(text, iban) && StandsApart(before, text, after) && edits == ChosenEdits(before + text + after, p)
    ensures |edits| == 1 && edits[0].start == |before| && edits[0].end == |before| + |text|
  {
    var input, start, end := before + text + after, |before|, |before| + |text|;
    BeginsThere(before, text, iban, after, start);
    ChosenAreIbans(input, p);
    StartCovered(input, p, start);
    forall i | 0 <= i < |edits|
      ensures start <= edits[i].start < end && edits[i].start < edits[i].end
      ensures edits[i].start == start ==> edits[i].end == end
    {
      assert edits[i] in edits && IsIbanEdit(input, p, edits[i]);
      BeginsThere(before, text, iban, after, edits[i].start);
    }
    OneEdit(edits, |input|, start, end);
  }

  /** Just that is replaced. */
  lemma ChosenIs(p: Policy, before: string, text: string, iban: string, after: string)
    requires IsWritten(text, iban) && StandsApart(before, text, after)
    ensures ChosenEdits(before + text + after, p) ==
            [Edit(|before|, |before| + |text|, Placeholder(p, DetectorKind.Iban, iban))]
  {
    var edits := ChosenEdits(before + text + after, p);
    EditsThere(p, before, text, iban, after, edits);
    ChosenIsIban(before + text + after, p, 0);
    assert (before + text + after)[|before|..|before| + |text|] == text;
    SpelledIs(text, iban);
    SingleEdit(edits, |before|, |before| + |text|, Placeholder(p, DetectorKind.Iban, iban));
  }

  lemma SingleEdit(edits: seq<Edit>, start: nat, end: nat, text: string)
    requires |edits| == 1 && edits[0].start == start && edits[0].end == end && edits[0].text == text
    ensures edits == [Edit(start, end, text)]
  {
  }

  lemma PassIs(p: Policy, before: string, text: string, iban: string, after: string)
    requires IsWritten(text, iban) && StandsApart(before, text, after)
    ensures PassOver(before + text + after, StageMatches(before + text + after),
                     IbanDecisions(before + text + after, p)) ==
            Pass(before + Placeholder(p, DetectorKind.Iban, iban) + after, [DetectorKind.Iban])
  {
    var input := before + text + after;
    var edits, decide := ChosenEdits(input, p), IbanDecisions(input, p);
    ChosenIs(p, before, text, iban, after);
    PickedOrdered(StageMatches(input), decide, 0, |input|);
    EditsFollowPicks(Chosen(input, p), decide);
    OneSplice(input, edits, before, text, Placeholder(p, DetectorKind.Iban, iban), after);
    OneRecord(Chosen(input, p), decide);
  }

  lemma OneSplice(input: string, edits: seq<Edit>, before: string, text: string, replacement: string, after: string)
    requires input == before + text + after && edits == [Edit(|before|, |before| + |text|, replacement)]
    ensures Ordered(edits, 0, |input|) && Splice(input, edits, 0) == before + replacement + after
  {
    assert edits[1..] == [];
    assert input[0..|before|] == before && input[|before| + |text|..] == after;
  }

  lemma OneRecord(picked: seq<Captures>, decide: Captures -> Decision)
    requires |picked| == 1 && decide(picked[0]).Act? && decide(picked[0]).kinds == [DetectorKind.Iban]
    ensures Kinds(picked, decide) == [DetectorKind.Iban]
  {
    assert picked[1..] == [];
  }

  /** An IBAN in a text, in whatever case and spacing, is replaced, and recorded once. */
  lemma WrittenRedacted(engine: Engine, stage: Stage, p: Policy, before: string, text: string, iban: string,
                        after: string)
    requires stage.Ibans? && !p.Keyless() && IsWritten(text, iban) && StandsApart(before, text, after)
    ensures Yields(engine, stage, p, before + text + after,
                   before + Placeholder(p, DetectorKind.Iban, iban) + after, [DetectorKind.Iban])
  {
    PassIs(p, before, text, iban, after);
    StageRuns.StageRecordsFinds(engine, p, stage, before + text + after);
  }

  /** In particular one that is written in groups of four. */
  lemma GroupedRedacted(engine: Engine, stage: Stage, p: Policy, before: string, iban: string, after: string)
    requires stage.Ibans? && !p.Keyless() && IsIban(iban) && StandsApart(before, Grouped(iban), after)
    ensures Yields(engine, stage, p, before + Grouped(iban) + after,
                   before + Placeholder(p, DetectorKind.Iban, iban) + after, [DetectorKind.Iban])
  {
    GroupedSpells(iban);
    var text := Grouped(iban);
    assert text[0] == text[..4][0] && text[1] == text[..4][1] && text[2] == text[..4][2] && text[3] == text[..4][3];
    assert iban[|iban| - 1] in iban;
    WrittenRedacted(engine, stage, p, before, text, iban, after);
  }
}
