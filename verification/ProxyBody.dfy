/** `redact_jsonl_or_text`: the proxy's own reading of a body as lines. */
module ProxyBody {
  import opened Wrappers
  import opened Text
  import opened Detectors
  import opened Policy
  import opened Stats
  import opened Splicing
  import opened Json
  import opened LineReading
  import opened Jsonl
  import JsonLaws

  predicate IsBlankLine(line: string) { IsBlank(SplitLineEnding(line).0) }

  predicate IsJsonLine(sv: Service, line: string) {
    !IsBlankLine(line) && sv.parse(SplitLineEnding(line).0).Some?
  }

  /** A body that is read as JSON lines without being announced as such: every line that is not blank is JSON,
      and there is such a line. */
  predicate IsJsonl(sv: Service, lines: seq<string>) {
    && (forall line | line in lines :: IsBlankLine(line) || IsJsonLine(sv, line))
    && (exists line | line in lines :: IsJsonLine(sv, line))
  }

  /** What becomes of a body; nothing if it fails. */
  function BodyOutcome(sv: Service, input: string, preferJsonl: bool): Option<Pass> {
    if preferJsonl || ('\n' in input && IsJsonl(sv, Lines(input))) then RedactedLines(sv, Lines(input))
    else TextOutcome(sv, input)
  }

  /** Redaction of a value fails only for want of a key, and then redaction of any text fails too. */
  lemma ValueFails(sv: Service, value: Json, text: string)
    requires ValueOutcome(sv, value).None?
    ensures sv.LoadPolicy().Failure? && TextOutcome(sv, text).None?
  {
    if sv.LoadPolicy().Success? {
      JsonLaws.JsonVerdict(sv.engine, sv.hmac, sv.LoadPolicy().value, sv.serialize, value);
      assert false;
    }
  }

  /** One line: redacted as JSON if it is JSON, as text otherwise. */
  method AppendLine(sv: Service, line: string, output: string, stats: ScanReport, ghost events: seq<DetectorKind>)
    returns (r: Result<string, Error>, ghost after: seq<DetectorKind>)
    requires stats.View() == Tally(events)
    modifies stats
    ensures r.Failure? <==> WholeLine(sv, line).None?
    ensures r.Success? ==>
              && r.value == output + WholeLine(sv, line).value.text
              && after == events + WholeLine(sv, line).value.events
              && stats.View() == Tally(after)
  {
    var (content, newline) := SplitLineEnding(line);
    after := events;
    if IsBlank(content) {
      ConcatThree(output, content, newline);
      assert events + [] == events;
      return Success(output + content + newline), events;
    }
    var parsed := sv.parse(content);
    var text: Result<string, Error>;
    var lineStats: ScanReport;
    if parsed.Some? {
      var value;
      value, lineStats := RedactValue(sv, parsed.value);
      text := if value.Success? then Success(sv.serialize(value.value)) else Failure(value.error);
    } else {
      text, lineStats := RedactStr(sv, content);
    }
    if text.Failure? {
      return Failure(text.error), events;
    }
    ghost var found := WholeLine(sv, line).value.events;
    MergeOfTallies(events, found);
    after := events + found;
    stats.Merge(lineStats.View());
    ConcatThree(output, text.value, newline);
    r := Success(output + text.value + newline);
  }

  /** The body fails with its first failing line, however it is read. */
  lemma BodyFails(sv: Service, lines: seq<string>, preferJsonl: bool, i: nat, front: Pass)
    requires i < |lines| && AllLines(ByLine(sv), lines[..i]) == Some(front) && WholeLine(sv, lines[i]).None?
    requires preferJsonl || IsJsonLine(sv, lines[i]) || IsBlankLine(lines[i])
    ensures RedactedLines(sv, lines).None? && (preferJsonl || sv.LoadPolicy().Failure?)
  {
    LinesStep(ByLine(sv), lines, i, front);
    LinesFail(ByLine(sv), lines, i + 1);
    if !preferJsonl {
      ValueFails(sv, sv.parse(SplitLineEnding(lines[i]).0).value, "");
    }
  }

  /** What the loop knows of the first `i` lines. */
  ghost predicate ReadSoFar(sv: Service, preferJsonl: bool, parsedAnyJson: bool, lines: seq<string>, i: nat) {
    && i <= |lines|
    && (parsedAnyJson <==> exists k | 0 <= k < i :: IsJsonLine(sv, lines[k]))
    && (preferJsonl || forall k | 0 <= k < i :: IsBlankLine(lines[k]) || IsJsonLine(sv, lines[k]))
  }

  lemma ReadOneMore(sv: Service, preferJsonl: bool, parsedAnyJson: bool, lines: seq<string>, i: nat)
    requires i < |lines| && ReadSoFar(sv, preferJsonl, parsedAnyJson, lines, i)
    requires preferJsonl || IsBlankLine(lines[i]) || IsJsonLine(sv, lines[i])
    ensures ReadSoFar(sv, preferJsonl, parsedAnyJson || IsJsonLine(sv, lines[i]), lines, i + 1)
  {
  }

  lemma NotJsonl(sv: Service, lines: seq<string>, line: string)
    requires line in lines && !IsBlankLine(line) && !IsJsonLine(sv, line)
    ensures !IsJsonl(sv, lines)
  {
  }

  lemma NothingRead(sv: Service, preferJsonl: bool, lines: seq<string>)
    ensures ReadSoFar(sv, preferJsonl, false, lines, 0) && AllLines(ByLine(sv), lines[..0]) == Some(Pass("", []))
  {
  }

  lemma AllRead(sv: Service, preferJsonl: bool, parsedAnyJson: bool, lines: seq<string>, front: Pass)
    requires ReadSoFar(sv, preferJsonl, parsedAnyJson, lines, |lines|)
    requires AllLines(ByLine(sv), lines[..|lines|]) == Some(front)
    ensures RedactedLines(sv, lines) == Some(front) && (preferJsonl || (parsedAnyJson <==> IsJsonl(sv, lines)))
  {
    assert lines[..|lines|] == lines;
    if !preferJsonl {
      assert parsedAnyJson <==> IsJsonl(sv, lines);
    }
  }

  lemma LineAppended(sv: Service, lines: seq<string>, i: nat, before: Pass, output: string, events: seq<DetectorKind>)
    requires i < |lines| && AllLines(ByLine(sv), lines[..i]) == Some(before) && WholeLine(sv, lines[i]).Some?
    requires output == before.text + WholeLine(sv, lines[i]).value.text
    requires events == before.events + WholeLine(sv, lines[i]).value.events
    ensures AllLines(ByLine(sv), lines[..i + 1]) == Some(Pass(output, events))
  {
    LinesStep(ByLine(sv), lines, i, before);
  }

  /** The loop over the lines; it gives no result when the body is to be taken as one text. */
  method RedactLines(sv: Service, lines: seq<string>, preferJsonl: bool)
    returns (r: Option<Result<string, Error>>, stats: ScanReport)
    ensures fresh(stats)
    ensures r.None? ==> !preferJsonl && !IsJsonl(sv, lines)
    ensures r.Some? ==> TextYields(r.value, stats.View(), RedactedLines(sv, lines))
    ensures r.Some? && r.value.Success? ==> preferJsonl || IsJsonl(sv, lines)
    ensures r.Some? && r.value.Failure? ==> preferJsonl || sv.LoadPolicy().Failure?
  {
    var output := "";
    stats := new ScanReport();
    var parsedAnyJson := false;
    ghost var events: seq<DetectorKind> := [];
    NothingRead(sv, preferJsonl, lines);
    for i := 0 to |lines|
      invariant fresh(stats) && stats.View() == Tally(events)
      invariant AllLines(ByLine(sv), lines[..i]) == Some(Pass(output, events))
      invariant ReadSoFar(sv, preferJsonl, parsedAnyJson, lines, i)
    {
      if !preferJsonl && !IsBlankLine(lines[i]) && !IsJsonLine(sv, lines[i]) {
        NotJsonl(sv, lines, lines[i]);
        return None, stats;
      }
      var appended;
      ghost var before := Pass(output, events);
      appended, events := AppendLine(sv, lines[i], output, stats, events);
      if appended.Failure? {
        BodyFails(sv, lines, preferJsonl, i, before);
        return Some(Failure(appended.error)), stats;
      }
      output := appended.value;
      LineAppended(sv, lines, i, before, output, events);
      ReadOneMore(sv, preferJsonl, parsedAnyJson, lines, i);
      parsedAnyJson := parsedAnyJson || IsJsonLine(sv, lines[i]);
    }
    AllRead(sv, preferJsonl, parsedAnyJson, lines, Pass(output, events));
    r := if parsedAnyJson || preferJsonl then Some(Success(output)) else None;
  }

  method RedactJsonlOrText(sv: Service, input: string, preferJsonl: bool)
    returns (r: Result<string, Error>, stats: ScanReport)
    ensures fresh(stats)
    ensures TextYields(r, stats.View(), BodyOutcome(sv, input, preferJsonl))
  {
    if preferJsonl || '\n' in input {
      var lines;
      lines, stats := RedactLines(sv, Lines(input), preferJsonl);
      if lines.Some? {
        return lines.value, stats;
      }
    }
    r, stats := RedactStr(sv, input);
  }
}
