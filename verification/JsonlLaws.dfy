/** The command line tool, its scan and the proxy agree, line by line. */
module JsonlLaws {
  import opened Wrappers
  import opened Text
  import opened Detectors
  import opened Policy
  import opened Stats
  import opened Splicing
  import opened Json
  import opened Pipeline
  import opened JsonWalk
  import opened LineReading
  import opened Jsonl
  import opened JsonlScan
  import opened ProxyBody
  import JsonLaws
  import NoNewLines
  import PipelineLaws

  // ----- one line

  /** What scanning a line allows redaction to make of it. */
  ghost predicate LineAllowed(sv: Service, line: string, scan: Option<seq<DetectorKind>>, r: Option<Pass>) {
    && scan.Some?
    && (r.None? <==> sv.LoadPolicy().Failure? && !IsBlankLine(line))
    && (r.Some? ==> (r.value.events == [] <==> scan.value == []))
    && (r.Some? && sv.mode.Mask? ==> r.value.events == scan.value)
  }

  lemma ParsedLineAllowed(sv: Service, content: string, value: Json)
    requires sv.LoadPolicy().Success?
    ensures var scan, r := Scan(sv.ScanWalker(), value), ValueOutcome(sv, value);
            && scan.Some? && r.Some?
            && (r.value.events == [] <==> scan.value == [])
            && (sv.mode.Mask? ==> r.value.events == scan.value)
  {
    var policy := sv.LoadPolicy().value;
    JsonLaws.JsonVerdict(sv.engine, sv.hmac, policy, sv.serialize, value);
    if sv.mode.Mask? {
      JsonLaws.ScanIsMask(sv.engine, sv.hmac, policy, sv.serialize, value);
    }
  }

  lemma TextLineAllowed(sv: Service, content: string)
    requires sv.LoadPolicy().Success?
    ensures var scan, r := RedactedStr(sv.engine, ScanPolicy(sv.hmac), content), TextOutcome(sv, content);
            && scan.Some? && r.Some?
            && (r.value.events == [] <==> scan.value.events == [])
            && (sv.mode.Mask? ==> r.value.events == scan.value.events)
  {
    var policy := sv.LoadPolicy().value;
    PipelineLaws.StringVerdict(sv.engine, ScanPolicy(sv.hmac), policy, content);
    if sv.mode.Mask? {
      PipelineLaws.ScanIsMask(sv.engine, policy, ScanPolicy(sv.hmac), content);
    }
  }

  /** Redaction of a line fails exactly when the key is not to be had and the line is not blank; it records
      something exactly when the scan does, and in mask mode the very same. */
  lemma LineVerdict(sv: Service, line: string)
    ensures LineAllowed(sv, line, WholeLineScan(sv, line), WholeLine(sv, line))
  {
    var content := SplitLineEnding(line).0;
    LineScanSucceeds(sv, content);
    if !IsBlank(content) && sv.LoadPolicy().Success? {
      match sv.parse(content) {
        case Some(value) => ParsedLineAllowed(sv, content, value);
        case None => TextLineAllowed(sv, content);
      }
    }
  }

  // ----- all lines

  /** What scanning some lines allows redaction to make of them. */
  ghost predicate LinesAllowed(noKey: bool, mask: bool, lines: seq<string>, scan: Option<seq<DetectorKind>>,
                               r: Option<Pass>)
  {
    && scan.Some?
    && (r.None? <==> noKey && exists line | line in lines :: !IsBlankLine(line))
    && (r.Some? ==> (r.value.events == [] <==> scan.value == []))
    && (r.Some? && mask ==> r.value.events == scan.value)
  }

  lemma {:induction false} LinesVerdict(noKey: bool, mask: bool, each: string -> Option<Pass>,
                                        count: string -> Option<seq<DetectorKind>>, lines: seq<string>)
    requires forall line :: LinesAllowed(noKey, mask, [line], count(line), each(line))
    ensures LinesAllowed(noKey, mask, lines, AllScans(count, lines), AllLines(each, lines))
  {
    if lines != [] {
      var n := |lines| - 1;
      LinesVerdict(noKey, mask, each, count, lines[..n]);
      assert LinesAllowed(noKey, mask, [lines[n]], count(lines[n]), each(lines[n]));
      OneMoreLine(lines[..n], lines[n]);
      assert lines == lines[..n] + [lines[n]];
    }
  }

  lemma OneMoreLine(front: seq<string>, last: string)
    ensures (exists line | line in front + [last] :: !IsBlankLine(line)) <==>
            (exists line | line in front :: !IsBlankLine(line)) || (exists line | line in [last] :: !IsBlankLine(line))
  {
    assert last in front + [last] && last in [last];
    assert forall line | line in front :: line in front + [last];
  }

  /** Over all lines of a text: redaction fails exactly when the key is not to be had and some line is not
      blank; otherwise it records nothing exactly when the scan counts nothing, and in mask mode it records
      exactly what the scan counts. */
  lemma TextVerdict(sv: Service, lines: seq<string>)
    ensures LinesAllowed(sv.LoadPolicy().Failure?, sv.mode.Mask?, lines, ScannedLines(sv, lines),
                         RedactedLines(sv, lines))
  {
    var noKey, mask, each, count := sv.LoadPolicy().Failure?, sv.mode.Mask?, ByLine(sv), ByLineScan(sv);
    forall line
      ensures LinesAllowed(noKey, mask, [line], count(line), each(line))
    {
      LineVerdict(sv, line);
      assert line in [line];
    }
    LinesVerdict(noKey, mask, each, count, lines);
  }

  /** In mask mode the report of the proxy is what the scan of all lines detects. */
  lemma ProxyCountsScan(sv: Service, input: string, maxLineBytes: nat, scan: Result<ScanOutput, CliError>)
    requires sv.mode.Mask? && IsScanOf(scan, ByLineScan(sv), Lines(input), 0, maxLineBytes) && scan.Success?
    ensures BodyOutcome(sv, input, true).Some?
    ensures scan.value == ScanOutput(Saturate(|Lines(input)|), false, Tally(BodyOutcome(sv, input, true).value.events))
  {
    var lines := Lines(input);
    TextVerdict(sv, lines);
    assert lines[..|lines|] == lines;
  }

  // ----- the tool and the proxy

  lemma {:induction false} AllGood(each: string -> Option<Pass>, maxLineBytes: nat, lines: seq<string>)
    requires forall line | line in lines :: |line| <= maxLineBytes
    ensures GoodLines(each, maxLineBytes, lines) == |lines| <==> forall line | line in lines :: each(line).Some?
  {
    if lines != [] {
      AllGood(each, maxLineBytes, lines[1..]);
      assert forall line :: line in lines <==> line == lines[0] || line in lines[1..];
    }
  }

  lemma {:induction false} AllSucceed(each: string -> Option<Pass>, lines: seq<string>)
    ensures AllLines(each, lines).Some? <==> forall line | line in lines :: each(line).Some?
  {
    if lines != [] {
      var n := |lines| - 1;
      AllSucceed(each, lines[..n]);
      assert forall line :: line in lines <==> line in lines[..n] || line == lines[n];
    }
  }

  /** When no line is too long, the tool and the proxy, told that the body is JSON lines, fail on the same texts
      and otherwise produce the same output. */
  lemma ToolIsProxy(sv: Service, input: string, maxLineBytes: nat)
    requires forall line | line in Lines(input) :: |line| <= maxLineBytes
    ensures var lines := Lines(input);
            var good := GoodLines(ByLine(sv), maxLineBytes, lines);
            && (good == |lines| <==> BodyOutcome(sv, input, true).Some?)
            && (good == |lines| ==> RedactedLines(sv, lines[..good]) == BodyOutcome(sv, input, true))
  {
    var lines := Lines(input);
    AllGood(ByLine(sv), maxLineBytes, lines);
    AllSucceed(ByLine(sv), lines);
    assert lines[..|lines|] == lines;
  }

  // ----- lines stay lines

  /** What each line has become. */
  function Redone(each: string -> Option<Pass>, lines: seq<string>): (out: seq<string>)
    ensures |out| == |lines|
  {
    if lines == [] then []
    else
      var last := each(lines[|lines| - 1]);
      Redone(each, lines[..|lines| - 1]) + [if last.Some? then last.value.text else ""]
  }

  lemma {:induction false} ConcatSnoc(parts: seq<string>, last: string)
    ensures Concat(parts + [last]) == Concat(parts) + last
  {
    if parts == [] {
      assert parts + [last] == [last];
    } else {
      ConcatSnoc(parts[1..], last);
      assert (parts + [last])[1..] == parts[1..] + [last];
      ConcatThree(parts[0], Concat(parts[1..]), last);
    }
  }

  lemma {:induction false} TextIsRedone(each: string -> Option<Pass>, lines: seq<string>)
    requires AllLines(each, lines).Some?
    ensures AllLines(each, lines).value.text == Concat(Redone(each, lines))
  {
    if lines != [] {
      var n := |lines| - 1;
      TextIsRedone(each, lines[..n]);
      ConcatSnoc(Redone(each, lines[..n]), each(lines[n]).value.text);
    }
  }

  /** The content of a line, redacted, is one line. */
  lemma ContentOneLine(sv: Service, content: string)
    requires '\n' !in content
    ensures LineOutcome(sv, content).Some? ==> '\n' !in LineOutcome(sv, content).value.text
  {
    if !IsBlank(content) && sv.parse(content).None? && sv.LoadPolicy().Success? {
      NoNewLines.RedactedOneLine(sv.engine, sv.LoadPolicy().value, content);
    }
  }

  lemma ContentOfLine(line: string)
    requires IsLine(line)
    ensures var (content, ending) := SplitLineEnding(line);
            && '\n' !in content && line == content + ending
            && (if IsEnded(line) then IsLine(ending) && IsEnded(ending) else ending == "")
  {
    assert line == line[..|line| - 1] + [line[|line| - 1]];
  }

  lemma WithEnding(text: string, ending: string)
    requires '\n' !in text && IsLine(ending)
    ensures IsLine(text + ending) && (IsEnded(ending) ==> IsEnded(text + ending))
  {
    assert (text + ending)[..|text + ending| - 1] == text + ending[..|ending| - 1];
  }

  /** A redacted line has the ending it had. */
  lemma LineStaysLine(sv: Service, line: string)
    requires IsLine(line) && WholeLine(sv, line).Some?
    ensures var out := WholeLine(sv, line).value.text;
            && (IsEnded(line) ==> IsLine(out) && IsEnded(out))
            && (!IsEnded(line) ==> '\n' !in out)
  {
    var (content, ending) := SplitLineEnding(line);
    ContentOfLine(line);
    ContentOneLine(sv, content);
    if IsEnded(line) {
      WithEnding(LineOutcome(sv, content).value.text, ending);
    }
  }

  /** Lines, of which the last may be empty. */
  ghost predicate Framed(out: seq<string>) {
    && (forall i | 0 <= i < |out| - 1 :: IsLine(out[i]) && IsEnded(out[i]))
    && (out != [] ==> var last := out[|out| - 1]; last == "" || IsLine(last))
  }

  function DropEmptyLast(out: seq<string>): seq<string> {
    if out != [] && out[|out| - 1] == "" then out[..|out| - 1] else out
  }

  lemma {:induction false} EndedSplit(out: seq<string>)
    requires forall i | 0 <= i < |out| :: IsLine(out[i]) && (i + 1 < |out| ==> IsEnded(out[i]))
    ensures IsSplit(out)
  {
    if out != [] {
      EndedSplit(out[1..]);
    }
  }

  lemma FramedSplit(out: seq<string>)
    requires Framed(out)
    ensures Lines(Concat(out)) == DropEmptyLast(out)
  {
    var kept := DropEmptyLast(out);
    EndedSplit(kept);
    SplitIsUnique(kept);
    if kept != out {
      ConcatSnoc(kept, "");
      assert out == kept + [""];
      assert Concat(kept) + "" == Concat(kept);
    }
  }

  lemma {:induction false} RedoneAt(each: string -> Option<Pass>, lines: seq<string>, i: nat)
    requires i < |lines| && each(lines[i]).Some?
    ensures Redone(each, lines)[i] == each(lines[i]).value.text
  {
    if i < |lines| - 1 {
      RedoneAt(each, lines[..|lines| - 1], i);
    }
  }

  /** Line `i` of the output is line `i` of the input redacted: redaction neither splits nor joins lines. Only a
      last line without a newline that is redacted to nothing leaves no line behind. */
  lemma LinesStayLines(sv: Service, input: string)
    requires RedactedLines(sv, Lines(input)).Some?
    ensures Lines(RedactedLines(sv, Lines(input)).value.text) == DropEmptyLast(Redone(ByLine(sv), Lines(input)))
  {
    var lines, each := Lines(input), ByLine(sv);
    var out := Redone(each, lines);
    LinesSplit(input);
    LinesAreLines(lines);
    AllSucceed(each, lines);
    forall i | 0 <= i < |lines|
      ensures i < |lines| - 1 ==> IsLine(out[i]) && IsEnded(out[i])
      ensures out[i] == "" || IsLine(out[i])
    {
      assert lines[i] in lines;
      assert each(lines[i]) == WholeLine(sv, lines[i]);
      RedoneAt(each, lines, i);
      LineStaysLine(sv, lines[i]);
    }
    FramedSplit(out);
    TextIsRedone(each, lines);
  }
}
