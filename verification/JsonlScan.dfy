/** `scan_jsonl`: counting what redaction would find, in all lines or in the first few. */
module JsonlScan {
  import opened Wrappers
  import opened Text
  import opened Detectors
  import opened Policy
  import opened Stats
  import opened Pipeline
  import opened JsonWalk
  import opened LineReading
  import opened Jsonl
  import JsonLaws
  import PipelineLaws

  /** What scanning the content of a line counts; nothing if it fails. */
  function LineScan(sv: Service, content: string): Option<seq<DetectorKind>> {
    if IsBlank(content) then Some([])
    else
      match sv.parse(content)
      case Some(value) => Scan(sv.ScanWalker(), value)
      case None =>
        match RedactedStr(sv.engine, ScanPolicy(sv.hmac), content)
        case None => None
        case Some(pass) => Some(pass.events)
  }

  function WholeLineScan(sv: Service, line: string): Option<seq<DetectorKind>> {
    LineScan(sv, SplitLineEnding(line).0)
  }

  function ByLineScan(sv: Service): string -> Option<seq<DetectorKind>> { line => WholeLineScan(sv, line) }

  /** The counts of the lines, one after the other. */
  function AllScans(each: string -> Option<seq<DetectorKind>>, lines: seq<string>): Option<seq<DetectorKind>> {
    if lines == [] then Some([]) else Joined(AllScans(each, lines[..|lines| - 1]), each(lines[|lines| - 1]))
  }

  function ScannedLines(sv: Service, lines: seq<string>): Option<seq<DetectorKind>> { AllScans(ByLineScan(sv), lines) }

  /** Scanning never fails. */
  lemma LineScanSucceeds(sv: Service, content: string)
    ensures LineScan(sv, content).Some?
  {
    if !IsBlank(content) {
      match sv.parse(content) {
        case Some(value) => JsonLaws.JsonVerdict(sv.engine, sv.hmac, ScanPolicy(sv.hmac), sv.serialize, value);
        case None => PipelineLaws.StringVerdict(sv.engine, ScanPolicy(sv.hmac), ScanPolicy(sv.hmac), content);
      }
    }
  }

  lemma ScansStep(each: string -> Option<seq<DetectorKind>>, lines: seq<string>, i: nat)
    requires i < |lines|
    ensures AllScans(each, lines[..i + 1]) == Joined(AllScans(each, lines[..i]), each(lines[i]))
  {
    assert lines[..i + 1][..i] == lines[..i];
  }

  lemma {:induction false} ScansSucceed(each: string -> Option<seq<DetectorKind>>, lines: seq<string>)
    requires forall line :: each(line).Some?
    ensures AllScans(each, lines).Some?
  {
    if lines != [] {
      ScansSucceed(each, lines[..|lines| - 1]);
    }
  }

  method ScanLine(sv: Service, content: string) returns (r: Result<ScanReport, Error>)
    ensures r.Success? && fresh(r.value)
    ensures Counts(r, LineScan(sv, content))
  {
    LineScanSucceeds(sv, content);
    if IsBlank(content) {
      var stats := new ScanReport();
      return Success(stats);
    }
    var parsed := sv.parse(content);
    if parsed.Some? {
      r := ScanValueInner(sv.engine, sv.serialize, sv.hmac, parsed.value);
    } else {
      r := ScanStr(sv.engine, sv.hmac, content);
    }
  }

  /** A function that gives the counts of each line. */
  ghost predicate CountsLines(sv: Service, each: string -> Option<seq<DetectorKind>>) {
    forall line {:trigger WholeLineScan(sv, line)} :: each(line) == WholeLineScan(sv, line)
  }

  lemma LineCounts(sv: Service) returns (each: string -> Option<seq<DetectorKind>>)
    ensures CountsLines(sv, each)
  {
    each := ByLineScan(sv);
  }

  /** Adds the counts of one line to those before. */
  method MergeLine(sv: Service, content: string, detections: ScanReport, ghost line: string,
                   ghost events: seq<DetectorKind>, ghost each: string -> Option<seq<DetectorKind>>)
    returns (ghost found: seq<DetectorKind>)
    requires content == SplitLineEnding(line).0 && CountsLines(sv, each)
    requires detections.View() == Tally(events)
    modifies detections
    ensures each(line) == Some(found) && detections.View() == Tally(events + found)
  {
    var report := ScanLine(sv, content);
    found := WholeLineScan(sv, line).value;
    MergeOfTallies(events, found);
    detections.Merge(report.value.View());
  }

  datatype ScanOutput = ScanOutput(linesScanned: u64, truncated: bool, detections: Report)

  /** How many of `count` lines are scanned; a limit of zero is no limit. */
  function Sampled(sampleLimit: nat, count: nat): nat {
    if sampleLimit == 0 || count <= sampleLimit then count else sampleLimit
  }

  /** The outcome of a scan: it fails exactly when a line that is scanned is too long, and else gives the exact
      counts of the lines scanned, with a mark if there are more. */
  ghost predicate IsScanOf(r: Result<ScanOutput, CliError>, each: string -> Option<seq<DetectorKind>>,
                           lines: seq<string>, sampleLimit: nat, maxLineBytes: nat)
  {
    var n := Sampled(sampleLimit, |lines|);
    && (r.Failure? <==> exists k | 0 <= k < n :: |lines[k]| > maxLineBytes)
    && AllScans(each, lines[..n]).Some?
    && (r.Success? ==>
          r.value == ScanOutput(Saturate(n), n < |lines|, Tally(AllScans(each, lines[..n]).value)))
  }

  /** Where a scan ends: after how many lines, whether there are more, and with what counts. */
  datatype ScanEnd = ScanEnd(lines: nat, more: bool, events: seq<DetectorKind>)

  /** How a scan ends that has counted `events` in `i` lines and has `rest` to read; nothing if it fails. */
  ghost function ScanFrom(each: string -> Option<seq<DetectorKind>>, sampleLimit: nat, maxLineBytes: nat,
                          rest: string, i: nat, events: seq<DetectorKind>): Option<ScanEnd>
    decreases |rest|
  {
    if sampleLimit > 0 && i >= sampleLimit then Some(ScanEnd(i, rest != "", events))
    else if rest == "" then Some(ScanEnd(i, false, events))
    else
      var n := LineLength(rest);
      if n > maxLineBytes || each(rest[..n]).None? then None
      else ScanFrom(each, sampleLimit, maxLineBytes, rest[n..], i + 1, events + each(rest[..n]).value)
  }

  ghost predicate Ends(r: Result<ScanOutput, CliError>, goal: Option<ScanEnd>) {
    && (r.Failure? <==> goal.None?)
    && (r.Success? ==> r.value == ScanOutput(Saturate(goal.value.lines), goal.value.more, Tally(goal.value.events)))
  }

  lemma {:induction false} ScanFromIs(each: string -> Option<seq<DetectorKind>>, sampleLimit: nat, maxLineBytes: nat,
                                      lines: seq<string>, rest: string, i: nat, events: seq<DetectorKind>)
    requires ReadTo(lines, i, rest) && i <= Sampled(sampleLimit, |lines|)
    requires forall line :: each(line).Some?
    requires AllScans(each, lines[..i]) == Some(events)
    requires forall k | 0 <= k < i :: |lines[k]| <= maxLineBytes
    ensures var n := Sampled(sampleLimit, |lines|);
            var r := ScanFrom(each, sampleLimit, maxLineBytes, rest, i, events);
            && (r.None? <==> exists k | 0 <= k < n :: |lines[k]| > maxLineBytes)
            && (r.Some? ==>
                  && AllScans(each, lines[..n]).Some?
                  && r.value == ScanEnd(n, n < |lines|, AllScans(each, lines[..n]).value))
    decreases |rest|
  {
    NextLine(lines, i, rest);
    if i < Sampled(sampleLimit, |lines|) {
      if |lines[i]| <= maxLineBytes {
        ScansStep(each, lines, i);
        ScanFromIs(each, sampleLimit, maxLineBytes, lines, rest[LineLength(rest)..], i + 1,
                   events + each(lines[i]).value);
      }
    }
  }

  lemma {:induction false} SameScans(d: string -> Option<seq<DetectorKind>>, e: string -> Option<seq<DetectorKind>>,
                                     lines: seq<string>)
    requires forall line :: d(line) == e(line)
    ensures AllScans(d, lines) == AllScans(e, lines)
  {
    if lines != [] {
      SameScans(d, e, lines[..|lines| - 1]);
    }
  }

  lemma ScanIs(sv: Service, each: string -> Option<seq<DetectorKind>>, sampleLimit: nat, maxLineBytes: nat,
               input: string, r: Result<ScanOutput, CliError>)
    requires CountsLines(sv, each)
    requires Ends(r, ScanFrom(each, sampleLimit, maxLineBytes, input, 0, []))
    ensures IsScanOf(r, ByLineScan(sv), Lines(input), sampleLimit, maxLineBytes)
  {
    var lines := Lines(input);
    forall line
      ensures each(line).Some? && each(line) == ByLineScan(sv)(line)
    {
      assert each(line) == WholeLineScan(sv, line);
      LineScanSucceeds(sv, SplitLineEnding(line).0);
    }
    AllScanned(each, ByLineScan(sv), sampleLimit, maxLineBytes, input, r);
  }

  lemma AllScanned(each: string -> Option<seq<DetectorKind>>, same: string -> Option<seq<DetectorKind>>,
                   sampleLimit: nat, maxLineBytes: nat, input: string, r: Result<ScanOutput, CliError>)
    requires forall line :: each(line).Some? && each(line) == same(line)
    requires Ends(r, ScanFrom(each, sampleLimit, maxLineBytes, input, 0, []))
    ensures IsScanOf(r, same, Lines(input), sampleLimit, maxLineBytes)
  {
    var lines := Lines(input);
    var scanned := lines[..Sampled(sampleLimit, |lines|)];
    ScansSucceed(each, scanned);
    SameScans(each, same, scanned);
    assert lines[0..] == lines;
    ScanFromIs(each, sampleLimit, maxLineBytes, lines, input, 0, []);
  }

  /** One turn of a scan: reads a line and adds its counts, unless the line is too long or the input has ended. */
  method ScanNext(reader: BufReader, sv: Service, maxLineBytes: nat, detections: ScanReport,
                  ghost events: seq<DetectorKind>, ghost each: string -> Option<seq<DetectorKind>>)
    returns (read: Option<string>, ghost found: seq<DetectorKind>)
    requires reader.Valid() && CountsLines(sv, each) && detections.View() == Tally(events)
    modifies reader, detections
    ensures reader.Valid()
    ensures var rest := old(reader.Rest());
            var n := LineLength(rest);
            && (read.None? <==> n > maxLineBytes)
            && (read.Some? ==> read.value == rest[..n] && reader.Rest() == rest[n..])
    ensures read.Some? && read.value == "" ==> detections.View() == Tally(events)
    ensures read.Some? && read.value != "" ==>
              each(read.value) == Some(found) && detections.View() == Tally(events + found)
  {
    found := [];
    read := ReadLimitedLine(reader, maxLineBytes);
    if read.Some? && read.value != "" {
      var (content, _) := SplitLineEnding(read.value);
      found := MergeLine(sv, content, detections, read.value, events, each);
    }
  }

  /** The loop of a scan. */
  method ScanLoop(reader: BufReader, sv: Service, sampleLimit: u64, maxLineBytes: nat,
                  ghost each: string -> Option<seq<DetectorKind>>)
    returns (r: Result<ScanOutput, CliError>)
    requires reader.Valid() && CountsLines(sv, each)
    modifies reader
    ensures Ends(r, ScanFrom(each, sampleLimit, maxLineBytes, old(reader.Rest()), 0, []))
  {
    var linesScanned: u64 := 0;
    var detections := new ScanReport();
    var truncated := false;
    ghost var goal := ScanFrom(each, sampleLimit, maxLineBytes, reader.Rest(), 0, []);
    ghost var i: nat := 0;
    ghost var events: seq<DetectorKind> := [];
    while true
      invariant reader.Valid() && fresh(detections)
      invariant ScanFrom(each, sampleLimit, maxLineBytes, reader.Rest(), i, events) == goal
      invariant linesScanned == Saturate(i) && !truncated
      invariant detections.View() == Tally(events)
      decreases |reader.Rest()|
    {
      if sampleLimit > 0 && linesScanned >= sampleLimit {
        var available := reader.FillBuf();
        truncated := available != "";
        assert goal == Some(ScanEnd(i, truncated, events));
        break;
      }
      var read;
      ghost var found;
      read, found := ScanNext(reader, sv, maxLineBytes, detections, events, each);
      if read.None? {
        return Failure(LineTooLong);
      }
      if read.value == "" {
        assert goal == Some(ScanEnd(i, truncated, events));
        break;
      }
      events := events + found;
      linesScanned := SaturatingAdd(linesScanned, 1);
      i := i + 1;
    }
    r := Success(ScanOutput(linesScanned, truncated, detections.View()));
  }

  method ScanJsonl(reader: BufReader, sv: Service, sampleLimit: u64, maxLineBytes: nat)
    returns (r: Result<ScanOutput, CliError>)
    requires reader.Valid()
    modifies reader
    ensures IsScanOf(r, ByLineScan(sv), Lines(old(reader.Rest())), sampleLimit, maxLineBytes)
  {
    ghost var each := LineCounts(sv);
    r := ScanLoop(reader, sv, sampleLimit, maxLineBytes, each);
    ScanIs(sv, each, sampleLimit, maxLineBytes, old(reader.Rest()), r);
  }
}
