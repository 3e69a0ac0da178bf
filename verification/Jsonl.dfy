/** What becomes of a line, and `redact_jsonl` of the command line tool. */
module Jsonl {
  import opened Wrappers
  import opened Text
  import opened Detectors
  import opened Policy
  import opened Stats
  import opened Splicing
  import opened Json
  import opened Pipeline
  import opened JsonWalk
  import opened LineReading

  /** A JSON parser; what it accepts is an object with keys in order, at every depth. */
  type Parser = f: string -> Option<Json> | forall s :: f(s).Some? ==> WellFormed(f(s).value)
    witness (s: string) => None

  /** A compact JSON serializer: it escapes control characters, as section 7 of RFC 8259 demands. */
  type Serializer = f: Json -> string | forall v :: '\n' !in f(v) witness (v: Json) => ""

  /** An engine with its configuration and the foreign code it calls. */
  datatype Service = Service(engine: Engine, mode: Mode, hashEnv: string, variable: Option<seq<byte>>,
                             hmac: (seq<byte>, string) -> seq<byte>, parse: Parser, serialize: Serializer)
  {
    function LoadPolicy(): Result<Policy, Error> { FromConfig(mode, hashEnv, variable, hmac) }

    function ScanWalker(): Walker { WalkerOf(engine, ScanPolicy(hmac), serialize) }
  }

  /** What `redact_value` makes of a value. */
  function ValueOutcome(sv: Service, value: Json): Option<Outcome> {
    match sv.LoadPolicy()
    case Failure(_) => None
    case Success(policy) => Walk(WalkerOf(sv.engine, policy, sv.serialize), value)
  }

  /** What `redact_str` makes of a text. */
  function TextOutcome(sv: Service, text: string): Option<Pass> {
    match sv.LoadPolicy()
    case Failure(_) => None
    case Success(policy) => RedactedStr(sv.engine, policy, text)
  }

  /** The content of a line and its ending. */
  function SplitLineEnding(line: string): (string, string) {
    var n := |line|;
    if n >= 2 && line[n - 2] == '\r' && line[n - 1] == '\n' then (line[..n - 2], "\r\n")
    else if n >= 1 && line[n - 1] == '\n' then (line[..n - 1], "\n")
    else (line, "")
  }

  /** A line is cut before its line feed, and before a carriage return in front of that. */
  lemma LineEndingIs(content: string)
    requires '\n' !in content
    ensures SplitLineEnding(content) == (content, "")
    ensures SplitLineEnding(content + "\r\n") == (content, "\r\n")
    ensures content == "" || content[|content| - 1] != '\r' ==> SplitLineEnding(content + "\n") == (content, "\n")
  {
    var both, one := content + "\r\n", content + "\n";
    assert both[..|content|] == content && one[..|content|] == content;
  }

  /** What becomes of the content of a line: JSON is redacted as JSON, anything else as text. */
  function LineOutcome(sv: Service, content: string): Option<Pass> {
    if IsBlank(content) then Some(Pass(content, []))
    else
      match sv.parse(content)
      case Some(value) =>
        (match ValueOutcome(sv, value)
         case None => None
         case Some(r) => Some(Pass(sv.serialize(r.value), r.events)))
      case None => TextOutcome(sv, content)
  }

  function WholeLine(sv: Service, line: string): Option<Pass> {
    match LineOutcome(sv, SplitLineEnding(line).0)
    case None => None
    case Some(pass) => Some(Pass(pass.text + SplitLineEnding(line).1, pass.events))
  }

  function ByLine(sv: Service): string -> Option<Pass> { line => WholeLine(sv, line) }

  /** The passes over the lines, one after the other; nothing if one fails. */
  function AllLines(each: string -> Option<Pass>, lines: seq<string>): Option<Pass> {
    if lines == [] then Some(Pass("", []))
    else
      match (AllLines(each, lines[..|lines| - 1]), each(lines[|lines| - 1]))
      case (Some(front), Some(last)) => Some(Pass(front.text + last.text, front.events + last.events))
      case _ => None
  }

  lemma LinesStep(each: string -> Option<Pass>, lines: seq<string>, i: nat, front: Pass)
    requires i < |lines| && AllLines(each, lines[..i]) == Some(front)
    ensures AllLines(each, lines[..i + 1]) ==
            match each(lines[i])
            case None => None
            case Some(last) => Some(Pass(front.text + last.text, front.events + last.events))
  {
    assert lines[..i + 1][..i] == lines[..i];
  }

  lemma {:induction false} LinesFail(each: string -> Option<Pass>, lines: seq<string>, i: nat)
    requires i <= |lines| && AllLines(each, lines[..i]).None?
    ensures AllLines(each, lines).None?
  {
    if i == |lines| {
      assert lines[..i] == lines;
    } else {
      var n := |lines| - 1;
      assert lines[..n][..i] == lines[..i];
      LinesFail(each, lines[..n], i);
    }
  }

  /** A text, redacted line by line; nothing if a line fails. */
  function RedactedLines(sv: Service, lines: seq<string>): Option<Pass> { AllLines(ByLine(sv), lines) }

  // ----- one value, one text, one line

  ghost predicate TextYields(r: Result<string, Error>, report: Report, goal: Option<Pass>) {
    && (r.Failure? <==> goal.None?)
    && (r.Success? ==> r.value == goal.value.text && report == Tally(goal.value.events))
  }

  method RedactValue(sv: Service, value: Json) returns (r: Result<Json, Error>, stats: ScanReport)
    requires WellFormed(value)
    ensures fresh(stats)
    ensures Yields(r, stats.View(), ValueOutcome(sv, value))
  {
    var policy := sv.LoadPolicy();
    if policy.Failure? {
      stats := new ScanReport();
      return Failure(policy.error), stats;
    }
    r, stats := RedactValueInner(sv.engine, sv.serialize, value, policy.value);
  }

  method RedactStr(sv: Service, input: string) returns (r: Result<string, Error>, stats: ScanReport)
    ensures fresh(stats)
    ensures TextYields(r, stats.View(), TextOutcome(sv, input))
  {
    var policy := sv.LoadPolicy();
    if policy.Failure? {
      stats := new ScanReport();
      return Failure(policy.error), stats;
    }
    r, stats := RedactStrWithPolicy(sv.engine, input, policy.value);
  }

  method RedactLine(sv: Service, content: string) returns (r: Result<string, Error>)
    ensures r.Failure? <==> LineOutcome(sv, content).None?
    ensures r.Success? ==> r.value == LineOutcome(sv, content).value.text
  {
    if IsBlank(content) {
      return Success(content);
    }
    var parsed := sv.parse(content);
    if parsed.Some? {
      var result, _ := RedactValue(sv, parsed.value);
      r := if result.Success? then Success(sv.serialize(result.value)) else Failure(result.error);
    } else {
      var result, _ := RedactStr(sv, content);
      r := result;
    }
  }

  // ----- the command line tool

  datatype CliError = LineTooLong | Redaction(error: Error)

  /** A line that the tool stops at. */
  predicate IsBad(each: string -> Option<Pass>, maxLineBytes: nat, line: string) {
    |line| > maxLineBytes || each(line).None?
  }

  /** How many lines come before the first bad one. */
  function GoodLines(each: string -> Option<Pass>, maxLineBytes: nat, lines: seq<string>): (n: nat)
    ensures n <= |lines|
  {
    if lines == [] || IsBad(each, maxLineBytes, lines[0]) then 0 else 1 + GoodLines(each, maxLineBytes, lines[1..])
  }

  lemma {:induction false} StopsAt(each: string -> Option<Pass>, maxLineBytes: nat, lines: seq<string>, i: nat)
    requires i <= |lines| && forall k | 0 <= k < i :: !IsBad(each, maxLineBytes, lines[k])
    requires i == |lines| || IsBad(each, maxLineBytes, lines[i])
    ensures GoodLines(each, maxLineBytes, lines) == i
  {
    if i > 0 {
      assert forall k | 0 <= k < i - 1 :: lines[1..][k] == lines[k + 1];
      StopsAt(each, maxLineBytes, lines[1..], i - 1);
    }
  }

  /** What is left to read after `i` lines. */
  ghost predicate ReadTo(lines: seq<string>, i: nat, rest: string) {
    i <= |lines| && Lines(rest) == lines[i..]
  }

  lemma NextLine(lines: seq<string>, i: nat, rest: string)
    requires ReadTo(lines, i, rest)
    ensures rest == "" <==> i == |lines|
    ensures rest != "" ==>
              && i < |lines| && lines[i] == rest[..LineLength(rest)] && |lines[i]| == LineLength(rest)
              && ReadTo(lines, i + 1, rest[LineLength(rest)..])
  {
    if rest != "" {
      assert lines[i..][1..] == lines[i + 1..] && lines[i..][0] == lines[i];
    }
  }

  /** The tool writes the redaction of every line up to the first bad one, whatever the chunks it reads, and
      fails exactly when there is a bad one. */
  method RedactJsonl(reader: BufReader, sv: Service, maxLineBytes: nat)
    returns (r: Result<(), CliError>, written: string)
    requires reader.Valid()
    modifies reader
    ensures var lines := Lines(old(reader.Rest()));
            var good := GoodLines(ByLine(sv), maxLineBytes, lines);
            && (r.Success? <==> good == |lines|)
            && RedactedLines(sv, lines[..good]).Some? && written == RedactedLines(sv, lines[..good]).value.text
            && (r.Failure? ==> (r.error.LineTooLong? <==> |lines[good]| > maxLineBytes))
  {
    written := "";
    ghost var each := ByLine(sv);
    ghost var lines := Lines(reader.Rest());
    ghost var i: nat := 0;
    ghost var events: seq<DetectorKind> := [];
    while true
      invariant reader.Valid() && ReadTo(lines, i, reader.Rest())
      invariant forall k | 0 <= k < i :: !IsBad(each, maxLineBytes, lines[k])
      invariant AllLines(each, lines[..i]) == Some(Pass(written, events))
      decreases |lines| - i
    {
      NextLine(lines, i, reader.Rest());
      var read := ReadLimitedLine(reader, maxLineBytes);
      if read.None? {
        StopsAt(each, maxLineBytes, lines, i);
        return Failure(LineTooLong), written;
      }
      var line := read.value;
      if line == "" {
        StopsAt(each, maxLineBytes, lines, i);
        return Success(()), written;
      }
      LinesStep(each, lines, i, Pass(written, events));
      var (content, newline) := SplitLineEnding(line);
      var redacted := RedactLine(sv, content);
      if redacted.Failure? {
        StopsAt(each, maxLineBytes, lines, i);
        return Failure(Redaction(redacted.error)), written;
      }
      ConcatThree(written, redacted.value, newline);
      written := written + redacted.value;
      written := written + newline;
      events := events + WholeLine(sv, line).value.events;
      i := i + 1;
    }
  }
}
