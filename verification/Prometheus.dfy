/** Label values in the Prometheus text format 0.0.4. */
module Prometheus {
  import opened Wrappers
  import opened Text

  function EscapeChar(c: char): string {
    if c == '\\' then "\\\\" else if c == '"' then "\\\"" else if c == '\n' then "\\n" else [c]
  }

  function Escape(input: string): string {
    if input == [] then [] else EscapeChar(input[0]) + Escape(input[1..])
  }

  /** `prometheus_escape_label_value`. */
  method PrometheusEscapeLabelValue(input: string) returns (output: string)
    ensures output == Escape(input)
  {
    output := [];
    for i := 0 to |input|
      invariant output + Escape(input[i..]) == Escape(input)
    {
      EscapeStep(output, input, i);
      match input[i] {
        case '\\' => output := output + "\\\\";
        case '"' => output := output + "\\\"";
        case '\n' => output := output + "\\n";
        case other => output := output + [other];
      }
    }
  }

  lemma EscapeStep(output: string, input: string, i: nat)
    requires i < |input|
    ensures output + Escape(input[i..]) == output + EscapeChar(input[i]) + Escape(input[i + 1..])
  {
    assert input[i..][1..] == input[i + 1..];
    ConcatThree(output, EscapeChar(input[i]), Escape(input[i + 1..]));
  }

  /** What a reader makes of an escaped value: a backslash goes with the character after it. */
  function Unescape(text: string): string {
    if text == [] then []
    else if text[0] != '\\' || |text| == 1 then [text[0]] + Unescape(text[1..])
    else [if text[1] == 'n' then '\n' else text[1]] + Unescape(text[2..])
  }

  /** Where a reader sees the first quote that is not escaped. */
  function FirstQuote(text: string): Option<nat> {
    if text == [] then None
    else if text[0] == '"' then Some(0)
    else
      var skip := if text[0] == '\\' && |text| > 1 then 2 else 1;
      match FirstQuote(text[skip..])
      case None => None
      case Some(i) => Some(i + skip)
  }

  lemma UnescapeOne(c: char, rest: string)
    ensures Unescape(EscapeChar(c) + rest) == [c] + Unescape(rest)
  {
    var text := EscapeChar(c) + rest;
    assert text[|EscapeChar(c)|..] == rest;
  }

  /** Every label value is recovered from its escaped form. */
  lemma {:induction false} UnescapeEscape(input: string)
    ensures Unescape(Escape(input)) == input
  {
    if input != [] {
      UnescapeEscape(input[1..]);
      UnescapeOne(input[0], Escape(input[1..]));
    }
  }

  lemma QuoteAfterOne(c: char, rest: string)
    ensures FirstQuote(EscapeChar(c) + rest) ==
            match FirstQuote(rest) case None => None case Some(i) => Some(i + |EscapeChar(c)|)
  {
    var text := EscapeChar(c) + rest;
    assert text[|EscapeChar(c)|..] == rest;
  }

  /** The first unescaped quote after an escaped value is the one that closes it. */
  lemma {:induction false} QuoteCloses(input: string, rest: string)
    ensures FirstQuote(Escape(input) + ['"'] + rest) == Some(|Escape(input)|)
  {
    if input == [] {
      assert Escape(input) + ['"'] + rest == ['"'] + rest;
    } else {
      QuoteCloses(input[1..], rest);
      QuoteAfterOne(input[0], Escape(input[1..]) + ['"'] + rest);
      ConcatAssociates(EscapeChar(input[0]), Escape(input[1..]), ['"'], rest);
    }
  }

  /** An escaped value stays on its line. */
  lemma {:induction false} EscapedOneLine(input: string)
    ensures '\n' !in Escape(input)
  {
    if input != [] {
      EscapedOneLine(input[1..]);
    }
  }

  // ----- a sample line

  const HEAD := "privacy_proxy_" + "redactions_" + "by_type_total" + "{detector=\""

  /** A line of a metric with one label; `head` is all that comes before the label's value. */
  function Sample(head: string, value: string, count: string): string {
    head + (Escape(value) + ['"'] + ("} " + count))
  }

  /** One line of the counters by type; `count` is the printed number. */
  function SampleLine(detector: string, count: string): string { Sample(HEAD, detector, count) }

  /** How a reader takes a sample line apart: the label value, and what follows the closing quote. */
  function ReadSample(head: string, line: string): Option<(string, string)> {
    if !(head <= line) then None
    else
      var rest := line[|head|..];
      match FirstQuote(rest)
      case None => None
      case Some(i) => if i < |rest| then Some((Unescape(rest[..i]), rest[i + 1..])) else None
  }

  /** A sample line is read back as the label value and the count it was written for. */
  lemma SampleReadsBack(head: string, value: string, count: string)
    ensures ReadSample(head, Sample(head, value, count)) == Some((value, "} " + count))
  {
    var rest := Escape(value) + ['"'] + ("} " + count);
    assert (head + rest)[|head|..] == rest;
    QuoteCloses(value, "} " + count);
    UnescapeEscape(value);
    assert rest[..|Escape(value)|] == Escape(value);
    assert rest[|Escape(value)| + 1..] == "} " + count;
  }

  lemma HeadOneLine()
    ensures '\n' !in HEAD
  {
    assert '\n' !in "privacy_proxy_" && '\n' !in "redactions_" && '\n' !in "by_type_total" && '\n' !in "{detector=\"";
  }

  /** Whatever the detector is called, its sample is one line. */
  lemma SampleIsOneLine(detector: string, count: string)
    requires '\n' !in count
    ensures '\n' !in SampleLine(detector, count)
  {
    HeadOneLine();
    EscapedOneLine(detector);
  }
}
