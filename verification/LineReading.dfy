/** Lines: the newline-inclusive split of a text, and reading it line by line through a buffer. */
module LineReading {
  import opened Wrappers
  import opened Text

  /** The length of the first line, with its newline. */
  function LineLength(s: string): (n: nat)
    ensures n <= |s|
    ensures s != "" ==> n > 0
  {
    match Find(s, '\n')
    case Some(i) => i + 1
    case None => |s|
  }

  /** `split_inclusive('\n')`. */
  function Lines(s: string): seq<string>
    decreases |s|
  {
    if s == "" then [] else [s[..LineLength(s)]] + Lines(s[LineLength(s)..])
  }

  function Concat(parts: seq<string>): string {
    if parts == [] then "" else parts[0] + Concat(parts[1..])
  }

  /** A line: not empty, and with a newline at most at its end. */
  predicate IsLine(s: string) { s != "" && '\n' !in s[..|s| - 1] }

  predicate IsEnded(s: string) { s != "" && s[|s| - 1] == '\n' }

  /** Lines of which all but the last are ended. */
  predicate IsSplit(lines: seq<string>) {
    lines == [] || (IsLine(lines[0]) && (|lines| > 1 ==> IsEnded(lines[0])) && IsSplit(lines[1..]))
  }

  lemma FirstLineIs(line: string, rest: string)
    requires IsLine(line) && (rest == "" || IsEnded(line))
    ensures LineLength(line + rest) == |line|
  {
    FindIsFirst(line + rest, '\n');
    if IsEnded(line) {
      FindAt(line[..|line| - 1], '\n', rest);
      assert line + rest == line[..|line| - 1] + ['\n'] + rest;
    } else {
      assert line == line[..|line| - 1] + [line[|line| - 1]];
      assert line + rest == line;
    }
  }

  lemma FirstLineIsLine(s: string)
    requires s != ""
    ensures IsLine(s[..LineLength(s)])
    ensures LineLength(s) < |s| ==> IsEnded(s[..LineLength(s)])
  {
    FindIsFirst(s, '\n');
    var n := LineLength(s);
    assert s[..n][..n - 1] == s[..n - 1];
  }

  /** The split is a split of the text. */
  lemma {:induction false} LinesSplit(s: string)
    ensures IsSplit(Lines(s)) && Concat(Lines(s)) == s
    decreases |s|
  {
    if s != "" {
      var n := LineLength(s);
      LinesSplit(s[n..]);
      FirstLineIsLine(s);
      assert s == s[..n] + s[n..];
    }
  }

  /** There is only one split of a text. */
  lemma {:induction false} SplitIsUnique(lines: seq<string>)
    requires IsSplit(lines)
    ensures Lines(Concat(lines)) == lines
  {
    if lines != [] {
      var line, rest := lines[0], Concat(lines[1..]);
      SplitIsUnique(lines[1..]);
      FirstLineIs(line, rest);
      assert (line + rest)[..|line|] == line && (line + rest)[|line|..] == rest;
    }
  }

  lemma {:induction false} LinesAreLines(lines: seq<string>)
    requires IsSplit(lines)
    ensures forall i | 0 <= i < |lines| :: IsLine(lines[i]) && (i + 1 < |lines| ==> IsEnded(lines[i]))
  {
    if lines != [] {
      LinesAreLines(lines[1..]);
    }
  }

  // ----- a buffered reader

  /** A `BufRead`: a buffer, and what the reads to come will deliver, in chunks of any size. */
  class BufReader {
    var buffer: string
    var pending: seq<string>

    ghost predicate Valid()
      reads this
    {
      forall chunk | chunk in pending :: chunk != ""
    }

    /** All the input not yet consumed. */
    ghost function Rest(): string
      reads this
    {
      buffer + Concat(pending)
    }

    constructor (chunks: seq<string>)
      requires forall chunk | chunk in chunks :: chunk != ""
      ensures Valid() && Rest() == Concat(chunks)
    {
      buffer, pending := "", chunks;
    }

    method FillBuf() returns (available: string)
      requires Valid()
      modifies this
      ensures Valid() && Rest() == old(Rest())
      ensures available == buffer && available <= Rest()
      ensures available == "" <==> Rest() == ""
    {
      if buffer == "" && pending != [] {
        assert pending[0] in pending && forall chunk | chunk in pending[1..] :: chunk in pending;
        assert Rest() == pending[0] + Concat(pending[1..]);
        buffer, pending := pending[0], pending[1..];
      }
      available := buffer;
    }

    method Consume(n: nat)
      requires Valid() && n <= |buffer|
      modifies this
      ensures Valid() && Rest() == old(Rest())[n..]
    {
      buffer := buffer[n..];
    }
  }

  /** `read_limited_line`: delivers the first line of what is left, whatever the chunks, unless it is longer than the
      limit; an empty result means the end of the input. */
  method ReadLimitedLine(reader: BufReader, maxLineBytes: nat) returns (line: Option<string>)
    requires reader.Valid()
    modifies reader
    ensures reader.Valid()
    ensures line.None? <==> LineLength(old(reader.Rest())) > maxLineBytes
    ensures line.Some? ==>
              && line.value == old(reader.Rest())[..LineLength(old(reader.Rest()))]
              && reader.Rest() == old(reader.Rest())[LineLength(old(reader.Rest()))..]
  {
    var buffer := "";
    ghost var input := reader.Rest();
    while true
      invariant reader.Valid()
      invariant buffer + reader.Rest() == input
      invariant '\n' !in buffer && |buffer| <= maxLineBytes
      decreases |reader.Rest()|
    {
      var available := reader.FillBuf();
      ghost var rest := reader.Rest();
      if available == "" {
        LastLine(buffer, rest);
        return Some(buffer);
      }
      var newline := Find(available, '\n');
      var take := if newline.Some? then newline.value + 1 else |available|;
      ReadOn(buffer, available, rest, take);
      if |buffer| + take > maxLineBytes {
        return None;
      }
      buffer := buffer + available[..take];
      reader.Consume(take);
      if newline.Some? {
        return Some(buffer);
      }
    }
  }

  lemma LastLine(buffer: string, rest: string)
    requires '\n' !in buffer && rest == ""
    ensures LineLength(buffer + rest) == |buffer| && (buffer + rest)[..|buffer|] == buffer
    ensures (buffer + rest)[|buffer|..] == rest
  {
    FindIsFirst(buffer + rest, '\n');
    assert buffer + rest == buffer;
  }

  lemma NewlineFound(buffer: string, available: string, rest: string, i: nat)
    requires '\n' !in buffer && available <= rest && Find(available, '\n') == Some(i)
    ensures LineLength(buffer + rest) == |buffer| + i + 1
  {
    FindIsFirst(available, '\n');
    FindAt(buffer + rest[..i], '\n', rest[i + 1..]);
    assert buffer + rest == buffer + rest[..i] + ['\n'] + rest[i + 1..];
  }

  lemma NewlineNotFound(buffer: string, available: string, rest: string)
    requires '\n' !in buffer && available <= rest && Find(available, '\n').None?
    ensures '\n' !in buffer + available && LineLength(buffer + rest) >= |buffer + available|
  {
    FindIsFirst(available, '\n');
    FindIsFirst(buffer + rest, '\n');
    assert (buffer + rest)[..|buffer + available|] == buffer + available;
  }

  /** One turn: the buffer takes what is available up to the first newline. */
  lemma ReadOn(buffer: string, available: string, rest: string, take: nat)
    requires '\n' !in buffer && available <= rest && available != ""
    requires take == LineLength(available)
    ensures var read := buffer + available[..take];
            && read + rest[take..] == buffer + rest
            && LineLength(buffer + rest) >= |read|
            && (Find(available, '\n').None? ==> '\n' !in read)
            && (Find(available, '\n').Some? ==>
                  && LineLength(buffer + rest) == |read| && (buffer + rest)[..|read|] == read
                  && (buffer + rest)[|read|..] == rest[take..])
  {
    match Find(available, '\n') {
      case Some(i) => NewlineFound(buffer, available, rest, i);
      case None =>
        NewlineNotFound(buffer, available, rest);
        assert available[..take] == available;
    }
    assert available[..take] == rest[..take];
  }
}
