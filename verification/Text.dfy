/** ASCII character classes and the string operations that every component shares. */
module Text {
  import opened Wrappers

  predicate IsUpper(c: char) { 'A' <= c <= 'Z' }

  predicate IsLower(c: char) { 'a' <= c <= 'z' }

  predicate IsDigit(c: char) { '0' <= c <= '9' }

  predicate IsAlpha(c: char) { IsUpper(c) || IsLower(c) }

  predicate IsAlnum(c: char) { IsAlpha(c) || IsDigit(c) }

  /** A word character of the regex crate: the class behind `\b`. */
  predicate IsWord(c: char) { IsAlnum(c) || c == '_' }

  /** `is_ascii_whitespace`: tab, line feed, form feed, carriage return and space, but not vertical tab. */
  predicate IsAsciiWhitespace(c: char) {
    var n := c as int;
    n == 9 || n == 10 || n == 12 || n == 13 || n == 32
  }

  /** What `trim` removes: the class above and vertical tab. */
  predicate IsTrimmed(c: char) { IsAsciiWhitespace(c) || c as int == 11 }

  function ToUpper(c: char): char { if IsLower(c) then (c as int - 32) as char else c }

  function ToLower(c: char): char { if IsUpper(c) then (c as int + 32) as char else c }

  function DigitValue(c: char): nat
    requires IsDigit(c)
  {
    c as int - '0' as int
  }

  function TrimStart(s: string): string {
    if s != [] && IsTrimmed(s[0]) then TrimStart(s[1..]) else s
  }

  function TrimEnd(s: string): string {
    if s != [] && IsTrimmed(s[|s| - 1]) then TrimEnd(s[..|s| - 1]) else s
  }

  function Trim(s: string): string { TrimEnd(TrimStart(s)) }

  predicate IsBlank(s: string) { Trim(s) == [] }

  predicate EndsWith(s: string, suffix: string) {
    |suffix| <= |s| && s[|s| - |suffix|..] == suffix
  }

  predicate Contains(s: string, part: string) {
    part <= s || (s != [] && Contains(s[1..], part))
  }

  lemma ConcatAssociates<T>(a: seq<T>, b: seq<T>, c: seq<T>, d: seq<T>)
    ensures a + (b + c + d) == a + b + c + d
  {
  }

  lemma ConcatThree<T>(a: seq<T>, b: seq<T>, c: seq<T>)
    ensures a + (b + c) == a + b + c
  {
  }

  /** The index of the first `c`. */
  function Find(s: string, c: char): (r: Option<nat>)
    ensures r.Some? ==> r.value < |s|
  {
    if s == [] then None
    else if s[0] == c then Some(0)
    else
      match Find(s[1..], c)
      case None => None
      case Some(i) => Some(i + 1)
  }

  lemma {:induction false} FindIsFirst(s: string, c: char)
    ensures Find(s, c).Some? ==> s[Find(s, c).value] == c && c !in s[..Find(s, c).value]
    ensures Find(s, c).None? <==> c !in s
  {
    if s != [] && s[0] != c {
      FindIsFirst(s[1..], c);
      var r := Find(s[1..], c);
      if r.Some? {
        assert s[..r.value + 1] == [s[0]] + s[1..][..r.value];
      }
    }
  }

  /** A string is cut in one way at the first occurrence of a character. */
  lemma {:induction false} FindAt(before: string, c: char, after: string)
    requires c !in before
    ensures Find(before + [c] + after, c) == Some(|before|)
  {
    if before != [] {
      FindAt(before[1..], c, after);
      assert (before + [c] + after)[1..] == before[1..] + [c] + after;
    } else {
      assert (before + [c] + after)[0] == c;
    }
  }

  // ----- `split` and its inverse

  function Split(s: string, sep: char): (parts: seq<string>)
    ensures |parts| > 0
  {
    if s == [] then [[]]
    else
      var parts := Split(s[..|s| - 1], sep);
      var c := s[|s| - 1];
      if c == sep then parts + [[]]
      else parts[|parts| - 1 := parts[|parts| - 1] + [c]]
  }

  lemma {:induction false} SplitAvoids(s: string, sep: char)
    ensures forall part | part in Split(s, sep) :: sep !in part
  {
    if s != [] {
      SplitAvoids(s[..|s| - 1], sep);
      var parts := Split(s[..|s| - 1], sep);
      assert parts[|parts| - 1] in parts;
    }
  }

  function Join(parts: seq<string>, sep: char): string {
    if |parts| == 0 then []
    else if |parts| == 1 then parts[0]
    else Join(parts[..|parts| - 1], sep) + [sep] + parts[|parts| - 1]
  }

  lemma {:induction false} JoinSplit(s: string, sep: char)
    ensures Join(Split(s, sep), sep) == s
  {
    if s != [] {
      var n := |s| - 1;
      JoinSplit(s[..n], sep);
      var parts := Split(s[..n], sep);
      var k := |parts| - 1;
      if s[n] == sep {
        assert (parts + [[]])[..|parts|] == parts;
      } else {
        assert parts[k := parts[k] + [s[n]]][..k] == parts[..k];
      }
      assert s == s[..n] + [s[n]];
    }
  }

  /** Appending a separator and a separator-free piece appends one part. */
  lemma {:induction false} SplitSnoc(s: string, sep: char, piece: string)
    requires sep !in piece
    ensures Split(s + [sep] + piece, sep) == Split(s, sep) + [piece]
  {
    var t := s + [sep] + piece;
    if piece == [] {
      assert t[..|t| - 1] == s;
    } else {
      var k := |piece| - 1;
      SplitSnoc(s, sep, piece[..k]);
      assert t[..|t| - 1] == s + [sep] + piece[..k];
      assert piece == piece[..k] + [piece[k]];
    }
  }

  lemma {:induction false} SplitWhole(s: string, sep: char)
    requires sep !in s
    ensures Split(s, sep) == [s]
  {
    if s != [] {
      SplitWhole(s[..|s| - 1], sep);
      assert s == s[..|s| - 1] + [s[|s| - 1]];
    }
  }

  lemma {:induction false} SplitJoin(parts: seq<string>, sep: char)
    requires |parts| > 0
    requires forall part | part in parts :: sep !in part
    ensures Split(Join(parts, sep), sep) == parts
  {
    var n := |parts| - 1;
    if n == 0 {
      SplitWhole(parts[0], sep);
    } else {
      SplitJoin(parts[..n], sep);
      SplitSnoc(Join(parts[..n], sep), sep, parts[n]);
      assert parts == parts[..n] + [parts[n]];
    }
  }

  /** Joining brings in no character but those of the parts and the separator. */
  lemma {:induction false} JoinAvoids(parts: seq<string>, sep: char, c: char)
    requires c != sep
    requires forall part | part in parts :: c !in part
    ensures c !in Join(parts, sep)
  {
    if |parts| > 1 {
      JoinAvoids(parts[..|parts| - 1], sep, c);
    }
  }
}
