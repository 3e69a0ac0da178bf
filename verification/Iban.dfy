/** IBAN check digits: the streaming remainder, the number it stands for, and what it detects. */
module Iban {
  import opened Wrappers
  import opened Text

  newtype u32 = n: int | 0 <= n < 0x1_0000_0000

  /** `normalize_iban`: no ASCII whitespace, letters in upper case. */
  function NormalizeIban(input: string): string {
    if input == [] then []
    else
      var c := input[|input| - 1];
      NormalizeIban(input[..|input| - 1]) + if IsAsciiWhitespace(c) then [] else [ToUpper(c)]
  }

  predicate IsIbanChar(c: char) { IsDigit(c) || IsUpper(c) }

  predicate IbanChars(s: string) { forall c | c in s :: IsIbanChar(c) }

  function CharValue(c: char): nat
    requires IsIbanChar(c)
  {
    if IsDigit(c) then DigitValue(c) else c as int - 'A' as int + 10
  }

  /** The decimal places a character expands to: letters stand for 10 to 35. */
  function Places(c: char): nat
    requires IsIbanChar(c)
  {
    if IsDigit(c) then 10 else 100
  }

  /** The number, of any size, whose decimal digits are those of `s` with letters expanded. */
  function Number(s: string): nat
    requires IbanChars(s)
  {
    if s == [] then 0
    else
      var c := s[|s| - 1];
      Number(s[..|s| - 1]) * Places(c) + CharValue(c)
  }

  /** The power of ten that makes room for the digits of `s`. */
  function Scale(s: string): nat
    requires IbanChars(s)
  {
    if s == [] then 1 else Scale(s[..|s| - 1]) * Places(s[|s| - 1])
  }

  function Rearranged(iban: string): string
    requires |iban| >= 4
  {
    iban[4..] + iban[..4]
  }

  predicate HasIbanShape(iban: string) {
    && 15 <= |iban| <= 34
    && IsUpper(iban[0]) && IsUpper(iban[1]) && IsDigit(iban[2]) && IsDigit(iban[3])
    && IbanChars(iban)
  }

  /** ISO 13616-1: the rearranged, expanded number leaves remainder 1 on division by 97. */
  predicate IsIban(iban: string) {
    HasIbanShape(iban) && Number(Rearranged(iban)) % 97 == 1
  }

  predicate IsValidIban(input: string) { IsIban(NormalizeIban(input)) }

  lemma TimesTen(n: nat, d: nat)
    ensures (n % 97 * 10 + d) % 97 == (n * 10 + d) % 97
  {
    AddMultiple(n % 97 * 10 + d, 10 * (n / 97));
  }

  lemma AddMultiple(x: int, k: int)
    ensures (x + 97 * k) % 97 == x % 97
  {
    var q, r := x / 97, x % 97;
    assert x + 97 * k == 97 * (q + k) + r;
  }

  lemma TwoSteps(n: nat, value: nat)
    ensures ((n % 97 * 10 + value / 10) % 97 * 10 + value % 10) % 97 == (n * 100 + value) % 97
  {
    TimesTen(n, value / 10);
    TimesTen(n * 10 + value / 10, value % 10);
    assert (n * 10 + value / 10) * 10 + value % 10 == n * 100 + value;
  }

  /** The remainder of what has been read; none once a foreign character has been met. */
  function Remainder(read: string): Option<nat> {
    if IbanChars(read) then Some(Number(read) % 97) else None
  }

  lemma ReadDigit(read: string, c: char)
    requires Remainder(read).Some? && IsDigit(c)
    ensures Remainder(read + [c]) == Some((Remainder(read).value * 10 + DigitValue(c)) % 97)
  {
    assert (read + [c])[..|read|] == read;
    TimesTen(Number(read), DigitValue(c));
  }

  lemma ReadLetter(read: string, c: char)
    requires Remainder(read).Some? && IsUpper(c)
    ensures var value := c as int - 'A' as int + 10;
            Remainder(read + [c]) ==
            Some(((Remainder(read).value * 10 + value / 10) % 97 * 10 + value % 10) % 97)
  {
    assert (read + [c])[..|read|] == read;
    TwoSteps(Number(read), c as int - 'A' as int + 10);
  }

  lemma ReadForeign(read: string, c: char, rest: string)
    requires !IsIbanChar(c)
    ensures Remainder(read + [c] + rest).None?
  {
    assert c in read + [c] + rest;
  }

  lemma RemainderDecides(iban: string)
    requires 15 <= |iban| <= 34
    requires IsUpper(iban[0]) && IsUpper(iban[1]) && IsDigit(iban[2]) && IsDigit(iban[3])
    ensures IsIban(iban) <==> Remainder(iban[4..] + iban[..4]) == Some(1)
  {
    var rearranged := iban[4..] + iban[..4];
    assert forall c :: c in iban <==> c in rearranged by {
      assert iban == iban[..4] + iban[4..];
    }
  }

  /** `is_valid_iban`. The `u32` remainder never overflows and is the remainder of the whole number. */
  method CheckIban(input: string) returns (valid: bool)
    ensures valid == IsValidIban(input)
  {
    var iban := NormalizeIban(input);
    if !(15 <= |iban| <= 34) {
      return false;
    }
    if !IsUpper(iban[0]) || !IsUpper(iban[1]) || !IsDigit(iban[2]) || !IsDigit(iban[3]) {
      return false;
    }
    var rearranged := iban[4..] + iban[..4];
    RemainderDecides(iban);
    var remainder := StreamRemainder(rearranged);
    return remainder == Some(1);
  }

  /** The loop of `is_valid_iban`. */
  method StreamRemainder(rearranged: string) returns (r: Option<u32>)
    ensures r.Some? <==> Remainder(rearranged).Some?
    ensures r.Some? ==> r.value as nat == Remainder(rearranged).value
  {
    var remainder: u32 := 0;
    for i := 0 to |rearranged|
      invariant Remainder(rearranged[..i]) == Some(remainder as nat)
    {
      var ch := rearranged[i];
      assert rearranged[..i + 1] == rearranged[..i] + [ch];
      if IsDigit(ch) {
        ReadDigit(rearranged[..i], ch);
        remainder := (remainder * 10 + DigitValue(ch) as u32) % 97;
      } else if IsUpper(ch) {
        ReadLetter(rearranged[..i], ch);
        var value: u32 := ch as u32 - 'A' as u32 + 10;
        remainder := (remainder * 10 + value / 10) % 97;
        remainder := (remainder * 10 + value % 10) % 97;
      } else {
        ReadForeign(rearranged[..i], ch, rearranged[i + 1..]);
        assert rearranged == rearranged[..i] + [ch] + rearranged[i + 1..];
        return None;
      }
    }
    assert rearranged[..|rearranged|] == rearranged;
    return Some(remainder);
  }

  // ----- which changes are detected

  lemma ShiftSum(a: int, k: int, b: int, p: int)
    ensures (a * k + b) * p == a * (k * p) + b * p
  {
    assert (a * k) * p == a * (k * p);
  }

  lemma {:induction false} NumberConcat(a: string, b: string)
    requires IbanChars(a) && IbanChars(b)
    ensures IbanChars(a + b) && Number(a + b) == Number(a) * Scale(b) + Number(b)
  {
    if b == [] {
      assert a + b == a;
    } else {
      var front, c := b[..|b| - 1], b[|b| - 1];
      NumberConcat(a, front);
      assert (a + b)[..|a + b| - 1] == a + front;
      ShiftSum(Number(a), Scale(front), Number(front), Places(c));
    }
  }

  lemma SameRemainder(x: int, y: int)
    ensures x % 97 == y % 97 <==> (x - y) % 97 == 0
  {
    if (x - y) % 97 == 0 {
      AddMultiple(y, (x - y) / 97);
      assert x == y + 97 * ((x - y) / 97);
    }
  }

  lemma TenIsInvertible(x: int, y: int, d: int)
    ensures (x * 10 + d) % 97 == (y * 10 + d) % 97 <==> x % 97 == y % 97
  {
    SameRemainder(x, y);
    SameRemainder(x * 10 + d, y * 10 + d);
    var e := x - y;
    if e % 97 == 0 {
      assert e * 10 == 97 * (10 * (e / 97));
    }
    if (e * 10) % 97 == 0 {
      assert e == 97 * (68 * (e * 10 / 97) - 7 * e);
    }
  }

  lemma PlacesAreInvertible(x: int, y: int, c: char)
    requires IsIbanChar(c)
    ensures (x * Places(c) + CharValue(c)) % 97 == (y * Places(c) + CharValue(c)) % 97 <==> x % 97 == y % 97
  {
    if IsDigit(c) {
      TenIsInvertible(x, y, CharValue(c));
    } else {
      TenIsInvertible(x, y, 0);
      TenIsInvertible(x * 10, y * 10, CharValue(c));
    }
  }

  /** Whatever follows, two numbers stay apart, or together, mod 97. */
  lemma {:induction false} SameTail(a: string, b: string, tail: string)
    requires IbanChars(a) && IbanChars(b) && IbanChars(tail)
    ensures IbanChars(a + tail) && IbanChars(b + tail)
    ensures Number(a + tail) % 97 == Number(b + tail) % 97 <==> Number(a) % 97 == Number(b) % 97
  {
    if tail == [] {
      assert a + tail == a && b + tail == b;
    } else {
      var front, c := tail[..|tail| - 1], tail[|tail| - 1];
      SameTail(a, b, front);
      assert (a + tail)[..|a + tail| - 1] == a + front && (b + tail)[..|b + tail| - 1] == b + front;
      var x, y := Number(a + front), Number(b + front);
      PlacesAreInvertible(x, y, c);
    }
  }

  /** Whatever precedes, two numbers of the same width stay apart, or together, mod 97. */
  lemma SameHead(head: string, a: string, b: string)
    requires IbanChars(head) && IbanChars(a) && IbanChars(b) && Scale(a) == Scale(b)
    ensures IbanChars(head + a) && IbanChars(head + b)
    ensures Number(head + a) % 97 == Number(head + b) % 97 <==> Number(a) % 97 == Number(b) % 97
  {
    NumberConcat(head, a);
    NumberConcat(head, b);
    SameRemainder(Number(head + a), Number(head + b));
    SameRemainder(Number(a), Number(b));
  }

  /** Replacing one stretch by another leaves the remainder alone exactly when the stretches agree mod 97. */
  lemma ReplacedStretch(pre: string, x: string, y: string, post: string)
    requires IbanChars(pre) && IbanChars(x) && IbanChars(y) && IbanChars(post)
    requires Scale(x) == Scale(y)
    ensures IbanChars(pre + x + post) && IbanChars(pre + y + post)
    ensures Number(pre + x + post) % 97 == Number(pre + y + post) % 97 <==> Number(x) % 97 == Number(y) % 97
  {
    SameHead(pre, x, y);
    SameTail(pre + x, pre + y, post);
  }

  /** `t` is `s` with the characters from `from` to `to` replaced, all on one side of the fourth place. */
  ghost predicate ReplacedWithin(s: string, t: string, from: nat, to: nat) {
    && from <= to <= |s| == |t|
    && (to <= 4 || 4 <= from)
    && s[..from] == t[..from] && s[to..] == t[to..]
  }

  /** An error inside one stretch goes unnoticed exactly when the stretch keeps its number mod 97. */
  lemma ErrorDetected(s: string, t: string, from: nat, to: nat)
    requires IsIban(s) && HasIbanShape(t) && ReplacedWithin(s, t, from, to)
    requires Scale(s[from..to]) == Scale(t[from..to])
    ensures IsIban(t) <==> Number(s[from..to]) % 97 == Number(t[from..to]) % 97
  {
    var x, y := s[from..to], t[from..to];
    if 4 <= from {
      assert t[4..from] == t[..from][4..] == s[..from][4..] == s[4..from];
      assert t[..4] == t[..from][..4] == s[..from][..4] == s[..4];
      RearrangedTail(s, from, to);
      RearrangedTail(t, from, to);
      ReplacedStretch(s[4..from], x, y, s[to..] + s[..4]);
    } else {
      assert t[to..4] == t[to..][..4 - to] == s[to..][..4 - to] == s[to..4];
      assert t[4..] == t[to..][4 - to..] == s[to..][4 - to..] == s[4..];
      RearrangedHead(s, from, to);
      RearrangedHead(t, from, to);
      ReplacedStretch(s[4..] + s[..from], x, y, s[to..4]);
    }
  }

  lemma RearrangedTail(s: string, from: nat, to: nat)
    requires 4 <= from <= to <= |s| && IbanChars(s)
    ensures Rearranged(s) == s[4..from] + s[from..to] + (s[to..] + s[..4])
    ensures IbanChars(s[4..from]) && IbanChars(s[from..to]) && IbanChars(s[to..] + s[..4])
  {
  }

  lemma RearrangedHead(s: string, from: nat, to: nat)
    requires from <= to <= 4 <= |s| && IbanChars(s)
    ensures Rearranged(s) == (s[4..] + s[..from]) + s[from..to] + s[to..4]
    ensures IbanChars(s[4..] + s[..from]) && IbanChars(s[from..to]) && IbanChars(s[to..4])
  {
  }

  lemma NumberOfOne(c: char)
    requires IsIbanChar(c)
    ensures Number([c]) == CharValue(c) && Scale([c]) == Places(c)
  {
    assert [c][..0] == [];
  }

  lemma NumberOfTwo(a: char, b: char)
    requires IsDigit(a) && IsDigit(b)
    ensures Number([a, b]) == DigitValue(a) * 10 + DigitValue(b) && Scale([a, b]) == 100
  {
    assert [a, b][..1] == [a];
    NumberOfOne(a);
  }

  /** No single digit-for-digit or letter-for-letter substitution turns one IBAN into another. */
  lemma SubstitutionRejected(s: string, i: nat, c: char)
    requires IsIban(s) && i < |s| && c != s[i]
    requires (IsDigit(s[i]) && IsDigit(c)) || (IsUpper(s[i]) && IsUpper(c))
    ensures !IsIban(s[i := c])
  {
    var t := s[i := c];
    SubstituteWithin(s, i, c);
    NumberOfOne(s[i]);
    NumberOfOne(c);
    ErrorDetected(s, t, i, i + 1);
    NearbyRemainders(CharValue(s[i]), CharValue(c));
  }

  lemma SubstituteWithin(s: string, i: nat, c: char)
    requires HasIbanShape(s) && i < |s|
    requires (IsDigit(s[i]) && IsDigit(c)) || (IsUpper(s[i]) && IsUpper(c))
    ensures var t := s[i := c];
            HasIbanShape(t) && ReplacedWithin(s, t, i, i + 1) && s[i..i + 1] == [s[i]] && t[i..i + 1] == [c]
  {
    var t := s[i := c];
    assert s[i + 1..] == t[i + 1..];
    assert s[..i] == t[..i];
  }

  lemma NearbyRemainders(x: int, y: int)
    requires x != y && -97 < x - y < 97
    ensures x % 97 != y % 97
  {
    SameRemainder(x, y);
  }

  /** Nor does swapping two different neighbouring digits, both before or both after the fourth place. */
  lemma TranspositionRejected(s: string, i: nat)
    requires IsIban(s) && i + 1 < |s| && i != 3
    requires IsDigit(s[i]) && IsDigit(s[i + 1]) && s[i] != s[i + 1]
    ensures !IsIban(s[i := s[i + 1]][i + 1 := s[i]])
  {
    var t := s[i := s[i + 1]][i + 1 := s[i]];
    SwapWithin(s, i);
    NumberOfTwo(s[i], s[i + 1]);
    NumberOfTwo(s[i + 1], s[i]);
    ErrorDetected(s, t, i, i + 2);
    SwapChangesRemainder(DigitValue(s[i]), DigitValue(s[i + 1]));
  }

  lemma SwapWithin(s: string, i: nat)
    requires HasIbanShape(s) && i + 1 < |s| && i != 3 && IsDigit(s[i]) && IsDigit(s[i + 1])
    ensures var t := s[i := s[i + 1]][i + 1 := s[i]];
            && HasIbanShape(t) && ReplacedWithin(s, t, i, i + 2)
            && s[i..i + 2] == [s[i], s[i + 1]] && t[i..i + 2] == [s[i + 1], s[i]]
  {
    var t := s[i := s[i + 1]][i + 1 := s[i]];
    assert s[i + 2..] == t[i + 2..];
    assert s[..i] == t[..i];
  }

  lemma SwapChangesRemainder(a: int, b: int)
    requires 0 <= a < 10 && 0 <= b < 10 && a != b
    ensures (a * 10 + b) % 97 != (b * 10 + a) % 97
  {
    SameRemainder(a * 10 + b, b * 10 + a);
    assert (a * 10 + b) - (b * 10 + a) == 9 * (a - b);
  }

  // ----- existence and uniqueness of check digits

  function Digit(n: nat): char
    requires n < 10
  {
    ('0' as int + n) as char
  }

  function WithCheck(country: string, check: nat, bban: string): string
    requires check < 100
  {
    country + [Digit(check / 10), Digit(check % 10)] + bban
  }

  function CheckDigits(country: string, bban: string): (check: nat)
    requires IbanChars(bban + country)
    ensures 2 <= check <= 98
  {
    98 - Number(bban + country) * 100 % 97
  }

  /** A two-digit number is accepted exactly when it agrees with the computed check digits mod 97. */
  lemma AcceptedChecks(country: string, check: nat, bban: string)
    requires |country| == 2 && IsUpper(country[0]) && IsUpper(country[1])
    requires 11 <= |bban| <= 30 && IbanChars(bban) && check < 100
    ensures IbanChars(bban + country)
    ensures IsIban(WithCheck(country, check, bban)) <==> check % 97 == CheckDigits(country, bban) % 97
  {
    var pair := [Digit(check / 10), Digit(check % 10)];
    var iban := WithCheck(country, check, bban);
    assert iban[..4] == country + pair && iban[4..] == bban;
    assert IbanChars(iban) by {
      assert forall c :: c in iban <==> c in country || c in pair || c in bban;
    }
    assert Rearranged(iban) == bban + country + pair;
    NumberThenPair(bban + country, check);
    RemainderOne(Number(bban + country) * 100, check);
  }

  lemma NumberThenPair(s: string, check: nat)
    requires IbanChars(s) && check < 100
    ensures IbanChars(s + [Digit(check / 10), Digit(check % 10)])
    ensures Number(s + [Digit(check / 10), Digit(check % 10)]) == Number(s) * 100 + check
  {
    var a, b := Digit(check / 10), Digit(check % 10);
    assert (s + [a, b])[..|s| + 1] == s + [a];
    assert (s + [a])[..|s|] == s;
  }

  lemma RemainderOne(n: nat, check: nat)
    ensures (n + check) % 97 == 1 <==> check % 97 == (98 - n % 97) % 97
  {
    var q := n / 97;
    assert n == 97 * q + n % 97;
    AddMultiple(n % 97 + check, q);
    assert (n + check) % 97 == (n % 97 + check) % 97;
    SameRemainder(n % 97 + check, 1);
    SameRemainder(check, 98 - n % 97);
    assert (n % 97 + check - 1) == (check - (98 - n % 97)) + 97 * 1;
    AddMultiple(check - (98 - n % 97), 1);
  }

  /** For every country code and account part exactly one check pair from 02 to 98 is accepted. */
  lemma ExactlyOneCheck(country: string, bban: string)
    requires |country| == 2 && IsUpper(country[0]) && IsUpper(country[1])
    requires 11 <= |bban| <= 30 && IbanChars(bban)
    ensures IbanChars(bban + country)
    ensures forall check | 2 <= check <= 98 ::
              IsIban(WithCheck(country, check, bban)) <==> check == CheckDigits(country, bban)
  {
    forall check | 2 <= check <= 98
      ensures IsIban(WithCheck(country, check, bban)) <==> check == CheckDigits(country, bban)
    {
      AcceptedChecks(country, check, bban);
      var right := CheckDigits(country, bban);
      if check % 97 == right % 97 {
        SameRemainder(check, right);
        assert -96 <= check - right <= 96;
      }
    }
  }

  // ----- the longest valid prefix

  predicate IsIbanText(s: string) { forall c | c in s :: IsAlnum(c) || IsAsciiWhitespace(c) }

  predicate IsIbanPrefix(input: string, end: nat) {
    0 < end <= |input| && IsIbanText(input[..end]) && IsAlnum(input[end - 1]) && IsValidIban(input[..end])
  }

  /** The last number up to `limit` that passes. */
  function Last(passes: nat -> bool, limit: nat): Option<nat> {
    if passes(limit) then Some(limit) else if limit == 0 then None else Last(passes, limit - 1)
  }

  lemma {:induction false} LastIsLast(passes: nat -> bool, limit: nat)
    ensures var r := Last(passes, limit);
            && (r.None? <==> forall k | 0 <= k <= limit :: !passes(k))
            && (r.Some? ==> r.value <= limit && passes(r.value) && forall k | r.value < k <= limit :: !passes(k))
  {
    if !passes(limit) && limit > 0 {
      LastIsLast(passes, limit - 1);
    }
  }

  lemma {:induction false} LastStays(passes: nat -> bool, from: nat, limit: nat)
    requires from <= limit && forall k | from < k <= limit :: !passes(k)
    ensures Last(passes, limit) == Last(passes, from)
  {
    if from < limit {
      LastStays(passes, from, limit - 1);
    }
  }

  function Ends(input: string): nat -> bool { (end: nat) => IsIbanPrefix(input, end) }

  function IbanSpan(input: string): Option<nat> { Last(Ends(input), |input|) }

  /** The span is the end of the longest prefix that is an IBAN; there is none only when no prefix is one. */
  lemma IbanSpanIsLongest(input: string)
    ensures var r := IbanSpan(input);
            && (r.None? <==> forall end: nat :: !IsIbanPrefix(input, end))
            && (r.Some? ==>
                  IsIbanPrefix(input, r.value) && forall end: nat | r.value < end :: !IsIbanPrefix(input, end))
  {
    LastIsLast(Ends(input), |input|);
    assert forall end: nat :: Ends(input)(end) == IsIbanPrefix(input, end);
  }

  lemma SpanInBounds(input: string)
    ensures IbanSpan(input).Some? ==> 15 <= IbanSpan(input).value <= |input|
  {
    IbanSpanIsLongest(input);
    if IbanSpan(input).Some? {
      NormalizedLength(input[..IbanSpan(input).value]);
    }
  }

  lemma {:induction false} NormalizedLength(s: string)
    ensures |NormalizeIban(s)| <= |s|
  {
    if s != [] {
      NormalizedLength(s[..|s| - 1]);
    }
  }

  lemma {:induction false} NormalizedGrows(input: string, a: nat, b: nat)
    requires a <= b <= |input|
    ensures |NormalizeIban(input[..a])| <= |NormalizeIban(input[..b])|
  {
    if a < b {
      NormalizedGrows(input, a, b - 1);
      assert input[..b][..b - 1] == input[..b - 1];
    }
  }

  /** Past a foreign character, or past 34 letters and digits, no prefix is an IBAN. */
  lemma NoLongerIban(input: string, from: nat)
    requires from < |input|
    requires !IsIbanText(input[..from + 1]) || |NormalizeIban(input[..from + 1])| > 34
    ensures IbanSpan(input) == Last(Ends(input), from)
  {
    forall end | from < end <= |input|
      ensures !Ends(input)(end)
    {
      NormalizedGrows(input, from + 1, end);
      assert forall c | c in input[..from + 1] :: c in input[..end];
    }
    LastStays(Ends(input), from, |input|);
  }

  /** `valid_iban_span`. */
  method ValidIbanSpan(input: string) returns (bestEnd: Option<nat>)
    ensures bestEnd == IbanSpan(input)
  {
    var normalizedLen: nat := 0;
    bestEnd := None;
    for offset := 0 to |input|
      invariant IsIbanText(input[..offset])
      invariant normalizedLen == |NormalizeIban(input[..offset])|
      invariant bestEnd == Last(Ends(input), offset)
    {
      var ch := input[offset];
      assert input[..offset + 1] == input[..offset] + [ch];
      assert input[..offset + 1][..offset] == input[..offset];
      if IsAlnum(ch) {
        normalizedLen := normalizedLen + 1;
      } else if !IsAsciiWhitespace(ch) {
        assert ch in input[..offset + 1];
        NoLongerIban(input, offset);
        return;
      }
      if normalizedLen > 34 {
        NoLongerIban(input, offset);
        return;
      }
      var end := offset + 1;
      if IsAlnum(ch) && normalizedLen >= 15 {
        var valid := CheckIban(input[..end]);
        if valid {
          bestEnd := Some(end);
        }
      }
    }
  }
}
