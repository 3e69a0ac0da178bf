/** The Luhn check of credit-card candidates, and what it detects. */
module Luhn {
  import opened Text

  newtype u32 = n: int | 0 <= n < 0x1_0000_0000

  predicate AllDigits(s: string) { forall i | 0 <= i < |s| :: IsDigit(s[i]) }

  /** `digits_only`. */
  function DigitsOnly(input: string): string {
    if input == [] then []
    else (if IsDigit(input[0]) then [input[0]] else []) + DigitsOnly(input[1..])
  }

  function Weight(digit: nat, double: bool): nat {
    if !double then digit else if digit * 2 > 9 then digit * 2 - 9 else digit * 2
  }

  /** ISO/IEC 7812-1 Annex B: counted from the right, every second digit is doubled, and the digits of the
      products are added up. `after` digits stand to the right of `s`. */
  function WeightedSum(s: string, after: nat): nat
    requires AllDigits(s)
  {
    if s == [] then 0
    else WeightedSum(s[..|s| - 1], after + 1) + Weight(DigitValue(s[|s| - 1]), after % 2 == 1)
  }

  predicate IsLuhn(s: string) { AllDigits(s) && WeightedSum(s, 0) % 10 == 0 }

  lemma {:induction false} WeightedSumConcat(a: string, b: string, after: nat)
    requires AllDigits(a) && AllDigits(b)
    ensures AllDigits(a + b)
    ensures WeightedSum(a + b, after) == WeightedSum(a, |b| + after) + WeightedSum(b, after)
    decreases b
  {
    if b == [] {
      assert a + b == a;
    } else {
      WeightedSumConcat(a, b[..|b| - 1], after + 1);
      assert (a + b)[..|a + b| - 1] == a + b[..|b| - 1];
    }
  }

  lemma WeightOfOne(c: char, after: nat)
    requires IsDigit(c)
    ensures AllDigits([c]) && WeightedSum([c], after) == Weight(DigitValue(c), after % 2 == 1)
  {
    assert [c][..0] == [];
  }

  /** One more digit on the left. */
  lemma WeightedSumCons(s: string, i: nat)
    requires i < |s| && IsDigit(s[i]) && AllDigits(s[i + 1..])
    ensures AllDigits(s[i..])
    ensures WeightedSum(s[i..], 0) == Weight(DigitValue(s[i]), (|s| - i - 1) % 2 == 1) + WeightedSum(s[i + 1..], 0)
  {
    assert s[i..] == [s[i]] + s[i + 1..];
    WeightOfOne(s[i], |s| - i - 1);
    WeightedSumConcat([s[i]], s[i + 1..], 0);
  }

  /** `is_luhn_valid`, with its `u32` sum. */
  method IsLuhnValid(digits: string) returns (valid: bool)
    requires 9 * |digits| < 0x1_0000_0000
    ensures valid == IsLuhn(digits)
  {
    var sum: u32 := 0;
    var double := false;
    for i := |digits| downto 0
      invariant AllDigits(digits[i..])
      invariant sum as nat == WeightedSum(digits[i..], 0) && sum as nat <= 9 * (|digits| - i)
      invariant double == ((|digits| - i) % 2 == 1)
    {
      var ch := digits[i];
      if !IsDigit(ch) {
        return false;
      }
      WeightedSumCons(digits, i);
      var digit: u32 := DigitValue(ch) as u32;
      if double {
        digit := digit * 2;
        if digit > 9 {
          digit := digit - 9;
        }
      }
      sum := sum + digit;
      double := !double;
    }
    assert digits[0..] == digits;
    return sum % 10 == 0;
  }

  lemma SumOfThree(a: string, b: string, c: string, aAfter: nat, bAfter: nat)
    requires AllDigits(a) && AllDigits(b) && AllDigits(c) && bAfter == |c| && aAfter == |b| + |c|
    ensures AllDigits(a + b + c)
    ensures WeightedSum(a + b + c, 0) == WeightedSum(a, aAfter) + WeightedSum(b, bAfter) + WeightedSum(c, 0)
  {
    WeightedSumConcat(a, b, |c|);
    WeightedSumConcat(a + b, c, 0);
  }

  predicate TensApart(x: int, y: int) { (x - y) % 10 == 0 }

  lemma SumsAround(pre: string, x: string, y: string, post: string) returns (around: int)
    requires AllDigits(pre) && AllDigits(x) && AllDigits(y) && AllDigits(post) && |x| == |y|
    ensures AllDigits(pre + x + post) && AllDigits(pre + y + post)
    ensures WeightedSum(pre + x + post, 0) == around + WeightedSum(x, |post|)
    ensures WeightedSum(pre + y + post, 0) == around + WeightedSum(y, |post|)
  {
    var n := |x| + |post|;
    SumOfThree(pre, x, post, n, |post|);
    SumOfThree(pre, y, post, n, |post|);
    around := WeightedSum(pre, n) + WeightedSum(post, 0);
  }

  /** Replacing a stretch moves the whole sum by what it moves the stretch. */
  lemma ReplacedStretch(pre: string, x: string, y: string, post: string)
    requires AllDigits(pre) && AllDigits(x) && AllDigits(y) && AllDigits(post) && |x| == |y|
    ensures AllDigits(pre + x + post) && AllDigits(pre + y + post)
    ensures TensApart(WeightedSum(pre + x + post, 0), WeightedSum(pre + y + post, 0)) <==>
              TensApart(WeightedSum(x, |post|), WeightedSum(y, |post|))
  {
    var around := SumsAround(pre, x, y, post);
  }

  /** A change of a valid number goes unnoticed exactly when it moves the sum by a multiple of ten. */
  lemma ChangeUnnoticed(s: string, t: string)
    requires IsLuhn(s) && AllDigits(t)
    ensures IsLuhn(t) <==> TensApart(WeightedSum(s, 0), WeightedSum(t, 0))
  {
    TensApartFromTen(WeightedSum(s, 0), WeightedSum(t, 0));
  }

  lemma TensApartFromTen(a: int, b: int)
    requires a % 10 == 0
    ensures b % 10 == 0 <==> TensApart(a, b)
  {
    assert b == 10 * (a / 10) - (a - b);
  }

  lemma CutOut(s: string, from: nat, to: nat)
    requires from <= to <= |s| && AllDigits(s)
    ensures s == s[..from] + s[from..to] + s[to..]
    ensures AllDigits(s[..from]) && AllDigits(s[from..to]) && AllDigits(s[to..])
  {
  }

  lemma WeightOfTwo(a: char, b: char, after: nat)
    requires IsDigit(a) && IsDigit(b)
    ensures AllDigits([a, b])
    ensures WeightedSum([a, b], after) == Weight(DigitValue(a), after % 2 == 0) + Weight(DigitValue(b), after % 2 == 1)
  {
    assert [a, b][..1] == [a];
    WeightOfOne(a, after + 1);
  }

  lemma WeightsDiffer(a: nat, b: nat, double: bool)
    requires a < 10 && b < 10
    ensures TensApart(Weight(a, double), Weight(b, double)) <==> a == b
  {
  }

  /** No single changed digit goes unnoticed. */
  lemma ChangedDigitRejected(s: string, i: nat, c: char)
    requires IsLuhn(s) && i < |s| && IsDigit(c) && c != s[i]
    ensures !IsLuhn(s[i := c])
  {
    var pre, post := s[..i], s[i + 1..];
    CutOut(s, i, i + 1);
    assert s[i..i + 1] == [s[i]] && s[i := c] == pre + [c] + post;
    assert IsDigit(s[i]);
    WeightOfOne(s[i], |post|);
    WeightOfOne(c, |post|);
    ReplacedStretch(pre, [s[i]], [c], post);
    ChangeUnnoticed(s, s[i := c]);
    WeightsDiffer(DigitValue(s[i]), DigitValue(c), |post| % 2 == 1);
  }

  lemma SwappedWeights(a: nat, b: nat, double: bool)
    requires a < 10 && b < 10
    ensures TensApart(Weight(a, double) + Weight(b, !double), Weight(b, double) + Weight(a, !double)) <==>
              a == b || (a == 0 && b == 9) || (a == 9 && b == 0)
  {
    var x := if double then Weight(a, true) - a else a - Weight(a, true);
    var y := if double then Weight(b, true) - b else b - Weight(b, true);
    assert Weight(a, double) + Weight(b, !double) - (Weight(b, double) + Weight(a, !double)) == x - y;
  }

  /** Two neighbours, and what stands around them. */
  lemma AroundNeighbours(s: string, i: nat)
    requires AllDigits(s) && i + 1 < |s|
    ensures var pre, post := s[..i], s[i + 2..];
            && AllDigits(pre) && AllDigits(post) && IsDigit(s[i]) && IsDigit(s[i + 1])
            && s == pre + [s[i], s[i + 1]] + post
            && s[i := s[i + 1]][i + 1 := s[i]] == pre + [s[i + 1], s[i]] + post
  {
    CutOut(s, i, i + 2);
    assert s[i..i + 2] == [s[i], s[i + 1]];
    assert s[i] in s && s[i + 1] in s;
  }

  lemma SwappedStretch(pre: string, a: char, b: char, post: string)
    requires AllDigits(pre) && IsDigit(a) && IsDigit(b) && AllDigits(post) && a != b
    ensures AllDigits(pre + [a, b] + post) && AllDigits(pre + [b, a] + post)
    ensures TensApart(WeightedSum(pre + [a, b] + post, 0), WeightedSum(pre + [b, a] + post, 0)) <==>
              (a == '0' && b == '9') || (a == '9' && b == '0')
  {
    WeightOfTwo(a, b, |post|);
    WeightOfTwo(b, a, |post|);
    ReplacedStretch(pre, [a, b], [b, a], post);
    SwappedWeights(DigitValue(a), DigitValue(b), |post| % 2 == 0);
  }

  /** Swapping two different neighbours goes unnoticed for 0 and 9, and only for them. */
  lemma SwappedNeighbours(s: string, i: nat)
    requires IsLuhn(s) && i + 1 < |s| && s[i] != s[i + 1]
    ensures IsLuhn(s[i := s[i + 1]][i + 1 := s[i]]) <==>
              (s[i] == '0' && s[i + 1] == '9') || (s[i] == '9' && s[i + 1] == '0')
  {
    var pre, post := s[..i], s[i + 2..];
    AroundNeighbours(s, i);
    SwappedStretch(pre, s[i], s[i + 1], post);
    ChangeUnnoticed(s, pre + [s[i + 1], s[i]] + post);
  }

  function CheckDigit(payload: string): (d: nat)
    requires AllDigits(payload)
    ensures d < 10
  {
    (10 - WeightedSum(payload, 1) % 10) % 10
  }

  /** Every payload is completed by exactly one check digit. */
  lemma ExactlyOneCheckDigit(payload: string, c: char)
    requires AllDigits(payload) && IsDigit(c)
    ensures IsLuhn(payload + [c]) <==> DigitValue(c) == CheckDigit(payload)
  {
    WeightOfOne(c, 0);
    WeightedSumConcat(payload, [c], 0);
    CompletesToTen(WeightedSum(payload, 1), DigitValue(c));
  }

  lemma CompletesToTen(sum: nat, d: nat)
    requires d < 10
    ensures (sum + d) % 10 == 0 <==> d == (10 - sum % 10) % 10
  {
  }
}
