/** A text on which running the IBAN pass a second time does change the output. */
module IbanExample {
  import opened Wrappers
  import opened Policy
  import opened Splicing
  import opened Iban
  import opened IbanPass
  import opened IbanRerun

  function Zeros(n: nat): string { if n == 0 then "" else Zeros(n - 1) + "0" }

  /** "AA75" and zeros: an IBAN at every permitted length. */
  function ZeroIban(n: nat): string { "AA75" + Zeros(n) }

  lemma {:induction false} ZerosAreZero(n: nat)
    ensures |Zeros(n)| == n && IbanChars(Zeros(n)) && Number(Zeros(n)) == 0
  {
    if n > 0 {
      ZerosAreZero(n - 1);
      assert Zeros(n)[..n - 1] == Zeros(n - 1);
    }
  }

  lemma {:induction false} AlreadyNormal(s: string)
    requires IbanChars(s)
    ensures NormalizeIban(s) == s
  {
    if s != [] {
      AlreadyNormal(s[..|s| - 1]);
      assert s == s[..|s| - 1] + [s[|s| - 1]];
      assert s[|s| - 1] in s;
    }
  }

  lemma ZeroIbanIsIban(n: nat)
    requires 11 <= n <= 30
    ensures IsIban(ZeroIban(n)) && IsValidIban(ZeroIban(n))
  {
    ZerosAreZero(n);
    var iban := ZeroIban(n);
    assert iban[..4] == "AA75" && iban[4..] == Zeros(n);
    assert Rearranged(iban) == Zeros(n) + "AA75";
    NumberAfterZeros(Zeros(n));
    AlreadyNormal(iban);
  }

  lemma NumberAfterZeros(z: string)
    requires IbanChars(z) && Number(z) == 0
    ensures IbanChars(z + "AA75") && Number(z + "AA75") == 101075
  {
    assert IbanChars("AA75");
    assert (z + "A")[..|z|] == z;
    assert Number(z + "A") == 10;
    assert (z + "AA")[..|z| + 1] == z + "A";
    assert Number(z + "AA") == 1010;
    assert (z + "AA7")[..|z| + 2] == z + "AA";
    assert Number(z + "AA7") == 10107;
    assert (z + "AA75")[..|z| + 3] == z + "AA7";
  }

  /** The span of a text that begins with 34 letters and digits forming an IBAN, and goes on with another. */
  lemma SpanOfFull(iban: string, rest: string)
    requires IsIban(iban) && |iban| == 34 && IbanChars(rest)
    ensures IbanSpan(iban + rest) == Some(34)
  {
    var s := iban + rest;
    IbanSpanIsLongest(s);
    assert s[..34] == iban;
    assert s[33] == iban[33] && iban[33] in iban;
    AlreadyNormal(iban);
    assert IsIbanPrefix(s, 34);
    forall end: nat | 34 < end
      ensures !IsIbanPrefix(s, end)
    {
      if end <= |s| {
        AlreadyNormal(s[..end]);
      }
    }
  }

  lemma SpanOfAll(iban: string)
    requires IsIban(iban)
    ensures IbanSpan(iban).Some?
  {
    IbanSpanIsLongest(iban);
    assert iban[..|iban|] == iban;
    assert iban[|iban| - 1] in iban;
    AlreadyNormal(iban);
    assert IsIbanPrefix(iban, |iban|);
  }

  /** Letters and digits only: there is no word boundary after the first character. */
  lemma OnlyFirstStarts(s: string)
    requires IbanChars(s)
    ensures forall at | at > 0 :: !IsIbanStart(s, at)
  {
    forall at | 0 < at <= |s|
      ensures !IsIbanStart(s, at)
    {
      assert s[at - 1] in s;
    }
  }

  lemma OnlyOneAtStart(edits: seq<Edit>, length: nat)
    requires Ordered(edits, 0, length) && edits != []
    requires forall e | e in edits :: e.start == 0 && e.end > 0
    ensures |edits| == 1
  {
    OrderedFits(edits, 0, length);
    assert edits[0] in edits;
  }

  lemma FirstPassReplacesFirst(first: string, second: string, policy: Policy)
    requires IsIban(first) && |first| == 34 && IbanChars(second)
    ensures |ChosenEdits(first + second, policy)| == 1
    ensures ChosenEdits(first + second, policy)[0].start == 0 && ChosenEdits(first + second, policy)[0].end == 34
  {
    var input := first + second;
    var edits := ChosenEdits(input, policy);
    SpanOfFull(first, second);
    OnlyFirstStarts(input);
    assert input[0..] == input;
    assert first[0] == input[0] && first[1] == input[1] && first[2] == input[2] && first[3] == input[3];
    assert BeginsIban(input, 0);
    ChosenCoverIbans(input, policy);
    assert Covered(edits, 0);
    ChosenAreIbans(input, policy);
    forall d | d in edits
      ensures d.start == 0 && d.end == 34
    {
      assert IsIbanEdit(input, policy, d);
    }
    OnlyOneAtStart(edits, |input|);
  }

  /** Two IBANs in a row: the first pass can replace only the first, and what it inserts gives the second
      the word boundary it lacked. So masking, or dropping, is not idempotent. */
  lemma SecondPassCanAct(policy: Policy)
    requires IsMaskOrDrop(policy)
    ensures var input := ZeroIban(30) + ZeroIban(11);
            Redacted(Redacted(input, policy), policy) != Redacted(input, policy)
  {
    var first, second := ZeroIban(30), ZeroIban(11);
    var input := first + second;
    ZerosAreZero(30);
    ZerosAreZero(11);
    ZeroIbanIsIban(30);
    ZeroIbanIsIban(11);
    SpanOfAll(second);
    FirstPassReplacesFirst(first, second, policy);
    assert input[34..] == second;
    assert Gaps(input, ChosenEdits(input, policy), 0)[1..] == [second];
    assert Exposed(second);
    SecondPassIdleIff(input, policy);
  }
}
