/** Which card numbers are redacted. */
module CardLaws {
  import opened Text
  import opened Detectors
  import opened Policy
  import opened Splicing
  import opened Luhn
  import opened Pipeline
  import opened StageLaws

  /** The text is these digits with blanks and hyphens in between. */
  predicate WritesNumber(text: string, digits: string) {
    if text == "" then digits == ""
    else if text[0] == ' ' || text[0] == '-' then WritesNumber(text[1..], digits)
    else digits != "" && '0' <= digits[0] <= '9' && text[0] == digits[0] && WritesNumber(text[1..], digits[1..])
  }

  lemma {:induction false} WrittenDigits(text: string, digits: string)
    requires WritesNumber(text, digits)
    ensures DigitsOnly(text) == digits && AllDigits(digits)
  {
    if text != "" {
      if text[0] == ' ' || text[0] == '-' {
        WrittenDigits(text[1..], digits);
        assert [] + digits == digits;
      } else {
        WrittenDigits(text[1..], digits[1..]);
        assert digits == [digits[0]] + digits[1..];
      }
    }
  }

  lemma {:induction false} WritesBoth(a: string, b: string, x: string, y: string)
    requires WritesNumber(a, x) && WritesNumber(b, y)
    ensures WritesNumber(a + b, x + y)
  {
    if a == "" {
      assert a + b == b && x + y == y;
    } else {
      assert (a + b)[1..] == a[1..] + b && (a + b)[0] == a[0];
      if a[0] == ' ' || a[0] == '-' {
        WritesBoth(a[1..], b, x, y);
      } else {
        WritesBoth(a[1..], b, x[1..], y);
        assert (x + y)[1..] == x[1..] + y && (x + y)[0] == x[0];
      }
    }
  }

  lemma WritesOne(c: char)
    requires '0' <= c <= '9'
    ensures WritesNumber([c], [c])
  {
    assert [c][1..] == "";
  }

  /** The one match of the card regex is the number. */
  predicate CardMatched(engine: Engine, before: string, number: string, after: string) {
    engine.patterns.creditCard(before + number + after) == [Placed(before, number)]
  }

  predicate IsCard(digits: string) { 13 <= |digits| <= 19 && IsLuhn(digits) }

  lemma CardDecision(engine: Engine, stage: Stage, p: Policy, number: string, digits: string)
    requires stage.CreditCards? && WritesNumber(number, digits)
    ensures DecideCandidate(engine, stage, p, number) ==
            if IsCard(digits) then Replace(CreditCard, p, digits) else Decline
  {
    WrittenDigits(number, digits);
  }

  /** The stage replaces the number and records it as a card, or leaves it. */
  ghost predicate Redacts(engine: Engine, stage: Stage, p: Policy, digits: string, before: string, number: string,
                          after: string, isCard: bool)
  {
    Decides(engine, stage, p, CreditCard, digits, before, number, after, isCard)
  }

  /** The stage acts on a number exactly when it has 13 to 19 digits that pass the Luhn check. */
  lemma CardDecided(engine: Engine, stage: Stage, p: Policy, before: string, number: string, after: string,
                    digits: string, isCard: bool)
    requires stage.CreditCards? && !p.Keyless()
    requires WritesNumber(number, digits) && CardMatched(engine, before, number, after) && isCard == IsCard(digits)
    ensures Redacts(engine, stage, p, digits, before, number, after, isCard)
  {
    MatcherIs(engine, stage, before + number + after);
    HasOneIf(engine, stage, before + number + after, Placed(before, number), [Placed(before, number)]);
    CardDecision(engine, stage, p, number, digits);
    CandidateDecided(engine, stage, p, before, number, after, CreditCard, digits, isCard);
  }

  /** What becomes of the number when it is completed by a digit. */
  ghost predicate Completes(engine: Engine, stage: Stage, p: Policy, before: string, body: string, after: string,
                            payload: string, c: char, check: char)
  {
    Redacts(engine, stage, p, payload + [c], before, body + [c], after, c == check)
  }

  lemma CompletedIsCard(body: string, payload: string, c: char, check: char)
    requires 12 <= |payload| <= 18 && WritesNumber(body, payload) && '0' <= c <= '9'
    requires AllDigits(payload) && IsDigit(check) && DigitValue(check) == CheckDigit(payload)
    ensures WritesNumber(body + [c], payload + [c]) && IsCard(payload + [c]) == (c == check)
  {
    WritesOne(c);
    WritesBoth(body, [c], payload, [c]);
    ExactlyOneCheckDigit(payload, c);
  }

  lemma CompletedDecided(engine: Engine, stage: Stage, p: Policy, before: string, body: string, after: string,
                         payload: string, c: char, check: char)
    requires stage.CreditCards? && !p.Keyless()
    requires 12 <= |payload| <= 18 && WritesNumber(body, payload) && '0' <= c <= '9'
    requires CardMatched(engine, before, body + [c], after)
    requires AllDigits(payload) && IsDigit(check) && DigitValue(check) == CheckDigit(payload)
    ensures Completes(engine, stage, p, before, body, after, payload, c, check)
  {
    CompletedIsCard(body, payload, c, check);
    CardDecided(engine, stage, p, before, body + [c], after, payload + [c], c == check);
  }

  lemma CheckChar(payload: string) returns (check: char)
    requires AllDigits(payload)
    ensures '0' <= check <= '9' && DigitValue(check) == CheckDigit(payload)
  {
    check := (CheckDigit(payload) + '0' as int) as char;
  }

  /** For 12 to 18 digits, however they are written, there is one digit with which the number is replaced and recorded
      as a card; with each of the nine others the text stays. */
  lemma OneCheckDigitRedacted(engine: Engine, stage: Stage, p: Policy, before: string, body: string, after: string,
                              payload: string)
    returns (check: char)
    requires stage.CreditCards? && !p.Keyless() && 12 <= |payload| <= 18 && WritesNumber(body, payload)
    requires forall c | '0' <= c <= '9' :: CardMatched(engine, before, body + [c], after)
    ensures '0' <= check <= '9'
    ensures forall c | '0' <= c <= '9' :: Completes(engine, stage, p, before, body, after, payload, c, check)
  {
    WrittenDigits(body, payload);
    check := CheckChar(payload);
    forall c | '0' <= c <= '9'
      ensures Completes(engine, stage, p, before, body, after, payload, c, check)
    {
      assert CardMatched(engine, before, body + [c], after);
      CompletedDecided(engine, stage, p, before, body, after, payload, c, check);
    }
  }

  lemma WrittenAround(front: string, c: char, back: string, x: string, y: string)
    requires WritesNumber(front, x) && WritesNumber(back, y) && '0' <= c <= '9'
    ensures WritesNumber(front + [c] + back, x + [c] + y)
  {
    WritesOne(c);
    WritesBoth(front, [c], x, [c]);
    WritesBoth(front + [c], back, x + [c], y);
  }

  lemma ChangedDigit(x: string, c: char, d: char, y: string)
    requires IsCard(x + [c] + y) && IsDigit(d) && c != d
    ensures !IsCard(x + [d] + y)
  {
    ChangedDigitRejected(x + [c] + y, |x|, d);
    assert (x + [c] + y)[|x| := d] == x + [d] + y;
  }

  /** A number that is replaced is left alone when any one of its digits is another. */
  lemma ChangedCardLeft(engine: Engine, stage: Stage, p: Policy, before: string, front: string, c: char, d: char,
                        back: string, after: string, x: string, y: string)
    requires stage.CreditCards? && !p.Keyless() && WritesNumber(front, x) && WritesNumber(back, y)
    requires '0' <= c <= '9' && '0' <= d <= '9' && c != d
    requires CardMatched(engine, before, front + [c] + back, after)
    requires CardMatched(engine, before, front + [d] + back, after)
    ensures || Redacts(engine, stage, p, x + [c] + y, before, front + [c] + back, after, false)
            || Redacts(engine, stage, p, x + [d] + y, before, front + [d] + back, after, false)
  {
    WrittenAround(front, c, back, x, y);
    WrittenAround(front, d, back, x, y);
    if IsCard(x + [c] + y) {
      ChangedDigit(x, c, d, y);
      CardDecided(engine, stage, p, before, front + [d] + back, after, x + [d] + y, false);
    } else {
      CardDecided(engine, stage, p, before, front + [c] + back, after, x + [c] + y, false);
    }
  }
}
