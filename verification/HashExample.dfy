/** An address whose HMAC-SHA256 begins with an IBAN, so that hashing it records more than masking it. */
module HashExample {
  import opened Wrappers
  import opened Text
  import opened Detectors
  import opened Policy
  import opened Iban
  import opened IbanRerun
  import opened IbanCount
  import opened Pipeline
  import opened HashLaws
  import Parts

  const MAIL := "user173@example.com"

  /** "test-key". */
  const KEY: seq<byte> := [0x74, 0x65, 0x73, 0x74, 0x2d, 0x6b, 0x65, 0x79]

  /** The first eight bytes of the HMAC-SHA256 of the address under the key. */
  const FRONT: seq<byte> := [0xdc, 0x78, 0x41, 0x33, 0xc8, 0xcf, 0x1d, 0x8e]

  lemma {:induction false} HexIs(bytes: seq<byte>, text: string)
    requires |text| == 2 * |bytes|
    requires forall i | 0 <= i < |bytes| :: HexPair(bytes[i]) == text[2 * i..2 * i + 2]
    ensures HexOf(bytes) == text
  {
    if bytes != [] {
      var rest := text[2..];
      forall i | 0 <= i < |bytes[1..]|
        ensures HexPair(bytes[1..][i]) == rest[2 * i..2 * i + 2]
      {
        assert HexPair(bytes[i + 1]) == text[2 * (i + 1)..2 * (i + 1) + 2];
      }
      HexIs(bytes[1..], rest);
      assert HexPair(bytes[0]) == text[0..2];
    }
  }

  lemma {:induction false} HexConcat(a: seq<byte>, b: seq<byte>)
    ensures HexOf(a + b) == HexOf(a) + HexOf(b)
  {
    if a == [] {
      assert a + b == b;
    } else {
      HexConcat(a[1..], b);
      assert (a + b)[1..] == a[1..] + b;
      ConcatThree(HexPair(a[0]), HexOf(a[1..]), HexOf(b));
    }
  }

  lemma FrontPrints()
    ensures HexOf(FRONT) == "dc784133c8cf1d8e"
  {
    var text := "dc784133c8cf1d8e";
    assert HexPair(0xdc) == "dc" && HexPair(0x78) == "78" && HexPair(0x41) == "41" && HexPair(0x33) == "33";
    assert HexPair(0xc8) == "c8" && HexPair(0xcf) == "cf" && HexPair(0x1d) == "1d" && HexPair(0x8e) == "8e";
    assert text[0..2] == "dc" && text[2..4] == "78" && text[4..6] == "41" && text[6..8] == "33";
    assert text[8..10] == "c8" && text[10..12] == "cf" && text[12..14] == "1d" && text[14..16] == "8e";
    HexIs(FRONT, text);
  }

  /** The remainders while `s` is read after `before`. */
  lemma {:induction false} Remainders(before: string, s: string, r: seq<nat>)
    requires IbanChars(before) && IbanChars(s) && |r| == |s| + 1 && r[0] == Number(before) % 97
    requires forall i | 0 <= i < |s| :: r[i + 1] == (r[i] * Places(s[i]) + CharValue(s[i])) % 97
    ensures Number(before + s) % 97 == r[|s|]
  {
    if s == [] {
      assert before + s == before;
    } else {
      var n := |s| - 1;
      Remainders(before, s[..n], r[..|s|]);
      assert (before + s)[..|before + s| - 1] == before + s[..n];
      NextRemainder(Number(before + s[..n]), Places(s[n]), CharValue(s[n]));
    }
  }

  lemma NextRemainder(n: nat, places: nat, value: nat)
    requires places == 10 || places == 100
    ensures (n * places + value) % 97 == (n % 97 * places + value) % 97
  {
    AddMultiple(n % 97 * places + value, places * (n / 97));
  }

  lemma FirstFour(s: string)
    requires s == "4133"
    ensures Number(s) % 97 == 59
  {
    Remainders("", s, [0, 4, 41, 25, 59]);
    assert "" + s == s;
  }

  lemma NextFour(before: string, s: string)
    requires IbanChars(before) && Number(before) % 97 == 59 && s == "C8CF"
    ensures Number(before + s) % 97 == 61
  {
    Remainders(before, s, [59, 92, 55, 80, 61]);
  }

  lemma ThirdFour(before: string, s: string)
    requires IbanChars(before) && Number(before) % 97 == 61 && s == "1D8E"
    ensures Number(before + s) % 97 == 31
  {
    Remainders(before, s, [61, 29, 3, 38, 31]);
  }

  lemma LastFour(before: string, s: string)
    requires IbanChars(before) && Number(before) % 97 == 31 && s == "DC78"
    ensures Number(before + s) % 97 == 1
  {
    Remainders(before, s, [31, 9, 39, 9, 1]);
  }

  lemma AllFour(a: string, b: string, c: string, d: string)
    requires a == "4133" && b == "C8CF" && c == "1D8E" && d == "DC78"
    ensures Number(a + b + c + d) % 97 == 1
  {
    FirstFour(a);
    NextFour(a, b);
    ThirdFour(a + b, c);
    LastFour(a + b + c, d);
  }

  lemma {:induction false} Capitals(s: string)
    requires forall c | c in s :: IsAlnum(c)
    ensures |NormalizeIban(s)| == |s|
    ensures forall i | 0 <= i < |s| :: NormalizeIban(s)[i] == ToUpper(s[i])
  {
    if s != [] {
      Capitals(s[..|s| - 1]);
      assert s[|s| - 1] in s;
    }
  }

  lemma FrontIsIban()
    ensures IsIban("DC784133C8CF1D8E")
  {
    AllFour("4133", "C8CF", "1D8E", "DC78");
    assert Rearranged("DC784133C8CF1D8E") == "4133" + "C8CF" + "1D8E" + "DC78";
  }

  lemma FrontBeginsIban(front: string)
    requires front == "dc784133c8cf1d8e"
    ensures IsIbanPrefix(front, 16)
  {
    Capitals(front);
    assert NormalizeIban(front) == "DC784133C8CF1D8E";
    FrontIsIban();
    assert front[..16] == front;
  }

  lemma DigestBeginsIban(front: string, back: string)
    requires front == "dc784133c8cf1d8e"
    ensures Exposed(front + back)
  {
    FrontBeginsIban(front);
    IbanSpanIsLongest(front);
    assert (front + back)[..16] == front;
    SpanOfPrefix(front + back, 16);
  }

  /** The address, hashed under the key. */
  predicate HashesMail(p: Policy, mail: string) {
    mail == MAIL && p.mode.Hash? && p.key == Some(KEY) && FRONT <= p.hmac(KEY, mail)
  }

  lemma FrontInPrint(digest: seq<byte>)
    requires FRONT <= digest
    ensures Exposed(HexOf(digest))
  {
    var back := digest[|FRONT|..];
    FrontPrints();
    HexConcat(FRONT, back);
    assert digest == FRONT + back;
    DigestBeginsIban(HexOf(FRONT), HexOf(back));
  }

  lemma MailPrintsIban(hash: Policy, mail: string)
    requires HashesMail(hash, mail)
    ensures PrintsIban(hash, mail)
  {
    FrontInPrint(hash.hmac(KEY, mail));
  }

  /** Hashing the text records what masking it does, and an IBAN. */
  ghost predicate OneIbanMore(engine: Engine, mask: Policy, hash: Policy, text: string) {
    var m, h := RedactedStr(engine, mask, text), RedactedStr(engine, hash, text);
    m.Some? && h.Some? && h.value.events == m.value.events + [DetectorKind.Iban]
  }

  lemma RecordsOneMore(engine: Engine, mask: Policy, hash: Policy, mail: string)
    requires engine.enabled == {Email, DetectorKind.Iban} && engine.patterns.email(mail) == [Whole(mail)]
    requires !mask.mode.Hash? && PrintsIban(hash, mail)
    ensures OneIbanMore(engine, mask, hash, mail)
  {
    HashedMailIff(engine, mask, hash, mail);
    assert Parts.Repeat(DetectorKind.Iban, 1) == [DetectorKind.Iban] by {
      assert Parts.Repeat(DetectorKind.Iban, 0) == [];
    }
  }

  /** Hashing the address records an IBAN that masking it does not. */
  lemma HashCanRecordMore(engine: Engine, mask: Policy, hash: Policy, mail: string)
    requires engine.enabled == {Email, DetectorKind.Iban} && engine.patterns.email(mail) == [Whole(mail)]
    requires mask.mode.Mask? && HashesMail(hash, mail)
    ensures OneIbanMore(engine, mask, hash, mail)
  {
    MailPrintsIban(hash, mail);
    RecordsOneMore(engine, mask, hash, mail);
  }
}
