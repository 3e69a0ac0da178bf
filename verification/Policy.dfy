/** Detector kinds, modes and the text that replaces a secret. */
module Policy {
  import opened Detectors
  import opened Text
  import opened Wrappers

  type byte = bv8

  datatype Mode = Mask | Hash | Drop

  datatype Error = MissingHashKey(env: string)

  // ----- lower-case hexadecimal

  const HEX := "0123456789abcdef"

  function HexPair(b: byte): (pair: string)
    ensures |pair| == 2
  {
    [HEX[(b >> 4) as nat]] + [HEX[(b & 0x0f) as nat]]
  }

  function HexOf(bytes: seq<byte>): string {
    if bytes == [] then [] else HexPair(bytes[0]) + HexOf(bytes[1..])
  }

  method HexLower(bytes: seq<byte>) returns (output: string)
    ensures output == HexOf(bytes)
  {
    output := [];
    for i := 0 to |bytes|
      invariant output + HexOf(bytes[i..]) == HexOf(bytes)
    {
      HexStep(output, bytes, i);
      output := output + [HEX[(bytes[i] >> 4) as nat]];
      output := output + [HEX[(bytes[i] & 0x0f) as nat]];
    }
  }

  lemma HexStep(output: string, bytes: seq<byte>, i: nat)
    requires i < |bytes|
    ensures output + HexOf(bytes[i..]) ==
            output + [HEX[(bytes[i] >> 4) as nat]] + [HEX[(bytes[i] & 0x0f) as nat]] + HexOf(bytes[i + 1..])
  {
    assert bytes[i..][1..] == bytes[i + 1..];
    ConcatAssociates(output, [HEX[(bytes[i] >> 4) as nat]], [HEX[(bytes[i] & 0x0f) as nat]], HexOf(bytes[i + 1..]));
  }

  function Nibble(c: char): byte {
    if '0' <= c <= '9' then (c as int - '0' as int) as byte
    else if 'a' <= c <= 'f' then (c as int - 'a' as int + 10) as byte
    else 0
  }

  function Unhex(text: string): seq<byte> {
    if |text| < 2 then [] else [(Nibble(text[0]) << 4) | Nibble(text[1])] + Unhex(text[2..])
  }

  lemma NibbleOfHex(n: byte)
    requires n < 16
    ensures n as nat < 16 && Nibble(HEX[n as nat]) == n
  {
    var k := n as nat;
    assert k < 16;
    if k < 10 {
      assert HEX[k] == ('0' as int + k) as char;
    } else {
      assert HEX[k] == ('a' as int + k - 10) as char;
    }
    assert k as byte == n;
  }

  /** Digests are printed without loss, so different digests print differently. */
  lemma {:induction false} UnhexHex(bytes: seq<byte>)
    ensures Unhex(HexOf(bytes)) == bytes
  {
    if bytes != [] {
      var b := bytes[0];
      UnhexHex(bytes[1..]);
      NibbleOfHex(b >> 4);
      NibbleOfHex(b & 0x0f);
      assert ((b >> 4) << 4) | (b & 0x0f) == b;
      assert HexOf(bytes)[2..] == HexOf(bytes[1..]);
    }
  }

  // ----- replacement policies

  /** `hmac` stands for HMAC-SHA256, a total function of key and message. */
  datatype Policy = Policy(mode: Mode, key: Option<seq<byte>>, hashEnv: string, hmac: (seq<byte>, string) -> seq<byte>)
  {
    /** A hashing policy without a key: the one kind that cannot replace anything. */
    predicate Keyless() { mode.Hash? && key.None? }

    function Replacement(kind: DetectorKind, secret: string): (r: Result<string, Error>)
      ensures r.Failure? <==> Keyless()
    {
      match mode
      case Mask => Success("[REDACTED:" + AsStr(kind) + "]")
      case Drop => Success("[DROPPED:" + AsStr(kind) + "]")
      case Hash =>
        match key
        case None => Failure(MissingHashKey(hashEnv))
        case Some(k) => Success("[HASHED:" + AsStr(kind) + ":" + HexOf(hmac(k, secret)) + "]")
    }
  }

  function ScanPolicy(hmac: (seq<byte>, string) -> seq<byte>): Policy {
    Policy(Mask, None, "PRIVACY_PROXY_HASH_KEY", hmac)
  }

  /** `from_config`; `variable` is the content of the environment variable named by `hashEnv`. */
  function FromConfig(mode: Mode, hashEnv: string, variable: Option<seq<byte>>,
                      hmac: (seq<byte>, string) -> seq<byte>): (r: Result<Policy, Error>)
    ensures r.Failure? <==> mode.Hash? && (variable.None? || variable.value == [])
    ensures r.Success? ==> r.value.mode == mode && !r.value.Keyless()
  {
    if mode.Hash? then
      if variable.Some? && variable.value != [] then Success(Policy(mode, variable, hashEnv, hmac))
      else Failure(MissingHashKey(hashEnv))
    else Success(Policy(mode, None, hashEnv, hmac))
  }

  /** `from_config_with_key`. */
  function FromConfigWithKey(mode: Mode, hashEnv: string, key: seq<byte>,
                             hmac: (seq<byte>, string) -> seq<byte>): (r: Result<Policy, Error>)
    ensures r == FromConfig(mode, hashEnv, Some(key), hmac)
  {
    if mode.Hash? then
      if key == [] then Failure(MissingHashKey(hashEnv))
      else Success(Policy(mode, Some(key), hashEnv, hmac))
    else Success(Policy(mode, None, hashEnv, hmac))
  }

  /** What a policy inserts; empty for a policy that cannot replace. */
  function Placeholder(policy: Policy, kind: DetectorKind, secret: string): string {
    match policy.Replacement(kind, secret)
    case Success(text) => text
    case Failure(_) => ""
  }

  /** The documented texts of mask mode; drop mode has DROPPED in the place of REDACTED. */
  lemma InsertedTexts(p: Policy, secret: string)
    requires !p.mode.Hash?
    ensures var head := if p.mode.Mask? then "[REDACTED:" else "[DROPPED:";
            && Placeholder(p, Email, secret) == head + "email" + "]"
            && Placeholder(p, Ip, secret) == head + "ip" + "]"
            && Placeholder(p, Jwt, secret) == head + "jwt" + "]"
            && Placeholder(p, BearerToken, secret) == head + "bearer_token" + "]"
            && Placeholder(p, ApiKey, secret) == head + "api_key" + "]"
            && Placeholder(p, Cookie, secret) == head + "cookie" + "]"
            && Placeholder(p, CreditCard, secret) == head + "credit_card" + "]"
            && Placeholder(p, Iban, secret) == head + "iban" + "]"
            && Placeholder(p, UrlSensitiveParams, secret) == head + "url_sensitive_params" + "]"
  {
  }

  /** Outside hash mode the inserted text says nothing about the secret, nor about the key. */
  lemma PlaceholderIgnoresSecret(p: Policy, q: Policy, kind: DetectorKind, a: string, b: string)
    requires p.mode == q.mode && !p.mode.Hash?
    ensures Placeholder(p, kind, a) == Placeholder(q, kind, b)
  {
  }

  /** The text before the kind. */
  function Head(mode: Mode): string {
    match mode
    case Mask => "[REDACTED:"
    case Drop => "[DROPPED:"
    case Hash => "[HASHED:"
  }

  /** The text after the kind. */
  function Tail(policy: Policy, secret: string): string {
    if policy.mode.Hash? && policy.key.Some? then ":" + (HexOf(policy.hmac(policy.key.value, secret)) + "]") else "]"
  }

  lemma PlaceholderIs(policy: Policy, kind: DetectorKind, secret: string)
    requires !policy.Keyless()
    ensures Placeholder(policy, kind, secret) == Head(policy.mode) + (AsStr(kind) + Tail(policy, secret))
  {
    var head, name := Head(policy.mode), AsStr(kind);
    if policy.mode.Hash? {
      var hex := HexOf(policy.hmac(policy.key.value, secret));
      assert head + name + ":" + hex + "]" == head + (name + (":" + (hex + "]")));
    } else {
      ConcatThree(head, name, "]");
    }
  }

  lemma NameAvoids(kind: DetectorKind, c: char)
    requires c == ':' || c == ']'
    ensures c !in AsStr(kind)
  {
  }

  lemma SamePrefix(a: string, b: string, end: char, x: string, y: string)
    requires end !in a && end !in b && a + ([end] + x) == b + ([end] + y)
    ensures a == b
  {
    ConcatThree(a, [end], x);
    ConcatThree(b, [end], y);
    FindAt(a, end, x);
    FindAt(b, end, y);
    assert (a + [end] + x)[..|a|] == a && (b + [end] + y)[..|b|] == b;
  }

  lemma SameName(a: DetectorKind, b: DetectorKind, x: string, y: string, end: char)
    requires AsStr(a) + ([end] + x) == AsStr(b) + ([end] + y) && (end == ':' || end == ']')
    ensures a == b
  {
    NameAvoids(a, end);
    NameAvoids(b, end);
    SamePrefix(AsStr(a), AsStr(b), end, x, y);
    NamesAreDistinct(a, b);
  }

  lemma HeadsDiffer(m: Mode, n: Mode, x: string, y: string)
    requires Head(m) + x == Head(n) + y
    ensures m == n && x == y
  {
    assert (Head(m) + x)[1] == Head(m)[1] && (Head(n) + y)[1] == Head(n)[1];
    assert (Head(m) + x)[|Head(m)|..] == x && (Head(n) + y)[|Head(n)|..] == y;
  }

  lemma SameMiddle(head: string, x: string, y: string)
    requires head + (x + "]") == head + (y + "]")
    ensures x == y
  {
    assert (head + (x + "]"))[|head|..] == x + "]" && (head + (y + "]"))[|head|..] == y + "]";
    assert (x + "]")[..|x + "]"| - 1] == x && (y + "]")[..|y + "]"| - 1] == y;
  }

  lemma HashPlaceholderIs(p: Policy, kind: DetectorKind, secret: string)
    requires p.mode.Hash? && p.key.Some?
    ensures var head := Head(Hash) + AsStr(kind) + ":";
            Placeholder(p, kind, secret) == head + (HexOf(p.hmac(p.key.value, secret)) + "]")
  {
    ConcatThree(Head(Hash) + AsStr(kind) + ":", HexOf(p.hmac(p.key.value, secret)), "]");
  }

  /** In hash mode the inserted text determines the digest, and equal digests are inserted equally. */
  lemma PlaceholderShowsDigest(p: Policy, kind: DetectorKind, a: string, b: string)
    requires p.mode.Hash? && p.key.Some?
    ensures Placeholder(p, kind, a) == Placeholder(p, kind, b) <==> p.hmac(p.key.value, a) == p.hmac(p.key.value, b)
  {
    var x, y := p.hmac(p.key.value, a), p.hmac(p.key.value, b);
    HashPlaceholderIs(p, kind, a);
    HashPlaceholderIs(p, kind, b);
    UnhexHex(x);
    UnhexHex(y);
    if Placeholder(p, kind, a) == Placeholder(p, kind, b) {
      SameMiddle(Head(Hash) + AsStr(kind) + ":", HexOf(x), HexOf(y));
    }
  }

  /** Inserted text tells what it replaced: equal texts come from the same mode and the same kind. */
  lemma PlaceholderTellsKind(p: Policy, q: Policy, a: DetectorKind, b: DetectorKind, x: string, y: string)
    requires !p.Keyless() && !q.Keyless() && Placeholder(p, a, x) == Placeholder(q, b, y)
    ensures p.mode == q.mode && a == b
  {
    PlaceholderIs(p, a, x);
    PlaceholderIs(q, b, y);
    HeadsDiffer(p.mode, q.mode, AsStr(a) + Tail(p, x), AsStr(b) + Tail(q, y));
    if p.mode.Hash? {
      SameName(a, b, HexOf(p.hmac(p.key.value, x)) + "]", HexOf(q.hmac(q.key.value, y)) + "]", ':');
    } else {
      assert Tail(p, x) == [']'] + "" && Tail(q, y) == [']'] + "";
      SameName(a, b, "", "", ']');
    }
  }

  predicate IsPlaceholderChar(c: char) { IsWord(c) || c == '[' || c == ']' || c == ':' }

  lemma {:induction false} HexChars(bytes: seq<byte>)
    ensures forall c | c in HexOf(bytes) :: IsWord(c)
  {
    if bytes != [] {
      HexChars(bytes[1..]);
      assert forall i | 0 <= i < 16 :: IsWord(HEX[i]);
    }
  }

  lemma NameChars(kind: DetectorKind)
    ensures forall c | c in AsStr(kind) :: IsPlaceholderChar(c)
  {
  }

  /** In every mode the inserted text is free of separators, white space and line breaks, and ends in a bracket. */
  lemma PlaceholderChars(policy: Policy, kind: DetectorKind, secret: string)
    ensures forall c | c in Placeholder(policy, kind, secret) :: IsPlaceholderChar(c)
    ensures !policy.Keyless() ==>
              var text := Placeholder(policy, kind, secret);
              |text| > 0 && text[0] == '[' && text[|text| - 1] == ']'
  {
    NameChars(kind);
    match policy.mode {
      case Mask => Bracketed("[REDACTED:", AsStr(kind));
      case Drop => Bracketed("[DROPPED:", AsStr(kind));
      case Hash =>
        if policy.key.Some? {
          HexChars(policy.hmac(policy.key.value, secret));
          Bracketed("[HASHED:" + AsStr(kind) + ":", HexOf(policy.hmac(policy.key.value, secret)));
        }
    }
  }

  lemma Bracketed(head: string, body: string)
    requires head != [] && head[0] == '['
    requires forall c | c in head :: IsPlaceholderChar(c)
    requires forall c | c in body :: IsPlaceholderChar(c)
    ensures var text := head + body + "]";
            text[0] == '[' && text[|text| - 1] == ']' && forall c | c in text :: IsPlaceholderChar(c)
  {
  }
}
