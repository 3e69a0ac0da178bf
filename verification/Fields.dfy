/** `FieldRules`: which JSON keys are sensitive, and as what. */
module Fields {
  import opened Wrappers
  import opened Text
  import opened Detectors

  /** `normalize_field_name`: letters and digits, in lower case. */
  function NormalizeFieldName(input: string): string {
    if input == [] then []
    else (if IsAlnum(input[0]) then [ToLower(input[0])] else []) + NormalizeFieldName(input[1..])
  }

  lemma {:induction false} NormalizeConcat(a: string, b: string)
    ensures NormalizeFieldName(a + b) == NormalizeFieldName(a) + NormalizeFieldName(b)
  {
    if a == [] {
      assert a + b == b;
    } else {
      NormalizeConcat(a[1..], b);
      assert (a + b)[1..] == a[1..] + b && (a + b)[0] == a[0];
      var head := if IsAlnum(a[0]) then [ToLower(a[0])] else [];
      assert head + (NormalizeFieldName(a[1..]) + NormalizeFieldName(b)) ==
             head + NormalizeFieldName(a[1..]) + NormalizeFieldName(b);
    }
  }

  function NormalizeAll(fields: seq<string>): seq<string> {
    if fields == [] then []
    else
      var name := NormalizeFieldName(fields[0]);
      (if name == [] then [] else [name]) + NormalizeAll(fields[1..])
  }

  lemma {:induction false} NormalizedMember(fields: seq<string>, name: string)
    ensures name in NormalizeAll(fields) <==>
              name != [] && exists field | field in fields :: NormalizeFieldName(field) == name
  {
    if fields != [] {
      NormalizedMember(fields[1..], name);
      assert forall field :: field in fields <==> field == fields[0] || field in fields[1..];
      assert fields[0] in fields;
    }
  }

  datatype FieldRules = FieldRules(deny: seq<string>, allow: set<string>)
  {
    predicate Matches(normalized: string) {
      exists d | d in deny :: normalized == d || (|d| >= 5 && Contains(normalized, d))
    }

    function KindForField(field: string): Option<DetectorKind> {
      var normalized := NormalizeFieldName(field);
      if normalized == [] || normalized in allow then None
      else if !Matches(normalized) then None
      else if Contains(normalized, "cookie") then Some(Cookie)
      else if Contains(normalized, "authorization") || Contains(normalized, "bearer") then Some(BearerToken)
      else Some(ApiKey)
    }
  }

  function NewRules(fieldsDeny: seq<string>, fieldsAllow: seq<string>): FieldRules {
    FieldRules(NormalizeAll(fieldsDeny), set name | name in NormalizeAll(fieldsAllow))
  }

  lemma {:induction false} ContainsMiddle(a: string, part: string, b: string)
    ensures Contains(a + part + b, part)
  {
    if a == [] {
      assert a + part + b == part + b;
      assert part <= part + b;
    } else {
      ContainsMiddle(a[1..], part, b);
      assert (a + part + b)[1..] == a[1..] + part + b;
    }
  }

  /** Case and punctuation of a key are irrelevant. */
  lemma KindIgnoresSpelling(rules: FieldRules, a: string, b: string)
    requires NormalizeFieldName(a) == NormalizeFieldName(b)
    ensures rules.KindForField(a) == rules.KindForField(b)
  {
  }

  /** A configured allow entry exempts every spelling of itself, whatever is denied. */
  lemma AllowEntriesAllow(fieldsDeny: seq<string>, fieldsAllow: seq<string>, entry: string, field: string)
    requires entry in fieldsAllow && NormalizeFieldName(entry) == NormalizeFieldName(field)
    ensures NewRules(fieldsDeny, fieldsAllow).KindForField(field).None?
  {
    NormalizedMember(fieldsAllow, NormalizeFieldName(entry));
    KindIgnoresSpelling(NewRules(fieldsDeny, fieldsAllow), entry, field);
  }

  /** A configured deny entry denies itself in every spelling, and, when it has five letters or digits
      or more, every key that it is a part of; only an allow entry for the very key exempts it. */
  lemma DenyEntriesDeny(fieldsDeny: seq<string>, fieldsAllow: seq<string>, entry: string, before: string, after: string)
    requires entry in fieldsDeny && NormalizeFieldName(entry) != []
    requires before == after == "" || |NormalizeFieldName(entry)| >= 5
    ensures NewRules(fieldsDeny, fieldsAllow).KindForField(before + entry + after).Some? <==>
              forall allowed | allowed in fieldsAllow ::
                NormalizeFieldName(allowed) != NormalizeFieldName(before + entry + after)
  {
    var rules := NewRules(fieldsDeny, fieldsAllow);
    var normalized, d := NormalizeFieldName(before + entry + after), NormalizeFieldName(entry);
    NormalizedMember(fieldsDeny, d);
    NormalizedMember(fieldsAllow, normalized);
    assert normalized != [] && (normalized == d || (|d| >= 5 && Contains(normalized, d))) by {
      EntryContained(before, entry, after);
      if before == after == "" {
        assert before + entry + after == entry;
      }
    }
    assert rules.Matches(normalized);
  }

  lemma EntryContained(before: string, entry: string, after: string)
    requires NormalizeFieldName(entry) != []
    ensures NormalizeFieldName(before + entry + after) != []
    ensures Contains(NormalizeFieldName(before + entry + after), NormalizeFieldName(entry))
  {
    NormalizeConcat(before + entry, after);
    NormalizeConcat(before, entry);
    ContainsMiddle(NormalizeFieldName(before), NormalizeFieldName(entry), NormalizeFieldName(after));
  }
}
