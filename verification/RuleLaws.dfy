/** Which keys are denied, and what the walk does at each, by the configured entries and the enabled detectors. */
module RuleLaws {
  import opened Wrappers
  import opened Text
  import opened Detectors
  import opened Fields
  import opened Spelling

  // ----- the rules

  /** A deny entry denies the keys that spell it, and from five letters and digits on those that it stands in. */
  ghost predicate EntryDenies(entry: string, name: string) {
    var d := NormalizeFieldName(entry);
    d != "" && (name == d || (|d| >= 5 && StandsIn(d, name)))
  }

  /** Some deny entry denies the key, and no allow entry is the key in another spelling. */
  ghost predicate IsDenied(deny: seq<string>, allow: seq<string>, key: string) {
    var name := NormalizeFieldName(key);
    && (exists entry | entry in deny :: EntryDenies(entry, name))
    && (forall entry | entry in allow :: NormalizeFieldName(entry) != name)
  }

  /** What a denied key is taken for. */
  ghost function KindOf(key: string): DetectorKind {
    var name := NormalizeFieldName(key);
    if StandsIn("cookie", name) then Cookie
    else if StandsIn("authorization", name) || StandsIn("bearer", name) then BearerToken
    else ApiKey
  }

  lemma MatchesIff(deny: seq<string>, allow: seq<string>, name: string)
    requires name != ""
    ensures NewRules(deny, allow).Matches(name) <==> exists entry | entry in deny :: EntryDenies(entry, name)
  {
    var rules := NewRules(deny, allow);
    if rules.Matches(name) {
      var d :| d in rules.deny && (name == d || (|d| >= 5 && Contains(name, d)));
      NormalizedMember(deny, d);
      ContainsIff(name, d);
      var entry :| entry in deny && NormalizeFieldName(entry) == d;
      assert EntryDenies(entry, name);
    }
    if entry :| entry in deny && EntryDenies(entry, name) {
      var d := NormalizeFieldName(entry);
      NormalizedMember(deny, d);
      ContainsIff(name, d);
      assert d in rules.deny;
    }
  }

  lemma KindIs(rules: FieldRules, key: string)
    ensures rules.KindForField(key).Some? ==> rules.KindForField(key) == Some(KindOf(key))
  {
    var name := NormalizeFieldName(key);
    ContainsIff(name, "cookie");
    ContainsIff(name, "authorization");
    ContainsIff(name, "bearer");
  }

  /** The rules give a key its kind when some entry denies it and none allows it, and no kind otherwise. */
  lemma KindForFieldIs(deny: seq<string>, allow: seq<string>, key: string)
    ensures NewRules(deny, allow).KindForField(key) ==
            if IsDenied(deny, allow, key) then Some(KindOf(key)) else None
  {
    var name, rules := NormalizeFieldName(key), NewRules(deny, allow);
    KindIs(rules, key);
    NormalizedMember(allow, name);
    if name != "" {
      MatchesIff(deny, allow, name);
    } else {
      NothingDeniesNothing(deny);
    }
  }

  lemma NothingDeniesNothing(deny: seq<string>)
    ensures !exists entry | entry in deny :: EntryDenies(entry, "")
  {
  }
}
