/** `redact_value_inner` and `scan_value_inner`: field rules, then the string pipeline, over a JSON tree. */
module JsonWalk {
  import opened Wrappers
  import opened Detectors
  import opened Policy
  import opened Stats
  import opened Splicing
  import opened Json
  import opened Pipeline

  /** What the walk needs to know: the kind of an enabled denied key, the policy, what becomes of a string,
      and how a value is serialized. */
  datatype Walker = Walker(denied: string -> Option<DetectorKind>, policy: Policy, onText: string -> Option<Pass>,
                           serialize: Json -> string)

  datatype Outcome = Outcome(value: Json, events: seq<DetectorKind>)

  datatype ItemsOutcome = ItemsOutcome(items: seq<Json>, events: seq<DetectorKind>)

  datatype FieldsOutcome = FieldsOutcome(fields: seq<Field>, events: seq<DetectorKind>)

  /** `value_hash_material`. */
  function Material(serialize: Json -> string, value: Json): string {
    if value.Text? then value.text else serialize(value)
  }

  function PlaceholderFor(w: Walker, kind: DetectorKind, value: Json): Json {
    Text(Placeholder(w.policy, kind, Material(w.serialize, value)))
  }

  /** What redaction makes of a value; nothing if it fails. */
  function Walk(w: Walker, value: Json): Option<Outcome>
    decreases value
  {
    match value
    case Object(fields) =>
      (match WalkFields(w, fields)
       case None => None
       case Some(r) => Some(Outcome(Object(r.fields), r.events)))
    case Array(items) =>
      (match WalkItems(w, items)
       case None => None
       case Some(r) => Some(Outcome(Array(r.items), r.events)))
    case Text(text) =>
      (match w.onText(text)
       case None => None
       case Some(pass) => Some(Outcome(Text(pass.text), pass.events)))
    case _ => Some(Outcome(value, []))
  }

  function WalkItems(w: Walker, items: seq<Json>): Option<ItemsOutcome>
    decreases items
  {
    if items == [] then Some(ItemsOutcome([], []))
    else
      match (WalkItems(w, items[..|items| - 1]), Walk(w, items[|items| - 1]))
      case (Some(front), Some(last)) => Some(ItemsOutcome(front.items + [last.value], front.events + last.events))
      case _ => None
  }

  /** What becomes of one field: it is dropped, or kept with a value. */
  function WalkField(w: Walker, field: Field): Option<FieldsOutcome>
    decreases field
  {
    match w.denied(field.key)
    case Some(kind) =>
      if w.policy.mode.Drop? then Some(FieldsOutcome([], [kind]))
      else if w.policy.Keyless() then None
      else Some(FieldsOutcome([Field(field.key, PlaceholderFor(w, kind, field.value))], [kind]))
    case None =>
      match Walk(w, field.value)
      case None => None
      case Some(r) => Some(FieldsOutcome([Field(field.key, r.value)], r.events))
  }

  function WalkFields(w: Walker, fields: seq<Field>): Option<FieldsOutcome>
    decreases fields
  {
    if fields == [] then Some(FieldsOutcome([], []))
    else
      match (WalkFields(w, fields[..|fields| - 1]), WalkField(w, fields[|fields| - 1]))
      case (Some(front), Some(last)) => Some(FieldsOutcome(front.fields + last.fields, front.events + last.events))
      case _ => None
  }

  // ----- scanning

  /** What scanning a value counts; nothing if it fails. */
  function Scan(w: Walker, value: Json): Option<seq<DetectorKind>>
    decreases value
  {
    match value
    case Object(fields) => ScanFields(w, fields)
    case Array(items) => ScanItems(w, items)
    case Text(text) =>
      (match w.onText(text)
       case None => None
       case Some(pass) => Some(pass.events))
    case _ => Some([])
  }

  function Joined(front: Option<seq<DetectorKind>>, last: Option<seq<DetectorKind>>): Option<seq<DetectorKind>> {
    if front.Some? && last.Some? then Some(front.value + last.value) else None
  }

  function ScanItems(w: Walker, items: seq<Json>): Option<seq<DetectorKind>>
    decreases items
  {
    if items == [] then Some([])
    else Joined(ScanItems(w, items[..|items| - 1]), Scan(w, items[|items| - 1]))
  }

  function ScanField(w: Walker, field: Field): Option<seq<DetectorKind>>
    decreases field
  {
    match w.denied(field.key)
    case Some(kind) => Some([kind])
    case None => Scan(w, field.value)
  }

  function ScanFields(w: Walker, fields: seq<Field>): Option<seq<DetectorKind>>
    decreases fields
  {
    if fields == [] then Some([])
    else Joined(ScanFields(w, fields[..|fields| - 1]), ScanField(w, fields[|fields| - 1]))
  }

  // ----- the walks as the source carries them out

  /** The kind of an enabled denied key. */
  function DeniedKind(engine: Engine, key: string): Option<DetectorKind> {
    match engine.rules.KindForField(key)
    case Some(kind) => if kind in engine.enabled then Some(kind) else None
    case None => None
  }

  function WalkerOf(engine: Engine, policy: Policy, serialize: Json -> string): Walker {
    Walker(key => DeniedKind(engine, key), policy, text => RedactedStr(engine, policy, text), serialize)
  }

  /** A result and a report that agree with an outcome. */
  ghost predicate Yields(r: Result<Json, Error>, report: Report, goal: Option<Outcome>) {
    && (r.Failure? <==> goal.None?)
    && (r.Success? ==> r.value == goal.value.value && report == Tally(goal.value.events))
  }

  lemma InsertAfterAll(fields: seq<Field>, key: string, value: Json)
    requires forall f | f in fields :: Less(f.key, key)
    ensures Insert(fields, key, value) == fields + [Field(key, value)]
  {
  }

  lemma FieldsStep(w: Walker, fields: seq<Field>, i: nat, front: FieldsOutcome)
    requires i < |fields| && WalkFields(w, fields[..i]) == Some(front)
    ensures WalkFields(w, fields[..i + 1]) ==
            match WalkField(w, fields[i])
            case None => None
            case Some(last) => Some(FieldsOutcome(front.fields + last.fields, front.events + last.events))
  {
    assert fields[..i + 1][..i] == fields[..i];
  }

  lemma DeniedFieldStep(w: Walker, fields: seq<Field>, i: nat, front: FieldsOutcome, kind: DetectorKind)
    requires i < |fields| && WalkFields(w, fields[..i]) == Some(front)
    requires w.denied(fields[i].key) == Some(kind)
    ensures var upTo, events := WalkFields(w, fields[..i + 1]), front.events + [kind];
            if w.policy.mode.Drop? then upTo == Some(FieldsOutcome(front.fields, events))
            else if w.policy.Keyless() then WalkFields(w, fields).None?
            else
              var kept := Field(fields[i].key, PlaceholderFor(w, kind, fields[i].value));
              upTo == Some(FieldsOutcome(front.fields + [kept], events))
  {
    FieldsStep(w, fields, i, front);
    assert front.fields + [] == front.fields;
    if WalkFields(w, fields[..i + 1]).None? {
      FieldsFail(w, fields, i + 1);
    }
  }

  lemma PlainFieldStep(w: Walker, fields: seq<Field>, i: nat, front: FieldsOutcome)
    requires i < |fields| && WalkFields(w, fields[..i]) == Some(front)
    requires w.denied(fields[i].key).None?
    ensures match Walk(w, fields[i].value)
            case None => WalkFields(w, fields).None?
            case Some(r) =>
              WalkFields(w, fields[..i + 1]) ==
              Some(FieldsOutcome(front.fields + [Field(fields[i].key, r.value)], front.events + r.events))
  {
    FieldsStep(w, fields, i, front);
    if WalkFields(w, fields[..i + 1]).None? {
      FieldsFail(w, fields, i + 1);
    }
  }

  lemma {:induction false} FieldsFail(w: Walker, fields: seq<Field>, i: nat)
    requires i <= |fields| && WalkFields(w, fields[..i]).None?
    ensures WalkFields(w, fields).None?
  {
    if i == |fields| {
      assert fields[..i] == fields;
    } else {
      var n := |fields| - 1;
      assert fields[..n][..i] == fields[..i];
      FieldsFail(w, fields[..n], i);
    }
  }

  lemma ItemsStep(w: Walker, items: seq<Json>, i: nat, front: ItemsOutcome)
    requires i < |items| && WalkItems(w, items[..i]) == Some(front)
    ensures WalkItems(w, items[..i + 1]) ==
            match Walk(w, items[i])
            case None => None
            case Some(last) => Some(ItemsOutcome(front.items + [last.value], front.events + last.events))
  {
    assert items[..i + 1][..i] == items[..i];
  }

  lemma {:induction false} ItemsFail(w: Walker, items: seq<Json>, i: nat)
    requires i <= |items| && WalkItems(w, items[..i]).None?
    ensures WalkItems(w, items).None?
  {
    if i == |items| {
      assert items[..i] == items;
    } else {
      var n := |items| - 1;
      assert items[..n][..i] == items[..i];
      ItemsFail(w, items[..n], i);
    }
  }

  method RedactText(engine: Engine, serialize: Json -> string, text: string, policy: Policy)
    returns (r: Result<Json, Error>, stats: ScanReport)
    ensures fresh(stats)
    ensures Yields(r, stats.View(), Walk(WalkerOf(engine, policy, serialize), Text(text)))
  {
    var result;
    result, stats := RedactStrWithPolicy(engine, text, policy);
    r := if result.Success? then Success(Text(result.value)) else Failure(result.error);
  }

  method RedactValueInner(engine: Engine, serialize: Json -> string, value: Json, policy: Policy)
    returns (r: Result<Json, Error>, stats: ScanReport)
    requires WellFormed(value)
    ensures fresh(stats)
    ensures Yields(r, stats.View(), Walk(WalkerOf(engine, policy, serialize), value))
    decreases value
  {
    match value {
      case Object(fields) => r, stats := RedactObject(engine, serialize, fields, policy);
      case Array(items) => r, stats := RedactArray(engine, serialize, items, policy);
      case Text(text) => r, stats := RedactText(engine, serialize, text, policy);
      case _ =>
        stats := new ScanReport();
        r := Success(value);
    }
  }

  method RedactObject(engine: Engine, serialize: Json -> string, fields: seq<Field>, policy: Policy)
    returns (r: Result<Json, Error>, stats: ScanReport)
    requires WellFormed(Object(fields))
    ensures fresh(stats)
    ensures Yields(r, stats.View(), Walk(WalkerOf(engine, policy, serialize), Object(fields)))
    decreases fields
  {
    var output: seq<Field> := [];
    stats := new ScanReport();
    ghost var w := WalkerOf(engine, policy, serialize);
    ghost var events: seq<DetectorKind> := [];
    for i := 0 to |fields|
      invariant fresh(stats)
      invariant WalkFields(w, fields[..i]) == Some(FieldsOutcome(output, events))
      invariant stats.View() == Tally(events)
      invariant forall f, j | f in output && i <= j < |fields| :: Less(f.key, fields[j].key)
    {
      var key, value := fields[i].key, fields[i].value;
      var kind := DeniedKind(engine, key);
      if kind.Some? {
        DeniedFieldStep(w, fields, i, FieldsOutcome(output, events), kind.value);
        stats.Record(kind.value);
        RecordOneMore(EMPTY, events, kind.value);
        events := events + [kind.value];
        if policy.mode.Drop? {
          continue;
        }
        var material := Material(serialize, value);
        var replacement := policy.Replacement(kind.value, material);
        if replacement.Failure? {
          return Failure(replacement.error), stats;
        }
        InsertAfterAll(output, key, Text(replacement.value));
        output := Insert(output, key, Text(replacement.value));
        continue;
      }
      PlainFieldStep(w, fields, i, FieldsOutcome(output, events));
      var redacted, childStats := RedactValueInner(engine, serialize, value, policy);
      if redacted.Failure? {
        return Failure(redacted.error), stats;
      }
      ghost var childEvents := Walk(w, value).value.events;
      MergeOfTallies(events, childEvents);
      events := events + childEvents;
      stats.Merge(childStats.View());
      InsertAfterAll(output, key, redacted.value);
      output := Insert(output, key, redacted.value);
    }
    assert fields[..|fields|] == fields;
    r := Success(Object(output));
  }

  method RedactArray(engine: Engine, serialize: Json -> string, items: seq<Json>, policy: Policy)
    returns (r: Result<Json, Error>, stats: ScanReport)
    requires WellFormed(Array(items))
    ensures fresh(stats)
    ensures Yields(r, stats.View(), Walk(WalkerOf(engine, policy, serialize), Array(items)))
    decreases items
  {
    var output: seq<Json> := [];
    stats := new ScanReport();
    ghost var w := WalkerOf(engine, policy, serialize);
    ghost var events: seq<DetectorKind> := [];
    for i := 0 to |items|
      invariant fresh(stats)
      invariant WalkItems(w, items[..i]) == Some(ItemsOutcome(output, events))
      invariant stats.View() == Tally(events)
    {
      ItemsStep(w, items, i, ItemsOutcome(output, events));
      var redacted, childStats := RedactValueInner(engine, serialize, items[i], policy);
      if redacted.Failure? {
        ItemsFail(w, items, i + 1);
        return Failure(redacted.error), stats;
      }
      ghost var childEvents := Walk(w, items[i]).value.events;
      output := output + [redacted.value];
      MergeOfTallies(events, childEvents);
      events := events + childEvents;
      stats.Merge(childStats.View());
    }
    assert items[..|items|] == items;
    r := Success(Array(output));
  }

  /** The result of a scan that agrees with what is to be counted. */
  ghost predicate Counts(r: Result<ScanReport, Error>, goal: Option<seq<DetectorKind>>)
    reads if r.Success? then {r.value} else {}
  {
    && (r.Failure? <==> goal.None?)
    && (r.Success? ==> r.value.View() == Tally(goal.value))
  }

  lemma ScanFieldsStep(w: Walker, fields: seq<Field>, i: nat)
    requires i < |fields|
    ensures ScanFields(w, fields[..i + 1]) == Joined(ScanFields(w, fields[..i]), ScanField(w, fields[i]))
  {
    assert fields[..i + 1][..i] == fields[..i];
  }

  lemma {:induction false} ScanFieldsFail(w: Walker, fields: seq<Field>, i: nat)
    requires i <= |fields| && ScanFields(w, fields[..i]).None?
    ensures ScanFields(w, fields).None?
  {
    if i == |fields| {
      assert fields[..i] == fields;
    } else {
      var n := |fields| - 1;
      assert fields[..n][..i] == fields[..i];
      ScanFieldsFail(w, fields[..n], i);
    }
  }

  lemma ScanItemsStep(w: Walker, items: seq<Json>, i: nat)
    requires i < |items|
    ensures ScanItems(w, items[..i + 1]) == Joined(ScanItems(w, items[..i]), Scan(w, items[i]))
  {
    assert items[..i + 1][..i] == items[..i];
  }

  lemma {:induction false} ScanItemsFail(w: Walker, items: seq<Json>, i: nat)
    requires i <= |items| && ScanItems(w, items[..i]).None?
    ensures ScanItems(w, items).None?
  {
    if i == |items| {
      assert items[..i] == items;
    } else {
      var n := |items| - 1;
      assert items[..n][..i] == items[..i];
      ScanItemsFail(w, items[..n], i);
    }
  }

  /** `scan_str`. */
  method ScanStr(engine: Engine, hmac: (seq<byte>, string) -> seq<byte>, input: string)
    returns (r: Result<ScanReport, Error>)
    ensures r.Success? ==> fresh(r.value)
    ensures r.Failure? <==> RedactedStr(engine, ScanPolicy(hmac), input).None?
    ensures r.Success? ==> r.value.View() == Tally(RedactedStr(engine, ScanPolicy(hmac), input).value.events)
  {
    var result, stats := RedactStrWithPolicy(engine, input, ScanPolicy(hmac));
    r := if result.Success? then Success(stats) else Failure(result.error);
  }

  method ScanValueInner(engine: Engine, serialize: Json -> string, hmac: (seq<byte>, string) -> seq<byte>, value: Json)
    returns (r: Result<ScanReport, Error>)
    ensures r.Success? ==> fresh(r.value)
    ensures Counts(r, Scan(WalkerOf(engine, ScanPolicy(hmac), serialize), value))
    decreases value
  {
    ghost var w := WalkerOf(engine, ScanPolicy(hmac), serialize);
    ghost var events: seq<DetectorKind> := [];
    var stats := new ScanReport();
    match value {
      case Object(fields) =>
        for i := 0 to |fields|
          invariant fresh(stats)
          invariant ScanFields(w, fields[..i]) == Some(events)
          invariant stats.View() == Tally(events)
        {
          ScanFieldsStep(w, fields, i);
          var kind := DeniedKind(engine, fields[i].key);
          if kind.Some? {
            stats.Record(kind.value);
            RecordOneMore(EMPTY, events, kind.value);
            events := events + [kind.value];
            continue;
          }
          var child := ScanValueInner(engine, serialize, hmac, fields[i].value);
          if child.Failure? {
            ScanFieldsFail(w, fields, i + 1);
            return Failure(child.error);
          }
          ghost var childEvents := Scan(w, fields[i].value).value;
          MergeOfTallies(events, childEvents);
          events := events + childEvents;
          stats.Merge(child.value.View());
        }
        assert fields[..|fields|] == fields;
        r := Success(stats);
      case Array(items) =>
        for i := 0 to |items|
          invariant fresh(stats)
          invariant ScanItems(w, items[..i]) == Some(events)
          invariant stats.View() == Tally(events)
        {
          ScanItemsStep(w, items, i);
          var child := ScanValueInner(engine, serialize, hmac, items[i]);
          if child.Failure? {
            ScanItemsFail(w, items, i + 1);
            return Failure(child.error);
          }
          ghost var childEvents := Scan(w, items[i]).value;
          MergeOfTallies(events, childEvents);
          events := events + childEvents;
          stats.Merge(child.value.View());
        }
        assert items[..|items|] == items;
        r := Success(stats);
      case Text(text) => r := ScanStr(engine, hmac, text);
      case _ => r := Success(stats);
    }
  }
}
