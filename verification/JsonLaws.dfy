/** What redacting a JSON tree keeps, hides and reports. */
module JsonLaws {
  import opened Wrappers
  import opened Detectors
  import opened Policy
  import opened Json
  import opened Pipeline
  import opened JsonWalk
  import PipelineLaws

  // ----- the scanning walk agrees with the redacting walk

  /** Whenever redaction succeeds, scanning with the same policy counts exactly what redaction records. */
  lemma {:induction false} ScanCountsWalk(w: Walker, value: Json)
    ensures Walk(w, value).Some? ==> Scan(w, value) == Some(Walk(w, value).value.events)
    decreases value
  {
    match value {
      case Object(fields) => ScanCountsFields(w, fields);
      case Array(items) => ScanCountsItems(w, items);
      case _ =>
    }
  }

  lemma {:induction false} ScanCountsItems(w: Walker, items: seq<Json>)
    ensures WalkItems(w, items).Some? ==> ScanItems(w, items) == Some(WalkItems(w, items).value.events)
    decreases items
  {
    if items != [] {
      ScanCountsItems(w, items[..|items| - 1]);
      ScanCountsWalk(w, items[|items| - 1]);
    }
  }

  lemma {:induction false} ScanCountsFields(w: Walker, fields: seq<Field>)
    ensures WalkFields(w, fields).Some? ==> ScanFields(w, fields) == Some(WalkFields(w, fields).value.events)
    decreases fields
  {
    if fields != [] {
      var last := fields[|fields| - 1];
      ScanCountsFields(w, fields[..|fields| - 1]);
      if w.denied(last.key).None? {
        ScanCountsWalk(w, last.value);
      }
    }
  }

  // ----- the verdict does not depend on the mode

  /** A scanning and a redacting walker that deny the same keys and give the same verdict on every string. */
  ghost predicate SameVerdicts(s: Walker, w: Walker) {
    && (forall key :: s.denied(key) == w.denied(key))
    && (forall text :: PipelineLaws.Matches(w.policy, s.onText(text), w.onText(text), text))
  }

  /** The outcomes that a scan allows a policy on a value. */
  predicate Allowed(p: Policy, scan: Option<seq<DetectorKind>>, r: Option<Outcome>, value: Json) {
    && scan.Some?
    && if scan.value == [] then r == Some(Outcome(value, []))
       else if p.Keyless() then r.None?
       else r.Some? && r.value.events != []
  }

  predicate AllowedItems(p: Policy, scan: Option<seq<DetectorKind>>, r: Option<ItemsOutcome>, items: seq<Json>) {
    && scan.Some?
    && if scan.value == [] then r == Some(ItemsOutcome(items, []))
       else if p.Keyless() then r.None?
       else r.Some? && r.value.events != []
  }

  predicate AllowedFields(p: Policy, scan: Option<seq<DetectorKind>>, r: Option<FieldsOutcome>, fields: seq<Field>) {
    && scan.Some?
    && if scan.value == [] then r == Some(FieldsOutcome(fields, []))
       else if p.Keyless() then r.None?
       else r.Some? && r.value.events != []
  }

  lemma {:induction false} VerdictOnValue(s: Walker, w: Walker, value: Json)
    requires SameVerdicts(s, w)
    ensures Allowed(w.policy, Scan(s, value), Walk(w, value), value)
    decreases value
  {
    match value {
      case Object(fields) => VerdictOnFields(s, w, fields);
      case Array(items) => VerdictOnItems(s, w, items);
      case Text(text) => assert PipelineLaws.Matches(w.policy, s.onText(text), w.onText(text), text);
      case _ =>
    }
  }

  lemma {:induction false} VerdictOnItems(s: Walker, w: Walker, items: seq<Json>)
    requires SameVerdicts(s, w)
    ensures AllowedItems(w.policy, ScanItems(s, items), WalkItems(w, items), items)
    decreases items
  {
    if items != [] {
      var n := |items| - 1;
      VerdictOnItems(s, w, items[..n]);
      VerdictOnValue(s, w, items[n]);
      assert items == items[..n] + [items[n]];
    }
  }

  lemma {:induction false} VerdictOnField(s: Walker, w: Walker, field: Field)
    requires SameVerdicts(s, w)
    ensures AllowedFields(w.policy, ScanField(s, field), WalkField(w, field), [field])
    decreases field
  {
    assert s.denied(field.key) == w.denied(field.key);
    if w.denied(field.key).None? {
      VerdictOnValue(s, w, field.value);
    }
  }

  lemma {:induction false} VerdictOnFields(s: Walker, w: Walker, fields: seq<Field>)
    requires SameVerdicts(s, w)
    ensures AllowedFields(w.policy, ScanFields(s, fields), WalkFields(w, fields), fields)
    decreases fields
  {
    if fields != [] {
      var n := |fields| - 1;
      VerdictOnFields(s, w, fields[..n]);
      VerdictOnField(s, w, fields[n]);
      assert fields == fields[..n] + [fields[n]];
    }
  }

  lemma EngineVerdicts(engine: Engine, scan: Policy, p: Policy, serialize: Json -> string)
    requires !scan.Keyless()
    ensures SameVerdicts(WalkerOf(engine, scan, serialize), WalkerOf(engine, p, serialize))
  {
    var s, w := WalkerOf(engine, scan, serialize), WalkerOf(engine, p, serialize);
    forall text
      ensures PipelineLaws.Matches(w.policy, s.onText(text), w.onText(text), text)
    {
      PipelineLaws.StringVerdict(engine, scan, p, text);
    }
  }

  /** For every JSON value, scanning never fails, and it reports nothing exactly when redaction in any mode
      records nothing; then redaction returns its input. Redaction fails exactly when there is something to
      redact and a hashing policy lacks its key. */
  lemma JsonVerdict(engine: Engine, hmac: (seq<byte>, string) -> seq<byte>, p: Policy, serialize: Json -> string,
                    value: Json)
    ensures Allowed(p, Scan(WalkerOf(engine, ScanPolicy(hmac), serialize), value),
                    Walk(WalkerOf(engine, p, serialize), value), value)
  {
    EngineVerdicts(engine, ScanPolicy(hmac), p, serialize);
    VerdictOnValue(WalkerOf(engine, ScanPolicy(hmac), serialize), WalkerOf(engine, p, serialize), value);
  }

  // ----- denied fields do not show

  /** Values that differ at most underneath enabled denied keys. */
  ghost predicate Agree(w: Walker, a: Json, b: Json)
    decreases a
  {
    match (a, b)
    case (Array(xs), Array(ys)) => |xs| == |ys| && forall i | 0 <= i < |xs| :: Agree(w, xs[i], ys[i])
    case (Object(fs), Object(gs)) =>
      |fs| == |gs| && forall i | 0 <= i < |fs| ::
        fs[i].key == gs[i].key && (w.denied(fs[i].key).Some? || Agree(w, fs[i].value, gs[i].value))
    case _ => a == b
  }

  lemma {:induction false} AgreeWithItself(w: Walker, a: Json)
    ensures Agree(w, a, a)
  {
    match a {
      case Array(xs) =>
        forall i | 0 <= i < |xs|
          ensures Agree(w, xs[i], xs[i])
        {
          AgreeWithItself(w, xs[i]);
        }
      case Object(fs) =>
        forall i | 0 <= i < |fs|
          ensures Agree(w, fs[i].value, fs[i].value)
        {
          AgreeWithItself(w, fs[i].value);
        }
      case _ =>
    }
  }

  /** Walkers in the same mode, not hash mode, that treat keys and strings alike. */
  ghost predicate Alike(w: Walker, v: Walker) {
    && w.policy.mode == v.policy.mode && !w.policy.mode.Hash?
    && (forall key :: w.denied(key) == v.denied(key))
    && (forall text :: w.onText(text) == v.onText(text))
  }

  lemma {:induction false} AgreeingWalks(w: Walker, v: Walker, a: Json, b: Json)
    requires Alike(w, v) && Agree(w, a, b)
    ensures Walk(w, a) == Walk(v, b)
    decreases a
  {
    match (a, b) {
      case (Object(fs), Object(gs)) => AgreeingFields(w, v, fs, gs);
      case (Array(xs), Array(ys)) => AgreeingItems(w, v, xs, ys);
      case _ =>
    }
  }

  ghost predicate ItemsAgree(w: Walker, xs: seq<Json>, ys: seq<Json>) {
    |xs| == |ys| && forall i | 0 <= i < |xs| :: Agree(w, xs[i], ys[i])
  }

  ghost predicate FieldAgrees(w: Walker, f: Field, g: Field) {
    f.key == g.key && (w.denied(f.key).Some? || Agree(w, f.value, g.value))
  }

  ghost predicate FieldsAgree(w: Walker, fs: seq<Field>, gs: seq<Field>) {
    |fs| == |gs| && forall i | 0 <= i < |fs| :: FieldAgrees(w, fs[i], gs[i])
  }

  lemma {:induction false} AgreeingItems(w: Walker, v: Walker, xs: seq<Json>, ys: seq<Json>)
    requires Alike(w, v) && ItemsAgree(w, xs, ys)
    ensures WalkItems(w, xs) == WalkItems(v, ys)
    decreases xs
  {
    if xs != [] {
      var n := |xs| - 1;
      AgreeingItems(w, v, xs[..n], ys[..n]);
      AgreeingWalks(w, v, xs[n], ys[n]);
    }
  }

  lemma {:induction false} AgreeingField(w: Walker, v: Walker, f: Field, g: Field)
    requires Alike(w, v) && FieldAgrees(w, f, g)
    ensures WalkField(w, f) == WalkField(v, g)
    decreases f
  {
    match w.denied(f.key) {
      case Some(kind) =>
        PlaceholderIgnoresSecret(w.policy, v.policy, kind, Material(w.serialize, f.value),
                                 Material(v.serialize, g.value));
      case None => AgreeingWalks(w, v, f.value, g.value);
    }
  }

  lemma {:induction false} AgreeingFields(w: Walker, v: Walker, fs: seq<Field>, gs: seq<Field>)
    requires Alike(w, v) && FieldsAgree(w, fs, gs)
    ensures WalkFields(w, fs) == WalkFields(v, gs)
    decreases fs
  {
    if fs != [] {
      var n := |fs| - 1;
      AgreeingFields(w, v, fs[..n], gs[..n]);
      AgreeingField(w, v, fs[n], gs[n]);
    }
  }

  /** In mask and drop mode, values that differ only underneath enabled denied keys, at any depth, are
      redacted to the same value with the same report. */
  lemma DeniedFieldsDoNotShow(w: Walker, a: Json, b: Json)
    requires !w.policy.mode.Hash? && Agree(w, a, b)
    ensures Walk(w, a) == Walk(w, b)
  {
    AgreeingWalks(w, w, a, b);
  }

  /** Scanning a value counts exactly what masking it records. */
  lemma ScanIsMask(engine: Engine, hmac: (seq<byte>, string) -> seq<byte>, p: Policy, serialize: Json -> string,
                   value: Json)
    requires p.mode.Mask?
    ensures var r := Walk(WalkerOf(engine, p, serialize), value);
            r.Some? && Scan(WalkerOf(engine, ScanPolicy(hmac), serialize), value) == Some(r.value.events)
  {
    var s, w := WalkerOf(engine, ScanPolicy(hmac), serialize), WalkerOf(engine, p, serialize);
    forall text
      ensures w.onText(text) == s.onText(text)
    {
      PipelineLaws.ScanIsMask(engine, p, ScanPolicy(hmac), text);
    }
    JsonVerdict(engine, hmac, p, serialize, value);
    AgreeWithItself(s, value);
    AgreeingWalks(s, w, value, value);
    ScanCountsWalk(s, value);
  }
}
