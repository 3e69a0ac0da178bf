/** When a scan of redacted output counts nothing. */
module RescanLaws {
  import opened Wrappers
  import opened Detectors
  import opened Policy
  import opened Json
  import opened Pipeline
  import opened StageRuns
  import opened JsonWalk
  import opened IbanRerun
  import opened RerunLaws
  import IbanCount

  // ----- strings

  /** A scan of the redacted string counts nothing. */
  ghost predicate CleanAfter(engine: Engine, p: Policy, scan: Policy, text: string) {
    RedactedStr(engine, p, text).Some? ==> CountsNothing(engine, scan, RedactedStr(engine, p, text).value.text)
  }

  lemma CleanOfIbansIff(engine: Engine, scan: Policy, ibans: Stage, text: string)
    requires ibans.Ibans? && Gate(ibans) in engine.enabled && !scan.Keyless()
    requires OnlyStageIn(engine, scan, ibans, text)
    ensures CountsNothing(engine, scan, text) <==> !Live(false, text)
  {
    CountsNothingIff(engine, scan, text);
    IbansFound(engine, scan, ibans, text);
    IbanCount.CountLive(false, text);
  }

  /** Where only IBANs are found in a string and its redaction, a scan of the redaction counts nothing exactly when the
      input has no IBAN directly after a replaced one. */
  lemma CleanAfterIff(engine: Engine, p: Policy, scan: Policy, text: string)
    requires IsMaskOrDrop(p) && !scan.Keyless() && DetectorKind.Iban in engine.enabled
    requires OnlyIbansIn(engine, p, text) && OnlyIbansIn(engine, p, Redacted(text, p))
    ensures CleanAfter(engine, p, scan, text) <==> NothingExposed(p, text)
  {
    PipelineIsIbanPass(engine, p, text);
    OnlyStageAnyPolicy(engine, p, scan, Ibans, Redacted(text, p));
    CleanOfIbansIff(engine, scan, Ibans, Redacted(text, p));
    OutputLive(text, p);
  }

  // ----- values

  /** Two walkers that deny the same keys. */
  ghost predicate SameKeys(s: Walker, w: Walker) { forall key :: s.denied(key).Some? == w.denied(key).Some? }

  ghost predicate ScansClean(s: Walker, text: string) {
    s.onText(text).Some? && s.onText(text).value.events == []
  }

  /** What a walk makes of a string is one that a scan counts nothing in. */
  ghost function RedactedClean(s: Walker, w: Walker): string -> bool {
    text => w.onText(text).Some? ==> ScansClean(s, w.onText(text).value.text)
  }

  /** Every denied key that the walk reaches is dropped. */
  ghost predicate KeysDropped(w: Walker, value: Json) {
    match value
    case Array(items) => forall i | 0 <= i < |items| :: KeysDropped(w, items[i])
    case Object(fields) =>
      forall i | 0 <= i < |fields| ::
        if w.denied(fields[i].key).Some? then w.policy.mode.Drop? else KeysDropped(w, fields[i].value)
    case _ => true
  }

  /** What the walk leaves counts for nothing. */
  ghost predicate LeavesNothing(s: Walker, w: Walker, value: Json) {
    KeysDropped(w, value) && EachText(w, value, RedactedClean(s, w))
  }

  lemma LeavesFrontItems(s: Walker, w: Walker, items: seq<Json>)
    requires items != []
    ensures var n := |items| - 1;
            LeavesNothing(s, w, Array(items)) <==>
            LeavesNothing(s, w, Array(items[..n])) && LeavesNothing(s, w, items[n])
  {
  }

  lemma JoinedNothing(front: Option<seq<DetectorKind>>, last: Option<seq<DetectorKind>>)
    ensures Joined(front, last) == Some([]) <==> front == Some([]) && last == Some([])
  {
    if front.Some? && last.Some? {
      assert |front.value + last.value| == |front.value| + |last.value|;
    }
  }

  lemma {:induction false} RescanItems(s: Walker, w: Walker, items: seq<Json>)
    requires SameKeys(s, w) && WalkItems(w, items).Some?
    ensures ScanItems(s, WalkItems(w, items).value.items) == Some([]) <==> LeavesNothing(s, w, Array(items))
    decreases items
  {
    if items != [] {
      var n := |items| - 1;
      var front, last := WalkItems(w, items[..n]).value.items, Walk(w, items[n]).value.value;
      RescanItems(s, w, items[..n]);
      Rescan(s, w, items[n]);
      LeavesFrontItems(s, w, items);
      assert (front + [last])[..|front|] == front;
      JoinedNothing(ScanItems(s, front), Scan(s, last));
    }
  }

  ghost predicate FieldLeavesNothing(s: Walker, w: Walker, field: Field) {
    if w.denied(field.key).Some? then w.policy.mode.Drop? else LeavesNothing(s, w, field.value)
  }

  lemma {:induction false} RescanField(s: Walker, w: Walker, field: Field)
    requires SameKeys(s, w) && WalkField(w, field).Some?
    ensures ScanFields(s, WalkField(w, field).value.fields) == Some([]) <==> FieldLeavesNothing(s, w, field)
    decreases field
  {
    var once := WalkField(w, field).value.fields;
    if w.denied(field.key).None? {
      Rescan(s, w, field.value);
    }
    if once != [] {
      assert once[..|once| - 1] == [];
      JoinedNothing(Some([]), ScanField(s, once[0]));
    }
  }

  lemma LeavesFrontFields(s: Walker, w: Walker, fields: seq<Field>)
    requires fields != []
    ensures var n := |fields| - 1;
            LeavesNothing(s, w, Object(fields)) <==>
            LeavesNothing(s, w, Object(fields[..n])) && FieldLeavesNothing(s, w, fields[n])
  {
    var n := |fields| - 1;
    assert fields[..n] + [fields[n]] == fields;
    assert forall i | 0 <= i < n :: fields[..n][i] == fields[i];
  }

  lemma ScanOneMore(s: Walker, front: seq<Field>, last: seq<Field>)
    requires |last| <= 1
    ensures ScanFields(s, front + last) == Some([]) <==>
              ScanFields(s, front) == Some([]) && ScanFields(s, last) == Some([])
  {
    if last == [] {
      assert front + last == front;
    } else {
      assert (front + last)[..|front|] == front && last[..0] == [];
      JoinedNothing(ScanFields(s, front), ScanField(s, last[0]));
      JoinedNothing(Some([]), ScanField(s, last[0]));
    }
  }

  lemma {:induction false} RescanFields(s: Walker, w: Walker, fields: seq<Field>)
    requires SameKeys(s, w) && WalkFields(w, fields).Some?
    ensures ScanFields(s, WalkFields(w, fields).value.fields) == Some([]) <==> LeavesNothing(s, w, Object(fields))
    decreases fields
  {
    if fields != [] {
      var n := |fields| - 1;
      RescanFields(s, w, fields[..n]);
      RescanField(s, w, fields[n]);
      LeavesFrontFields(s, w, fields);
      ScanOneMore(s, WalkFields(w, fields[..n]).value.fields, WalkField(w, fields[n]).value.fields);
    }
  }

  /** A scan of a redacted value counts nothing exactly when every enabled denied key reached is dropped, and every
      string reached has a redaction in which the scan counts nothing. */
  lemma {:induction false} Rescan(s: Walker, w: Walker, value: Json)
    requires SameKeys(s, w) && Walk(w, value).Some?
    ensures Scan(s, Walk(w, value).value.value) == Some([]) <==> LeavesNothing(s, w, value)
    decreases value
  {
    match value {
      case Object(fields) => RescanFields(s, w, fields);
      case Array(items) => RescanItems(s, w, items);
      case _ =>
    }
  }

  ghost function OnlyIbansOnce(engine: Engine, p: Policy): string -> bool {
    text => IsMaskOrDrop(p) && OnlyIbansIn(engine, p, text) && OnlyIbansIn(engine, p, Redacted(text, p))
  }

  lemma TextRescan(engine: Engine, p: Policy, scan: Policy, serialize: Json -> string, text: string)
    ensures RedactedClean(WalkerOf(engine, scan, serialize), WalkerOf(engine, p, serialize))(text) <==>
              CleanAfter(engine, p, scan, text)
  {
    OnTextIs(engine, p, serialize, text);
    if RedactedStr(engine, p, text).Some? {
      OnTextIs(engine, scan, serialize, RedactedStr(engine, p, text).value.text);
    }
  }

  /** In mask and drop mode, where only IBANs are found: a scan of a redacted value counts nothing exactly when every
      enabled denied key reached is dropped and no string reached has an IBAN directly after a replaced one. */
  lemma RescanIff(engine: Engine, p: Policy, scan: Policy, serialize: Json -> string, value: Json)
    requires IsMaskOrDrop(p) && !scan.Keyless() && DetectorKind.Iban in engine.enabled
    requires Walk(WalkerOf(engine, p, serialize), value).Some?
    requires EachText(WalkerOf(engine, p, serialize), value, OnlyIbansOnce(engine, p))
    ensures var s, w := WalkerOf(engine, scan, serialize), WalkerOf(engine, p, serialize);
            Scan(s, Walk(w, value).value.value) == Some([]) <==>
            KeysDropped(w, value) && EachText(w, value, Unexposed(p))
  {
    var s, w := WalkerOf(engine, scan, serialize), WalkerOf(engine, p, serialize);
    forall text | OnlyIbansOnce(engine, p)(text)
      ensures RedactedClean(s, w)(text) <==> Unexposed(p)(text)
    {
      TextRescan(engine, p, scan, serialize, text);
      CleanAfterIff(engine, p, scan, text);
    }
    EachTextIff(w, value, RedactedClean(s, w), Unexposed(p), OnlyIbansOnce(engine, p));
    Rescan(s, w, value);
  }

  /** With the IBAN detector alone that is so for every value and any regexes. */
  lemma IbanRescanIff(engine: Engine, p: Policy, scan: Policy, serialize: Json -> string, value: Json)
    requires IsMaskOrDrop(p) && !scan.Keyless() && engine.enabled == {DetectorKind.Iban}
    requires Walk(WalkerOf(engine, p, serialize), value).Some?
    ensures var s, w := WalkerOf(engine, scan, serialize), WalkerOf(engine, p, serialize);
            Scan(s, Walk(w, value).value.value) == Some([]) <==>
            KeysDropped(w, value) && EachText(w, value, Unexposed(p))
  {
    forall text
      ensures OnlyIbansOnce(engine, p)(text)
    {
      OnlyIbansEnabled(engine, p, text);
      OnlyIbansEnabled(engine, p, Redacted(text, p));
    }
    EveryText(WalkerOf(engine, p, serialize), value, OnlyIbansOnce(engine, p));
    RescanIff(engine, p, scan, serialize, value);
  }
}
