/** Hashing and masking JSON values: equal records, from strings to values. */
module HashWalk {
  import opened Detectors
  import opened Policy
  import opened Json
  import opened Pipeline
  import opened JsonWalk
  import opened RerunLaws
  import opened StageRuns
  import opened Pieces
  import opened IbanCount
  import opened HashLaws

  /** The second walker records what the first does on a string, and perhaps more. */
  predicate TextRecordsMore(w: Walker, h: Walker, text: string) {
    && w.onText(text).Some? && h.onText(text).Some?
    && |w.onText(text).value.events| <= |h.onText(text).value.events|
  }

  predicate TextRecordsSame(w: Walker, h: Walker, text: string) {
    w.onText(text).Some? && h.onText(text).Some? && w.onText(text).value.events == h.onText(text).value.events
  }

  function RecordsMore(w: Walker, h: Walker): string -> bool { text => TextRecordsMore(w, h, text) }

  function RecordsSame(w: Walker, h: Walker): string -> bool { text => TextRecordsSame(w, h, text) }

  ghost predicate Comparable(w: Walker, h: Walker) {
    !w.policy.Keyless() && !h.policy.Keyless() && forall key :: w.denied(key) == h.denied(key)
  }

  /** At least as many records, and the same ones exactly if `same`. */
  ghost predicate Compare(w: seq<DetectorKind>, h: seq<DetectorKind>, same: bool) {
    |w| <= |h| && (w == h <==> same)
  }

  lemma CompareJoined(w: seq<DetectorKind>, h: seq<DetectorKind>, same: bool, w': seq<DetectorKind>,
                      h': seq<DetectorKind>, same': bool)
    requires Compare(w, h, same) && Compare(w', h', same')
    ensures Compare(w + w', h + h', same && same')
  {
    if w + w' == h + h' {
      assert (w + w')[..|w|] == w && (h + h')[..|h|] == h;
      assert (w + w')[|w|..] == w' && (h + h')[|h|..] == h';
    }
  }

  lemma {:induction false} CompareItems(w: Walker, h: Walker, items: seq<Json>)
    requires Comparable(w, h) && EachText(w, Array(items), RecordsMore(w, h))
    ensures WalkItems(w, items).Some? && WalkItems(h, items).Some?
    ensures Compare(WalkItems(w, items).value.events, WalkItems(h, items).value.events,
                    EachText(w, Array(items), RecordsSame(w, h)))
    decreases items
  {
    if items != [] {
      var n := |items| - 1;
      CompareItems(w, h, items[..n]);
      CompareWalks(w, h, items[n]);
      CompareJoined(WalkItems(w, items[..n]).value.events, WalkItems(h, items[..n]).value.events,
                    EachText(w, Array(items[..n]), RecordsSame(w, h)), Walk(w, items[n]).value.events,
                    Walk(h, items[n]).value.events, EachText(w, items[n], RecordsSame(w, h)));
    }
  }

  lemma {:induction false} CompareField(w: Walker, h: Walker, field: Field)
    requires Comparable(w, h) && (w.denied(field.key).None? ==> EachText(w, field.value, RecordsMore(w, h)))
    ensures WalkField(w, field).Some? && WalkField(h, field).Some?
    ensures Compare(WalkField(w, field).value.events, WalkField(h, field).value.events,
                    w.denied(field.key).None? ==> EachText(w, field.value, RecordsSame(w, h)))
    decreases field
  {
    if w.denied(field.key).None? {
      CompareWalks(w, h, field.value);
    }
  }

  lemma EachFrontFields(w: Walker, fields: seq<Field>, holds: string -> bool)
    requires fields != []
    ensures var n := |fields| - 1;
            EachText(w, Object(fields), holds) <==>
            EachText(w, Object(fields[..n]), holds)
            && (w.denied(fields[n].key).None? ==> EachText(w, fields[n].value, holds))
  {
    var n := |fields| - 1;
    assert forall i | 0 <= i < n :: fields[..n][i] == fields[i];
  }

  lemma {:induction false} CompareFields(w: Walker, h: Walker, fields: seq<Field>)
    requires Comparable(w, h) && EachText(w, Object(fields), RecordsMore(w, h))
    ensures WalkFields(w, fields).Some? && WalkFields(h, fields).Some?
    ensures Compare(WalkFields(w, fields).value.events, WalkFields(h, fields).value.events,
                    EachText(w, Object(fields), RecordsSame(w, h)))
    decreases fields
  {
    if fields != [] {
      var n := |fields| - 1;
      EachFrontFields(w, fields, RecordsMore(w, h));
      EachFrontFields(w, fields, RecordsSame(w, h));
      CompareFields(w, h, fields[..n]);
      CompareField(w, h, fields[n]);
      CompareJoined(WalkFields(w, fields[..n]).value.events, WalkFields(h, fields[..n]).value.events,
                    EachText(w, Object(fields[..n]), RecordsSame(w, h)), WalkField(w, fields[n]).value.events,
                    WalkField(h, fields[n]).value.events,
                    w.denied(fields[n].key).None? ==> EachText(w, fields[n].value, RecordsSame(w, h)));
    }
  }

  /** When hashing records at least as much as masking in every string reached, it does in the value, and the two record
      the same in the value exactly when they do in every string reached. */
  lemma {:induction false} CompareWalks(w: Walker, h: Walker, value: Json)
    requires Comparable(w, h) && EachText(w, value, RecordsMore(w, h))
    ensures Walk(w, value).Some? && Walk(h, value).Some?
    ensures Compare(Walk(w, value).value.events, Walk(h, value).value.events, EachText(w, value, RecordsSame(w, h)))
    decreases value
  {
    match value {
      case Object(fields) => CompareFields(w, h, fields);
      case Array(items) => CompareItems(w, h, items);
      case _ =>
    }
  }

  // ----- values in which one stage and the IBAN stage find something

  ghost function OnlyTwo(engine: Engine, mask: Policy, hash: Policy, first: Stage, ibans: Stage): string -> bool {
    text => OnlyStagesThrough(engine, mask, first, ibans, text) && OnlyStagesThrough(engine, hash, first, ibans, text)
  }

  /** No secret that the stage finds in the text has a digest that begins with an IBAN. */
  ghost predicate TextPrintsNone(engine: Engine, hash: Policy, first: Stage, text: string) {
    forall piece | piece in StagePieces(engine, first, hash, text) && piece.Secret? :: !PrintsIban(hash, piece.secret)
  }

  ghost function PrintsNone(engine: Engine, hash: Policy, first: Stage): string -> bool {
    text => TextPrintsNone(engine, hash, first, text)
  }

  lemma HashedTextIff(engine: Engine, mask: Policy, hash: Policy, first: Stage, ibans: Stage, serialize: Json -> string,
                      text: string)
    requires !mask.mode.Hash? && !hash.Keyless() && BeforeIbans(engine, first, ibans)
    requires OnlyTwo(engine, mask, hash, first, ibans)(text)
    ensures var w, h := WalkerOf(engine, mask, serialize), WalkerOf(engine, hash, serialize);
            TextRecordsMore(w, h, text) && (TextRecordsSame(w, h, text) <==> TextPrintsNone(engine, hash, first, text))
  {
    HashRecordsIff(engine, mask, hash, first, ibans, text);
    PiecesAnyPolicy(engine, first, mask, hash, text);
    OnTextIs(engine, mask, serialize, text);
    OnTextIs(engine, hash, serialize, text);
  }

  /** Where, in each string reached, one stage and the IBAN stage find something, and no others do: hashing a value
      records at least as much as masking it, and the same exactly when no digest in a string begins with an IBAN. */
  lemma HashValueIff(engine: Engine, mask: Policy, hash: Policy, first: Stage, ibans: Stage, serialize: Json -> string,
                     value: Json)
    requires !mask.mode.Hash? && !hash.Keyless() && BeforeIbans(engine, first, ibans)
    requires EachText(WalkerOf(engine, mask, serialize), value, OnlyTwo(engine, mask, hash, first, ibans))
    ensures var w, h := WalkerOf(engine, mask, serialize), WalkerOf(engine, hash, serialize);
            && Walk(w, value).Some? && Walk(h, value).Some?
            && Compare(Walk(w, value).value.events, Walk(h, value).value.events,
                       EachText(w, value, PrintsNone(engine, hash, first)))
  {
    var w, h := WalkerOf(engine, mask, serialize), WalkerOf(engine, hash, serialize);
    var only := OnlyTwo(engine, mask, hash, first, ibans);
    forall text | only(text)
      ensures RecordsMore(w, h)(text) && (RecordsSame(w, h)(text) <==> PrintsNone(engine, hash, first)(text))
    {
      HashedTextIff(engine, mask, hash, first, ibans, serialize, text);
    }
    EachTextIff(w, value, RecordsMore(w, h), only, only);
    EachTextIff(w, value, RecordsSame(w, h), PrintsNone(engine, hash, first), only);
    CompareWalks(w, h, value);
  }

  /** With no other detector enabled, and one of a single stage, that is so of every value. */
  lemma HashOfTwoDetectorsIff(engine: Engine, mask: Policy, hash: Policy, first: Stage, ibans: Stage,
                              serialize: Json -> string, value: Json)
    requires !mask.mode.Hash? && !hash.Keyless() && BeforeIbans(engine, first, ibans)
    requires engine.enabled == {Gate(first), Gate(ibans)}
    requires forall stage: Stage :: Gate(stage) == Gate(first) ==> stage == first
    ensures var w, h := WalkerOf(engine, mask, serialize), WalkerOf(engine, hash, serialize);
            && Walk(w, value).Some? && Walk(h, value).Some?
            && Compare(Walk(w, value).value.events, Walk(h, value).value.events,
                       EachText(w, value, PrintsNone(engine, hash, first)))
  {
    forall text
      ensures OnlyTwo(engine, mask, hash, first, ibans)(text)
    {
      NoOthersEnabled(engine, mask, first, ibans, text);
      NoOthersEnabled(engine, hash, first, ibans, text);
    }
    EveryText(WalkerOf(engine, mask, serialize), value, OnlyTwo(engine, mask, hash, first, ibans));
    HashValueIff(engine, mask, hash, first, ibans, serialize, value);
  }
}
