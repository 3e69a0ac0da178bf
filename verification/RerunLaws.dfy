/** Redacting redacted strings and values again: from the IBAN pass to the whole pipeline and the JSON walk. */
module RerunLaws {
  import opened Wrappers
  import opened Detectors
  import opened Policy
  import opened Splicing
  import opened Json
  import opened Pipeline
  import opened JsonWalk
  import opened IbanRerun
  import opened JsonShape
  import opened PipelineLaws
  import opened StageRuns
  import IbanExample
  import IbanPass

  // ----- texts in which only the IBAN stage finds something

  ghost predicate OnlyIbansIn(engine: Engine, p: Policy, text: string) { OnlyStageIn(engine, p, Ibans, text) }

  lemma OnlyIbansEnabled(engine: Engine, p: Policy, text: string)
    requires engine.enabled == {DetectorKind.Iban}
    ensures OnlyIbansIn(engine, p, text)
  {
  }

  lemma IbanStageIs(engine: Engine, p: Policy, text: string) returns (pass: Pass)
    requires IsMaskOrDrop(p)
    ensures StagePass(engine, Ibans, p, text) == Some(pass) && pass.text == Redacted(text, p)
  {
    PassInMaskOrDrop(text, p);
    pass := IbanPass.IbanPassOver(text, p).value;
  }

  /** There the pipeline comes to the IBAN pass. */
  lemma PipelineIsIbanPass(engine: Engine, p: Policy, text: string)
    requires IsMaskOrDrop(p) && DetectorKind.Iban in engine.enabled
    requires OnlyIbansIn(engine, p, text) && OnlyIbansIn(engine, p, Redacted(text, p))
    ensures SameText(RedactedStr(engine, p, text), Redacted(text, p))
  {
    var pass := IbanStageIs(engine, p, text);
    PipelineIsStage(engine, p, Ibans, text, pass);
  }

  // ----- strings

  /** In the text and what two passes make of it, no enabled stage but that for IBANs finds anything. */
  ghost predicate OnlyIbansThrough(engine: Engine, p: Policy, text: string)
    requires IsMaskOrDrop(p)
  {
    && OnlyIbansIn(engine, p, text) && OnlyIbansIn(engine, p, Redacted(text, p))
    && OnlyIbansIn(engine, p, Redacted(Redacted(text, p), p))
  }

  /** A second redaction of the string leaves it alone. */
  ghost predicate Settles(engine: Engine, p: Policy, text: string) {
    RedactedStr(engine, p, text).Some? ==>
      SameText(RedactedStr(engine, p, RedactedStr(engine, p, text).value.text), RedactedStr(engine, p, text).value.text)
  }

  /** No replaced IBAN is directly followed by one that it kept from a word boundary. */
  ghost predicate NothingExposed(p: Policy, text: string) {
    !AnyExposed(Gaps(text, ChosenEdits(text, p), 0)[1..])
  }

  /** Where only IBANs are found, redacting a string twice is redacting it once exactly when the input has no IBAN
      directly after a replaced one. */
  lemma StringSettlesIff(engine: Engine, p: Policy, text: string)
    requires IsMaskOrDrop(p) && DetectorKind.Iban in engine.enabled
    ensures OnlyIbansThrough(engine, p, text) ==> (Settles(engine, p, text) <==> NothingExposed(p, text))
  {
    if OnlyIbansThrough(engine, p, text) {
      PipelineIsIbanPass(engine, p, text);
      PipelineIsIbanPass(engine, p, Redacted(text, p));
      SecondPassIdleIff(text, p);
    }
  }

  /** With any detectors, a string settles when a scan of its redaction counts nothing. */
  lemma CleanOutputSettles(engine: Engine, p: Policy, scan: Policy, text: string)
    requires IsMaskOrDrop(p) && !scan.Keyless() && RedactedStr(engine, p, text).Some?
    requires var again := RedactedStr(engine, scan, RedactedStr(engine, p, text).value.text);
             again.Some? && again.value.events == []
    ensures Settles(engine, p, text)
  {
    StringVerdict(engine, scan, p, RedactedStr(engine, p, text).value.text);
  }

  // ----- values

  /** What holds of every string that the walk reaches. */
  ghost predicate EachText(w: Walker, value: Json, holds: string -> bool) {
    match value
    case Text(text) => holds(text)
    case Array(items) => forall i | 0 <= i < |items| :: EachText(w, items[i], holds)
    case Object(fields) =>
      forall i | 0 <= i < |fields| :: w.denied(fields[i].key).None? ==> EachText(w, fields[i].value, holds)
    case _ => true
  }

  ghost function Unexposed(p: Policy): string -> bool { text => NothingExposed(p, text) }

  ghost function OnlyIbans(engine: Engine, p: Policy): string -> bool {
    text => IsMaskOrDrop(p) && OnlyIbansThrough(engine, p, text)
  }

  lemma {:induction false} SettledTexts(w: Walker, value: Json, settles: string -> bool, only: string -> bool)
    requires forall text | only(text) :: settles(text) <==> Settled(w, Text(text))
    requires EachText(w, value, only)
    ensures Settled(w, value) <==> EachText(w, value, settles)
  {
    match value {
      case Text(text) => assert only(text);
      case Array(items) =>
        forall i | 0 <= i < |items|
          ensures Settled(w, items[i]) <==> EachText(w, items[i], settles)
        {
          SettledTexts(w, items[i], settles, only);
        }
      case Object(fields) =>
        forall i | 0 <= i < |fields| && w.denied(fields[i].key).None?
          ensures Settled(w, fields[i].value) <==> EachText(w, fields[i].value, settles)
        {
          SettledTexts(w, fields[i].value, settles, only);
        }
      case _ =>
    }
  }

  lemma {:induction false} EachTextIff(w: Walker, value: Json, a: string -> bool, b: string -> bool,
                                       only: string -> bool)
    requires forall text | only(text) :: a(text) <==> b(text)
    requires EachText(w, value, only)
    ensures EachText(w, value, a) <==> EachText(w, value, b)
  {
    match value {
      case Text(text) => assert only(text);
      case Array(items) =>
        forall i | 0 <= i < |items|
          ensures EachText(w, items[i], a) <==> EachText(w, items[i], b)
        {
          EachTextIff(w, items[i], a, b, only);
        }
      case Object(fields) =>
        forall i | 0 <= i < |fields| && w.denied(fields[i].key).None?
          ensures EachText(w, fields[i].value, a) <==> EachText(w, fields[i].value, b)
        {
          EachTextIff(w, fields[i].value, a, b, only);
        }
      case _ =>
    }
  }

  lemma OnTextIs(engine: Engine, p: Policy, serialize: Json -> string, text: string)
    ensures WalkerOf(engine, p, serialize).onText(text) == RedactedStr(engine, p, text)
  {
  }

  lemma TextSettles(engine: Engine, p: Policy, serialize: Json -> string, text: string)
    ensures Settled(WalkerOf(engine, p, serialize), Text(text)) <==> Settles(engine, p, text)
  {
  }

  /** In mask and drop mode, where only IBANs are found, redacting a value twice is redacting it once exactly when no
      string reached has an IBAN directly after a replaced one. */
  lemma ValueSettlesIff(engine: Engine, p: Policy, serialize: Json -> string, value: Json)
    requires IsMaskOrDrop(p) && DetectorKind.Iban in engine.enabled
    requires var w := WalkerOf(engine, p, serialize); Walk(w, value).Some? && EachText(w, value, OnlyIbans(engine, p))
    ensures var w := WalkerOf(engine, p, serialize);
            var once := Walk(w, value).value.value;
            Unchanged(Walk(w, once), once) <==> EachText(w, value, Unexposed(p))
  {
    var w := WalkerOf(engine, p, serialize);
    forall text | OnlyIbans(engine, p)(text)
      ensures Unexposed(p)(text) <==> Settled(w, Text(text))
    {
      StringSettlesIff(engine, p, text);
      TextSettles(engine, p, serialize, text);
    }
    SettledTexts(w, value, Unexposed(p), OnlyIbans(engine, p));
    Twice(w, value);
  }

  lemma {:induction false} EveryText(w: Walker, value: Json, holds: string -> bool)
    requires forall text :: holds(text)
    ensures EachText(w, value, holds)
  {
    match value {
      case Array(items) =>
        forall i | 0 <= i < |items|
          ensures EachText(w, items[i], holds)
        {
          EveryText(w, items[i], holds);
        }
      case Object(fields) =>
        forall i | 0 <= i < |fields|
          ensures EachText(w, fields[i].value, holds)
        {
          EveryText(w, fields[i].value, holds);
        }
      case _ =>
    }
  }

  /** With the IBAN detector alone that is so for every value and any regexes. */
  lemma IbanValueSettlesIff(engine: Engine, p: Policy, serialize: Json -> string, value: Json)
    requires IsMaskOrDrop(p) && engine.enabled == {DetectorKind.Iban}
    requires Walk(WalkerOf(engine, p, serialize), value).Some?
    ensures var w := WalkerOf(engine, p, serialize);
            var once := Walk(w, value).value.value;
            Unchanged(Walk(w, once), once) <==> EachText(w, value, Unexposed(p))
  {
    forall text
      ensures OnlyIbans(engine, p)(text)
    {
      OnlyIbansEnabled(engine, p, text);
      OnlyIbansEnabled(engine, p, Redacted(text, p));
      OnlyIbansEnabled(engine, p, Redacted(Redacted(text, p), p));
    }
    EveryText(WalkerOf(engine, p, serialize), value, OnlyIbans(engine, p));
    ValueSettlesIff(engine, p, serialize, value);
  }

  // ----- the example

  function TwoIbans(): string { IbanExample.ZeroIban(30) + IbanExample.ZeroIban(11) }

  lemma TwoIbansExposed(p: Policy)
    requires IsMaskOrDrop(p)
    ensures !NothingExposed(p, TwoIbans())
  {
    IbanExample.SecondPassCanAct(p);
    SecondPassIdleIff(TwoIbans(), p);
  }

  /** Redacting the value of a string twice is not redacting it once, and a scan of the redacted string still counts
      something. */
  ghost predicate ActsTwice(engine: Engine, p: Policy, scan: Policy, serialize: Json -> string, text: string) {
    var w := WalkerOf(engine, p, serialize);
    var once := Walk(w, Text(text));
    && once.Some? && once.value.value.Text? && !Unchanged(Walk(w, once.value.value), once.value.value)
    && var again := RedactedStr(engine, scan, once.value.value.text); again.Some? && again.value.events != []
  }

  /** Masking, or dropping, a JSON string of two IBANs in a row acts twice, if the other enabled detectors find nothing
      there. */
  lemma RedactionCanActTwice(engine: Engine, p: Policy, scan: Policy, serialize: Json -> string)
    requires IsMaskOrDrop(p) && !scan.Keyless() && DetectorKind.Iban in engine.enabled
    ensures OnlyIbansThrough(engine, p, TwoIbans()) ==> ActsTwice(engine, p, scan, serialize, TwoIbans())
  {
    var text := TwoIbans();
    if OnlyIbansThrough(engine, p, text) {
      TwoIbansExposed(p);
      PipelineIsIbanPass(engine, p, text);
      ValueSettlesIff(engine, p, serialize, Text(text));
      StringSettlesIff(engine, p, text);
      StringVerdict(engine, scan, p, RedactedStr(engine, p, text).value.text);
    }
  }

  /** With the IBAN detector alone there are no others. */
  lemma IbansAloneActTwice(engine: Engine, p: Policy, scan: Policy, serialize: Json -> string)
    requires IsMaskOrDrop(p) && !scan.Keyless() && engine.enabled == {DetectorKind.Iban}
    ensures ActsTwice(engine, p, scan, serialize, TwoIbans())
  {
    OnlyIbansEnabled(engine, p, TwoIbans());
    OnlyIbansEnabled(engine, p, Redacted(TwoIbans(), p));
    OnlyIbansEnabled(engine, p, Redacted(Redacted(TwoIbans(), p), p));
    RedactionCanActTwice(engine, p, scan, serialize);
  }
}
