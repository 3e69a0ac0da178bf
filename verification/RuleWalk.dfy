/** What the walks do at each key, by the configured entries and the enabled detectors. */
module RuleWalk {
  import opened Wrappers
  import opened Detectors
  import opened Policy
  import opened Fields
  import opened Json
  import opened Pipeline
  import opened JsonWalk
  import opened RuleLaws
  import JsonLaws
  import JsonShape
  import PipelineLaws

  /** The part of the configuration that an engine is made of. */
  datatype Config = Config(redact: set<DetectorKind>, fieldsDeny: seq<string>, fieldsAllow: seq<string>)

  /** `Engine::new`. */
  function NewEngine(config: Config, patterns: Patterns): Engine {
    Engine(config.redact, NewRules(config.fieldsDeny, config.fieldsAllow), patterns)
  }

  /** The key is denied, and what it is taken for is to be redacted. */
  ghost predicate IsTakenOut(config: Config, key: string) {
    IsDenied(config.fieldsDeny, config.fieldsAllow, key) && KindOf(key) in config.redact
  }

  ghost function WalkerFor(config: Config, patterns: Patterns, p: Policy, serialize: Json -> string): Walker {
    WalkerOf(NewEngine(config, patterns), p, serialize)
  }

  lemma DeniedIs(config: Config, patterns: Patterns, p: Policy, serialize: Json -> string, key: string)
    ensures WalkerFor(config, patterns, p, serialize).denied(key) ==
            if IsTakenOut(config, key) then Some(KindOf(key)) else None
  {
    KindForFieldIs(config.fieldsDeny, config.fieldsAllow, key);
  }

  lemma OnTextIs(config: Config, patterns: Patterns, p: Policy, serialize: Json -> string, text: string)
    ensures WalkerFor(config, patterns, p, serialize).onText(text) ==
            RedactedStr(NewEngine(config, patterns), p, text)
  {
  }

  // ----- redacting

  /** No step of the path is a key that is taken out. */
  ghost predicate IsOpen(config: Config, path: seq<Step>) {
    forall step | step in path :: step.Key? ==> !IsTakenOut(config, step.name)
  }

  lemma OpenIsClean(config: Config, patterns: Patterns, p: Policy, serialize: Json -> string, path: seq<Step>)
    requires IsOpen(config, path)
    ensures JsonShape.Clean(WalkerFor(config, patterns, p, serialize), path)
  {
    forall step | step in path && step.Key?
      ensures WalkerFor(config, patterns, p, serialize).denied(step.name).None?
    {
      DeniedIs(config, patterns, p, serialize, step.name);
    }
  }

  /** What is left of a value under a key that is taken out. */
  function Remains(p: Policy, kind: DetectorKind, serialize: Json -> string, there: Json): Option<Json> {
    if p.mode.Drop? then None
    else Some(Text(Placeholder(p, kind, if there.Text? then there.text else serialize(there))))
  }

  /** Under a key that is taken out, at every depth, stands its placeholder, or nothing in drop mode, and nothing else
      below it. */
  lemma TakenOutAt(config: Config, patterns: Patterns, p: Policy, serialize: Json -> string, value: Json,
                   path: seq<Step>, name: string, rest: seq<Step>)
    requires IsOpen(config, path) && IsTakenOut(config, name)
    requires Walk(WalkerFor(config, patterns, p, serialize), value).Some?
    ensures var place, out := path + [Key(name)], Walk(WalkerFor(config, patterns, p, serialize), value).value.value;
            && At(out, place) == (match At(value, place)
                                  case None => None
                                  case Some(there) => Remains(p, KindOf(name), serialize, there))
            && (rest != [] ==> At(out, place + rest) == None)
  {
    OpenIsClean(config, patterns, p, serialize, path);
    DeniedIs(config, patterns, p, serialize, name);
    JsonShape.WalkAtDeniedKey(WalkerFor(config, patterns, p, serialize), value, path, name, rest);
  }

  /** What redaction makes of a value by itself: a string goes through the detectors, an array keeps its length, an
      object stays an object, and anything else is as it was. */
  ghost predicate IsRedactionOf(engine: Engine, p: Policy, before: Json, after: Json) {
    match before
    case Text(text) =>
      var r := RedactedStr(engine, p, text);
      r.Some? && after == Text(r.value.text)
    case Array(items) => after.Array? && |after.items| == |items|
    case Object(_) => after.Object?
    case _ => after == before
  }

  lemma RedactionIs(w: Walker, engine: Engine, p: Policy, value: Json)
    requires Walk(w, value).Some? && forall text :: w.onText(text) == RedactedStr(engine, p, text)
    ensures IsRedactionOf(engine, p, value, Walk(w, value).value.value)
  {
    match value {
      case Array(items) => JsonShape.ItemsKept(w, items);
      case _ =>
    }
  }

  /** At every place reached by keys that are not taken out stands the redaction of what stood there, and nothing where
      nothing stood. */
  lemma OpenAt(config: Config, patterns: Patterns, p: Policy, serialize: Json -> string, value: Json, path: seq<Step>)
    requires IsOpen(config, path)
    requires Walk(WalkerFor(config, patterns, p, serialize), value).Some?
    ensures var before, after := At(value, path),
                At(Walk(WalkerFor(config, patterns, p, serialize), value).value.value, path);
            && before.Some? == after.Some?
            && (before.Some? ==> IsRedactionOf(NewEngine(config, patterns), p, before.value, after.value))
  {
    OpenIsClean(config, patterns, p, serialize, path);
    JsonShape.WalkAtCleanPlace(WalkerFor(config, patterns, p, serialize), value, path);
    if At(value, path).Some? {
      forall text
        ensures WalkerFor(config, patterns, p, serialize).onText(text) ==
                RedactedStr(NewEngine(config, patterns), p, text)
      {
        OnTextIs(config, patterns, p, serialize, text);
      }
      RedactionIs(WalkerFor(config, patterns, p, serialize), NewEngine(config, patterns), p, At(value, path).value);
    }
  }

  // ----- counting

  /** What is found in a string. */
  function FoundIn(engine: Engine, p: Policy, text: string): seq<DetectorKind> {
    match RedactedStr(engine, p, text)
    case None => []
    case Some(pass) => pass.events
  }

  /** What is to be found in a value: each key that is taken out, and what `found` gives for every string that is not
      below one. */
  ghost function Findings(config: Config, found: string -> seq<DetectorKind>, value: Json): seq<DetectorKind>
    decreases value
  {
    match value
    case Text(text) => found(text)
    case Array(items) => ItemFindings(config, found, items)
    case Object(fields) => FieldFindings(config, found, fields)
    case _ => []
  }

  ghost function ItemFindings(config: Config, found: string -> seq<DetectorKind>, items: seq<Json>): seq<DetectorKind>
    decreases items
  {
    if items == [] then []
    else
      var n := |items| - 1;
      ItemFindings(config, found, items[..n]) + Findings(config, found, items[n])
  }

  ghost function FieldFindings(config: Config, found: string -> seq<DetectorKind>, fields: seq<Field>)
    : seq<DetectorKind>
    decreases fields
  {
    if fields == [] then []
    else
      var n := |fields| - 1;
      FieldFindings(config, found, fields[..n]) +
      if IsTakenOut(config, fields[n].key) then [KindOf(fields[n].key)] else Findings(config, found, fields[n].value)
  }

  /** A walker that goes by the configuration, and finds in strings what `found` gives. */
  ghost predicate GoesBy(w: Walker, config: Config, found: string -> seq<DetectorKind>) {
    && (forall key :: w.denied(key) == if IsTakenOut(config, key) then Some(KindOf(key)) else None)
    && (forall text :: w.onText(text).Some? && w.onText(text).value.events == found(text))
  }

  lemma {:induction false} ItemsCounted(w: Walker, config: Config, found: string -> seq<DetectorKind>,
                                        items: seq<Json>)
    requires GoesBy(w, config, found)
    ensures ScanItems(w, items) == Some(ItemFindings(config, found, items))
    decreases items
  {
    if items != [] {
      ItemsCounted(w, config, found, items[..|items| - 1]);
      Counted(w, config, found, items[|items| - 1]);
    }
  }

  lemma {:induction false} FieldsCounted(w: Walker, config: Config, found: string -> seq<DetectorKind>,
                                         fields: seq<Field>)
    requires GoesBy(w, config, found)
    ensures ScanFields(w, fields) == Some(FieldFindings(config, found, fields))
    decreases fields
  {
    if fields != [] {
      var last := fields[|fields| - 1];
      FieldsCounted(w, config, found, fields[..|fields| - 1]);
      if !IsTakenOut(config, last.key) {
        Counted(w, config, found, last.value);
      }
    }
  }

  lemma {:induction false} Counted(w: Walker, config: Config, found: string -> seq<DetectorKind>, value: Json)
    requires GoesBy(w, config, found)
    ensures Scan(w, value) == Some(Findings(config, found, value))
    decreases value
  {
    match value {
      case Array(items) => ItemsCounted(w, config, found, items);
      case Object(fields) => FieldsCounted(w, config, found, fields);
      case _ =>
    }
  }

  function Finder(engine: Engine, p: Policy): string -> seq<DetectorKind> { text => FoundIn(engine, p, text) }

  lemma WalkerGoesBy(config: Config, patterns: Patterns, p: Policy, serialize: Json -> string)
    requires !p.Keyless()
    ensures GoesBy(WalkerFor(config, patterns, p, serialize), config, Finder(NewEngine(config, patterns), p))
  {
    var w := WalkerFor(config, patterns, p, serialize);
    forall key
      ensures w.denied(key) == if IsTakenOut(config, key) then Some(KindOf(key)) else None
    {
      DeniedIs(config, patterns, p, serialize, key);
    }
    forall text
      ensures w.onText(text).Some? && w.onText(text).value.events == FoundIn(NewEngine(config, patterns), p, text)
    {
      TextFound(config, patterns, p, serialize, text);
    }
  }

  lemma TextFound(config: Config, patterns: Patterns, p: Policy, serialize: Json -> string, text: string)
    requires !p.Keyless()
    ensures var r := WalkerFor(config, patterns, p, serialize).onText(text);
            r.Some? && r.value.events == FoundIn(NewEngine(config, patterns), p, text)
  {
    PipelineLaws.KeyedRunEnds(NewEngine(config, patterns), p, Some(BearerTokens), text, []);
    OnTextIs(config, patterns, p, serialize, text);
  }

  /** A scan counts just that, and so does whatever is recorded by a redaction that has its key. */
  lemma FindingsCounted(config: Config, patterns: Patterns, p: Policy, serialize: Json -> string, value: Json)
    requires !p.Keyless()
    ensures var w, findings := WalkerFor(config, patterns, p, serialize),
                Findings(config, Finder(NewEngine(config, patterns), p), value);
            && Scan(w, value) == Some(findings)
            && (Walk(w, value).Some? ==> Walk(w, value).value.events == findings)
  {
    var w := WalkerFor(config, patterns, p, serialize);
    WalkerGoesBy(config, patterns, p, serialize);
    Counted(w, config, Finder(NewEngine(config, patterns), p), value);
    JsonLaws.ScanCountsWalk(w, value);
  }
}
