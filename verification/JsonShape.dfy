/** What stands where after redaction, and when redacting again changes nothing. */
module JsonShape {
  import opened Wrappers
  import opened Policy
  import opened Splicing
  import opened Json
  import opened JsonWalk

  // ----- form

  lemma {:induction false} ItemsKept(w: Walker, items: seq<Json>)
    requires WalkItems(w, items).Some?
    ensures var out := WalkItems(w, items).value.items;
            |out| == |items| && forall i | 0 <= i < |items| ::
              Walk(w, items[i]).Some? && out[i] == Walk(w, items[i]).value.value
  {
    if items != [] {
      ItemsKept(w, items[..|items| - 1]);
    }
  }

  /** The fields that a walk keeps. */
  function Kept(w: Walker, fields: seq<Field>): seq<Field> {
    if fields == [] then []
    else
      var last := fields[|fields| - 1];
      Kept(w, fields[..|fields| - 1]) + if w.policy.mode.Drop? && w.denied(last.key).Some? then [] else [last]
  }

  /** What stands at a kept field afterwards. */
  function Replaced(w: Walker, field: Field): Option<Json> {
    match w.denied(field.key)
    case Some(kind) => Some(PlaceholderFor(w, kind, field.value))
    case None =>
      match Walk(w, field.value)
      case None => None
      case Some(r) => Some(r.value)
  }

  /** The fields afterwards are the kept ones, in order and under their keys. */
  lemma {:induction false} FieldsKept(w: Walker, fields: seq<Field>)
    requires WalkFields(w, fields).Some?
    ensures var out, kept := WalkFields(w, fields).value.fields, Kept(w, fields);
            |out| == |kept| && forall i | 0 <= i < |out| ::
              out[i].key == kept[i].key && Replaced(w, kept[i]) == Some(out[i].value)
  {
    if fields != [] {
      FieldsKept(w, fields[..|fields| - 1]);
    }
  }

  lemma {:induction false} KeptAreFields(w: Walker, fields: seq<Field>)
    ensures forall f | f in Kept(w, fields) :: f in fields
    ensures Sorted(fields) ==> Sorted(Kept(w, fields))
  {
    if fields != [] {
      var n := |fields| - 1;
      var front := Kept(w, fields[..n]);
      KeptAreFields(w, fields[..n]);
      if Sorted(fields) {
        forall i | 0 <= i < |front|
          ensures Less(front[i].key, fields[n].key)
        {
          assert front[i] in fields[..n];
        }
      }
    }
  }

  /** Objects stay objects with ascending, unique keys, at every depth. */
  lemma {:induction false} FormKept(w: Walker, value: Json)
    requires WellFormed(value) && Walk(w, value).Some?
    ensures WellFormed(Walk(w, value).value.value)
    decreases value
  {
    match value {
      case Object(fields) =>
        var out, kept := WalkFields(w, fields).value.fields, Kept(w, fields);
        FieldsKept(w, fields);
        KeptAreFields(w, fields);
        forall i | 0 <= i < |out|
          ensures WellFormed(out[i].value)
        {
          assert kept[i] in fields;
          if w.denied(kept[i].key).None? {
            FormKept(w, kept[i].value);
          }
        }
      case Array(items) =>
        ItemsKept(w, items);
        forall i | 0 <= i < |items|
          ensures WellFormed(Walk(w, items[i]).value.value)
        {
          FormKept(w, items[i]);
        }
      case _ =>
    }
  }

  // ----- what stands at each place

  /** No step of the path is a denied key. */
  predicate Clean(w: Walker, path: seq<Step>) {
    forall step | step in path :: step.Key? ==> w.denied(step.name).None?
  }

  lemma LookupSnoc(front: seq<Field>, last: Field, key: string)
    ensures Lookup(front + [last], key) == if last.key == key then Some(last.value) else Lookup(front, key)
  {
    assert (front + [last])[..|front|] == front;
  }

  /** What one field leaves to be looked up under a key. */
  lemma LookupField(w: Walker, front: seq<Field>, field: Field, key: string)
    requires WalkField(w, field).Some?
    ensures var after := Lookup(front + WalkField(w, field).value.fields, key);
            if field.key != key then after == Lookup(front, key)
            else
              match w.denied(key)
              case Some(kind) =>
                after == if w.policy.mode.Drop? then Lookup(front, key) else Some(PlaceholderFor(w, kind, field.value))
              case None => Walk(w, field.value).Some? && after == Some(Walk(w, field.value).value.value)
  {
    var kept := WalkField(w, field).value.fields;
    if kept == [] {
      assert front + kept == front;
    } else {
      LookupSnoc(front, kept[0], key);
      assert kept == [kept[0]];
    }
  }

  lemma {:induction false} DroppedNotFound(w: Walker, fields: seq<Field>, key: string)
    requires WalkFields(w, fields).Some? && w.denied(key).Some? && w.policy.mode.Drop?
    ensures Lookup(WalkFields(w, fields).value.fields, key).None?
  {
    if fields != [] {
      var n := |fields| - 1;
      DroppedNotFound(w, fields[..n], key);
      LookupField(w, WalkFields(w, fields[..n]).value.fields, fields[n], key);
    }
  }

  lemma {:induction false} LookupWalked(w: Walker, fields: seq<Field>, key: string)
    requires WalkFields(w, fields).Some?
    ensures var before, after := Lookup(fields, key), Lookup(WalkFields(w, fields).value.fields, key);
            if before.None? then after.None?
            else
              match w.denied(key)
              case Some(kind) =>
                after == if w.policy.mode.Drop? then None else Some(PlaceholderFor(w, kind, before.value))
              case None => Walk(w, before.value).Some? && after == Some(Walk(w, before.value).value.value)
  {
    if fields != [] {
      var n := |fields| - 1;
      LookupWalked(w, fields[..n], key);
      LookupField(w, WalkFields(w, fields[..n]).value.fields, fields[n], key);
      if w.denied(key).Some? && w.policy.mode.Drop? {
        DroppedNotFound(w, fields[..n], key);
      }
    }
  }

  /** Redaction goes with navigation: at a place that is reached without a denied key stands the redaction of
      what stood there, and nothing stands there that did not before. */
  lemma {:induction false} WalkAtCleanPlace(w: Walker, value: Json, path: seq<Step>)
    requires Walk(w, value).Some? && Clean(w, path)
    ensures var before, after := At(value, path), At(Walk(w, value).value.value, path);
            if before.None? then after.None?
            else Walk(w, before.value).Some? && after == Some(Walk(w, before.value).value.value)
    decreases |path|
  {
    if path != [] {
      assert path[0] in path;
      match (value, path[0]) {
        case (Object(fields), Key(name)) =>
          LookupWalked(w, fields, name);
          if Lookup(fields, name).Some? {
            WalkAtCleanPlace(w, Lookup(fields, name).value, path[1..]);
          }
        case (Array(items), Index(i)) =>
          ItemsKept(w, items);
          if i < |items| {
            WalkAtCleanPlace(w, items[i], path[1..]);
          }
        case _ =>
      }
    }
  }

  lemma {:induction false} AtSteps(value: Json, path: seq<Step>, rest: seq<Step>)
    ensures At(value, path + rest) ==
            match At(value, path) case None => None case Some(there) => At(there, rest)
    decreases |path|
  {
    if path == [] {
      assert path + rest == rest;
    } else {
      assert (path + rest)[1..] == path[1..] + rest;
      match (value, path[0]) {
        case (Object(fields), Key(name)) =>
          if Lookup(fields, name).Some? {
            AtSteps(Lookup(fields, name).value, path[1..], rest);
          }
        case (Array(items), Index(i)) =>
          if i < |items| {
            AtSteps(items[i], path[1..], rest);
          }
        case _ =>
      }
    }
  }

  /** At every depth, where the value had a denied key there is nothing (drop), or just the placeholder. */
  lemma WalkAtDeniedKey(w: Walker, value: Json, path: seq<Step>, name: string, rest: seq<Step>)
    requires Walk(w, value).Some? && Clean(w, path) && w.denied(name).Some?
    ensures var place := path + [Key(name)];
            var before, after := At(value, place), Walk(w, value).value.value;
            && At(after, place) == (if before.None? || w.policy.mode.Drop? then None
                                    else Some(PlaceholderFor(w, w.denied(name).value, before.value)))
            && (rest != [] ==> At(after, place + rest) == None)
  {
    var after, place := Walk(w, value).value.value, path + [Key(name)];
    WalkAtCleanPlace(w, value, path);
    AtSteps(value, path, [Key(name)]);
    AtSteps(after, path, [Key(name)]);
    AtSteps(after, place, rest);
    match At(value, path) {
      case Some(Object(fields)) =>
        LookupWalked(w, fields, name);
        OneStep(Object(fields), name);
        OneStep(Walk(w, Object(fields)).value.value, name);
      case _ =>
    }
  }

  lemma OneStep(value: Json, name: string)
    ensures At(value, [Key(name)]) == if value.Object? then Lookup(value.fields, name) else None
  {
    if value.Object? && Lookup(value.fields, name).Some? {
      assert At(Lookup(value.fields, name).value, [Key(name)][1..]) == Some(Lookup(value.fields, name).value);
    }
  }

  // ----- redacting twice

  /** Redacting the text of each reached string again leaves it alone. */
  ghost predicate Settled(w: Walker, value: Json) {
    match value
    case Text(text) => w.onText(text).Some? ==> SameText(w.onText(w.onText(text).value.text), w.onText(text).value.text)
    case Array(items) => forall i | 0 <= i < |items| :: Settled(w, items[i])
    case Object(fields) => forall i | 0 <= i < |fields| :: w.denied(fields[i].key).None? ==> Settled(w, fields[i].value)
    case _ => true
  }

  predicate SameText(r: Option<Pass>, text: string) { r.Some? && r.value.text == text }

  predicate Unchanged(r: Option<Outcome>, value: Json) { r.Some? && r.value.value == value }

  predicate UnchangedItems(r: Option<ItemsOutcome>, items: seq<Json>) { r.Some? && r.value.items == items }

  predicate UnchangedFields(r: Option<FieldsOutcome>, fields: seq<Field>) { r.Some? && r.value.fields == fields }

  lemma {:induction false} TwiceItems(w: Walker, items: seq<Json>)
    requires !w.policy.mode.Hash? && WalkItems(w, items).Some?
    ensures var once := WalkItems(w, items).value.items;
            UnchangedItems(WalkItems(w, once), once) <==> Settled(w, Array(items))
    decreases items
  {
    if items != [] {
      var n := |items| - 1;
      var once, front := WalkItems(w, items).value.items, WalkItems(w, items[..n]).value.items;
      assert once[..|once| - 1] == front;
      TwiceItems(w, items[..n]);
      Twice(w, items[n]);
      assert Settled(w, Array(items)) <==> Settled(w, Array(items[..n])) && Settled(w, items[n]);
    }
  }

  lemma AppendField(w: Walker, front: seq<Field>, last: Field)
    ensures WalkFields(w, front + [last]) ==
            match (WalkFields(w, front), WalkField(w, last))
            case (Some(f), Some(l)) => Some(FieldsOutcome(f.fields + l.fields, f.events + l.events))
            case _ => None
  {
    assert (front + [last])[..|front|] == front;
  }

  lemma SettledFront(w: Walker, fields: seq<Field>)
    requires fields != []
    ensures var n := |fields| - 1;
            Settled(w, Object(fields)) <==>
            Settled(w, Object(fields[..n])) && (w.denied(fields[n].key).None? ==> Settled(w, fields[n].value))
  {
  }

  /** A field that is dropped stays away; one that is kept is kept again, and keeps its value if it settles. */
  lemma {:induction false} TwiceField(w: Walker, field: Field)
    requires !w.policy.mode.Hash? && WalkField(w, field).Some?
    ensures var once := WalkField(w, field).value.fields;
            || (once == [] && w.denied(field.key).Some?)
            || (|once| == 1 &&
                var again := WalkField(w, once[0]);
                && (again.Some? ==> |again.value.fields| == 1)
                && (UnchangedFields(again, once) <==> (w.denied(field.key).None? ==> Settled(w, field.value))))
    decreases field
  {
    match w.denied(field.key) {
      case None => Twice(w, field.value);
      case Some(kind) =>
        if !w.policy.mode.Drop? {
          var once := WalkField(w, field).value.fields[0];
          PlaceholderIgnoresSecret(w.policy, w.policy, kind, Material(w.serialize, field.value),
                                   Material(w.serialize, once.value));
        }
    }
  }

  lemma SplitEqual(a: seq<Field>, b: seq<Field>, c: seq<Field>, d: seq<Field>)
    requires |b| == |d| == 1
    ensures a + b == c + d <==> a == c && b == d
  {
    if a + b == c + d {
      assert (a + b)[..|a|] == a && (c + d)[..|c|] == c;
      assert (a + b)[|a|..] == b && (c + d)[|c|..] == d;
    }
  }

  lemma {:induction false} TwiceFields(w: Walker, fields: seq<Field>)
    requires !w.policy.mode.Hash? && WalkFields(w, fields).Some?
    ensures var once := WalkFields(w, fields).value.fields;
            UnchangedFields(WalkFields(w, once), once) <==> Settled(w, Object(fields))
    decreases fields
  {
    if fields != [] {
      var n := |fields| - 1;
      var front, last := WalkFields(w, fields[..n]).value.fields, WalkField(w, fields[n]).value.fields;
      TwiceFields(w, fields[..n]);
      TwiceField(w, fields[n]);
      SettledFront(w, fields);
      if last == [] {
        assert front + last == front;
      } else {
        AppendField(w, front, last[0]);
        assert last == [last[0]];
        if WalkFields(w, front).Some? && WalkField(w, last[0]).Some? {
          SplitEqual(WalkFields(w, front).value.fields, WalkField(w, last[0]).value.fields, front, last);
        }
      }
    }
  }

  /** In mask and drop mode, redacting a redacted value again changes nothing exactly when that is so for
      every string reached; the denied keys never stand in the way. */
  lemma {:induction false} Twice(w: Walker, value: Json)
    requires !w.policy.mode.Hash? && Walk(w, value).Some?
    ensures var once := Walk(w, value).value.value;
            Unchanged(Walk(w, once), once) <==> Settled(w, value)
    decreases value
  {
    match value {
      case Object(fields) => TwiceFields(w, fields);
      case Array(items) => TwiceItems(w, items);
      case _ =>
    }
  }
}
