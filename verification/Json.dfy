/** JSON values, with objects in key order as the default map of serde_json keeps them. */
module Json {
  import opened Wrappers

  datatype Json =
    | Null
    | Bool(flag: bool)
    | Number(digits: string)
    | Text(text: string)
    | Array(items: seq<Json>)
    | Object(fields: seq<Field>)

  datatype Field = Field(key: string, value: Json)

  /** The order of strings. */
  predicate Less(a: string, b: string) {
    b != [] && (a == [] || a[0] < b[0] || (a[0] == b[0] && Less(a[1..], b[1..])))
  }

  lemma {:induction false} LessIsStrict(a: string, b: string)
    requires Less(a, b)
    ensures a != b && !Less(b, a)
  {
    if a != [] && a[0] == b[0] {
      LessIsStrict(a[1..], b[1..]);
    }
  }

  /** Keys ascend, so no key occurs twice. */
  predicate Sorted(fields: seq<Field>) {
    forall i, j | 0 <= i < j < |fields| :: Less(fields[i].key, fields[j].key)
  }

  predicate WellFormed(value: Json) {
    match value
    case Array(items) => forall item | item in items :: WellFormed(item)
    case Object(fields) => Sorted(fields) && forall field | field in fields :: WellFormed(field.value)
    case _ => true
  }

  /** `insert` on the map of an object. */
  function Insert(fields: seq<Field>, key: string, value: Json): seq<Field> {
    if fields == [] then [Field(key, value)]
    else
      var n := |fields| - 1;
      if Less(fields[n].key, key) then fields + [Field(key, value)]
      else if fields[n].key == key then fields[..n] + [Field(key, value)]
      else Insert(fields[..n], key, value) + [fields[n]]
  }

  function Lookup(fields: seq<Field>, key: string): Option<Json> {
    if fields == [] then None
    else
      var last := fields[|fields| - 1];
      if last.key == key then Some(last.value) else Lookup(fields[..|fields| - 1], key)
  }

  /** No key occurs twice in an object. */
  lemma KeysAreUnique(fields: seq<Field>, i: nat, j: nat)
    requires Sorted(fields) && i < j < |fields|
    ensures fields[i].key != fields[j].key
  {
    LessIsStrict(fields[i].key, fields[j].key);
  }

  /** What is looked up under the key of a field is the value of that field. */
  lemma {:induction false} LookupFinds(fields: seq<Field>, i: nat)
    requires Sorted(fields) && i < |fields|
    ensures Lookup(fields, fields[i].key) == Some(fields[i].value)
  {
    var n := |fields| - 1;
    if i < n {
      KeysAreUnique(fields, i, n);
      LookupFinds(fields[..n], i);
    }
  }

  lemma {:induction false} InsertedKeys(fields: seq<Field>, key: string, value: Json)
    ensures forall f | f in Insert(fields, key, value) :: f in fields || f == Field(key, value)
  {
    if fields != [] {
      InsertedKeys(fields[..|fields| - 1], key, value);
    }
  }

  lemma {:induction false} LessIsTransitive(a: string, b: string, c: string)
    requires Less(a, b) && Less(b, c)
    ensures Less(a, c)
  {
    if a != [] && a[0] == b[0] == c[0] {
      LessIsTransitive(a[1..], b[1..], c[1..]);
    }
  }

  lemma {:induction false} LessIsTotal(a: string, b: string)
    ensures a == b || Less(a, b) || Less(b, a)
  {
    if a != [] && b != [] && a[0] == b[0] {
      LessIsTotal(a[1..], b[1..]);
      assert a == [a[0]] + a[1..] && b == [b[0]] + b[1..];
    }
  }

  /** Insertion keeps keys ascending and unique. */
  lemma {:induction false} InsertKeepsSorted(fields: seq<Field>, key: string, value: Json)
    requires Sorted(fields)
    ensures Sorted(Insert(fields, key, value))
  {
    if fields != [] {
      var n := |fields| - 1;
      if Less(fields[n].key, key) {
        forall i | 0 <= i < n
          ensures Less(fields[i].key, key)
        {
          LessIsTransitive(fields[i].key, fields[n].key, key);
        }
      } else if fields[n].key != key {
        LessIsTotal(fields[n].key, key);
        InsertKeepsSorted(fields[..n], key, value);
        InsertedKeys(fields[..n], key, value);
        var inserted := Insert(fields[..n], key, value);
        forall i | 0 <= i < |inserted|
          ensures Less(inserted[i].key, fields[n].key)
        {
          assert inserted[i] in inserted;
        }
      }
    }
  }

  lemma {:induction false} LookupInserted(fields: seq<Field>, key: string, value: Json, other: string)
    ensures Lookup(Insert(fields, key, value), other) == if other == key then Some(value) else Lookup(fields, other)
  {
    if fields != [] {
      var n := |fields| - 1;
      LookupInserted(fields[..n], key, value, other);
      var inserted := Insert(fields, key, value);
      if Less(fields[n].key, key) {
        assert inserted[..|fields|] == fields;
      } else if fields[n].key == key {
        assert inserted[..n] == fields[..n];
      } else {
        assert inserted[..|inserted| - 1] == Insert(fields[..n], key, value);
      }
    }
  }

  // ----- places in a value

  datatype Step = Key(name: string) | Index(i: nat)

  /** What stands at a place. */
  function At(value: Json, path: seq<Step>): Option<Json>
    decreases |path|
  {
    if path == [] then Some(value)
    else
      match (value, path[0])
      case (Object(fields), Key(name)) =>
        (match Lookup(fields, name)
         case Some(child) => At(child, path[1..])
         case None => None)
      case (Array(items), Index(i)) => if i < |items| then At(items[i], path[1..]) else None
      case _ => None
  }
}
