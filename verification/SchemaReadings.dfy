// What a payload schema means once it is read, without the item budget that
// bounds the reading, and what the reading costs.
module SchemaReadings {
  import opened Outcomes
  import opened BoundedTexts
  import opened CanonicalJson
  import opened PayloadSchemas
  import opened Utf16

  predicate Known(key: string) {
    key in ["type", "format", "properties", "required", "items", "additionalProperties", "enum",
            "oneOf", "anyOf", "allOf"]
  }

  predicate Fits(nfc: string -> string, s: string, maximum: nat) {
    var t := Trim(nfc(s));
    HasText(t) && Length(t) <= maximum && '\0' !in t
  }

  // Every text that is kept fits, and declared properties are a record.
  ghost predicate Readable(nfc: string -> string, j: Json)
    decreases j
  {
    match j
    case JText(s) => Fits(nfc, s, 2048)
    case JArray(items) => forall i :: 0 <= i < |items| ==> Readable(nfc, items[i])
    case JObject(fields) => forall i :: 0 <= i < |fields| ==> ReadableField(nfc, fields[i])
    case _ => true
  }

  ghost predicate ReadableField(nfc: string -> string, f: Field)
    decreases f
  {
    Known(f.key) ==>
      if f.key == "properties" then
        f.value.JObject? &&
        forall i :: 0 <= i < |f.value.fields| ==> ReadableProperty(nfc, f.value.fields[i])
      else Readable(nfc, f.value)
  }

  ghost predicate ReadableProperty(nfc: string -> string, f: Field)
    decreases f
  {
    Fits(nfc, f.key, 512) && Readable(nfc, f.value)
  }

  // Texts are normalised and trimmed, unknown fields dropped, and of properties
  // with one normal name the last is kept.
  function Meaning(nfc: string -> string, j: Json): Json
    decreases j
  {
    match j
    case JText(s) => JText(Trim(nfc(s)))
    case JArray(items) => JArray(Meanings(nfc, items))
    case JObject(fields) => JObject(FieldMeanings(nfc, fields))
    case _ => j
  }

  function Meanings(nfc: string -> string, items: seq<Json>): (r: seq<Json>)
    ensures |r| == |items| && forall i :: 0 <= i < |items| ==> r[i] == Meaning(nfc, items[i])
    decreases items
  {
    if items == [] then [] else [Meaning(nfc, items[0])] + Meanings(nfc, items[1..])
  }

  function FieldMeanings(nfc: string -> string, fields: seq<Field>): seq<Field>
    decreases fields
  {
    if fields == [] then []
    else (if Known(fields[0].key) then [FieldMeaning(nfc, fields[0])] else []) + FieldMeanings(nfc, fields[1..])
  }

  function FieldMeaning(nfc: string -> string, f: Field): Field
    decreases f
  {
    if f.key == "properties" && f.value.JObject? then Field(f.key, JObject(Declared(nfc, [], f.value.fields)))
    else Field(f.key, Meaning(nfc, f.value))
  }

  function Declared(nfc: string -> string, done: seq<Field>, fields: seq<Field>): seq<Field>
    decreases fields
  {
    if fields == [] then done
    else Declared(nfc, Put(done, Field(Trim(nfc(fields[0].key)), Meaning(nfc, fields[0].value))), fields[1..])
  }

  // One for every value that is visited; the record of properties is free.
  function Cost(j: Json): nat
    decreases j
  {
    match j
    case JArray(items) => 1 + ItemCosts(items)
    case JObject(fields) => 1 + FieldCosts(fields)
    case _ => 1
  }

  function ItemCosts(items: seq<Json>): nat
    decreases items
  {
    if items == [] then 0 else Cost(items[0]) + ItemCosts(items[1..])
  }

  function FieldCosts(fields: seq<Field>): nat
    decreases fields
  {
    if fields == [] then 0
    else (if Known(fields[0].key) then FieldCost(fields[0]) else 0) + FieldCosts(fields[1..])
  }

  function FieldCost(f: Field): nat
    decreases f
  {
    if f.key == "properties" && f.value.JObject? then PropertyCosts(f.value.fields) else Cost(f.value)
  }

  function PropertyCosts(fields: seq<Field>): nat
    decreases fields
  {
    if fields == [] then 0 else Cost(fields[0].value) + PropertyCosts(fields[1..])
  }

  function Paid<T>(value: T, budget: nat, cost: nat): Result<(T, nat)> {
    if cost <= budget then Ok((value, budget - cost)) else Throws
  }

  lemma KnownKeys(key: string)
    ensures Known(key) <==> key in SCHEMA_KEYS
  {
  }

  lemma FittingText(nfc: string -> string, s: string, maximum: nat)
    ensures BoundedText(nfc, s, maximum) == if Fits(nfc, s, maximum) then Ok(Trim(nfc(s))) else Throws
  {
  }

  // A schema is read exactly when it is readable and its cost is within the
  // budget; it comes out as what it means, and its cost is paid.
  lemma {:induction false} NormalizeIs(nfc: string -> string, j: Json, budget: nat)
    ensures Normalize(nfc, j, budget)
            == if Readable(nfc, j) then Paid(Meaning(nfc, j), budget, Cost(j)) else Throws
    decreases j, 0
  {
    hide BoundedText, Fits, HasText;
    if budget > 0 {
      match j
      case JText(s) => FittingText(nfc, s, 2048);
      case JArray(items) => ItemsAre(nfc, items, budget - 1);
      case JObject(fields) => FieldsAre(nfc, fields, budget - 1);
      case _ =>
    }
  }

  lemma {:induction false} ItemsAre(nfc: string -> string, items: seq<Json>, budget: nat)
    ensures NormalizeItems(nfc, items, budget)
            == if forall i :: 0 <= i < |items| ==> Readable(nfc, items[i])
               then Paid(Meanings(nfc, items), budget, ItemCosts(items)) else Throws
    decreases items, 0
  {
    hide Normalize, Readable, Meaning, Cost;
    if items != [] {
      NormalizeIs(nfc, items[0], budget);
      ReadableFirst(nfc, items);
      if Normalize(nfc, items[0], budget).Ok? {
        ItemsAre(nfc, items[1..], budget - Cost(items[0]));
      }
    }
  }

  lemma ReadableFirst(nfc: string -> string, items: seq<Json>)
    requires items != []
    ensures (forall i :: 0 <= i < |items| ==> Readable(nfc, items[i]))
            <==> Readable(nfc, items[0]) && forall i :: 0 <= i < |items[1..]| ==> Readable(nfc, items[1..][i])
  {
    hide Readable;
    if Readable(nfc, items[0]) && forall i :: 0 <= i < |items[1..]| ==> Readable(nfc, items[1..][i]) {
      forall i | 0 <= i < |items| ensures Readable(nfc, items[i]) {
        assert i == 0 || items[i] == items[1..][i - 1];
      }
    }
  }

  lemma ReadableFirstField(nfc: string -> string, fields: seq<Field>)
    requires fields != []
    ensures (forall i :: 0 <= i < |fields| ==> ReadableField(nfc, fields[i]))
            <==> ReadableField(nfc, fields[0])
                 && forall i :: 0 <= i < |fields[1..]| ==> ReadableField(nfc, fields[1..][i])
  {
    hide ReadableField;
    if ReadableField(nfc, fields[0]) && forall i :: 0 <= i < |fields[1..]| ==> ReadableField(nfc, fields[1..][i]) {
      forall i | 0 <= i < |fields| ensures ReadableField(nfc, fields[i]) {
        assert i == 0 || fields[i] == fields[1..][i - 1];
      }
    }
  }

  lemma ReadableFirstProperty(nfc: string -> string, fields: seq<Field>)
    requires fields != []
    ensures (forall i :: 0 <= i < |fields| ==> ReadableProperty(nfc, fields[i]))
            <==> ReadableProperty(nfc, fields[0])
                 && forall i :: 0 <= i < |fields[1..]| ==> ReadableProperty(nfc, fields[1..][i])
  {
    hide ReadableProperty;
    if ReadableProperty(nfc, fields[0])
       && forall i :: 0 <= i < |fields[1..]| ==> ReadableProperty(nfc, fields[1..][i]) {
      forall i | 0 <= i < |fields| ensures ReadableProperty(nfc, fields[i]) {
        assert i == 0 || fields[i] == fields[1..][i - 1];
      }
    }
  }

  lemma {:induction false} FieldsAre(nfc: string -> string, fields: seq<Field>, budget: nat)
    ensures NormalizeFields(nfc, fields, budget)
            == if forall i :: 0 <= i < |fields| ==> ReadableField(nfc, fields[i])
               then Paid(FieldMeanings(nfc, fields), budget, FieldCosts(fields)) else Throws
    decreases fields, 0
  {
    hide NormalizeField, FieldMeaning, FieldCost, Known;
    if fields != [] {
      ReadableFirstField(nfc, fields);
      KnownKeys(fields[0].key);
      UnknownIsReadable(nfc, fields[0]);
      hide ReadableField;
      if Known(fields[0].key) {
        FieldIs(nfc, fields[0], budget);
        if NormalizeField(nfc, fields[0], budget).Ok? {
          FieldsAre(nfc, fields[1..], budget - FieldCost(fields[0]));
        }
      } else {
        FieldsAre(nfc, fields[1..], budget);
        assert [] + FieldMeanings(nfc, fields[1..]) == FieldMeanings(nfc, fields[1..]);
      }
    }
  }

  lemma UnknownIsReadable(nfc: string -> string, f: Field)
    ensures !Known(f.key) ==> ReadableField(nfc, f)
  {
  }

  lemma {:induction false} FieldIs(nfc: string -> string, f: Field, budget: nat)
    requires Known(f.key)
    ensures NormalizeField(nfc, f, budget)
            == if ReadableField(nfc, f) then Paid(FieldMeaning(nfc, f), budget, FieldCost(f)) else Throws
    decreases f, 0
  {
    hide Normalize, Readable, Meaning, Cost, Known;
    if f.key != "properties" {
      NormalizeIs(nfc, f.value, budget);
    } else if f.value.JObject? {
      PropertiesAre(nfc, [], f.value.fields, budget);
    }
  }

  lemma {:induction false} PropertiesAre(nfc: string -> string, done: seq<Field>, fields: seq<Field>, budget: nat)
    ensures NormalizeProperties(nfc, fields, budget, done)
            == if forall i :: 0 <= i < |fields| ==> ReadableProperty(nfc, fields[i])
               then Paid(Declared(nfc, done, fields), budget, PropertyCosts(fields)) else Throws
    decreases fields, 0
  {
    hide Normalize, Readable, Meaning, Cost, BoundedText, Fits, Put;
    if fields != [] {
      ReadableFirstProperty(nfc, fields);
      FittingText(nfc, fields[0].key, 512);
      NormalizeIs(nfc, fields[0].value, budget);
      if BoundedText(nfc, fields[0].key, 512).Ok? && Normalize(nfc, fields[0].value, budget).Ok? {
        var name, kept := Trim(nfc(fields[0].key)), Meaning(nfc, fields[0].value);
        PropertiesAre(nfc, Put(done, Field(name, kept)), fields[1..], budget - Cost(fields[0].value));
      }
    }
  }

  // --- properties --------------------------------------------------------------------

  ghost predicate OneEach(fields: seq<Field>) {
    forall i, j :: 0 <= i < j < |fields| ==> fields[i].key != fields[j].key
  }

  // Setting a field replaces the one of its name and no other.
  lemma {:induction false} PutIs(fields: seq<Field>, f: Field)
    requires OneEach(fields)
    ensures OneEach(Put(fields, f))
    ensures forall g :: g in Put(fields, f) <==> g == f || (g in fields && g.key != f.key)
  {
    if fields != [] {
      var rest := fields[1..];
      assert fields == [fields[0]] + rest;
      assert OneEach(rest);
      forall g | g in rest ensures g.key != fields[0].key {
        var i :| 0 <= i < |rest| && rest[i] == g;
        assert fields[i + 1] == g;
      }
      PutIs(rest, f);
    }
  }

  // Property `i` is the last one whose name has this normal form.
  ghost predicate LastNamed(nfc: string -> string, fields: seq<Field>, name: string, i: int) {
    && 0 <= i < |fields| && Trim(nfc(fields[i].key)) == name
    && forall j :: i < j < |fields| ==> Trim(nfc(fields[j].key)) != name
  }

  ghost predicate DeclaredBy(nfc: string -> string, fields: seq<Field>, g: Field) {
    exists i :: LastNamed(nfc, fields, g.key, i) && g.value == Meaning(nfc, fields[i].value)
  }

  ghost predicate Names(nfc: string -> string, fields: seq<Field>, name: string) {
    exists i :: 0 <= i < |fields| && Trim(nfc(fields[i].key)) == name
  }

  // The declared properties are the last ones of their normal names.
  lemma {:induction false} DeclaredAre(nfc: string -> string, done: seq<Field>, fields: seq<Field>)
    requires OneEach(done)
    ensures OneEach(Declared(nfc, done, fields))
    ensures forall g :: g in Declared(nfc, done, fields) <==>
              DeclaredBy(nfc, fields, g) || (g in done && !Names(nfc, fields, g.key))
    decreases |fields|
  {
    hide Put, OneEach, Meaning, LastNamed;
    if fields == [] {
      NothingDeclared(nfc);
    } else {
      var f := Field(Trim(nfc(fields[0].key)), Meaning(nfc, fields[0].value));
      PutIs(done, f);
      DeclaredAre(nfc, Put(done, f), fields[1..]);
      hide DeclaredBy, Names;
      forall g {
        DeclaredFirst(nfc, fields, g);
      }
    }
  }

  lemma NothingDeclared(nfc: string -> string)
    ensures forall g :: !DeclaredBy(nfc, [], g) && !Names(nfc, [], g.key)
  {
  }

  lemma DeclaredFirst(nfc: string -> string, fields: seq<Field>, g: Field)
    requires fields != []
    ensures var f := Field(Trim(nfc(fields[0].key)), Meaning(nfc, fields[0].value));
            && (DeclaredBy(nfc, fields, g) <==>
                  DeclaredBy(nfc, fields[1..], g) || (g == f && !Names(nfc, fields[1..], g.key)))
            && (Names(nfc, fields, g.key) <==> Names(nfc, fields[1..], g.key) || g.key == f.key)
  {
    hide Meaning;
    var rest := fields[1..];
    forall i | 0 <= i < |rest| ensures rest[i] == fields[i + 1] {}
    if i :| 0 <= i < |rest| && Trim(nfc(rest[i].key)) == g.key {
      assert Trim(nfc(fields[i + 1].key)) == g.key;
    }
    if i :| LastNamed(nfc, rest, g.key, i) && g.value == Meaning(nfc, rest[i].value) {
      LaterIsLast(nfc, fields, g.key, i + 1);
      assert LastNamed(nfc, fields, g.key, i + 1);
    }
    if i :| LastNamed(nfc, fields, g.key, i) && g.value == Meaning(nfc, fields[i].value) {
      if i > 0 {
        LaterIsLast(nfc, fields, g.key, i);
        assert LastNamed(nfc, rest, g.key, i - 1);
      } else {
        assert forall j :: 0 <= j < |rest| ==> Trim(nfc(rest[j].key)) == Trim(nfc(fields[j + 1].key));
      }
    }
    if g.key == Trim(nfc(fields[0].key)) && !Names(nfc, rest, g.key) {
      assert forall j :: 0 < j < |fields| ==> fields[j] == rest[j - 1];
      assert LastNamed(nfc, fields, g.key, 0);
    }
    if Names(nfc, fields, g.key) && g.key != Trim(nfc(fields[0].key)) {
      var i :| 0 <= i < |fields| && Trim(nfc(fields[i].key)) == g.key;
      assert rest[i - 1] == fields[i];
    }
  }

  lemma LaterIsLast(nfc: string -> string, fields: seq<Field>, name: string, i: int)
    requires 0 < i < |fields|
    ensures LastNamed(nfc, fields, name, i) <==> LastNamed(nfc, fields[1..], name, i - 1)
  {
    var rest := fields[1..];
    assert forall j :: 0 < j < |fields| ==> fields[j] == rest[j - 1];
    if LastNamed(nfc, fields, name, i) {
      forall j | i - 1 < j < |rest| ensures Trim(nfc(rest[j].key)) != name {
        assert fields[j + 1] == rest[j];
      }
    }
  }
}
