// Payload schemas: how a manifest's schema is normalised under an item
// budget, and how a persisted one is checked under the same budget.
module PayloadSchemas {
  import opened Outcomes
  import opened BoundedTexts
  import opened CanonicalJson

  const SCHEMA_KEYS: set<string> := {
    "type", "format", "properties", "required", "items", "additionalProperties", "enum", "oneOf", "anyOf", "allOf"}
  const TEXT_LIMIT := 2048
  const NAME_LIMIT := 512

  // `target[key] = value` on a record that lists its fields in order.
  function Put(fields: seq<Field>, f: Field): (r: seq<Field>)
    ensures forall g :: g in r ==> g == f || g in fields
  {
    if fields == [] then [f]
    else if fields[0].key == f.key then [f] + fields[1..]
    else [fields[0]] + Put(fields[1..], f)
  }

  // Records list their fields in the order in which the code visits the keys.
  function Normalize(nfc: string -> string, j: Json, budget: nat): Result<(Json, nat)>
    decreases j
  {
    if budget == 0 then Throws
    else
      match j
      case JNull => Ok((j, budget - 1))
      case JBoolean(_) => Ok((j, budget - 1))
      case JNumber(_) => Ok((j, budget - 1))
      case JText(s) =>
        (match BoundedText(nfc, s, TEXT_LIMIT)
         case Throws => Throws
         case Ok(t) => Ok((JText(t), budget - 1)))
      case JArray(items) =>
        (match NormalizeItems(nfc, items, budget - 1)
         case Throws => Throws
         case Ok((kept, left)) => Ok((JArray(kept), left)))
      case JObject(fields) =>
        (match NormalizeFields(nfc, fields, budget - 1)
         case Throws => Throws
         case Ok((kept, left)) => Ok((JObject(kept), left)))
  }

  function NormalizeItems(nfc: string -> string, items: seq<Json>, budget: nat): Result<(seq<Json>, nat)>
    decreases items
  {
    if items == [] then Ok(([], budget))
    else
      match Normalize(nfc, items[0], budget)
      case Throws => Throws
      case Ok((first, left)) =>
        match NormalizeItems(nfc, items[1..], left)
        case Throws => Throws
        case Ok((rest, left')) => Ok(([first] + rest, left'))
  }

  // Unknown keys are dropped.
  function NormalizeFields(nfc: string -> string, fields: seq<Field>, budget: nat): Result<(seq<Field>, nat)>
    decreases fields
  {
    if fields == [] then Ok(([], budget))
    else if fields[0].key !in SCHEMA_KEYS then NormalizeFields(nfc, fields[1..], budget)
    else
      match NormalizeField(nfc, fields[0], budget)
      case Throws => Throws
      case Ok((first, left)) =>
        match NormalizeFields(nfc, fields[1..], left)
        case Throws => Throws
        case Ok((rest, left')) => Ok(([first] + rest, left'))
  }

  function NormalizeField(nfc: string -> string, f: Field, budget: nat): Result<(Field, nat)>
    decreases f
  {
    if f.key == "properties" then
      if !f.value.JObject? then Throws
      else
        match NormalizeProperties(nfc, f.value.fields, budget, [])
        case Throws => Throws
        case Ok((kept, left)) => Ok((Field(f.key, JObject(kept)), left))
    else
      match Normalize(nfc, f.value, budget)
      case Throws => Throws
      case Ok((kept, left)) => Ok((Field(f.key, kept), left))
  }

  function NormalizeProperties(nfc: string -> string, fields: seq<Field>, budget: nat, done: seq<Field>)
      : Result<(seq<Field>, nat)>
    decreases fields
  {
    if fields == [] then Ok((done, budget))
    else
      match BoundedText(nfc, fields[0].key, NAME_LIMIT)
      case Throws => Throws
      case Ok(name) =>
        match Normalize(nfc, fields[0].value, budget)
        case Throws => Throws
        case Ok((kept, left)) => NormalizeProperties(nfc, fields[1..], left, Put(done, Field(name, kept)))
  }

  // --- the persisted check -------------------------------------------------------

  // The budget that is left, when the schema is accepted.
  function Check(j: Json, budget: nat): Option<nat>
    decreases j, 0
  {
    if budget == 0 then None
    else
      match j
      case JNull => Some(budget - 1)
      case JBoolean(_) => Some(budget - 1)
      case JNumber(n) => if IsFinite(n) then Some(budget - 1) else None
      case JText(s) => if AcceptedText(s, TEXT_LIMIT) then Some(budget - 1) else None
      case JArray(items) => CheckItems(items, budget - 1)
      case JObject(fields) =>
        if exists i :: 0 <= i < |fields| && fields[i].key !in SCHEMA_KEYS then None
        else
          match CheckFields(fields, true, budget - 1)
          case None => None
          case Some(left) => CheckFields(fields, false, left)
  }

  function CheckItems(items: seq<Json>, budget: nat): Option<nat>
    decreases items, 0
  {
    if items == [] then Some(budget)
    else
      match Check(items[0], budget)
      case None => None
      case Some(left) => CheckItems(items[1..], left)
  }

  // The declared properties are visited before every other field.
  function CheckFields(fields: seq<Field>, properties: bool, budget: nat): Option<nat>
    decreases fields, 0
  {
    if fields == [] then Some(budget)
    else if (fields[0].key == "properties") != properties then CheckFields(fields[1..], properties, budget)
    else
      match CheckField(fields[0], budget)
      case None => None
      case Some(left) => CheckFields(fields[1..], properties, left)
  }

  function CheckField(f: Field, budget: nat): Option<nat>
    decreases f, 0
  {
    if f.key == "properties" then
      if f.value.JObject? then CheckProperties(f.value.fields, budget) else None
    else Check(f.value, budget)
  }

  function CheckProperties(fields: seq<Field>, budget: nat): Option<nat>
    decreases fields, 0
  {
    if fields == [] then Some(budget)
    else if !AcceptedText(fields[0].key, NAME_LIMIT) then None
    else
      match Check(fields[0].value, budget)
      case None => None
      case Some(left) => CheckProperties(fields[1..], left)
  }

  // --- what the check amounts to ----------------------------------------------------

  // The items a schema counts for.
  function Weight(j: Json): nat
    decreases j
  {
    match j
    case JArray(items) => 1 + ItemWeights(items)
    case JObject(fields) => 1 + FieldWeights(fields)
    case _ => 1
  }

  function ItemWeights(items: seq<Json>): nat
    decreases items
  {
    if items == [] then 0 else Weight(items[0]) + ItemWeights(items[1..])
  }

  function FieldWeights(fields: seq<Field>): nat
    decreases fields
  {
    if fields == [] then 0 else FieldWeight(fields[0]) + FieldWeights(fields[1..])
  }

  function FieldWeight(f: Field): nat
    decreases f
  {
    if f.key == "properties" && f.value.JObject? then PropertyWeights(f.value.fields) else Weight(f.value)
  }

  function PropertyWeights(fields: seq<Field>): nat
    decreases fields
  {
    if fields == [] then 0 else Weight(fields[0].value) + PropertyWeights(fields[1..])
  }

  ghost predicate Clean(j: Json)
    decreases j
  {
    match j
    case JNumber(n) => n !in {NaN, PositiveInfinity, NegativeInfinity}
    case JText(s) => AcceptedText(s, TEXT_LIMIT)
    case JArray(items) => forall i :: 0 <= i < |items| ==> Clean(items[i])
    case JObject(fields) => forall i :: 0 <= i < |fields| ==> CleanField(fields[i])
    case _ => true
  }

  ghost predicate CleanField(f: Field)
    decreases f
  {
    && f.key in SCHEMA_KEYS
    && if f.key == "properties" then
         f.value.JObject? && forall i :: 0 <= i < |f.value.fields| ==> CleanProperty(f.value.fields[i])
       else Clean(f.value)
  }

  ghost predicate CleanProperty(f: Field)
    decreases f
  {
    AcceptedText(f.key, NAME_LIMIT) && Clean(f.value)
  }

  predicate Finite(j: Json)
    decreases j
  {
    match j
    case JNumber(n) => n !in {NaN, PositiveInfinity, NegativeInfinity}
    case JArray(items) => forall i :: 0 <= i < |items| ==> Finite(items[i])
    case JObject(fields) => forall i :: 0 <= i < |fields| ==> FiniteField(fields[i])
    case _ => true
  }

  predicate FiniteField(f: Field)
    decreases f
  {
    Finite(f.value)
  }

  function Spent(budget: nat, weight: nat): Option<nat> {
    if weight <= budget then Some(budget - weight) else None
  }

  // The check accepts the clean schemas that fit the budget, and no others.
  lemma {:induction false} CheckIs(j: Json, budget: nat)
    ensures Check(j, budget) == if Clean(j) then Spent(budget, Weight(j)) else None
    decreases j, 0
  {
    if budget > 0 {
      match j
      case JArray(items) => CheckItemsIs(items, budget - 1);
      case JObject(fields) =>
        if forall i :: 0 <= i < |fields| ==> fields[i].key in SCHEMA_KEYS {
          CheckPartsIs(fields, budget - 1);
        }
      case _ =>
    }
  }

  lemma {:induction false} CheckPartsIs(fields: seq<Field>, budget: nat)
    requires forall i :: 0 <= i < |fields| ==> fields[i].key in SCHEMA_KEYS
    ensures var left := CheckFields(fields, true, budget);
            (if left.None? then None else CheckFields(fields, false, left.value)) ==
            if forall i :: 0 <= i < |fields| ==> CleanField(fields[i]) then Spent(budget, FieldWeights(fields))
            else None
    decreases fields, 1
  {
    hide CleanField;
    CheckFieldsIs(fields, true, budget);
    FieldWeightsSplit(fields);
    var left := CheckFields(fields, true, budget);
    if left.Some? {
      CheckFieldsIs(fields, false, left.value);
    }
  }

  lemma {:induction false} CheckItemsIs(items: seq<Json>, budget: nat)
    ensures CheckItems(items, budget) ==
            if forall i :: 0 <= i < |items| ==> Clean(items[i]) then Spent(budget, ItemWeights(items)) else None
    decreases items, 0
  {
    if items != [] {
      CheckIs(items[0], budget);
      var left := Check(items[0], budget);
      if left.Some? {
        CheckItemsIs(items[1..], left.value);
        assert (forall i :: 0 <= i < |items| ==> Clean(items[i])) <==>
               (forall i :: 0 <= i < |items[1..]| ==> Clean(items[1..][i])) && Clean(items[0]);
      }
    }
  }

  // The weights of the declared properties, or of every other field.
  function PartWeights(fields: seq<Field>, properties: bool): nat {
    if fields == [] then 0
    else
      (if (fields[0].key == "properties") == properties then FieldWeight(fields[0]) else 0) +
      PartWeights(fields[1..], properties)
  }

  lemma {:induction false} FieldWeightsSplit(fields: seq<Field>)
    ensures FieldWeights(fields) == PartWeights(fields, true) + PartWeights(fields, false)
  {
    if fields != [] {
      FieldWeightsSplit(fields[1..]);
    }
  }

  ghost predicate CleanPart(fields: seq<Field>, properties: bool) {
    forall i :: 0 <= i < |fields| && (fields[i].key == "properties") == properties ==> CleanField(fields[i])
  }

  lemma CleanPartFirst(fields: seq<Field>, properties: bool)
    requires fields != []
    ensures CleanPart(fields, properties) <==>
              CleanPart(fields[1..], properties) &&
              ((fields[0].key == "properties") == properties ==> CleanField(fields[0]))
  {
    hide CleanField;
    var rest := fields[1..];
    if CleanPart(fields, properties) {
      assert forall i :: 0 <= i < |rest| ==> rest[i] == fields[i + 1];
    } else {
      var i :| 0 <= i < |fields| && (fields[i].key == "properties") == properties && !CleanField(fields[i]);
      assert i > 0 ==> rest[i - 1] == fields[i];
    }
  }

  lemma {:induction false} CheckFieldsIs(fields: seq<Field>, properties: bool, budget: nat)
    requires forall i :: 0 <= i < |fields| ==> fields[i].key in SCHEMA_KEYS
    ensures CheckFields(fields, properties, budget) ==
            if CleanPart(fields, properties) then Spent(budget, PartWeights(fields, properties)) else None
    decreases fields, 0
  {
    hide CleanPart;
    if fields == [] {
      assert CleanPart(fields, properties) by { NoFieldsAreClean(properties); }
    } else {
      CleanPartFirst(fields, properties);
      if (fields[0].key == "properties") != properties {
        CheckFieldsIs(fields[1..], properties, budget);
      } else {
        CheckFieldIs(fields[0], budget);
        var left := CheckField(fields[0], budget);
        if left.Some? {
          CheckFieldsIs(fields[1..], properties, left.value);
        }
      }
    }
  }

  lemma NoFieldsAreClean(properties: bool)
    ensures CleanPart([], properties)
  {
  }

  lemma {:induction false} CheckFieldIs(f: Field, budget: nat)
    requires f.key in SCHEMA_KEYS
    ensures CheckField(f, budget) == if CleanField(f) then Spent(budget, FieldWeight(f)) else None
    decreases f, 0
  {
    if f.key != "properties" {
      CheckIs(f.value, budget);
    } else if f.value.JObject? {
      CheckPropertiesIs(f.value.fields, budget);
    }
  }

  lemma {:induction false} CheckPropertiesIs(fields: seq<Field>, budget: nat)
    ensures CheckProperties(fields, budget) ==
            if forall i :: 0 <= i < |fields| ==> CleanProperty(fields[i]) then Spent(budget, PropertyWeights(fields))
            else None
    decreases fields, 0
  {
    if fields != [] && AcceptedText(fields[0].key, NAME_LIMIT) {
      CheckIs(fields[0].value, budget);
      var left := Check(fields[0].value, budget);
      if left.Some? {
        CheckPropertiesIs(fields[1..], left.value);
        assert (forall i :: 0 <= i < |fields| ==> CleanProperty(fields[i])) <==>
               (forall i :: 0 <= i < |fields[1..]| ==> CleanProperty(fields[1..][i])) && CleanProperty(fields[0]);
      }
    }
  }

  // --- normalised schemas pass it -----------------------------------------------------

  ghost predicate Tidy(j: Json) {
    Finite(j) ==> Clean(j)
  }

  lemma {:induction false} NormalizedIsTidy(nfc: string -> string, j: Json, budget: nat)
    requires Normalize(nfc, j, budget).Ok?
    ensures var (kept, left) := Normalize(nfc, j, budget).value; Tidy(kept) && Weight(kept) + left <= budget
    decreases j, 0
  {
    match j
    case JArray(items) => NormalizedItems(nfc, items, budget - 1);
    case JObject(fields) => NormalizedFields(nfc, fields, budget - 1);
    case _ =>
  }

  lemma {:induction false} NormalizedItems(nfc: string -> string, items: seq<Json>, budget: nat)
    requires NormalizeItems(nfc, items, budget).Ok?
    ensures var (kept, left) := NormalizeItems(nfc, items, budget).value;
            ItemWeights(kept) + left <= budget && forall i :: 0 <= i < |kept| ==> Tidy(kept[i])
    decreases items, 0
  {
    hide Tidy;
    if items != [] {
      NormalizedIsTidy(nfc, items[0], budget);
      var (first, left) := Normalize(nfc, items[0], budget).value;
      NormalizedItems(nfc, items[1..], left);
      var (rest, _) := NormalizeItems(nfc, items[1..], left).value;
      assert ([first] + rest)[1..] == rest;
    }
  }

  ghost predicate TidyField(f: Field) {
    FiniteField(f) ==> CleanField(f)
  }

  lemma {:induction false} NormalizedFields(nfc: string -> string, fields: seq<Field>, budget: nat)
    requires NormalizeFields(nfc, fields, budget).Ok?
    ensures var (kept, left) := NormalizeFields(nfc, fields, budget).value;
            FieldWeights(kept) + left <= budget && forall i :: 0 <= i < |kept| ==> TidyField(kept[i])
    decreases fields, 0
  {
    hide TidyField, NormalizeField;
    if fields != [] {
      if fields[0].key !in SCHEMA_KEYS {
        NormalizedFields(nfc, fields[1..], budget);
      } else {
        NormalizedField(nfc, fields[0], budget);
        var (first, left) := NormalizeField(nfc, fields[0], budget).value;
        NormalizedFields(nfc, fields[1..], left);
        var (rest, _) := NormalizeFields(nfc, fields[1..], left).value;
        assert ([first] + rest)[1..] == rest;
      }
    }
  }

  lemma {:induction false} NormalizedField(nfc: string -> string, f: Field, budget: nat)
    requires f.key in SCHEMA_KEYS && NormalizeField(nfc, f, budget).Ok?
    ensures var (kept, left) := NormalizeField(nfc, f, budget).value;
            TidyField(kept) && FieldWeight(kept) + left <= budget
    decreases f, 0
  {
    if f.key == "properties" {
      NormalizedProperties(nfc, f.value.fields, budget, []);
      var (kept, _) := NormalizeProperties(nfc, f.value.fields, budget, []).value;
      PropertiesAreTidy(f.key, kept);
    } else {
      NormalizedIsTidy(nfc, f.value, budget);
    }
  }

  ghost predicate TidyProperty(f: Field) {
    AcceptedText(f.key, NAME_LIMIT) && Tidy(f.value)
  }

  lemma PropertiesAreTidy(key: string, fields: seq<Field>)
    requires key == "properties" && forall f :: f in fields ==> TidyProperty(f)
    ensures TidyField(Field(key, JObject(fields)))
  {
    hide Clean;
    if Finite(JObject(fields)) {
      forall i | 0 <= i < |fields| ensures CleanProperty(fields[i]) {
        assert TidyProperty(fields[i]) && FiniteField(fields[i]);
      }
    }
  }

  lemma TidyNamed(name: string, j: Json)
    requires AcceptedText(name, NAME_LIMIT) && Tidy(j)
    ensures TidyProperty(Field(name, j))
  {
  }

  lemma {:induction false} PutWeighs(fields: seq<Field>, f: Field)
    ensures PropertyWeights(Put(fields, f)) <= PropertyWeights(fields) + Weight(f.value)
  {
    if fields != [] {
      if fields[0].key == f.key {
        assert ([f] + fields[1..])[1..] == fields[1..];
      } else {
        PutWeighs(fields[1..], f);
        assert Put(fields, f)[1..] == Put(fields[1..], f);
      }
    }
  }

  lemma {:induction false} NormalizedProperties(
      nfc: string -> string, fields: seq<Field>, budget: nat, done: seq<Field>)
    requires NormalizeProperties(nfc, fields, budget, done).Ok? && forall f :: f in done ==> TidyProperty(f)
    ensures var (kept, left) := NormalizeProperties(nfc, fields, budget, done).value;
            && PropertyWeights(kept) + left <= PropertyWeights(done) + budget
            && forall f :: f in kept ==> TidyProperty(f)
    decreases fields, 0
  {
    hide TidyProperty, Put;
    if fields != [] {
      var name := BoundedText(nfc, fields[0].key, NAME_LIMIT).value;
      NormalizedIsTidy(nfc, fields[0].value, budget);
      var (kept, left) := Normalize(nfc, fields[0].value, budget).value;
      var next := Put(done, Field(name, kept));
      PutWeighs(done, Field(name, kept));
      TidyNamed(name, kept);
      NormalizedProperties(nfc, fields[1..], left, next);
    }
  }

  lemma {:induction false} CleanIsFinite(j: Json)
    requires Clean(j)
    ensures Finite(j)
    decreases j, 0
  {
    match j
    case JArray(items) =>
      forall i | 0 <= i < |items| ensures Finite(items[i]) {
        CleanIsFinite(items[i]);
      }
    case JObject(fields) =>
      forall i | 0 <= i < |fields| ensures FiniteField(fields[i]) {
        CleanFieldIsFinite(fields[i]);
      }
    case _ =>
  }

  lemma {:induction false} CleanFieldIsFinite(f: Field)
    requires CleanField(f)
    ensures FiniteField(f)
    decreases f, 0
  {
    if f.key == "properties" {
      var fields := f.value.fields;
      forall i | 0 <= i < |fields| ensures FiniteField(fields[i]) {
        assert CleanProperty(fields[i]);
        CleanIsFinite(fields[i].value);
      }
    } else {
      CleanIsFinite(f.value);
    }
  }

  // A schema that was normalised under a budget is accepted back under the same
  // budget exactly when all its numbers are finite.
  lemma NormalizedIsAccepted(nfc: string -> string, j: Json, budget: nat)
    requires Normalize(nfc, j, budget).Ok?
    ensures var (kept, left) := Normalize(nfc, j, budget).value;
            && (Check(kept, budget).Some? <==> Finite(kept))
            && (Finite(kept) ==> Check(kept, budget).value >= left)
  {
    hide Normalize, Check, Clean, Finite, Weight;
    NormalizedIsTidy(nfc, j, budget);
    var (kept, left) := Normalize(nfc, j, budget).value;
    CheckIs(kept, budget);
    if Clean(kept) {
      CleanIsFinite(kept);
    }
  }
}
