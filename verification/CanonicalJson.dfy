// Canonical JSON of an arbitrary object graph: sharing is allowed, cycles and
// unrepresentable leaves are not, keys are inserted in order and the sign of
// zero is lost.
module CanonicalJson {
  import opened Outcomes
  import opened Sorting
  import opened TextOrder
  import opened KeyOrder

  datatype Num = NaN | PositiveInfinity | NegativeInfinity | NegativeZero | Decimal(value: real)

  // A value on the heap; arrays and objects are references.
  datatype Value = Null | Boolean(b: bool) | Number(n: Num) | Text(s: string) | Undefined | Foreign | At(ref: nat)

  datatype Property = Property(key: string, child: Value)
  datatype Node = ArrayNode(items: seq<Value>) | ObjectNode(plain: bool, properties: seq<Property>)
  type Heap = map<nat, Node>

  datatype Json =
    | JNull | JBoolean(b: bool) | JNumber(n: Num) | JText(s: string)
    | JArray(items: seq<Json>) | JObject(fields: seq<Field>)
  datatype Field = Field(key: string, value: Json)

  predicate IsFinite(n: Num) {
    n.NegativeZero? || n.Decimal?
  }

  predicate Resolves(h: Heap, v: Value) {
    v.At? ==> v.ref in h
  }

  function Children(n: Node): seq<Value> {
    if n.ArrayNode? then n.items else seq(|n.properties|, i requires 0 <= i < |n.properties| => n.properties[i].child)
  }

  ghost predicate HeapOk(h: Heap) {
    && (forall r, v :: r in h && v in Children(h[r]) ==> Resolves(h, v))
    && (forall r :: r in h && h[r].ObjectNode? ==> DistinctKeys(h[r].properties))
  }

  ghost predicate DistinctKeys(ps: seq<Property>) {
    forall i, j :: 0 <= i < j < |ps| ==> ps[i].key != ps[j].key
  }

  function PropertyOrder(): (Property, Property) -> bool {
    (p: Property, q: Property) => TextLeq(p.key, q.key)
  }

  // The order in which the result lists its keys.
  function FieldOrder(): (Field, Field) -> bool {
    (p: Field, q: Field) => KeyLeq(p.key, q.key)
  }

  // --- the normaliser ----------------------------------------------------------

  // `seen` holds the ancestors of `v`.
  ghost function Norm(h: Heap, v: Value, seen: set<nat>): Result<Json>
    requires HeapOk(h) && Resolves(h, v)
    decreases h.Keys - seen, 0
  {
    match v
    case Null => Ok(JNull)
    case Boolean(b) => Ok(JBoolean(b))
    case Text(s) => Ok(JText(s))
    case Number(n) => if !IsFinite(n) then Throws else Ok(JNumber(if n.NegativeZero? then Decimal(0.0) else n))
    case Undefined => Throws
    case Foreign => Throws
    case At(r) =>
      match h[r]
      case ArrayNode(items) =>
        if r in seen then Throws
        else
          assert forall x :: x in items ==> x in Children(h[r]);
          (match NormItems(h, items, seen + {r})
           case Throws => Throws
           case Ok(js) => Ok(JArray(js)))
      case ObjectNode(plain, properties) =>
        if !plain || r in seen then Throws
        else
          SortedProperties(h, r);
          (match NormProperties(h, Sort(properties, PropertyOrder()), seen + {r})
           case Throws => Throws
           case Ok(fs) => Ok(JObject(Sort(fs, FieldOrder()))))
  }

  ghost function NormItems(h: Heap, items: seq<Value>, seen: set<nat>): (r: Result<seq<Json>>)
    requires HeapOk(h) && forall x :: x in items ==> Resolves(h, x)
    decreases h.Keys - seen, |items| + 1
  {
    if items == [] then Ok([])
    else
      match (NormItems(h, items[..|items| - 1], seen), Norm(h, items[|items| - 1], seen))
      case (Ok(js), Ok(j)) => Ok(js + [j])
      case _ => Throws
  }

  ghost function NormProperties(h: Heap, ps: seq<Property>, seen: set<nat>): Result<seq<Field>>
    requires HeapOk(h) && forall p :: p in ps ==> Resolves(h, p.child)
    decreases h.Keys - seen, |ps| + 1
  {
    if ps == [] then Ok([])
    else
      match (NormProperties(h, ps[..|ps| - 1], seen), Norm(h, ps[|ps| - 1].child, seen))
      case (Ok(fs), Ok(j)) => Ok(fs + [Field(ps[|ps| - 1].key, j)])
      case _ => Throws
  }

  lemma SortedProperties(h: Heap, r: nat)
    requires HeapOk(h) && r in h && h[r].ObjectNode?
    ensures forall p :: p in Sort(h[r].properties, PropertyOrder()) ==> p in h[r].properties && Resolves(h, p.child)
  {
    SameElements(Sort(h[r].properties, PropertyOrder()), h[r].properties);
    forall p | p in h[r].properties ensures Resolves(h, p.child) {
      var i :| 0 <= i < |h[r].properties| && h[r].properties[i] == p;
      assert Children(h[r])[i] == p.child;
    }
  }

  lemma {:induction false} ItemsThrow(h: Heap, items: seq<Value>, seen: set<nat>, n: nat)
    requires HeapOk(h) && (forall x :: x in items ==> Resolves(h, x)) && n <= |items|
    requires NormItems(h, items[..n], seen).Throws?
    ensures NormItems(h, items, seen).Throws?
    decreases |items|
  {
    if n < |items| {
      assert items[..|items| - 1][..n] == items[..n];
      ItemsThrow(h, items[..|items| - 1], seen, n);
    } else {
      assert items[..n] == items;
    }
  }

  lemma {:induction false} PropertiesThrow(h: Heap, ps: seq<Property>, seen: set<nat>, n: nat)
    requires HeapOk(h) && (forall p :: p in ps ==> Resolves(h, p.child)) && n <= |ps|
    requires NormProperties(h, ps[..n], seen).Throws?
    ensures NormProperties(h, ps, seen).Throws?
    decreases |ps|
  {
    if n < |ps| {
      assert ps[..|ps| - 1][..n] == ps[..n];
      PropertiesThrow(h, ps[..|ps| - 1], seen, n);
    } else {
      assert ps[..n] == ps;
    }
  }

  // The recursion that shares one set of ancestors: a node is added while its
  // children are visited and removed again afterwards.
  class Normalizer {
    var seen: set<nat>

    constructor ()
      ensures seen == {}
    {
      seen := {};
    }

    method Normalize(h: Heap, v: Value) returns (r: Result<Json>)
      requires HeapOk(h) && Resolves(h, v)
      modifies this
      ensures r == Norm(h, v, old(seen))
      ensures r.Ok? ==> seen == old(seen)
      decreases h.Keys - seen
    {
      match v
      case Null => r := Ok(JNull);
      case Boolean(b) => r := Ok(JBoolean(b));
      case Text(s) => r := Ok(JText(s));
      case Number(n) => r := if !IsFinite(n) then Throws else Ok(JNumber(if n.NegativeZero? then Decimal(0.0) else n));
      case Undefined => r := Throws;
      case Foreign => r := Throws;
      case At(ref) =>
        match h[ref] {
          case ArrayNode(items) => r := NormalizeArray(h, ref, items);
          case ObjectNode(plain, properties) => r := NormalizeObject(h, ref, plain, properties);
        }
    }

    method NormalizeArray(h: Heap, ref: nat, items: seq<Value>) returns (r: Result<Json>)
      requires HeapOk(h) && ref in h && h[ref] == ArrayNode(items)
      modifies this
      ensures r == Norm(h, At(ref), old(seen))
      ensures r.Ok? ==> seen == old(seen)
      decreases h.Keys - seen, 0
    {
      if ref in seen {
        return Throws;
      }
      assert forall x :: x in items ==> x in Children(h[ref]);
      seen := seen + {ref};
      var output: seq<Json> := [];
      for i := 0 to |items|
        invariant seen == old(seen) + {ref}
        invariant NormItems(h, items[..i], seen) == Ok(output)
      {
        assert items[..i + 1][..i] == items[..i];
        var item := Normalize(h, items[i]);
        if item.Throws? {
          ItemsThrow(h, items, old(seen) + {ref}, i + 1);
          return Throws;
        }
        output := output + [item.value];
      }
      assert items[..|items|] == items;
      seen := seen - {ref};
      r := Ok(JArray(output));
    }

    method NormalizeObject(h: Heap, ref: nat, plain: bool, properties: seq<Property>) returns (r: Result<Json>)
      requires HeapOk(h) && ref in h && h[ref] == ObjectNode(plain, properties)
      modifies this
      ensures r == Norm(h, At(ref), old(seen))
      ensures r.Ok? ==> seen == old(seen)
      decreases h.Keys - seen, 0
    {
      hide HeapOk, Sort;
      if !plain || ref in seen {
        return Throws;
      }
      SortedProperties(h, ref);
      seen := seen + {ref};
      var output: seq<Field> := [];
      var sorted := Sort(properties, PropertyOrder());
      for i := 0 to |sorted|
        invariant seen == old(seen) + {ref}
        invariant NormProperties(h, sorted[..i], seen) == Ok(output)
      {
        assert sorted[..i + 1][..i] == sorted[..i];
        var child := sorted[i].child;
        if child.Undefined? {
          PropertiesThrow(h, sorted, old(seen) + {ref}, i + 1);
          return Throws;
        }
        var value := Normalize(h, child);
        if value.Throws? {
          PropertiesThrow(h, sorted, old(seen) + {ref}, i + 1);
          return Throws;
        }
        output := output + [Field(sorted[i].key, value.value)];
      }
      assert sorted[..|sorted|] == sorted;
      seen := seen - {ref};
      r := Ok(JObject(Sort(output, FieldOrder())));
    }
  }

  method CanonicalizeJson(h: Heap, v: Value) returns (r: Result<Json>)
    requires HeapOk(h) && Resolves(h, v)
    ensures r == Norm(h, v, {})
  {
    var n := new Normalizer();
    r := n.Normalize(h, v);
  }

  // --- unfoldings ------------------------------------------------------------

  // `j` is the finite tree that `v` unfolds to, with every leaf representable,
  // keys in their own order and zero with its sign.
  ghost predicate Unfolds(h: Heap, v: Value, j: Json)
    decreases j
  {
    match j
    case JNull => v.Null?
    case JBoolean(b) => v == Boolean(b)
    case JText(s) => v == Text(s)
    case JNumber(n) => v == Number(n) && n !in {NaN, PositiveInfinity, NegativeInfinity}
    case JArray(js) =>
      && v.At? && v.ref in h && h[v.ref].ArrayNode? && |h[v.ref].items| == |js|
      && forall i :: 0 <= i < |js| ==> Unfolds(h, h[v.ref].items[i], js[i])
    case JObject(fs) =>
      && v.At? && v.ref in h && h[v.ref].ObjectNode? && h[v.ref].plain && |h[v.ref].properties| == |fs|
      && forall i :: 0 <= i < |fs| ==>
           fs[i].key == h[v.ref].properties[i].key && Unfolds(h, h[v.ref].properties[i].child, fs[i].value)
  }

  function Size(j: Json): nat {
    match j
    case JArray(js) => 1 + ItemSizes(js)
    case JObject(fs) => 1 + FieldSizes(fs)
    case _ => 1
  }

  function ItemSizes(js: seq<Json>): nat {
    if js == [] then 0 else ItemSizes(js[..|js| - 1]) + Size(js[|js| - 1])
  }

  function FieldSizes(fs: seq<Field>): nat {
    if fs == [] then 0 else FieldSizes(fs[..|fs| - 1]) + Size(fs[|fs| - 1].value)
  }

  lemma {:induction false} ItemIsSmaller(js: seq<Json>, i: nat)
    requires i < |js|
    ensures Size(js[i]) <= ItemSizes(js)
  {
    if i < |js| - 1 {
      ItemIsSmaller(js[..|js| - 1], i);
    }
  }

  lemma {:induction false} FieldIsSmaller(fs: seq<Field>, i: nat)
    requires i < |fs|
    ensures Size(fs[i].value) <= FieldSizes(fs)
  {
    if i < |fs| - 1 {
      FieldIsSmaller(fs[..|fs| - 1], i);
    }
  }

  lemma {:induction false} UnfoldsOnce(h: Heap, v: Value, j: Json, k: Json)
    requires Unfolds(h, v, j) && Unfolds(h, v, k)
    ensures j == k
    decreases j
  {
    match j
    case JArray(js) =>
      forall i | 0 <= i < |js| ensures js[i] == k.items[i] {
        UnfoldsOnce(h, h[v.ref].items[i], js[i], k.items[i]);
      }
    case JObject(fs) =>
      forall i | 0 <= i < |fs| ensures fs[i] == k.fields[i] {
        UnfoldsOnce(h, h[v.ref].properties[i].child, fs[i].value, k.fields[i].value);
      }
    case _ =>
  }

  // --- canonical trees -----------------------------------------------------------

  function Canon(j: Json): Json
    decreases j
  {
    match j
    case JNumber(n) => JNumber(if n.NegativeZero? then Decimal(0.0) else n)
    case JArray(js) => JArray(seq(|js|, i requires 0 <= i < |js| => Canon(js[i])))
    case JObject(fs) =>
      JObject(Sort(seq(|fs|, i requires 0 <= i < |fs| => Field(fs[i].key, Canon(fs[i].value))), FieldOrder()))
    case _ => j
  }

  function CanonFields(fs: seq<Field>): (r: seq<Field>)
    ensures |r| == |fs| && forall i :: 0 <= i < |fs| ==> r[i] == Field(fs[i].key, Canon(fs[i].value))
  {
    seq(|fs|, i requires 0 <= i < |fs| => Field(fs[i].key, Canon(fs[i].value)))
  }

  function CanonItems(js: seq<Json>): (r: seq<Json>)
    ensures |r| == |js| && forall i :: 0 <= i < |js| ==> r[i] == Canon(js[i])
  {
    seq(|js|, i requires 0 <= i < |js| => Canon(js[i]))
  }

  lemma CanonOfArray(js: seq<Json>)
    ensures Canon(JArray(js)) == JArray(CanonItems(js))
  {
    assert seq(|js|, i requires 0 <= i < |js| => Canon(js[i])) == CanonItems(js);
  }

  lemma CanonOfObject(fs: seq<Field>)
    ensures Canon(JObject(fs)) == JObject(Sort(CanonFields(fs), FieldOrder()))
  {
    assert seq(|fs|, i requires 0 <= i < |fs| => Field(fs[i].key, Canon(fs[i].value))) == CanonFields(fs);
  }

  // --- the normaliser against unfoldings -------------------------------------

  // The normalised property, where it has one.
  ghost function Normed(h: Heap, seen: set<nat>): Property -> Field {
    (p: Property) =>
      Field(p.key, if HeapOk(h) && Resolves(h, p.child) && Norm(h, p.child, seen).Ok? then Norm(h, p.child, seen).value
                   else JNull)
  }

  lemma {:induction false} AcceptedItems(h: Heap, items: seq<Value>, seen: set<nat>)
    requires HeapOk(h) && forall x :: x in items ==> Resolves(h, x)
    ensures NormItems(h, items, seen).Ok? <==> forall i :: 0 <= i < |items| ==> Norm(h, items[i], seen).Ok?
    ensures NormItems(h, items, seen).Ok? ==>
              && |NormItems(h, items, seen).value| == |items|
              && forall i :: 0 <= i < |items| ==> Norm(h, items[i], seen) == Ok(NormItems(h, items, seen).value[i])
  {
    hide Norm;
    if items != [] {
      var n := |items| - 1;
      AcceptedItems(h, items[..n], seen);
      assert forall i :: 0 <= i < n ==> items[..n][i] == items[i];
      if forall i :: 0 <= i < |items| ==> Norm(h, items[i], seen).Ok? {
        assert NormItems(h, items[..n], seen).Ok? && Norm(h, items[n], seen).Ok?;
      }
    }
  }

  lemma {:induction false} AcceptedProperties(h: Heap, ps: seq<Property>, seen: set<nat>)
    requires HeapOk(h) && forall p :: p in ps ==> Resolves(h, p.child)
    ensures NormProperties(h, ps, seen).Ok? <==> forall i :: 0 <= i < |ps| ==> Norm(h, ps[i].child, seen).Ok?
    ensures NormProperties(h, ps, seen).Ok? ==> NormProperties(h, ps, seen).value == Map(Normed(h, seen), ps)
  {
    hide Norm, Map, Normed;
    if ps != [] {
      var n := |ps| - 1;
      AcceptedProperties(h, ps[..n], seen);
      assert forall i :: 0 <= i < n ==> ps[..n][i] == ps[i];
      if forall i :: 0 <= i < |ps| ==> Norm(h, ps[i].child, seen).Ok? {
        assert NormProperties(h, ps[..n], seen).Ok? && Norm(h, ps[n].child, seen).Ok?;
        assert ps == ps[..n] + [ps[n]];
        MapAppend(Normed(h, seen), ps[..n], ps[n]);
        NormedWhenAccepted(h, seen, ps[n]);
      }
    }
  }

  lemma NormedWhenAccepted(h: Heap, seen: set<nat>, p: Property)
    requires HeapOk(h) && Resolves(h, p.child) && Norm(h, p.child, seen).Ok?
    ensures Normed(h, seen)(p) == Field(p.key, Norm(h, p.child, seen).value)
  {
    hide Norm, HeapOk;
  }

  // Listing the properties in another order gives the same result.
  lemma NormedInAnyOrder(h: Heap, seen: set<nat>, ps: seq<Property>, sorted: seq<Property>)
    requires DistinctKeys(ps) && sorted == Sort(ps, PropertyOrder())
    ensures Sort(Map(Normed(h, seen), sorted), FieldOrder()) == Sort(Map(Normed(h, seen), ps), FieldOrder())
  {
    hide Norm, HeapOk, Sort, Map;
    var f := Normed(h, seen);
    SameElements(sorted, ps);
    KeysStayDistinct(ps, sorted);
    MapKeepsKeys(f, ps);
    MapKeepsKeys(f, sorted);
    forall x ensures x in Map(f, sorted) <==> x in Map(f, ps) {
      MapMembers(f, sorted, x);
      MapMembers(f, ps, x);
    }
    SortedFieldsAgree(Map(f, sorted), Map(f, ps));
  }

  lemma KeysStayDistinct(ps: seq<Property>, sorted: seq<Property>)
    requires DistinctKeys(ps) && sorted == Sort(ps, PropertyOrder())
    ensures DistinctKeys(sorted)
  {
    hide Sort;
    SameElements(sorted, ps);
    assert NoDuplicates(ps);
    RearrangedWithoutDuplicates(ps, sorted);
    forall i, j | 0 <= i < j < |sorted| ensures sorted[i].key != sorted[j].key {
      assert sorted[i] in ps && sorted[j] in ps;
      var a :| 0 <= a < |ps| && ps[a] == sorted[i];
      var b :| 0 <= b < |ps| && ps[b] == sorted[j];
      assert a < b || b < a;
    }
  }

  lemma MapMembers<A(!new), B(!new)>(f: A -> B, s: seq<A>, x: B)
    ensures x in Map(f, s) <==> exists a :: a in s && f(a) == x
  {
    if a :| a in s && f(a) == x {
      var i :| 0 <= i < |s| && s[i] == a;
      assert Map(f, s)[i] == x;
    }
  }

  lemma MapKeepsKeys(f: Property -> Field, ps: seq<Property>)
    requires DistinctKeys(ps) && forall p :: f(p).key == p.key
    ensures var fs := Map(f, ps); forall i, j :: 0 <= i < j < |fs| ==> fs[i].key != fs[j].key
  {
  }

  // An object is accepted property by property, and its result is sorted.
  lemma AcceptedObject(h: Heap, r: nat, seen: set<nat>)
    requires HeapOk(h) && r in h && h[r].ObjectNode? && h[r].plain && r !in seen
    requires forall i :: 0 <= i < |h[r].properties| ==>
               Resolves(h, h[r].properties[i].child) && Norm(h, h[r].properties[i].child, seen + {r}).Ok?
    ensures Norm(h, At(r), seen) == Ok(JObject(Sort(Map(Normed(h, seen + {r}), h[r].properties), FieldOrder())))
  {
    var ps := h[r].properties;
    var sorted := Sort(ps, PropertyOrder());
    SortedProperties(h, r);
    forall i | 0 <= i < |sorted| ensures Norm(h, sorted[i].child, seen + {r}).Ok? {
      assert sorted[i] in ps;
    }
    AcceptedProperties(h, sorted, seen + {r});
    assert DistinctKeys(ps);
    NormedInAnyOrder(h, seen + {r}, ps, sorted);
  }

  // No ancestor can occur inside the unfolding of a descendant.
  ghost predicate Above(h: Heap, seen: set<nat>, size: nat) {
    forall r, j :: r in seen && Unfolds(h, At(r), j) ==> size < Size(j)
  }

  lemma ChildrenResolve(h: Heap, r: nat)
    requires HeapOk(h) && r in h
    ensures h[r].ArrayNode? ==> forall i :: 0 <= i < |h[r].items| ==> Resolves(h, h[r].items[i])
    ensures h[r].ObjectNode? ==> forall i :: 0 <= i < |h[r].properties| ==> Resolves(h, h[r].properties[i].child)
  {
    forall i | h[r].ObjectNode? && 0 <= i < |h[r].properties| ensures Resolves(h, h[r].properties[i].child) {
      assert Children(h[r])[i] in Children(h[r]);
    }
    forall i | h[r].ArrayNode? && 0 <= i < |h[r].items| ensures Resolves(h, h[r].items[i]) {
      assert Children(h[r])[i] in Children(h[r]);
    }
  }

  lemma AboveChild(h: Heap, seen: set<nat>, r: nat, j: Json, child: nat)
    requires Above(h, seen, Size(j)) && Unfolds(h, At(r), j) && child < Size(j)
    ensures Above(h, seen + {r}, child)
  {
    forall q, k | q in seen + {r} && Unfolds(h, At(q), k) ensures child < Size(k) {
      if q == r {
        UnfoldsOnce(h, At(r), j, k);
      }
    }
  }

  // Whatever unfolds to a finite representable tree is accepted, shared nodes
  // included, and normalised to the canonical form of that tree.
  lemma {:induction false} UnfoldingIsAccepted(h: Heap, v: Value, j: Json, seen: set<nat>)
    requires HeapOk(h) && Resolves(h, v) && Unfolds(h, v, j) && Above(h, seen, Size(j))
    ensures Norm(h, v, seen) == Ok(Canon(j))
    decreases j
  {
    if v.At? {
      assert v.ref !in seen;
      ChildrenResolve(h, v.ref);
    }
    match j
    case JArray(js) =>
      ArrayIsAccepted(h, v.ref, js, seen);
    case JObject(fs) =>
      ObjectIsAccepted(h, v.ref, fs, seen);
    case _ =>
  }

  lemma {:induction false} ArrayIsAccepted(h: Heap, r: nat, js: seq<Json>, seen: set<nat>)
    requires HeapOk(h) && Unfolds(h, At(r), JArray(js)) && Above(h, seen, Size(JArray(js))) && r !in seen
    ensures Norm(h, At(r), seen) == Ok(Canon(JArray(js)))
    decreases JArray(js), 0
  {
    hide Above, Unfolds;
    assert h[r].ArrayNode? && |h[r].items| == |js| by { UnfoldedArray(h, r, js); }
    var items := h[r].items;
    ChildrenResolve(h, r);
    forall i | 0 <= i < |js| ensures Norm(h, items[i], seen + {r}) == Ok(Canon(js[i])) {
      UnfoldedArray(h, r, js);
      ItemIsSmaller(js, i);
      AboveChild(h, seen, r, JArray(js), Size(js[i]));
      UnfoldingIsAccepted(h, items[i], js[i], seen + {r});
    }
    AcceptedItems(h, items, seen + {r});
    assert NormItems(h, items, seen + {r}).value == CanonItems(js);
    CanonOfArray(js);
  }

  lemma UnfoldedArray(h: Heap, r: nat, js: seq<Json>)
    requires Unfolds(h, At(r), JArray(js))
    ensures r in h && h[r].ArrayNode? && |h[r].items| == |js|
    ensures forall i :: 0 <= i < |js| ==> Unfolds(h, h[r].items[i], js[i])
  {
  }

  lemma UnfoldedObject(h: Heap, r: nat, fs: seq<Field>)
    requires Unfolds(h, At(r), JObject(fs))
    ensures r in h && h[r].ObjectNode? && h[r].plain && |h[r].properties| == |fs|
    ensures forall i :: 0 <= i < |fs| ==> fs[i].key == h[r].properties[i].key
    ensures forall i :: 0 <= i < |fs| ==> Unfolds(h, h[r].properties[i].child, fs[i].value)
  {
  }

  lemma {:induction false} ObjectIsAccepted(h: Heap, r: nat, fs: seq<Field>, seen: set<nat>)
    requires HeapOk(h) && Unfolds(h, At(r), JObject(fs)) && Above(h, seen, Size(JObject(fs))) && r !in seen
    ensures Norm(h, At(r), seen) == Ok(Canon(JObject(fs)))
    decreases JObject(fs), 0
  {
    hide Above, Unfolds, Norm;
    assert r in h && h[r].ObjectNode? && h[r].plain && |h[r].properties| == |fs| by { UnfoldedObject(h, r, fs); }
    var ps := h[r].properties;
    ChildrenResolve(h, r);
    forall i | 0 <= i < |fs|
      ensures Norm(h, ps[i].child, seen + {r}) == Ok(Canon(fs[i].value)) && ps[i].key == fs[i].key
    {
      UnfoldedObject(h, r, fs);
      FieldIsSmaller(fs, i);
      AboveChild(h, seen, r, JObject(fs), Size(fs[i].value));
      UnfoldingIsAccepted(h, ps[i].child, fs[i].value, seen + {r});
    }
    AcceptedObject(h, r, seen);
    assert Map(Normed(h, seen + {r}), ps) == CanonFields(fs);
    CanonOfObject(fs);
  }

  // Whatever is accepted unfolds to a finite representable tree.
  lemma {:induction false} AcceptedUnfolds(h: Heap, v: Value, seen: set<nat>) returns (j: Json)
    requires HeapOk(h) && Resolves(h, v) && Norm(h, v, seen).Ok?
    ensures Unfolds(h, v, j)
    decreases h.Keys - seen, 0
  {
    match v
    case Null => j := JNull;
    case Boolean(b) => j := JBoolean(b);
    case Text(s) => j := JText(s);
    case Number(n) => j := JNumber(n);
    case Undefined => assert false;
    case Foreign => assert false;
    case At(r) =>
      ChildrenResolve(h, r);
      if h[r].ArrayNode? {
        AcceptedItems(h, h[r].items, seen + {r});
        var js := ItemsUnfold(h, h[r].items, seen + {r});
        j := JArray(js);
      } else {
        ObjectChildrenAccepted(h, r, seen);
        var fs := PropertiesUnfold(h, h[r].properties, seen + {r});
        j := JObject(fs);
      }
  }

  lemma ObjectChildrenAccepted(h: Heap, r: nat, seen: set<nat>)
    requires HeapOk(h) && r in h && h[r].ObjectNode? && Norm(h, At(r), seen).Ok?
    ensures h[r].plain && r !in seen
    ensures forall p :: p in h[r].properties ==> Resolves(h, p.child) && Norm(h, p.child, seen + {r}).Ok?
  {
    hide Sort;
    var ps := h[r].properties;
    var sorted := Sort(ps, PropertyOrder());
    SortedProperties(h, r);
    AcceptedProperties(h, sorted, seen + {r});
    SameElements(sorted, ps);
    forall p | p in ps ensures Resolves(h, p.child) && Norm(h, p.child, seen + {r}).Ok? {
      assert p in sorted;
      var i :| 0 <= i < |sorted| && sorted[i] == p;
    }
  }

  lemma {:induction false} ItemsUnfold(h: Heap, items: seq<Value>, seen: set<nat>) returns (js: seq<Json>)
    requires HeapOk(h) && forall i :: 0 <= i < |items| ==> Resolves(h, items[i]) && Norm(h, items[i], seen).Ok?
    ensures |js| == |items| && forall i :: 0 <= i < |js| ==> Unfolds(h, items[i], js[i])
    decreases h.Keys - seen, |items| + 1
  {
    hide Norm, Unfolds;
    if items == [] {
      js := [];
    } else {
      var front := ItemsUnfold(h, items[..|items| - 1], seen);
      var last := AcceptedUnfolds(h, items[|items| - 1], seen);
      js := front + [last];
      forall i | 0 <= i < |js| ensures Unfolds(h, items[i], js[i]) {
        if i < |items| - 1 {
          assert items[..|items| - 1][i] == items[i];
        }
      }
    }
  }

  lemma {:induction false} PropertiesUnfold(h: Heap, ps: seq<Property>, seen: set<nat>) returns (fs: seq<Field>)
    requires HeapOk(h) && forall p :: p in ps ==> Resolves(h, p.child) && Norm(h, p.child, seen).Ok?
    ensures |fs| == |ps| && forall i :: 0 <= i < |fs| ==> fs[i].key == ps[i].key && Unfolds(h, ps[i].child, fs[i].value)
    decreases h.Keys - seen, |ps| + 1
  {
    hide Norm, Unfolds;
    if ps == [] {
      fs := [];
    } else {
      var n := |ps| - 1;
      var front := PropertiesUnfold(h, ps[..n], seen);
      assert ps[n] in ps;
      var last := AcceptedUnfolds(h, ps[n].child, seen);
      fs := front + [Field(ps[n].key, last)];
      forall i | 0 <= i < |fs| ensures fs[i].key == ps[i].key && Unfolds(h, ps[i].child, fs[i].value) {
        if i < n {
          assert ps[..n][i] == ps[i];
        }
      }
    }
  }

  // The result is the canonical form of the finite unfolding, and there is a
  // result exactly when there is such an unfolding.
  lemma NormIsCanonicalUnfolding(h: Heap, v: Value, c: Json)
    requires HeapOk(h) && Resolves(h, v)
    ensures Norm(h, v, {}) == Ok(c) <==> exists j :: Unfolds(h, v, j) && c == Canon(j)
  {
    hide Norm, Unfolds, Canon;
    if Norm(h, v, {}) == Ok(c) {
      var j := AcceptedUnfolds(h, v, {});
      UnfoldingIsAccepted(h, v, j, {});
      assert Unfolds(h, v, j) && c == Canon(j);
    }
    forall j | Unfolds(h, v, j) && c == Canon(j) ensures Norm(h, v, {}) == Ok(c) {
      UnfoldingIsAccepted(h, v, j, {});
    }
  }

  // --- why a value is refused --------------------------------------------------

  ghost predicate Steps(h: Heap, a: Value, b: Value) {
    a.At? && a.ref in h && b in Children(h[a.ref])
  }

  ghost predicate Walk(h: Heap, p: seq<Value>) {
    p != [] && (|p| == 1 || (Steps(h, p[0], p[1]) && Walk(h, p[1..])))
  }

  ghost predicate Illegal(h: Heap, v: Value) {
    || v.Undefined? || v.Foreign? || (v.Number? && v.n in {NaN, PositiveInfinity, NegativeInfinity})
    || (v.At? && v.ref in h && h[v.ref].ObjectNode? && !h[v.ref].plain)
  }

  // A walk from `v` to an unrepresentable value, or once around a cycle.
  ghost predicate Obstacle(h: Heap, v: Value, p: seq<Value>) {
    Walk(h, p) && p[0] == v && (Illegal(h, p[|p| - 1]) || (p[|p| - 1].At? && p[|p| - 1] in p[..|p| - 1]))
  }

  lemma {:induction false} RefusedWalk(h: Heap, v: Value, seen: set<nat>) returns (p: seq<Value>)
    requires HeapOk(h) && Resolves(h, v) && Norm(h, v, seen).Throws?
    ensures Walk(h, p) && p[0] == v
    ensures var last := p[|p| - 1]; Illegal(h, last) || (last.At? && (last.ref in seen || last in p[..|p| - 1]))
    decreases h.Keys - seen
  {
    hide Norm, Illegal, HeapOk;
    if Illegal(h, v) || (v.At? && v.ref in seen) {
      p := [v];
    } else {
      RefusedNode(h, v, seen);
      var child := RefusedChild(h, v.ref, seen);
      var rest := RefusedWalk(h, child, seen + {v.ref});
      p := [v] + rest;
      assert p[1..] == rest;
      assert p[|p| - 1] == rest[|rest| - 1];
      assert p[..|p| - 1] == [v] + rest[..|rest| - 1];
    }
  }

  lemma RefusedNode(h: Heap, v: Value, seen: set<nat>)
    requires HeapOk(h) && Resolves(h, v) && Norm(h, v, seen).Throws?
    requires !Illegal(h, v) && !(v.At? && v.ref in seen)
    ensures v.At?
  {
  }

  lemma RefusedChild(h: Heap, r: nat, seen: set<nat>) returns (child: Value)
    requires HeapOk(h) && r in h && r !in seen && !Illegal(h, At(r)) && Norm(h, At(r), seen).Throws?
    ensures child in Children(h[r]) && Resolves(h, child) && Norm(h, child, seen + {r}).Throws?
  {
    ChildrenResolve(h, r);
    if h[r].ArrayNode? {
      AcceptedItems(h, h[r].items, seen + {r});
      var i :| 0 <= i < |h[r].items| && Norm(h, h[r].items[i], seen + {r}).Throws?;
      child := h[r].items[i];
    } else {
      var ps := h[r].properties;
      if forall i :: 0 <= i < |ps| ==> Norm(h, ps[i].child, seen + {r}).Ok? {
        AcceptedObject(h, r, seen);
        assert false;
      }
      var i :| 0 <= i < |ps| && Norm(h, ps[i].child, seen + {r}).Throws?;
      child := ps[i].child;
      assert Children(h[r])[i] == child;
    }
  }

  lemma StepUnfolds(h: Heap, a: Value, b: Value, j: Json) returns (k: Json)
    requires Steps(h, a, b) && Unfolds(h, a, j)
    ensures Unfolds(h, b, k) && Size(k) < Size(j)
  {
    var i :| 0 <= i < |Children(h[a.ref])| && Children(h[a.ref])[i] == b;
    match j
    case JArray(js) =>
      k := js[i];
      ItemIsSmaller(js, i);
    case JObject(fs) =>
      k := fs[i].value;
      FieldIsSmaller(fs, i);
  }

  lemma {:induction false} WalkUnfolds(h: Heap, p: seq<Value>, j: Json) returns (k: Json)
    requires Walk(h, p) && Unfolds(h, p[0], j)
    ensures Unfolds(h, p[|p| - 1], k) && Size(k) + |p| <= Size(j) + 1
  {
    hide Unfolds;
    if |p| == 1 {
      k := j;
    } else {
      var next := StepUnfolds(h, p[0], p[1], j);
      k := WalkUnfolds(h, p[1..], next);
    }
  }

  lemma {:induction false} WalkParts(h: Heap, p: seq<Value>, i: nat)
    requires Walk(h, p) && i < |p|
    ensures Walk(h, p[..i + 1]) && Walk(h, p[i..])
  {
    if i > 0 {
      WalkParts(h, p[1..], i - 1);
      assert p[1..][..i] == p[..i + 1][1..];
      assert p[1..][i - 1..] == p[i..];
    } else {
      assert p[0..] == p;
    }
  }

  lemma IllegalNeverUnfolds(h: Heap, v: Value, j: Json)
    requires Illegal(h, v)
    ensures !Unfolds(h, v, j)
  {
  }

  lemma CyclesNeverUnfold(h: Heap, p: seq<Value>, i: nat, j: Json)
    requires Walk(h, p) && i < |p| - 1 && p[i] == p[|p| - 1]
    ensures !Unfolds(h, p[0], j)
  {
    hide Unfolds, Walk, Size;
    if Unfolds(h, p[0], j) {
      WalkParts(h, p, i);
      var above := WalkUnfolds(h, p[..i + 1], j);
      var below := WalkUnfolds(h, p[i..], above);
      UnfoldsOnce(h, p[i], above, below);
    }
  }

  lemma ObstacleBlocks(h: Heap, v: Value, p: seq<Value>, j: Json)
    requires Obstacle(h, v, p)
    ensures !Unfolds(h, v, j)
  {
    hide Unfolds, Size, Illegal;
    if Illegal(h, p[|p| - 1]) {
      if Unfolds(h, v, j) {
        var k := WalkUnfolds(h, p, j);
        IllegalNeverUnfolds(h, p[|p| - 1], k);
      }
    } else {
      var i :| 0 <= i < |p| - 1 && p[..|p| - 1][i] == p[|p| - 1];
      CyclesNeverUnfold(h, p, i, j);
    }
  }

  // A value is refused exactly when a cycle or an unrepresentable value can be
  // reached from it.
  lemma RefusedExactly(h: Heap, v: Value)
    requires HeapOk(h) && Resolves(h, v)
    ensures Norm(h, v, {}).Throws? <==> exists p :: Obstacle(h, v, p)
  {
    hide Norm, Unfolds;
    if Norm(h, v, {}).Throws? {
      var p := RefusedWalk(h, v, {});
      assert Obstacle(h, v, p);
    } else {
      var j := AcceptedUnfolds(h, v, {});
      forall p ensures !Obstacle(h, v, p) {
        if Obstacle(h, v, p) {
          ObstacleBlocks(h, v, p, j);
        }
      }
    }
  }

  // --- laws of the canonical form ----------------------------------------------

  // Equal up to the order of keys and the sign of zero.
  ghost predicate Equivalent(a: Json, b: Json)
    decreases a
  {
    match (a, b)
    case (JNumber(m), JNumber(n)) =>
      m == n || ((m.NegativeZero? || m == Decimal(0.0)) && (n.NegativeZero? || n == Decimal(0.0)))
    case (JArray(xs), JArray(ys)) => |xs| == |ys| && forall i :: 0 <= i < |xs| ==> Equivalent(xs[i], ys[i])
    case (JObject(fs), JObject(gs)) =>
      && (forall i :: 0 <= i < |fs| ==> OccursIn(fs[i], gs))
      && (forall k :: 0 <= k < |gs| ==> IsFoundIn(fs, gs[k]))
    case _ => a == b
  }

  ghost predicate OccursIn(f: Field, gs: seq<Field>)
    decreases f, 1
  {
    exists k :: 0 <= k < |gs| && SameField(f, gs[k])
  }

  ghost predicate IsFoundIn(fs: seq<Field>, g: Field)
    decreases fs, 1
  {
    exists i :: 0 <= i < |fs| && SameField(fs[i], g)
  }

  ghost predicate SameField(f: Field, g: Field)
    decreases f, 0
  {
    f.key == g.key && Equivalent(f.value, g.value)
  }

  ghost predicate UniqueKeys(j: Json)
    decreases j
  {
    match j
    case JArray(js) => forall i :: 0 <= i < |js| ==> UniqueKeys(js[i])
    case JObject(fs) =>
      && (forall i, k :: 0 <= i < k < |fs| ==> fs[i].key != fs[k].key)
      && (forall i :: 0 <= i < |fs| ==> UniqueKeys(fs[i].value))
    case _ => true
  }

  lemma FieldsAreOrdered()
    ensures TotalPreorder(FieldOrder())
  {
    hide KeyLeq;
    KeysAreTotallyOrdered();
    forall x: Field, y: Field ensures FieldOrder()(x, y) || FieldOrder()(y, x) {
      assert KeyLeq(x.key, y.key) || KeyLeq(y.key, x.key);
    }
    forall x: Field, y: Field, z: Field | FieldOrder()(x, y) && FieldOrder()(y, z) ensures FieldOrder()(x, z) {
      assert KeyLeq(x.key, y.key) && KeyLeq(y.key, z.key);
    }
  }

  lemma {:induction false} CanonIsIdempotent(j: Json)
    ensures Canon(Canon(j)) == Canon(j)
    decreases j
  {
    match j
    case JArray(js) => CanonOfArrayIsIdempotent(js);
    case JObject(fs) => CanonOfObjectIsIdempotent(fs);
    case _ =>
  }

  lemma {:induction false} CanonOfArrayIsIdempotent(js: seq<Json>)
    ensures Canon(Canon(JArray(js))) == Canon(JArray(js))
    decreases JArray(js), 0
  {
    hide Canon;
    CanonOfArray(js);
    CanonOfArray(CanonItems(js));
    forall i | 0 <= i < |js| ensures Canon(CanonItems(js)[i]) == CanonItems(js)[i] {
      CanonIsIdempotent(js[i]);
    }
    assert CanonItems(CanonItems(js)) == CanonItems(js);
  }

  lemma {:induction false} CanonOfObjectIsIdempotent(fs: seq<Field>)
    ensures Canon(Canon(JObject(fs))) == Canon(JObject(fs))
    decreases JObject(fs), 0
  {
    hide Canon, Sort, TotalPreorder;
    var sorted := Sort(CanonFields(fs), FieldOrder());
    CanonOfObject(fs);
    CanonOfObject(sorted);
    SameElements(sorted, CanonFields(fs));
    forall i | 0 <= i < |sorted| ensures CanonFields(sorted)[i] == sorted[i] {
      assert sorted[i] in CanonFields(fs);
      var k :| 0 <= k < |fs| && CanonFields(fs)[k] == sorted[i];
      CanonIsIdempotent(fs[k].value);
    }
    assert CanonFields(sorted) == sorted;
    FieldsAreOrdered();
    SortSorts(CanonFields(fs), FieldOrder());
    SortOfSorted(sorted, FieldOrder());
  }

  lemma SortedFieldsAgree(a: seq<Field>, b: seq<Field>)
    requires forall i, k :: 0 <= i < k < |a| ==> a[i].key != a[k].key
    requires forall i, k :: 0 <= i < k < |b| ==> b[i].key != b[k].key
    ensures Sort(a, FieldOrder()) == Sort(b, FieldOrder()) <==> forall x :: x in a <==> x in b
  {
    hide Sort, KeyLeq;
    if Sort(a, FieldOrder()) == Sort(b, FieldOrder()) {
      SameElements(a, b);
    }
    if forall x :: x in a <==> x in b {
      FieldsAreOrdered();
      assert AntisymmetricOn(a, FieldOrder()) by {
        forall x, y | x in a && y in a && FieldOrder()(x, y) && FieldOrder()(y, x) ensures x == y {
          KeyAntisymmetric(x.key, y.key);
        }
      }
      assert NoDuplicates(a) && NoDuplicates(b);
      ListingsAgree(a, b);
      SortIgnoresOrder(a, b, FieldOrder());
    }
  }

  // Two trees have the same canonical form exactly when they differ in no more
  // than the order of keys and the sign of zero.
  lemma {:induction false} CanonEqualExactly(a: Json, b: Json)
    requires UniqueKeys(a) && UniqueKeys(b)
    ensures Canon(a) == Canon(b) <==> Equivalent(a, b)
    decreases a
  {
    if a.JArray? && b.JArray? {
      CanonOfArray(a.items);
      CanonOfArray(b.items);
      forall i | 0 <= i < |a.items| && i < |b.items|
        ensures CanonItems(a.items)[i] == CanonItems(b.items)[i] <==> Equivalent(a.items[i], b.items[i])
      {
        CanonEqualExactly(a.items[i], b.items[i]);
      }
    } else if a.JObject? && b.JObject? {
      ObjectsEqualExactly(a.fields, b.fields);
    }
  }

  lemma {:induction false} ObjectsEqualExactly(fs: seq<Field>, gs: seq<Field>)
    requires UniqueKeys(JObject(fs)) && UniqueKeys(JObject(gs))
    ensures Canon(JObject(fs)) == Canon(JObject(gs)) <==> Equivalent(JObject(fs), JObject(gs))
    decreases JObject(fs), 0
  {
    hide Sort, Canon;
    CanonOfObject(fs);
    CanonOfObject(gs);
    var xs, ys := CanonFields(fs), CanonFields(gs);
    forall i, k | 0 <= i < |fs| && 0 <= k < |gs| ensures xs[i] == ys[k] <==> SameField(fs[i], gs[k]) {
      CanonEqualExactly(fs[i].value, gs[k].value);
    }
    SortedFieldsAgree(xs, ys);
    SameFieldsAreEquivalent(fs, gs, xs, ys);
  }

  lemma SameFieldsAreEquivalent(fs: seq<Field>, gs: seq<Field>, xs: seq<Field>, ys: seq<Field>)
    requires |xs| == |fs| && |ys| == |gs|
    requires forall i, k :: 0 <= i < |fs| && 0 <= k < |gs| ==> (xs[i] == ys[k] <==> SameField(fs[i], gs[k]))
    ensures (forall x :: x in xs <==> x in ys) <==> Equivalent(JObject(fs), JObject(gs))
  {
    forall i | 0 <= i < |fs| ensures xs[i] in ys <==> OccursIn(fs[i], gs) {
      FieldOccurs(fs, gs, xs, ys, i);
    }
    forall k | 0 <= k < |gs| ensures ys[k] in xs <==> IsFoundIn(fs, gs[k]) {
      FieldIsFound(fs, gs, xs, ys, k);
    }
  }

  lemma FieldOccurs(fs: seq<Field>, gs: seq<Field>, xs: seq<Field>, ys: seq<Field>, i: nat)
    requires |xs| == |fs| && |ys| == |gs| && i < |fs|
    requires forall k :: 0 <= k < |gs| ==> (xs[i] == ys[k] <==> SameField(fs[i], gs[k]))
    ensures xs[i] in ys <==> OccursIn(fs[i], gs)
  {
    if xs[i] in ys {
      var k :| 0 <= k < |gs| && ys[k] == xs[i];
      assert SameField(fs[i], gs[k]);
    }
    if OccursIn(fs[i], gs) {
      var k :| 0 <= k < |gs| && SameField(fs[i], gs[k]);
      assert ys[k] == xs[i];
    }
  }

  lemma FieldIsFound(fs: seq<Field>, gs: seq<Field>, xs: seq<Field>, ys: seq<Field>, k: nat)
    requires |xs| == |fs| && |ys| == |gs| && k < |gs|
    requires forall i :: 0 <= i < |fs| ==> (xs[i] == ys[k] <==> SameField(fs[i], gs[k]))
    ensures ys[k] in xs <==> IsFoundIn(fs, gs[k])
  {
    if ys[k] in xs {
      var i :| 0 <= i < |fs| && xs[i] == ys[k];
      assert SameField(fs[i], gs[k]);
    }
    if IsFoundIn(fs, gs[k]) {
      var i :| 0 <= i < |fs| && SameField(fs[i], gs[k]);
      assert xs[i] == ys[k];
    }
  }

  lemma {:induction false} UnfoldingsHaveUniqueKeys(h: Heap, v: Value, j: Json)
    requires HeapOk(h) && Unfolds(h, v, j)
    ensures UniqueKeys(j)
    decreases j
  {
    match j
    case JArray(js) =>
      forall i | 0 <= i < |js| ensures UniqueKeys(js[i]) {
        UnfoldingsHaveUniqueKeys(h, h[v.ref].items[i], js[i]);
      }
    case JObject(fs) =>
      forall i | 0 <= i < |fs| ensures UniqueKeys(fs[i].value) {
        UnfoldingsHaveUniqueKeys(h, h[v.ref].properties[i].child, fs[i].value);
      }
    case _ =>
  }

  // Equal results mean equivalent inputs, on any two heaps.
  lemma ResultsEqualExactly(h: Heap, v: Value, j: Json, h': Heap, v': Value, j': Json)
    requires HeapOk(h) && Resolves(h, v) && Unfolds(h, v, j)
    requires HeapOk(h') && Resolves(h', v') && Unfolds(h', v', j')
    ensures Norm(h, v, {}) == Norm(h', v', {}) <==> Equivalent(j, j')
  {
    hide Norm, Unfolds, Canon, Equivalent, UniqueKeys, HeapOk;
    UnfoldingIsAccepted(h, v, j, {});
    UnfoldingIsAccepted(h', v', j', {});
    UnfoldingsHaveUniqueKeys(h, v, j);
    UnfoldingsHaveUniqueKeys(h', v', j');
    CanonEqualExactly(j, j');
  }
}
