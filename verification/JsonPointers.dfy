// References inside a parsed document: JSON Pointer segments (sections 3 and 4
// of RFC 6901), local resolution, chains of path items and the inspection of
// every reference under an item limit.
module JsonPointers {
  import opened Outcomes

  // A parsed document. Aliases are refused by the parser, so it is a tree.
  datatype Doc = Text(s: string) | Other | List(items: seq<Doc>) | Record(fields: seq<Field>)
  datatype Field = Field(key: string, value: Doc)

  // --- segments --------------------------------------------------------------

  // `value.replace(/~d/g, to)`.
  function ReplaceAll(s: string, d: char, to: char): string {
    if s == "" then ""
    else if s[0] == '~' && |s| > 1 && s[1] == d then [to] + ReplaceAll(s[2..], d, to)
    else [s[0]] + ReplaceAll(s[1..], d, to)
  }

  function DecodeSegment(s: string): string {
    ReplaceAll(ReplaceAll(s, '1', '/'), '0', '~')
  }

  function Escape(s: string): string {
    if s == "" then ""
    else (if s[0] == '~' then "~0" else if s[0] == '/' then "~1" else [s[0]]) + Escape(s[1..])
  }

  function EscapeTildes(s: string): string {
    if s == "" then "" else (if s[0] == '~' then "~0" else [s[0]]) + EscapeTildes(s[1..])
  }

  lemma {:induction false} SlashesFirst(s: string)
    ensures ReplaceAll(Escape(s), '1', '/') == EscapeTildes(s)
  {
    if s != "" {
      SlashesFirst(s[1..]);
      var rest := Escape(s[1..]);
      if s[0] == '~' {
        assert Escape(s) == "~0" + rest && ("~0" + rest)[1..] == "0" + rest && ("0" + rest)[1..] == rest;
        assert ReplaceAll("0" + rest, '1', '/') == "0" + ReplaceAll(rest, '1', '/');
      } else if s[0] == '/' {
        assert Escape(s) == "~1" + rest && ("~1" + rest)[2..] == rest;
      } else {
        assert Escape(s) == [s[0]] + rest && ([s[0]] + rest)[1..] == rest;
      }
    }
  }

  lemma {:induction false} TildesSecond(s: string)
    ensures ReplaceAll(EscapeTildes(s), '0', '~') == s
  {
    if s != "" {
      TildesSecond(s[1..]);
      var rest := EscapeTildes(s[1..]);
      if s[0] == '~' {
        assert EscapeTildes(s) == "~0" + rest && ("~0" + rest)[2..] == rest;
      } else {
        assert EscapeTildes(s) == [s[0]] + rest && ([s[0]] + rest)[1..] == rest;
      }
      assert s == [s[0]] + s[1..];
    }
  }

  // Decoding inverts escaping for every string.
  lemma DecodingInvertsEscaping(s: string)
    ensures DecodeSegment(Escape(s)) == s
  {
    SlashesFirst(s);
    TildesSecond(s);
  }

  lemma {:induction false} EscapedHasNoSlash(s: string)
    ensures '/' !in Escape(s)
  {
    if s != "" {
      EscapedHasNoSlash(s[1..]);
    }
  }

  // --- resolution --------------------------------------------------------------

  predicate Has(d: Doc, key: string) {
    d.Record? && exists i :: 0 <= i < |d.fields| && d.fields[i].key == key
  }

  function Lookup(fields: seq<Field>, key: string): (v: Doc)
    requires exists i :: 0 <= i < |fields| && fields[i].key == key
    ensures exists i :: 0 <= i < |fields| && fields[i] == Field(key, v)
  {
    if fields[0].key == key then
      assert fields[0] == Field(key, fields[0].value);
      fields[0].value
    else
      var v := Lookup(fields[1..], key);
      assert exists i :: 0 <= i < |fields| && fields[i] == Field(key, v) by {
        var j :| 0 <= j < |fields[1..]| && fields[1..][j] == Field(key, v);
        assert fields[j + 1] == Field(key, v);
      }
      v
  }

  function Get(d: Doc, key: string): Option<Doc> {
    if Has(d, key) then Some(Lookup(d.fields, key)) else None
  }

  // The first field of that name, of records only.
  lemma {:induction false} GetIs(d: Doc, key: string, v: Doc)
    ensures Get(d, key) == Some(v) <==>
              d.Record? && exists i :: 0 <= i < |d.fields| && d.fields[i] == Field(key, v)
                                       && forall j :: 0 <= j < i ==> d.fields[j].key != key
  {
    if Has(d, key) {
      LookupIsFirst(d.fields, key);
    }
  }

  lemma {:induction false} LookupIsFirst(fields: seq<Field>, key: string)
    requires exists i :: 0 <= i < |fields| && fields[i].key == key
    ensures exists i :: 0 <= i < |fields| && fields[i] == Field(key, Lookup(fields, key))
                        && forall j :: 0 <= j < i ==> fields[j].key != key
  {
    if fields[0].key == key {
      assert fields[0] == Field(key, Lookup(fields, key));
    } else {
      var rest := fields[1..];
      var k :| 0 <= k < |fields| && fields[k].key == key;
      assert rest[k - 1].key == key;
      LookupIsFirst(rest, key);
      var i :| 0 <= i < |rest| && rest[i] == Field(key, Lookup(rest, key))
               && forall j :: 0 <= j < i ==> rest[j].key != key;
      assert fields[i + 1] == rest[i];
      assert forall j :: 0 < j < i + 1 ==> fields[j] == rest[j - 1];
    }
  }

  function Walk(d: Doc, segments: seq<string>): Option<Doc> {
    if segments == [] then Some(d)
    else match Get(d, segments[0]) case None => None case Some(child) => Walk(child, segments[1..])
  }

  // `text.split('/')`.
  function Split(s: string): (parts: seq<string>)
    ensures |parts| >= 1
  {
    if s == "" then [""]
    else
      var rest := Split(s[1..]);
      if s[0] == '/' then [""] + rest else [[s[0]] + rest[0]] + rest[1..]
  }

  function DecodeAll(segments: seq<string>): (r: seq<string>)
    ensures |r| == |segments| && forall i :: 0 <= i < |r| ==> r[i] == DecodeSegment(segments[i])
  {
    seq(|segments|, i requires 0 <= i < |segments| => DecodeSegment(segments[i]))
  }

  predicate Local(reference: string) {
    reference != "" && reference[0] == '#'
  }

  function Resolve(document: Doc, reference: string): Option<Doc> {
    if reference == "#" then Some(document)
    else if !("#/" <= reference) then None
    else Walk(document, DecodeAll(Split(reference[2..])))
  }

  method ResolveLocalReference(document: Doc, reference: string) returns (r: Option<Doc>)
    ensures r == Resolve(document, reference)
  {
    if reference == "#" {
      return Some(document);
    }
    if !("#/" <= reference) {
      return None;
    }
    var segments := DecodeAll(Split(reference[2..]));
    var current := document;
    for i := 0 to |segments|
      invariant Walk(document, segments) == Walk(current, segments[i..])
    {
      if !Has(current, segments[i]) {
        return None;
      }
      current := Lookup(current.fields, segments[i]);
      assert segments[i..][1..] == segments[i + 1..];
    }
    r := Some(current);
  }

  // `d` occurs in `document`, possibly as the whole of it.
  ghost predicate Inside(document: Doc, d: Doc)
    decreases document
  {
    || d == document
    || (document.List? && exists i :: 0 <= i < |document.items| && Inside(document.items[i], d))
    || (document.Record? && exists i :: 0 <= i < |document.fields| && Inside(document.fields[i].value, d))
  }

  lemma {:induction false} WalkStaysInside(d: Doc, segments: seq<string>)
    ensures Walk(d, segments).Some? ==> Inside(d, Walk(d, segments).value)
    decreases |segments|
  {
    if segments != [] && Get(d, segments[0]).Some? {
      var child := Get(d, segments[0]).value;
      WalkStaysInside(child, segments[1..]);
      var i :| 0 <= i < |d.fields| && d.fields[i] == Field(segments[0], child);
      if Walk(d, segments).Some? {
        assert Inside(d.fields[i].value, Walk(d, segments).value);
      }
    }
  }

  lemma ResolvedIsInside(document: Doc, reference: string)
    ensures Resolve(document, reference).Some? ==> Inside(document, Resolve(document, reference).value)
  {
    WalkStaysInside(document, if "#/" <= reference then DecodeAll(Split(reference[2..])) else []);
  }

  // The pointer that names a path of keys.
  function Joined(keys: seq<string>): string {
    if keys == [] then ""
    else if |keys| == 1 then Escape(keys[0])
    else Escape(keys[0]) + "/" + Joined(keys[1..])
  }

  function PointerTo(keys: seq<string>): string {
    if keys == [] then "#" else "#/" + Joined(keys)
  }

  function EscapeAll(keys: seq<string>): seq<string> {
    if keys == [] then [] else [Escape(keys[0])] + EscapeAll(keys[1..])
  }

  lemma {:induction false} SplitAtSlash(a: string, b: string)
    requires '/' !in a
    ensures Split(a + "/" + b) == [a] + Split(b)
    ensures Split(a) == [a]
  {
    if a == "" {
      assert a + "/" + b == "/" + b;
      assert ("/" + b)[1..] == b;
    } else {
      SplitAtSlash(a[1..], b);
      assert (a + "/" + b)[1..] == a[1..] + "/" + b;
      assert a == [a[0]] + a[1..];
    }
  }

  lemma {:induction false} SplitJoined(keys: seq<string>)
    requires keys != []
    ensures Split(Joined(keys)) == EscapeAll(keys)
  {
    EscapedHasNoSlash(keys[0]);
    if |keys| == 1 {
      SplitAtSlash(Escape(keys[0]), "");
    } else {
      SplitJoined(keys[1..]);
      SplitAtSlash(Escape(keys[0]), Joined(keys[1..]));
    }
  }

  lemma {:induction false} DecodedKeys(keys: seq<string>)
    ensures DecodeAll(EscapeAll(keys)) == keys
  {
    if keys != [] {
      DecodedKeys(keys[1..]);
      DecodingInvertsEscaping(keys[0]);
      assert DecodeAll(EscapeAll(keys))[1..] == DecodeAll(EscapeAll(keys[1..]));
      assert keys == [keys[0]] + keys[1..];
    }
  }

  // A pointer resolves to exactly what its keys lead to, whatever the keys are.
  lemma PointersResolve(document: Doc, keys: seq<string>)
    ensures Resolve(document, PointerTo(keys)) == Walk(document, keys)
  {
    if keys != [] {
      var p := PointerTo(keys);
      assert p[2..] == Joined(keys) && p[1] == '/' && |p| >= 2;
      SplitJoined(keys);
      DecodedKeys(keys);
    }
  }

  // --- inspecting every reference ----------------------------------------------

  const REF := "$ref"

  function RefOf(d: Doc): Option<string> {
    match Get(d, REF)
    case Some(Text(s)) => Some(s)
    case _ => None
  }

  function Children(d: Doc): seq<Doc> {
    match d
    case List(items) => items
    case Record(fields) => seq(|fields|, i requires 0 <= i < |fields| => fields[i].value)
    case _ => []
  }

  predicate Container(d: Doc) {
    d.List? || d.Record?
  }

  function Size(d: Doc): nat {
    match d
    case List(items) => 1 + ItemSizes(items)
    case Record(fields) => 1 + FieldSizes(fields)
    case _ => 1
  }

  function ItemSizes(items: seq<Doc>): nat {
    if items == [] then 0 else ItemSizes(items[..|items| - 1]) + Size(items[|items| - 1])
  }

  function FieldSizes(fields: seq<Field>): nat {
    if fields == [] then 0 else FieldSizes(fields[..|fields| - 1]) + Size(fields[|fields| - 1].value)
  }

  lemma {:induction false} FieldsAsItems(fields: seq<Field>)
    ensures FieldSizes(fields) == ItemSizes(Children(Record(fields)))
  {
    if fields != [] {
      var n := |fields| - 1;
      FieldsAsItems(fields[..n]);
      assert Children(Record(fields))[..n] == Children(Record(fields[..n]));
    }
  }

  lemma SizeOfChildren(d: Doc)
    requires Container(d)
    ensures Size(d) == 1 + ItemSizes(Children(d))
  {
    if d.Record? {
      FieldsAsItems(d.fields);
    }
  }

  lemma {:induction false} ItemIsSmaller(items: seq<Doc>, i: nat)
    requires i < |items|
    ensures Size(items[i]) <= ItemSizes(items)
  {
    if i < |items| - 1 {
      ItemIsSmaller(items[..|items| - 1], i);
    }
  }

  lemma ChildIsSmaller(d: Doc, i: nat)
    requires i < |Children(d)|
    ensures Size(Children(d)[i]) < Size(d)
  {
    SizeOfChildren(d);
    ItemIsSmaller(Children(d), i);
  }

  // How many objects and arrays a document holds.
  ghost function Containers(d: Doc): nat
    decreases Size(d), 0
  {
    if Container(d) then
      SizeOfChildren(d);
      1 + AllContainers(Children(d))
    else 0
  }

  ghost function AllContainers(ds: seq<Doc>): nat
    decreases ItemSizes(ds), |ds|
  {
    if ds == [] then 0 else AllContainers(ds[..|ds| - 1]) + Containers(ds[|ds| - 1])
  }

  // The strings that occur as a `$ref`.
  ghost function Refs(d: Doc): set<string>
    decreases Size(d), 0
  {
    (if RefOf(d).Some? then {RefOf(d).value} else {})
    + if Container(d) then SizeOfChildren(d); AllRefs(Children(d)) else {}
  }

  ghost function AllRefs(ds: seq<Doc>): set<string>
    decreases ItemSizes(ds), |ds|
  {
    if ds == [] then {} else AllRefs(ds[..|ds| - 1]) + Refs(ds[|ds| - 1])
  }

  lemma {:induction false} AllAppend(a: seq<Doc>, b: seq<Doc>)
    ensures AllContainers(a + b) == AllContainers(a) + AllContainers(b)
    ensures AllRefs(a + b) == AllRefs(a) + AllRefs(b)
    ensures ItemSizes(a + b) == ItemSizes(a) + ItemSizes(b)
  {
    hide Containers, Refs, Size;
    if b == [] {
      assert a + b == a;
    } else {
      var n := |b| - 1;
      AllAppend(a, b[..n]);
      assert (a + b)[..|a + b| - 1] == a + b[..n];
    }
  }

  datatype Inspection = Inspection(remote: set<string>, unresolved: set<string>)

  // The worklist: classify every reference, within the limit on objects.
  method InspectReferences(document: Doc, maximumItems: nat) returns (r: Result<Inspection>)
    ensures r.Throws? <==> Containers(document) > maximumItems * 20
    ensures r.Ok? ==> r.value.remote == (set x | x in Refs(document) && !("#" <= x))
    ensures r.Ok? ==> r.value.unresolved == (set x | x in Refs(document) && "#" <= x && Resolve(document, x).None?)
  {
    hide Resolve, Size, Containers, Refs, Get;
    var remote: set<string>, unresolved: set<string> := {}, {};
    ghost var found: set<string> := {};
    var pending := [document];
    var visited: nat := 0;
    assert pending[..0] == [];
    while pending != []
      invariant visited + AllContainers(pending) == Containers(document)
      invariant visited <= maximumItems * 20
      invariant found + AllRefs(pending) == Refs(document)
      invariant remote == set x | x in found && !("#" <= x)
      invariant unresolved == set x | x in found && "#" <= x && Resolve(document, x).None?
      decreases ItemSizes(pending)
    {
      var current := pending[|pending| - 1];
      ghost var before := pending;
      pending := pending[..|pending| - 1];
      PoppedParts(current);
      if !Container(current) {
        continue;
      }
      visited := visited + 1;
      if visited > maximumItems * 20 {
        return Throws;
      }
      AllAppend(pending, Children(current));
      var reference := RefOf(current);
      if reference.Some? {
        found := found + {reference.value};
        if Local(reference.value) {
          var target := ResolveLocalReference(document, reference.value);
          if target.None? {
            unresolved := unresolved + {reference.value};
          }
        } else {
          remote := remote + {reference.value};
        }
      }
      pending := pending + Children(current);
    }
    r := Ok(Inspection(remote, unresolved));
  }

  lemma PoppedParts(d: Doc)
    ensures Size(d) >= 1
    ensures Container(d) ==>
              && Containers(d) == 1 + AllContainers(Children(d)) && Size(d) == 1 + ItemSizes(Children(d))
              && Refs(d) == AllRefs(Children(d)) + if RefOf(d).Some? then {RefOf(d).value} else {}
    ensures !Container(d) ==> Containers(d) == 0 && Refs(d) == {}
  {
    if Container(d) {
      SizeOfChildren(d);
    }
  }

  // The set is the one a reader would name: the `$ref` strings of all nodes.
  ghost predicate Mentions(d: Doc, reference: string) {
    exists n :: Inside(d, n) && Get(n, "$ref") == Some(Text(reference))
  }

  lemma RefIs(d: Doc, reference: string)
    ensures RefOf(d) == Some(reference) <==> Get(d, "$ref") == Some(Text(reference))
  {
  }

  lemma InsideChild(d: Doc, i: nat, n: Doc)
    requires i < |Children(d)| && Inside(Children(d)[i], n)
    ensures Inside(d, n)
  {
  }

  lemma InsideIsChildOrSelf(d: Doc, n: Doc) returns (i: nat)
    requires Inside(d, n) && n != d
    ensures i < |Children(d)| && Inside(Children(d)[i], n)
  {
    if d.List? {
      i :| 0 <= i < |d.items| && Inside(d.items[i], n);
    } else {
      i :| 0 <= i < |d.fields| && Inside(d.fields[i].value, n);
    }
  }

  lemma {:induction false} InAllRefs(ds: seq<Doc>, x: string)
    ensures x in AllRefs(ds) <==> exists i :: 0 <= i < |ds| && x in Refs(ds[i])
  {
    hide Refs;
    if ds != [] {
      var n := |ds| - 1;
      InAllRefs(ds[..n], x);
      if x in AllRefs(ds[..n]) {
        var i :| 0 <= i < n && x in Refs(ds[..n][i]);
        assert x in Refs(ds[i]);
      }
      forall i | 0 <= i < |ds| && x in Refs(ds[i]) ensures x in AllRefs(ds) {
        if i < n {
          assert ds[..n][i] == ds[i];
        }
      }
    }
  }

  lemma {:induction false} RefsAreMentions(d: Doc, x: string)
    ensures x in Refs(d) <==> Mentions(d, x)
    decreases Size(d)
  {
    hide Inside, RefOf, Refs;
    RefsStep(d, x);
    forall i | 0 <= i < |Children(d)| ensures x in Refs(Children(d)[i]) <==> Mentions(Children(d)[i], x) {
      ChildIsSmaller(d, i);
      RefsAreMentions(Children(d)[i], x);
    }
    MentionsStep(d, x);
  }

  lemma RefsStep(d: Doc, x: string)
    ensures x in Refs(d) <==> RefOf(d) == Some(x) || exists i :: 0 <= i < |Children(d)| && x in Refs(Children(d)[i])
  {
    hide RefOf;
    InAllRefs(Children(d), x);
    NoFieldsNoRef(d);
    PoppedParts(d);
  }

  lemma NoFieldsNoRef(d: Doc)
    ensures RefOf(d).Some? ==> Container(d)
  {
  }

  lemma MentionsStep(d: Doc, x: string)
    ensures Mentions(d, x) <==> RefOf(d) == Some(x) || exists i :: 0 <= i < |Children(d)| && Mentions(Children(d)[i], x)
  {
    hide Inside, RefOf, Children, Get;
    RefIs(d, x);
    if Mentions(d, x) {
      var n :| Inside(d, n) && Get(n, "$ref") == Some(Text(x));
      if n != d {
        var i := InsideIsChildOrSelf(d, n);
        assert Mentions(Children(d)[i], x);
      }
    }
    if RefOf(d) == Some(x) {
      InsideItself(d);
      assert Mentions(d, x);
    }
    forall i | 0 <= i < |Children(d)| && Mentions(Children(d)[i], x) ensures Mentions(d, x) {
      var n :| Inside(Children(d)[i], n) && Get(n, "$ref") == Some(Text(x));
      InsideChild(d, i, n);
    }
  }

  lemma InsideItself(d: Doc)
    ensures Inside(d, d)
  {
  }

  // --- chains of references ----------------------------------------------------

  // The value after following `k` references, if it gets that far.
  ghost function ChainAt(document: Doc, value: Doc, k: nat): Option<Doc> {
    if k == 0 then Some(value)
    else
      match ChainAt(document, value, k - 1)
      case None => None
      case Some(d) => if RefOf(d).Some? then Resolve(document, RefOf(d).value) else None
  }

  ghost predicate Chases(document: Doc, value: Doc, k: nat) {
    ChainAt(document, value, k).Some? && RefOf(ChainAt(document, value, k).value).Some?
  }

  ghost function RefAt(document: Doc, value: Doc, k: nat): string
    requires Chases(document, value, k)
  {
    RefOf(ChainAt(document, value, k).value).value
  }

  // The chain ends, after `k` steps, in an object that is not a reference.
  ghost predicate EndsIn(document: Doc, value: Doc, k: nat, d: Doc) {
    ChainAt(document, value, k) == Some(d) && d.Record? && RefOf(d).None?
  }

  lemma {:induction false} ChainStopsAt(document: Doc, value: Doc, n: nat, k: nat)
    requires !Chases(document, value, n) && k > n
    ensures ChainAt(document, value, k).None?
    decreases k
  {
    if k > n + 1 {
      ChainStopsAt(document, value, n, k - 1);
    }
  }

  // After meeting one reference twice, the chain goes round for ever.
  lemma {:induction false} LoopsForEver(document: Doc, value: Doc, m: nat, n: nat, k: nat)
    requires m < n && (forall i :: 0 <= i <= n ==> Chases(document, value, i))
    requires RefAt(document, value, m) == RefAt(document, value, n)
    ensures Chases(document, value, k)
    decreases k
  {
    hide RefOf, Resolve;
    if k > n {
      var earlier := k - (n - m);
      Periodic(document, value, m, n, k);
      LoopsForEver(document, value, m, n, earlier);
    }
  }

  lemma {:induction false} Periodic(document: Doc, value: Doc, m: nat, n: nat, k: nat)
    requires m < n < k && Chases(document, value, m) && Chases(document, value, n)
    requires RefAt(document, value, m) == RefAt(document, value, n)
    ensures ChainAt(document, value, k) == ChainAt(document, value, k - (n - m))
    decreases k
  {
    hide Resolve, RefOf;
    if k > n + 1 {
      Periodic(document, value, m, n, k - 1);
    }
  }

  lemma ReachedRefIsKnown(document: Doc, value: Doc, k: nat)
    requires Chases(document, value, k)
    ensures k == 0 || RefAt(document, value, k) in Refs(document)
  {
    if k > 0 {
      var d := ChainAt(document, value, k).value;
      ResolvedIsInside(document, RefAt(document, value, k - 1));
      assert Mentions(document, RefAt(document, value, k));
      RefsAreMentions(document, RefAt(document, value, k));
    }
  }

  // Follows references until something else is found; gives up on a loop.
  method ResolvePathItem(document: Doc, value: Doc) returns (r: Option<Doc>)
    ensures forall d :: r == Some(d) <==> exists k :: EndsIn(document, value, k, d)
  {
    hide Resolve, RefOf, Refs, EndsIn, Chases, RefAt;
    var current := Some(value);
    var seen: set<string> := {};
    ghost var n: nat := 0;
    ghost var known := Refs(document) + if RefOf(value).Some? then {RefOf(value).value} else {};
    while current.Some? && RefOf(current.value).Some?
      invariant ChainAt(document, value, n) == current
      invariant forall i :: 0 <= i < n ==> Chases(document, value, i)
      invariant forall x :: x in seen ==> SeenBefore(document, value, n, x)
      invariant seen <= known
      decreases known - seen
    {
      var reference := RefOf(current.value).value;
      NowChasing(document, value, n);
      if reference in seen {
        LoopFound(document, value, n, reference);
        return None;
      }
      ReachedRefIsKnown(document, value, n);
      assert reference in known by { NowChasing(document, value, n); FirstReference(document, value, n); }
      seen := seen + {reference};
      SeenNow(document, value, n, seen - {reference}, reference);
      current := ResolveLocalReference(document, reference);
      NextInChain(document, value, n);
      n := n + 1;
    }
    r := if current.Some? && current.value.Record? then current else None;
    NotChasing(document, value, n);
    ChainFinished(document, value, n, r);
  }

  ghost predicate SeenBefore(document: Doc, value: Doc, n: nat, x: string) {
    exists i :: 0 <= i < n && Chases(document, value, i) && RefAt(document, value, i) == x
  }

  lemma NowChasing(document: Doc, value: Doc, n: nat)
    requires ChainAt(document, value, n).Some? && RefOf(ChainAt(document, value, n).value).Some?
    ensures Chases(document, value, n)
    ensures RefAt(document, value, n) == RefOf(ChainAt(document, value, n).value).value
  {
  }

  lemma NotChasing(document: Doc, value: Doc, n: nat)
    ensures Chases(document, value, n)
            <==> ChainAt(document, value, n).Some? && RefOf(ChainAt(document, value, n).value).Some?
  {
  }

  lemma FirstReference(document: Doc, value: Doc, n: nat)
    requires Chases(document, value, n)
    ensures n == 0 ==> RefOf(value) == Some(RefAt(document, value, n))
  {
  }

  lemma NextInChain(document: Doc, value: Doc, n: nat)
    requires Chases(document, value, n)
    ensures ChainAt(document, value, n + 1) == Resolve(document, RefAt(document, value, n))
  {
  }

  lemma SeenNow(document: Doc, value: Doc, n: nat, seen: set<string>, x: string)
    requires Chases(document, value, n) && RefAt(document, value, n) == x
    requires forall y :: y in seen ==> SeenBefore(document, value, n, y)
    ensures forall y :: y in seen + {x} ==> SeenBefore(document, value, n + 1, y)
  {
    hide Chases, RefAt;
    forall y | y in seen + {x} ensures SeenBefore(document, value, n + 1, y) {
      if y in seen {
        assert SeenBefore(document, value, n, y);
        var i :| 0 <= i < n && Chases(document, value, i) && RefAt(document, value, i) == y;
        assert 0 <= i < n + 1;
      }
    }
  }

  lemma LoopFound(document: Doc, value: Doc, n: nat, x: string)
    requires (forall i :: 0 <= i <= n ==> Chases(document, value, i)) && RefAt(document, value, n) == x
    requires SeenBefore(document, value, n, x)
    ensures forall k, d :: !EndsIn(document, value, k, d)
  {
    hide Chases, RefAt, ChainAt;
    var m :| 0 <= m < n && Chases(document, value, m) && RefAt(document, value, m) == x;
    forall k, d ensures !EndsIn(document, value, k, d) {
      LoopsForEver(document, value, m, n, k);
      if EndsIn(document, value, k, d) {
        ChasingIsNoEnd(document, value, k, d);
      }
    }
  }

  lemma ChasingIsNoEnd(document: Doc, value: Doc, k: nat, d: Doc)
    requires Chases(document, value, k)
    ensures !EndsIn(document, value, k, d)
  {
  }

  lemma ChainFinished(document: Doc, value: Doc, n: nat, r: Option<Doc>)
    requires (forall i :: 0 <= i < n ==> Chases(document, value, i)) && !Chases(document, value, n)
    requires var last := ChainAt(document, value, n); r == if last.Some? && last.value.Record? then last else None
    ensures forall d :: r == Some(d) <==> exists k :: EndsIn(document, value, k, d)
  {
    hide RefOf, Resolve;
    forall d ensures r == Some(d) <==> exists k :: EndsIn(document, value, k, d) {
      if r == Some(d) {
        assert EndsIn(document, value, n, d);
      }
      forall k: nat | EndsIn(document, value, k, d) ensures r == Some(d) {
        if k < n {
          ChasingIsNoEnd(document, value, k, d);
        } else if k > n {
          ChainStopsAt(document, value, n, k);
        }
      }
    }
  }
}
