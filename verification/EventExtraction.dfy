// Turning parsed event documents into definitions, references and coverage.
module EventExtraction {
  import opened Outcomes
  import opened Sorting
  import opened SourceRanges
  import opened TextOrder
  import opened PayloadSchemas
  import CanonicalJson

  type Json = CanonicalJson.Json

  datatype Role = Producer | Consumer
  datatype PayloadSchema = PayloadSchema(id: string, schema: Option<Json>)

  datatype Binding = Binding(
    role: Role, provider: string, brokerNamespace: Option<string>, destinationKind: string,
    destination: Option<string>, destinationExpression: Option<string>, payloadSchema: Option<PayloadSchema>,
    delivery: Option<string>, ordering: Option<string>, range: Option<SourceRange>)

  datatype Document =
    | Parsed(path: string, contentHash: string, classification: string, bindings: seq<Binding>, stratum: string)
    | Incomplete(path: string, contentHash: string, classification: string)
    | Failed(path: string, contentHash: string, classification: string, overLimit: bool)

  // A shape stands for its hash, the hash of a canonical form being taken to be
  // injective.
  datatype Shape =
    | DestinationShape(provider: string, brokerNamespace: string, destinationKind: string, destination: string,
                       delivery: string, ordering: string, payloadSchemaId: Option<string>)
    | PayloadShape(schema: Json)

  datatype Key = Key(contractKind: string, canonicalKey: string)

  datatype Definition = Definition(
    key: Key, displayName: string, path: string, range: Option<SourceRange>, contentHash: string, shape: Shape,
    stratum: string)

  datatype Target = Resolved(canonicalKey: string) | Unresolved(pattern: string, reason: string)

  datatype Reference = Reference(
    contractKind: string, target: Target, semanticOwner: string, path: string, range: Option<SourceRange>,
    contentHash: string, stratum: string)

  datatype Limitation = Limitation(code: string, scope: string)
  datatype Diagnostic = Diagnostic(code: string, severity: string, message: string, scope: string)
  datatype CoverageState = Complete | Partial | AllFailed | Unsupported

  datatype Coverage = Coverage(
    state: CoverageState, eligible: nat, processed: nat, skipped: nat, failed: nat, limitations: seq<Limitation>)

  datatype Stamp = Stamp(path: string, contentHash: string, classification: string, state: string)

  datatype Extraction = Extraction(
    definitions: seq<Definition>, references: seq<Reference>, coverage: Coverage, diagnostics: seq<Diagnostic>,
    sourceFingerprint: seq<Stamp>)

  // What the extraction is given: how keys are derived (None when the identity
  // or the output check rejects one) and how NUL-joined texts compare.
  datatype Rules = Rules(
    destinationKey: (string, string, string, string) -> Option<string>,
    schemaKey: (string, string) -> Option<string>,
    leq: (seq<string>, seq<string>) -> bool)

  datatype Emission = Emission(
    definitions: seq<Definition>, references: seq<Reference>, limitations: seq<Limitation>,
    diagnostics: seq<Diagnostic>)

  const NOTHING := Emission([], [], [], [])

  function Both(a: Emission, b: Emission): Emission {
    Emission(a.definitions + b.definitions, a.references + b.references,
             a.limitations + b.limitations, a.diagnostics + b.diagnostics)
  }

  // What is written for a destination that is not literal.
  function Dynamic(b: Binding): string {
    "dynamic:" + if b.destinationExpression.Some? then b.destinationExpression.value else "undefined"
  }

  function Owner(b: Binding): string {
    (if b.role == Producer then "producer:" else "consumer:") + b.provider + ":" +
    if b.destination.Some? then b.destination.value else Dynamic(b)
  }

  function ReferenceTo(d: Document, b: Binding, contractKind: string, target: Target): Reference
    requires d.Parsed?
  {
    Reference(contractKind, target, Owner(b), d.path, b.range, d.contentHash, d.stratum)
  }

  function OrUnknown(text: Option<string>): string {
    if text.Some? then text.value else "unknown"
  }

  function EmitUnresolved(d: Document, b: Binding): Emission
    requires d.Parsed?
  {
    var reason := if b.destination.None? then "dynamic_destination" else "broker_namespace_missing";
    var pattern := b.provider + ":" +
      if b.destination.None? then Dynamic(b) else b.destination.value;
    Emission(
      [],
      if b.role == Consumer then [ReferenceTo(d, b, "event.destination", Unresolved(pattern, reason))] else [],
      [Limitation(reason, d.path)],
      [Diagnostic("ambiguous_alias", "warning",
                  "Event binding lacks a literal destination or resolved broker namespace.", d.path)])
  }

  function EmitDestination(d: Document, b: Binding, key: string, brokerNamespace: string, destination: string): Emission
    requires d.Parsed?
  {
    if b.role == Producer then
      var shape := DestinationShape(
        b.provider, brokerNamespace, b.destinationKind, destination, OrUnknown(b.delivery), OrUnknown(b.ordering),
        if b.payloadSchema.Some? then Some(b.payloadSchema.value.id) else None);
      NOTHING.(definitions :=
        [Definition(Key("event.destination", key), destination, d.path, b.range, d.contentHash, shape, d.stratum)])
    else
      NOTHING.(references := [ReferenceTo(d, b, "event.destination", Resolved(key))])
  }

  function EmitPayload(d: Document, b: Binding, key: string): Emission
    requires d.Parsed? && b.payloadSchema.Some?
  {
    var payload := b.payloadSchema.value;
    if b.role == Producer && payload.schema.Some? then
      NOTHING.(definitions :=
        [Definition(Key("event.payload_schema", key), payload.id, d.path, b.range, d.contentHash,
                    PayloadShape(CanonicalJson.Canon(payload.schema.value)), d.stratum)])
    else if b.role == Consumer then
      NOTHING.(references := [ReferenceTo(d, b, "event.payload_schema", Resolved(key))])
    else
      NOTHING.(limitations := [Limitation("producer_payload_schema_missing", d.path)])
  }

  // A shape with a number that is not finite has no hash.
  predicate Hashable(b: Binding) {
    b.payloadSchema.Some? && b.payloadSchema.value.schema.Some? ==> Finite(b.payloadSchema.value.schema.value)
  }

  function EmitBinding(rules: Rules, d: Document, b: Binding): Result<Emission>
    requires d.Parsed?
  {
    if b.destination.None? || b.brokerNamespace.None? then Ok(EmitUnresolved(d, b))
    else
      match rules.destinationKey(b.provider, b.brokerNamespace.value, b.destinationKind, b.destination.value)
      case None => Throws
      case Some(key) =>
        var emitted := EmitDestination(d, b, key, b.brokerNamespace.value, b.destination.value);
        if b.payloadSchema.None? then Ok(emitted)
        else
          match rules.schemaKey(key, b.payloadSchema.value.id)
          case None => Throws
          case Some(schemaKey) =>
            if b.role == Producer && !Hashable(b) then Throws else Ok(Both(emitted, EmitPayload(d, b, schemaKey)))
  }

  function EmitBindings(rules: Rules, d: Document, bindings: seq<Binding>): Result<Emission>
    requires d.Parsed?
  {
    if bindings == [] then Ok(NOTHING)
    else
      var n := |bindings| - 1;
      match (EmitBindings(rules, d, bindings[..n]), EmitBinding(rules, d, bindings[n]))
      case (Ok(before), Ok(last)) => Ok(Both(before, last))
      case _ => Throws
  }

  function EmitDocument(rules: Rules, d: Document): Result<Emission> {
    match d
    case Parsed(_, _, _, bindings, _) => EmitBindings(rules, d, bindings)
    case Incomplete(path, _, _) =>
      Ok(Emission([], [], [Limitation("unresolved_source_binding", path)],
        [Diagnostic("ambiguous_alias", "warning",
                    "A probable event binding does not contain a supported literal destination.", path)]))
    case Failed(path, _, _, overLimit) =>
      Ok(Emission([], [], [Limitation(if overLimit then "byte_limit" else "parse_failure", path)],
        [Diagnostic(if overLimit then "source_truncated" else "parse_failure", "error",
                    if overLimit then "Event input exceeds the declared byte limit."
                    else "Event input could not be parsed safely.", path)]))
  }

  function EmitDocuments(rules: Rules, documents: seq<Document>): Result<Emission> {
    if documents == [] then Ok(NOTHING)
    else
      var n := |documents| - 1;
      match (EmitDocuments(rules, documents[..n]), EmitDocument(rules, documents[n]))
      case (Ok(before), Ok(last)) => Ok(Both(before, last))
      case _ => Throws
  }

  function FailedCount(documents: seq<Document>): (n: nat)
    ensures n <= |documents|
  {
    if documents == [] then 0
    else FailedCount(documents[..|documents| - 1]) + if documents[|documents| - 1].Failed? then 1 else 0
  }

  // --- definitions that disagree --------------------------------------------

  // Insertion-ordered definitions with distinct keys, and the keys given up.
  datatype Resolution = Resolution(values: seq<Definition>, ambiguous: seq<Key>)

  function Find(values: seq<Definition>, key: Key): (r: Option<Definition>)
    ensures r.Some? ==> r.value in values && r.value.key == key
    ensures r.None? ==> forall v :: v in values ==> v.key != key
  {
    if values == [] then None
    else if values[0].key == key then Some(values[0])
    else Find(values[1..], key)
  }

  function WithoutKey(values: seq<Definition>, key: Key): (r: seq<Definition>)
    ensures forall v :: v in r <==> v in values && v.key != key
  {
    if values == [] then []
    else (if values[0].key == key then [] else [values[0]]) + WithoutKey(values[1..], key)
  }

  function ResolveOne(r: Resolution, v: Definition): Resolution {
    var prior := Find(r.values, v.key);
    if prior.None? then
      if v.key in r.ambiguous then r else r.(values := r.values + [v])
    else if prior.value.shape != v.shape then
      Resolution(WithoutKey(r.values, v.key), r.ambiguous + [v.key])
    else r
  }

  function Resolve(definitions: seq<Definition>): Resolution {
    if definitions == [] then Resolution([], [])
    else ResolveOne(Resolve(definitions[..|definitions| - 1]), definitions[|definitions| - 1])
  }

  ghost predicate Disagree(definitions: seq<Definition>, key: Key) {
    exists v, w :: v in definitions && w in definitions && v.key == w.key == key && v.shape != w.shape
  }

  ghost predicate FirstOf(definitions: seq<Definition>, v: Definition) {
    exists i :: 0 <= i < |definitions| && definitions[i] == v && forall j :: 0 <= j < i ==> definitions[j].key != v.key
  }

  // The survivors of a key are its first definition, and a key survives exactly
  // when it is defined and its definitions never disagree.
  ghost predicate ResolvedExactly(definitions: seq<Definition>, r: Resolution) {
    && (forall v :: v in r.values <==> FirstOf(definitions, v) && !Disagree(definitions, v.key))
    && DistinctKeys(r.values)
    && (forall key :: key in r.ambiguous <==> Disagree(definitions, key))
  }

  lemma DisagreeAppend(ds: seq<Definition>, v: Definition, key: Key)
    ensures Disagree(ds + [v], key) <==>
              Disagree(ds, key) || (v.key == key && exists w :: w in ds && w.key == key && w.shape != v.shape)
  {
    assert forall w :: w in ds + [v] <==> w in ds || w == v;
  }

  lemma FirstOfAppend(ds: seq<Definition>, v: Definition, w: Definition)
    ensures FirstOf(ds + [v], w) <==> FirstOf(ds, w) || (w == v && forall u :: u in ds ==> u.key != v.key)
  {
    var all := ds + [v];
    if FirstOf(ds, w) {
      var i :| 0 <= i < |ds| && ds[i] == w && forall j :: 0 <= j < i ==> ds[j].key != w.key;
      assert all[i] == w && forall j :: 0 <= j < i ==> all[j].key != w.key;
    }
    if w == v && forall u :: u in ds ==> u.key != v.key {
      assert all[|ds|] == w && forall j :: 0 <= j < |ds| ==> all[j].key != w.key;
    }
    if FirstOf(all, w) {
      var i :| 0 <= i < |all| && all[i] == w && forall j :: 0 <= j < i ==> all[j].key != w.key;
      if i < |ds| {
        assert ds[i] == w && forall j :: 0 <= j < i ==> ds[j].key == all[j].key;
      } else {
        assert forall j :: 0 <= j < |ds| ==> all[j] == ds[j];
      }
    }
  }

  lemma {:induction false} SomeFirst(ds: seq<Definition>, key: Key) returns (first: Definition)
    requires exists w :: w in ds && w.key == key
    ensures first.key == key && FirstOf(ds, first) && first in ds
  {
    var n := |ds| - 1;
    if exists w :: w in ds[..n] && w.key == key {
      first := SomeFirst(ds[..n], key);
      FirstOfAppend(ds[..n], ds[n], first);
      assert ds == ds[..n] + [ds[n]];
    } else {
      first := ds[n];
      assert forall j :: 0 <= j < n ==> ds[j] in ds[..n];
    }
  }

  ghost predicate DistinctKeys(values: seq<Definition>) {
    forall i, j :: 0 <= i < j < |values| ==> values[i].key != values[j].key
  }

  lemma {:induction false} WithoutKeyStaysDistinct(values: seq<Definition>, key: Key)
    requires DistinctKeys(values)
    ensures DistinctKeys(WithoutKey(values, key))
  {
    if values != [] {
      WithoutKeyStaysDistinct(values[1..], key);
      var rest := WithoutKey(values[1..], key);
      forall i | 0 <= i < |rest| ensures rest[i].key != values[0].key {
        assert rest[i] in values[1..];
      }
    }
  }

  // What the induction step needs to know about the key of the next definition.
  lemma PriorOfKey(ds: seq<Definition>, r: Resolution, v: Definition)
    requires ResolvedExactly(ds, r)
    ensures var prior := Find(r.values, v.key);
            && (prior.None? && v.key !in r.ambiguous ==> forall w :: w in ds ==> w.key != v.key)
            && (v.key in r.ambiguous ==> prior.None? && exists w :: w in ds && w.key == v.key)
            && (prior.Some? ==> prior.value in ds && prior.value.key == v.key)
            && (prior.Some? ==> forall w :: w in ds && w.key == v.key ==> w.shape == prior.value.shape)
  {
    if exists w :: w in ds && w.key == v.key {
      var first := SomeFirst(ds, v.key);
    }
  }

  lemma ResolveOneIsExact(ds: seq<Definition>, r: Resolution, v: Definition)
    requires ResolvedExactly(ds, r)
    ensures ResolvedExactly(ds + [v], ResolveOne(r, v))
  {
    hide FirstOf, Disagree;
    var r' := ResolveOne(r, v);
    PriorOfKey(ds, r, v);
    WithoutKeyStaysDistinct(r.values, v.key);
    forall key ensures key in r'.ambiguous <==> Disagree(ds + [v], key) {
      DisagreeAppend(ds, v, key);
    }
    forall w ensures w in r'.values <==> FirstOf(ds + [v], w) && !Disagree(ds + [v], w.key) {
      DisagreeAppend(ds, v, w.key);
      FirstOfAppend(ds, v, w);
    }
  }

  lemma {:induction false} ResolveIsExact(definitions: seq<Definition>)
    ensures ResolvedExactly(definitions, Resolve(definitions))
  {
    if definitions != [] {
      var n := |definitions| - 1;
      ResolveIsExact(definitions[..n]);
      ResolveOneIsExact(definitions[..n], Resolve(definitions[..n]), definitions[n]);
      assert definitions == definitions[..n] + [definitions[n]];
    }
  }

  // --- the whole extraction ---------------------------------------------------

  function ByPath(rules: Rules): (Document, Document) -> bool {
    (l: Document, r: Document) => rules.leq([l.path], [r.path])
  }

  function ByScope(rules: Rules): (Limitation, Limitation) -> bool {
    (l: Limitation, r: Limitation) => rules.leq([l.code, l.scope], [r.code, r.scope])
  }

  function ByDefinition(rules: Rules): (Definition, Definition) -> bool {
    (l: Definition, r: Definition) =>
      rules.leq([l.key.contractKind, l.key.canonicalKey, l.path], [r.key.contractKind, r.key.canonicalKey, r.path])
  }

  function ByReference(rules: Rules): (Reference, Reference) -> bool {
    var text := (t: Target) => if t.Resolved? then t.canonicalKey else t.pattern;
    (l: Reference, r: Reference) =>
      rules.leq([l.contractKind, text(l.target), l.path], [r.contractKind, text(r.target), r.path])
  }

  function StampOf(d: Document): Stamp {
    Stamp(d.path, d.contentHash, d.classification,
          if d.Parsed? then "parsed" else if d.Incomplete? then "incomplete" else "failed")
  }

  // The limitation for a key that was given up names its first definition's path.
  function AmbiguityLimitations(definitions: seq<Definition>, keys: seq<Key>): seq<Limitation> {
    if keys == [] then []
    else
      var first := Find(definitions, keys[0]);
      [Limitation("ambiguous_event_definition", if first.Some? then first.value.path else "")] +
      AmbiguityLimitations(definitions, keys[1..])
  }

  function CoverageOf(count: nat, failed: nat, limitations: seq<Limitation>): Coverage
    requires failed <= count
  {
    var state :=
      if count == 0 then Unsupported
      else if failed == count then AllFailed
      else if failed > 0 || limitations != [] then Partial
      else Complete;
    Coverage(state, count, count - failed, 0, failed,
             if count == 0 then [Limitation("event_inputs_not_found", "")] else limitations)
  }

  function Finish(rules: Rules, documents: seq<Document>, failed: nat, e: Emission, resolved: Resolution): Extraction
    requires failed <= |documents|
  {
    var unique := Sort(Distinct(e.limitations), ByScope(rules));
    var limitations := Sort(unique + AmbiguityLimitations(e.definitions, resolved.ambiguous), ByScope(rules));
    Extraction(
      Sort(resolved.values, ByDefinition(rules)), Sort(e.references, ByReference(rules)),
      CoverageOf(|documents|, failed, limitations), e.diagnostics,
      seq(|documents|, i requires 0 <= i < |documents| => StampOf(documents[i])))
  }

  function Extract(rules: Rules, documents: seq<Document>): Result<Extraction> {
    var sorted := Sort(documents, ByPath(rules));
    match EmitDocuments(rules, sorted)
    case Throws => Throws
    case Ok(e) => Ok(Finish(rules, sorted, FailedCount(sorted), e, Resolve(e.definitions)))
  }

  // One document's share, its bindings taken in turn.
  method EmitInTurn(rules: Rules, d: Document) returns (r: Result<Emission>)
    ensures r == EmitDocument(rules, d)
  {
    hide EmitBinding;
    if !d.Parsed? {
      return EmitDocument(rules, d);
    }
    var emitted := NOTHING;
    for j := 0 to |d.bindings|
      invariant EmitBindings(rules, d, d.bindings[..j]) == Ok(emitted)
    {
      assert d.bindings[..j + 1][..j] == d.bindings[..j];
      match EmitBinding(rules, d, d.bindings[j])
      case Throws =>
        ThrowsSpreads(rules, d, d.bindings, j + 1);
        return Throws;
      case Ok(e) => emitted := Both(emitted, e);
    }
    assert d.bindings[..|d.bindings|] == d.bindings;
    r := Ok(emitted);
  }

  // One pass that keeps the definitions nobody contradicts.
  method ResolveInTurn(definitions: seq<Definition>) returns (r: Resolution)
    ensures r == Resolve(definitions) && ResolvedExactly(definitions, r)
  {
    hide ResolveOne, ResolvedExactly;
    r := Resolution([], []);
    for i := 0 to |definitions|
      invariant r == Resolve(definitions[..i])
    {
      assert definitions[..i + 1][..i] == definitions[..i];
      r := ResolveOne(r, definitions[i]);
    }
    assert definitions[..|definitions|] == definitions;
    ResolveIsExact(definitions);
  }

  // The extraction of documents in path order.
  method Materialize(rules: Rules, documents: seq<Document>) returns (r: Result<Extraction>)
    ensures r == Extract(rules, documents)
  {
    hide EmitDocument, Finish, ByPath, Resolve, ResolvedExactly;
    var sorted := Sort(documents, ByPath(rules));
    var emitted, failed := NOTHING, 0;
    for i := 0 to |sorted|
      invariant EmitDocuments(rules, sorted[..i]) == Ok(emitted)
      invariant failed == FailedCount(sorted[..i])
    {
      assert sorted[..i + 1][..i] == sorted[..i];
      var ofDocument := EmitInTurn(rules, sorted[i]);
      if ofDocument.Throws? {
        ThrowSpreads(rules, sorted, i + 1);
        return Throws;
      }
      emitted := Both(emitted, ofDocument.value);
      failed := failed + if sorted[i].Failed? then 1 else 0;
    }
    assert sorted[..|sorted|] == sorted;
    var resolution := ResolveInTurn(emitted.definitions);
    r := Ok(Finish(rules, sorted, failed, emitted, resolution));
  }

  lemma {:induction false} ThrowsSpreads(rules: Rules, d: Document, bindings: seq<Binding>, n: nat)
    requires d.Parsed? && n <= |bindings| && EmitBindings(rules, d, bindings[..n]).Throws?
    ensures EmitBindings(rules, d, bindings).Throws?
  {
    hide EmitBinding;
    if n == |bindings| {
      assert bindings[..n] == bindings;
    } else {
      var front := bindings[..|bindings| - 1];
      assert front[..n] == bindings[..n];
      ThrowsSpreads(rules, d, front, n);
    }
  }

  lemma {:induction false} ThrowSpreads(rules: Rules, documents: seq<Document>, n: nat)
    requires n <= |documents| && EmitDocuments(rules, documents[..n]).Throws?
    ensures EmitDocuments(rules, documents).Throws?
  {
    hide EmitDocument;
    if n == |documents| {
      assert documents[..n] == documents;
    } else {
      var front := documents[..|documents| - 1];
      assert front[..n] == documents[..n];
      ThrowSpreads(rules, front, n);
    }
  }

  ghost predicate DistinctPaths(documents: seq<Document>) {
    forall i, j :: 0 <= i < j < |documents| ==> documents[i].path != documents[j].path
  }

  lemma ByPathIsPreorder(rules: Rules)
    requires TotalOrder(rules.leq)
    ensures TotalPreorder(ByPath(rules))
  {
    var leq := ByPath(rules);
    forall x, y ensures leq(x, y) || leq(y, x) {
      assert rules.leq([x.path], [y.path]) || rules.leq([y.path], [x.path]);
    }
    forall x, y, z | leq(x, y) && leq(y, z) ensures leq(x, z) {
      assert rules.leq([x.path], [y.path]) && rules.leq([y.path], [z.path]);
    }
  }

  // The order in which documents arrive does not matter.
  lemma ExtractIgnoresOrder(rules: Rules, a: seq<Document>, b: seq<Document>)
    requires TotalOrder(rules.leq) && DistinctPaths(a) && multiset(a) == multiset(b)
    ensures Extract(rules, a) == Extract(rules, b)
  {
    hide EmitDocuments, Finish;
    var leq := ByPath(rules);
    ByPathIsPreorder(rules);
    assert AntisymmetricOn(a, leq) by {
      forall x, y | x in a && y in a && leq(x, y) && leq(y, x) ensures x == y {
        assert [x.path][0] == [y.path][0];
      }
    }
    SortIgnoresOrder(a, b, leq);
  }

  // An extraction throws exactly when one of its documents does.
  lemma {:induction false} EmitThrows(rules: Rules, documents: seq<Document>)
    ensures EmitDocuments(rules, documents).Throws? <==>
              exists d :: d in documents && EmitDocument(rules, d).Throws?
  {
    hide EmitDocument;
    if documents != [] {
      var n := |documents| - 1;
      EmitThrows(rules, documents[..n]);
      assert documents == documents[..n] + [documents[n]];
    }
  }

  lemma ExtractThrows(rules: Rules, documents: seq<Document>)
    ensures Extract(rules, documents).Throws? <==>
              exists d :: d in documents && EmitDocument(rules, d).Throws?
  {
    hide EmitDocument, EmitDocuments, Finish;
    var sorted := Sort(documents, ByPath(rules));
    SameElements(sorted, documents);
    EmitThrows(rules, sorted);
  }

  lemma {:induction false} AllFailedCount(documents: seq<Document>)
    ensures FailedCount(documents) == |documents| <==> forall d :: d in documents ==> d.Failed?
  {
    if documents != [] {
      var n := |documents| - 1;
      AllFailedCount(documents[..n]);
      assert documents == documents[..n] + [documents[n]];
    }
  }

  lemma ReadableState(count: nat, failed: nat, limitations: seq<Limitation>)
    requires failed <= count
    ensures var state := CoverageOf(count, failed, limitations).state;
            (state == Complete || state == Partial) <==> failed < count
  {
  }

  lemma CoverageOfExtract(rules: Rules, documents: seq<Document>) returns (limitations: seq<Limitation>)
    requires Extract(rules, documents).Ok?
    ensures var sorted := Sort(documents, ByPath(rules));
            Extract(rules, documents).value.coverage == CoverageOf(|sorted|, FailedCount(sorted), limitations)
  {
    hide EmitDocuments, Resolve, ByPath, Sort, CoverageOf;
    var e := EmitDocuments(rules, Sort(documents, ByPath(rules))).value;
    var unique := Sort(Distinct(e.limitations), ByScope(rules));
    limitations := Sort(unique + AmbiguityLimitations(e.definitions, Resolve(e.definitions).ambiguous), ByScope(rules));
  }

  // Coverage is complete or partial exactly when some document could be read.
  lemma StateIsReadable(rules: Rules, documents: seq<Document>)
    requires Extract(rules, documents).Ok?
    ensures var state := Extract(rules, documents).value.coverage.state;
            (state == Complete || state == Partial) <==> exists d :: d in documents && !d.Failed?
  {
    hide Extract, CoverageOf, Sort;
    var sorted := Sort(documents, ByPath(rules));
    var limitations := CoverageOfExtract(rules, documents);
    ReadableState(|sorted|, FailedCount(sorted), limitations);
    SameElements(sorted, documents);
    AllFailedCount(sorted);
  }

  // The coverage check applied to every extraction.
  predicate AcceptedCoverage(c: Coverage) {
    && c.processed + c.skipped + c.failed <= c.eligible
    && (c.state == Complete ==> c.failed == 0 && c.processed + c.skipped == c.eligible && c.limitations == [])
    && (c.state != Complete ==> c.limitations != [])
  }

  lemma {:induction false} FailuresAreLimited(rules: Rules, documents: seq<Document>)
    requires EmitDocuments(rules, documents).Ok? && FailedCount(documents) > 0
    ensures EmitDocuments(rules, documents).value.limitations != []
  {
    hide EmitBindings, Owner;
    var n := |documents| - 1;
    if FailedCount(documents[..n]) > 0 {
      FailuresAreLimited(rules, documents[..n]);
    }
  }

  // Whatever the documents, the extraction's coverage passes its own check.
  lemma CoverageIsAccepted(rules: Rules, documents: seq<Document>)
    requires Extract(rules, documents).Ok?
    ensures AcceptedCoverage(Extract(rules, documents).value.coverage)
  {
    hide EmitDocument, EmitDocuments, Resolve, AmbiguityLimitations, Sort, Distinct, Insert;
    var sorted := Sort(documents, ByPath(rules));
    var e := EmitDocuments(rules, sorted).value;
    if FailedCount(sorted) > 0 {
      FailuresAreLimited(rules, sorted);
      var unique := Distinct(e.limitations);
      assert e.limitations[0] in unique;
      assert |unique| > 0;
    }
  }
}
