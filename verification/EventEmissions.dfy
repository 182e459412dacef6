// What documents and their bindings put into an extraction, field by field, and
// the loops that emit them measured against it.
module EventEmissions {
  import opened Outcomes
  import opened Sorting
  import opened EventExtraction
  import opened TextOrder
  import PayloadSchemas
  import CanonicalJson

  const DESTINATION := "event.destination"
  const PAYLOAD := "event.payload_schema"

  // A literal destination in a known namespace has this identity.
  ghost predicate Identified(rules: Rules, b: Binding, key: string) {
    && b.destination.Some? && b.brokerNamespace.Some?
    && rules.destinationKey(b.provider, b.brokerNamespace.value, b.destinationKind, b.destination.value) == Some(key)
  }

  // A payload schema of such a destination has this one.
  ghost predicate SchemaIdentified(rules: Rules, b: Binding, key: string) {
    && b.payloadSchema.Some?
    && exists destination :: Identified(rules, b, destination) &&
                             rules.schemaKey(destination, b.payloadSchema.value.id) == Some(key)
  }

  ghost predicate DefinesDestination(rules: Rules, d: Document, b: Binding, x: Definition)
    requires d.Parsed?
  {
    && b.role == Producer && x.key.contractKind == DESTINATION && Identified(rules, b, x.key.canonicalKey)
    && x.displayName == b.destination.value && x.range == b.range
    && x.path == d.path && x.contentHash == d.contentHash && x.stratum == d.stratum
    && x.shape == DestinationShape(
         b.provider, b.brokerNamespace.value, b.destinationKind, b.destination.value,
         (if b.delivery.Some? then b.delivery.value else "unknown"),
         (if b.ordering.Some? then b.ordering.value else "unknown"),
         (if b.payloadSchema.Some? then Some(b.payloadSchema.value.id) else None))
  }

  ghost predicate DefinesPayload(rules: Rules, d: Document, b: Binding, x: Definition)
    requires d.Parsed?
  {
    && b.role == Producer && x.key.contractKind == PAYLOAD && SchemaIdentified(rules, b, x.key.canonicalKey)
    && b.payloadSchema.value.schema.Some?
    && x.displayName == b.payloadSchema.value.id && x.range == b.range
    && x.path == d.path && x.contentHash == d.contentHash && x.stratum == d.stratum
    && x.shape == PayloadShape(CanonicalJson.Canon(b.payloadSchema.value.schema.value))
  }

  ghost predicate Cites(d: Document, b: Binding, x: Reference)
    requires d.Parsed?
  {
    && x.semanticOwner == (if b.role == Producer then "producer:" else "consumer:") + b.provider + ":" +
                          (if b.destination.Some? then b.destination.value
                           else "dynamic:" + if b.destinationExpression.Some? then b.destinationExpression.value
                                             else "undefined")
    && x.range == b.range && x.path == d.path && x.contentHash == d.contentHash && x.stratum == d.stratum
  }

  ghost predicate RefersToDestination(rules: Rules, d: Document, b: Binding, x: Reference)
    requires d.Parsed?
  {
    && b.role == Consumer && x.contractKind == DESTINATION && Cites(d, b, x)
    && (if b.destination.None? then
          x.target == Unresolved(
            b.provider + ":" +
            ("dynamic:" + if b.destinationExpression.Some? then b.destinationExpression.value else "undefined"),
            "dynamic_destination")
        else if b.brokerNamespace.None? then
          x.target == Unresolved(b.provider + ":" + b.destination.value, "broker_namespace_missing")
        else
          x.target.Resolved? && Identified(rules, b, x.target.canonicalKey))
  }

  ghost predicate RefersToPayload(rules: Rules, d: Document, b: Binding, x: Reference)
    requires d.Parsed?
  {
    && b.role == Consumer && x.contractKind == PAYLOAD && Cites(d, b, x)
    && x.target.Resolved? && SchemaIdentified(rules, b, x.target.canonicalKey)
  }

  ghost predicate Limits(d: Document, b: Binding, x: Limitation) {
    && x.scope == d.path
    && (if b.destination.None? then x.code == "dynamic_destination"
        else if b.brokerNamespace.None? then x.code == "broker_namespace_missing"
        else
          && x.code == "producer_payload_schema_missing" && b.role == Producer && b.payloadSchema.Some?
          && b.payloadSchema.value.schema.None?)
  }

  ghost predicate Warns(d: Document, b: Binding, x: Diagnostic) {
    && (b.destination.None? || b.brokerNamespace.None?)
    && x == Diagnostic("ambiguous_alias", "warning",
                       "Event binding lacks a literal destination or resolved broker namespace.", d.path)
  }

  // --- one binding -------------------------------------------------------------------

  // A binding is refused for an identity that is, or for a producer's schema
  // that cannot be hashed.
  ghost predicate Refused(rules: Rules, b: Binding) {
    && b.destination.Some? && b.brokerNamespace.Some?
    && match rules.destinationKey(b.provider, b.brokerNamespace.value, b.destinationKind, b.destination.value)
       case None => true
       case Some(key) =>
         && b.payloadSchema.Some?
         && (|| rules.schemaKey(key, b.payloadSchema.value.id).None?
             || (&& b.role == Producer && b.payloadSchema.value.schema.Some?
                 && !PayloadSchemas.Finite(b.payloadSchema.value.schema.value)))
  }

  // A list of at most two entries, in the order destination then payload.
  ghost predicate InOrder<T(!new)>(s: seq<T>, first: T -> bool, second: T -> bool) {
    && |s| <= 2 && (forall x :: x in s <==> first(x) || second(x))
    && (|s| == 2 ==> first(s[0]) && second(s[1]))
  }

  ghost predicate BindingEmits(rules: Rules, d: Document, b: Binding, e: Emission)
    requires d.Parsed?
  {
    && InOrder(e.definitions, (x: Definition) => DefinesDestination(rules, d, b, x),
               (x: Definition) => DefinesPayload(rules, d, b, x))
    && InOrder(e.references, (x: Reference) => RefersToDestination(rules, d, b, x),
               (x: Reference) => RefersToPayload(rules, d, b, x))
    && |e.limitations| <= 1 && (forall x :: x in e.limitations <==> Limits(d, b, x))
    && |e.diagnostics| <= 1 && (forall x :: x in e.diagnostics <==> Warns(d, b, x))
  }

  lemma UnidentifiedEmits(rules: Rules, d: Document, b: Binding)
    requires d.Parsed? && (b.destination.None? || b.brokerNamespace.None?)
    ensures EmitBinding(rules, d, b).Ok? && !Refused(rules, b)
    ensures BindingEmits(rules, d, b, EmitBinding(rules, d, b).value)
  {
    UnidentifiedReference(rules, d, b, EmitUnresolved(d, b));
    hide Dynamic;
  }

  lemma UnidentifiedReference(rules: Rules, d: Document, b: Binding, e: Emission)
    requires d.Parsed? && (b.destination.None? || b.brokerNamespace.None?) && e == EmitUnresolved(d, b)
    ensures InOrder(e.references, (x: Reference) => RefersToDestination(rules, d, b, x),
                    (x: Reference) => RefersToPayload(rules, d, b, x))
  {
  }

  lemma RefusedExactly(rules: Rules, d: Document, b: Binding)
    requires d.Parsed? && b.destination.Some? && b.brokerNamespace.Some?
    ensures EmitBinding(rules, d, b).Throws? <==> Refused(rules, b)
  {
    hide EmitDestination, EmitPayload, PayloadSchemas.Finite;
  }

  lemma ProducerEmits(rules: Rules, d: Document, b: Binding)
    requires d.Parsed? && b.destination.Some? && b.brokerNamespace.Some? && b.role == Producer
    requires EmitBinding(rules, d, b).Ok?
    ensures BindingEmits(rules, d, b, EmitBinding(rules, d, b).value)
  {
    hide CanonicalJson.Canon, PayloadSchemas.Finite, Refused, Owner;
  }

  lemma ConsumerEmits(rules: Rules, d: Document, b: Binding)
    requires d.Parsed? && b.destination.Some? && b.brokerNamespace.Some? && b.role == Consumer
    requires EmitBinding(rules, d, b).Ok?
    ensures BindingEmits(rules, d, b, EmitBinding(rules, d, b).value)
  {
    hide CanonicalJson.Canon, PayloadSchemas.Finite, Refused, InOrder;
    var e := EmitBinding(rules, d, b).value;
    assert e.definitions == [] && forall x: Definition ::
        !DefinesDestination(rules, d, b, x) && !DefinesPayload(rules, d, b, x);
    NothingInOrder((x: Definition) => DefinesDestination(rules, d, b, x),
                   (x: Definition) => DefinesPayload(rules, d, b, x));
    hide DefinesDestination, DefinesPayload;
    ConsumerRefers(rules, d, b);
  }

  lemma NothingInOrder<T(!new)>(first: T -> bool, second: T -> bool)
    requires forall x :: !first(x) && !second(x)
    ensures InOrder([], first, second)
  {
  }

  lemma ConsumerRefers(rules: Rules, d: Document, b: Binding)
    requires d.Parsed? && b.destination.Some? && b.brokerNamespace.Some? && b.role == Consumer
    requires EmitBinding(rules, d, b).Ok?
    ensures InOrder(EmitBinding(rules, d, b).value.references, (x: Reference) => RefersToDestination(rules, d, b, x),
                    (x: Reference) => RefersToPayload(rules, d, b, x))
  {
    hide CanonicalJson.Canon, PayloadSchemas.Finite, Refused;
  }

  lemma IdentifiedEmits(rules: Rules, d: Document, b: Binding)
    requires d.Parsed? && b.destination.Some? && b.brokerNamespace.Some?
    ensures EmitBinding(rules, d, b).Throws? <==> Refused(rules, b)
    ensures EmitBinding(rules, d, b).Ok? ==> BindingEmits(rules, d, b, EmitBinding(rules, d, b).value)
  {
    hide EmitBinding, Refused, BindingEmits;
    RefusedExactly(rules, d, b);
    if EmitBinding(rules, d, b).Ok? {
      if b.role == Producer {
        ProducerEmits(rules, d, b);
      } else {
        ConsumerEmits(rules, d, b);
      }
    }
  }

  lemma BindingIs(rules: Rules, d: Document, b: Binding)
    requires d.Parsed?
    ensures EmitBinding(rules, d, b).Throws? <==> Refused(rules, b)
    ensures EmitBinding(rules, d, b).Ok? ==> BindingEmits(rules, d, b, EmitBinding(rules, d, b).value)
  {
    hide EmitBinding, Refused, BindingEmits;
    if b.destination.None? || b.brokerNamespace.None? {
      UnidentifiedEmits(rules, d, b);
    } else {
      IdentifiedEmits(rules, d, b);
    }
  }

  // --- one document ------------------------------------------------------------------

  function Joined<T>(parts: seq<seq<T>>): seq<T> {
    if parts == [] then [] else Joined(parts[..|parts| - 1]) + parts[|parts| - 1]
  }

  lemma {:induction false} InJoined<T>(parts: seq<seq<T>>, x: T)
    ensures x in Joined(parts) <==> exists i :: 0 <= i < |parts| && x in parts[i]
  {
    if parts != [] {
      InJoined(parts[..|parts| - 1], x);
    }
  }

  function Definitions(parts: seq<Emission>): (r: seq<seq<Definition>>) {
    seq(|parts|, i requires 0 <= i < |parts| => parts[i].definitions)
  }

  function References(parts: seq<Emission>): (r: seq<seq<Reference>>) {
    seq(|parts|, i requires 0 <= i < |parts| => parts[i].references)
  }

  function Limitations(parts: seq<Emission>): (r: seq<seq<Limitation>>) {
    seq(|parts|, i requires 0 <= i < |parts| => parts[i].limitations)
  }

  function Diagnostics(parts: seq<Emission>): (r: seq<seq<Diagnostic>>) {
    seq(|parts|, i requires 0 <= i < |parts| => parts[i].diagnostics)
  }

  // The emission holds those of its parts, in their order.
  ghost predicate Composed(e: Emission, parts: seq<Emission>) {
    && e.definitions == Joined(Definitions(parts)) && e.references == Joined(References(parts))
    && e.limitations == Joined(Limitations(parts)) && e.diagnostics == Joined(Diagnostics(parts))
  }

  lemma ComposedAppend(e: Emission, parts: seq<Emission>, last: Emission)
    requires Composed(e, parts)
    ensures Composed(Both(e, last), parts + [last])
  {
    var all := parts + [last];
    assert Definitions(all)[..|parts|] == Definitions(parts);
    assert References(all)[..|parts|] == References(parts);
    assert Limitations(all)[..|parts|] == Limitations(parts);
    assert Diagnostics(all)[..|parts|] == Diagnostics(parts);
  }

  lemma {:induction false} BindingsAre(rules: Rules, d: Document, bindings: seq<Binding>) returns (parts: seq<Emission>)
    requires d.Parsed?
    ensures EmitBindings(rules, d, bindings).Throws? <==> exists b :: b in bindings && Refused(rules, b)
    ensures EmitBindings(rules, d, bindings).Ok? ==>
              && |parts| == |bindings| && Composed(EmitBindings(rules, d, bindings).value, parts)
              && forall i :: 0 <= i < |bindings| ==> BindingEmits(rules, d, bindings[i], parts[i])
  {
    hide EmitBinding, Refused, BindingEmits, Composed;
    parts := [];
    if bindings == [] {
      NothingComposed();
    } else {
      var n := |bindings| - 1;
      var before := BindingsAre(rules, d, bindings[..n]);
      assert bindings == bindings[..n] + [bindings[n]];
      BindingIs(rules, d, bindings[n]);
      if EmitBindings(rules, d, bindings).Ok? {
        var last := EmitBinding(rules, d, bindings[n]).value;
        ComposedAppend(EmitBindings(rules, d, bindings[..n]).value, before, last);
        parts := before + [last];
      }
    }
  }

  lemma NothingComposed()
    ensures Composed(NOTHING, [])
  {
  }

  ghost predicate BindingsEmit(rules: Rules, d: Document, e: Emission, parts: seq<Emission>)
    requires d.Parsed?
  {
    && |parts| == |d.bindings| && Composed(e, parts)
    && forall i :: 0 <= i < |parts| ==> BindingEmits(rules, d, d.bindings[i], parts[i])
  }

  ghost predicate DocumentEmits(rules: Rules, d: Document, e: Emission) {
    match d
    case Parsed(_, _, _, _, _) => exists parts :: BindingsEmit(rules, d, e, parts)
    case Incomplete(path, _, _) =>
      && e.definitions == [] && e.references == []
      && e.limitations == [Limitation("unresolved_source_binding", path)]
      && e.diagnostics == [Diagnostic("ambiguous_alias", "warning",
           "A probable event binding does not contain a supported literal destination.", path)]
    case Failed(path, _, _, overLimit) =>
      && e.definitions == [] && e.references == []
      && e.limitations == [Limitation(if overLimit then "byte_limit" else "parse_failure", path)]
      && e.diagnostics == [
           if overLimit then
             Diagnostic("source_truncated", "error", "Event input exceeds the declared byte limit.", path)
           else
             Diagnostic("parse_failure", "error", "Event input could not be parsed safely.", path)]
  }

  ghost predicate DocumentRefused(rules: Rules, d: Document) {
    d.Parsed? && exists b :: b in d.bindings && Refused(rules, b)
  }

  // Emitting a document fails for exactly the refused ones, and otherwise emits
  // what its bindings say, in their order.
  lemma DocumentIs(rules: Rules, d: Document)
    ensures EmitDocument(rules, d).Throws? <==> DocumentRefused(rules, d)
    ensures EmitDocument(rules, d).Ok? ==> DocumentEmits(rules, d, EmitDocument(rules, d).value)
  {
    hide EmitBindings, Refused, BindingEmits, Composed;
    if d.Parsed? {
      var parts := BindingsAre(rules, d, d.bindings);
      if EmitDocument(rules, d).Ok? {
        assert BindingsEmit(rules, d, EmitDocument(rules, d).value, parts);
      }
    }
  }

  // What a parsed document emits, in terms of its bindings alone.
  ghost predicate EmitsByBindings(rules: Rules, d: Document, e: Emission)
    requires d.Parsed?
  {
    && (forall x :: x in e.definitions <==>
          exists b :: b in d.bindings && (DefinesDestination(rules, d, b, x) || DefinesPayload(rules, d, b, x)))
    && (forall x :: x in e.references <==>
          exists b :: b in d.bindings && (RefersToDestination(rules, d, b, x) || RefersToPayload(rules, d, b, x)))
    && (forall x :: x in e.limitations <==> exists b :: b in d.bindings && Limits(d, b, x))
    && (forall x :: x in e.diagnostics <==> exists b :: b in d.bindings && Warns(d, b, x))
  }

  lemma JoinedByBindings<T>(pieces: seq<seq<T>>, bindings: seq<Binding>, x: T, says: Binding -> bool)
    requires |pieces| == |bindings|
    requires forall i :: 0 <= i < |pieces| ==> (x in pieces[i] <==> says(bindings[i]))
    ensures x in Joined(pieces) <==> exists b :: b in bindings && says(b)
  {
    hide Joined;
    InJoined(pieces, x);
    if b :| b in bindings && says(b) {
      var i :| 0 <= i < |bindings| && bindings[i] == b;
      assert x in pieces[i];
    }
  }

  lemma DefinitionsByBindings(rules: Rules, d: Document, parts: seq<Emission>, x: Definition)
    requires d.Parsed? && |parts| == |d.bindings|
    requires forall i :: 0 <= i < |parts| ==> BindingEmits(rules, d, d.bindings[i], parts[i])
    ensures x in Joined(Definitions(parts)) <==>
              exists b :: b in d.bindings && (DefinesDestination(rules, d, b, x) || DefinesPayload(rules, d, b, x))
  {
    hide DefinesDestination, DefinesPayload, RefersToDestination, RefersToPayload, Limits, Warns, Joined;
    forall i | 0 <= i < |parts|
      ensures x in parts[i].definitions <==>
                DefinesDestination(rules, d, d.bindings[i], x) || DefinesPayload(rules, d, d.bindings[i], x)
    {
      assert BindingEmits(rules, d, d.bindings[i], parts[i]);
    }
    JoinedByBindings(Definitions(parts), d.bindings, x,
                     (b: Binding) => DefinesDestination(rules, d, b, x) || DefinesPayload(rules, d, b, x));
  }

  lemma ReferencesByBindings(rules: Rules, d: Document, parts: seq<Emission>, x: Reference)
    requires d.Parsed? && |parts| == |d.bindings|
    requires forall i :: 0 <= i < |parts| ==> BindingEmits(rules, d, d.bindings[i], parts[i])
    ensures x in Joined(References(parts)) <==>
              exists b :: b in d.bindings && (RefersToDestination(rules, d, b, x) || RefersToPayload(rules, d, b, x))
  {
    hide DefinesDestination, DefinesPayload, RefersToDestination, RefersToPayload, Limits, Warns, Joined;
    forall i | 0 <= i < |parts|
      ensures x in parts[i].references <==>
                RefersToDestination(rules, d, d.bindings[i], x) || RefersToPayload(rules, d, d.bindings[i], x)
    {
      assert BindingEmits(rules, d, d.bindings[i], parts[i]);
    }
    JoinedByBindings(References(parts), d.bindings, x,
                     (b: Binding) => RefersToDestination(rules, d, b, x) || RefersToPayload(rules, d, b, x));
  }

  lemma LimitationsByBindings(rules: Rules, d: Document, parts: seq<Emission>, x: Limitation)
    requires d.Parsed? && |parts| == |d.bindings|
    requires forall i :: 0 <= i < |parts| ==> BindingEmits(rules, d, d.bindings[i], parts[i])
    ensures x in Joined(Limitations(parts)) <==> exists b :: b in d.bindings && Limits(d, b, x)
  {
    hide DefinesDestination, DefinesPayload, RefersToDestination, RefersToPayload, Limits, Warns, Joined, InOrder;
    forall i | 0 <= i < |parts| ensures x in parts[i].limitations <==> Limits(d, d.bindings[i], x) {
      assert BindingEmits(rules, d, d.bindings[i], parts[i]);
    }
    JoinedByBindings(Limitations(parts), d.bindings, x, (b: Binding) => Limits(d, b, x));
  }

  lemma DiagnosticsByBindings(rules: Rules, d: Document, parts: seq<Emission>, x: Diagnostic)
    requires d.Parsed? && |parts| == |d.bindings|
    requires forall i :: 0 <= i < |parts| ==> BindingEmits(rules, d, d.bindings[i], parts[i])
    ensures x in Joined(Diagnostics(parts)) <==> exists b :: b in d.bindings && Warns(d, b, x)
  {
    hide DefinesDestination, DefinesPayload, RefersToDestination, RefersToPayload, Limits, Warns, Joined, InOrder;
    forall i | 0 <= i < |parts| ensures x in parts[i].diagnostics <==> Warns(d, d.bindings[i], x) {
      assert BindingEmits(rules, d, d.bindings[i], parts[i]);
    }
    JoinedByBindings(Diagnostics(parts), d.bindings, x, (b: Binding) => Warns(d, b, x));
  }

  lemma DocumentByBindings(rules: Rules, d: Document)
    requires d.Parsed? && EmitDocument(rules, d).Ok?
    ensures EmitsByBindings(rules, d, EmitDocument(rules, d).value)
  {
    hide EmitDocument, DocumentEmits, EmitsByBindings;
    DocumentIs(rules, d);
    DocumentSays(rules, d, EmitDocument(rules, d).value);
  }

  // --- whole extractions ----------------------------------------------------------------

  lemma {:induction false} DocumentsAre(rules: Rules, documents: seq<Document>) returns (parts: seq<Emission>)
    ensures EmitDocuments(rules, documents).Throws? <==> exists d :: d in documents && DocumentRefused(rules, d)
    ensures EmitDocuments(rules, documents).Ok? ==>
              && |parts| == |documents| && Composed(EmitDocuments(rules, documents).value, parts)
              && forall i :: 0 <= i < |documents| ==> DocumentEmits(rules, documents[i], parts[i])
  {
    hide EmitDocument, DocumentRefused, DocumentEmits, Composed;
    parts := [];
    if documents == [] {
      NothingComposed();
    } else {
      var n := |documents| - 1;
      var before := DocumentsAre(rules, documents[..n]);
      assert documents == documents[..n] + [documents[n]];
      DocumentIs(rules, documents[n]);
      if EmitDocuments(rules, documents).Ok? {
        var last := EmitDocument(rules, documents[n]).value;
        ComposedAppend(EmitDocuments(rules, documents[..n]).value, before, last);
        parts := before + [last];
      }
    }
  }

  ghost predicate IsStamp(d: Document, s: Stamp) {
    && s.path == d.path && s.contentHash == d.contentHash && s.classification == d.classification
    && (d.Parsed? ==> s.state == "parsed") && (d.Incomplete? ==> s.state == "incomplete")
    && (d.Failed? ==> s.state == "failed")
  }

  // A key that was given up, at its first definition.
  ghost predicate Ambiguous(all: seq<Definition>, l: Limitation) {
    l.code == "ambiguous_event_definition" &&
    exists v :: FirstOf(all, v) && Disagree(all, v.key) && l.scope == v.path
  }

  ghost predicate CoverageIs(documents: seq<Document>, parts: seq<Emission>, c: Coverage) {
    var all := Joined(Definitions(parts));
    && c.eligible == |documents| && c.skipped == 0
    && c.failed == |Keep(documents, (d: Document) => d.Failed?)| && c.processed == |documents| - c.failed
    && (if documents == [] then
          c.state == Unsupported && c.limitations == [Limitation("event_inputs_not_found", "")]
        else
          && (forall l :: l in c.limitations <==> l in Joined(Limitations(parts)) || Ambiguous(all, l))
          && (c.state == AllFailed <==> forall d :: d in documents ==> d.Failed?)
          && (c.state == Complete <==> c.limitations == [] && forall d :: d in documents ==> !d.Failed?)
          && c.state != Unsupported)
  }

  // The undisputed definitions, every reference and every diagnostic of the
  // documents, whose emissions these are.
  ghost predicate ExtractionIs(documents: seq<Document>, parts: seq<Emission>, x: Extraction) {
    var all := Joined(Definitions(parts));
    && (forall v :: v in x.definitions <==> FirstOf(all, v) && !Disagree(all, v.key)) && DistinctKeys(x.definitions)
    && multiset(x.references) == multiset(Joined(References(parts)))
    && x.diagnostics == Joined(Diagnostics(parts))
    && CoverageIs(documents, parts, x.coverage)
    && |x.sourceFingerprint| == |documents|
    && forall i :: 0 <= i < |documents| ==> IsStamp(documents[i], x.sourceFingerprint[i])
  }

  lemma {:induction false} FailuresKept(documents: seq<Document>)
    ensures FailedCount(documents) == |Keep(documents, (d: Document) => d.Failed?)|
  {
    var failed := (d: Document) => d.Failed?;
    if documents != [] {
      var n := |documents| - 1;
      FailuresKept(documents[..n]);
      assert documents == documents[..n] + [documents[n]];
      KeepConcat(documents[..n], [documents[n]], failed);
    }
  }

  lemma {:induction false} AmbiguitiesAre(all: seq<Definition>, keys: seq<Key>, l: Limitation)
    requires forall key :: key in keys ==> Disagree(all, key)
    ensures l in AmbiguityLimitations(all, keys) <==>
              l.code == "ambiguous_event_definition" &&
              exists v :: FirstOf(all, v) && v.key in keys && l.scope == v.path
  {
    hide Disagree, FirstOf;
    if keys != [] {
      AmbiguitiesAre(all, keys[1..], l);
      FoundIsFirst(all, keys[0]);
      assert keys == [keys[0]] + keys[1..];
    }
  }

  // Looking a key up gives its first definition.
  lemma {:induction false} FoundIsFirst(all: seq<Definition>, key: Key)
    requires Disagree(all, key)
    ensures Find(all, key).Some?
    ensures forall v :: FirstOf(all, v) && v.key == key <==> Find(all, key) == Some(v)
  {
    FindIsFirst(all, key);
  }

  lemma {:induction false} FindIsFirst(all: seq<Definition>, key: Key)
    ensures forall v :: FirstOf(all, v) && v.key == key <==> Find(all, key) == Some(v)
  {
    if all != [] {
      var rest := all[1..];
      assert all == [all[0]] + rest;
      if all[0].key == key {
        assert all[0] == all[0] && FirstOf(all, all[0]);
      } else {
        FindIsFirst(rest, key);
        forall v: Definition | v.key == key ensures FirstOf(all, v) <==> FirstOf(rest, v) {
          FirstBehind(all[0], rest, v);
        }
      }
    }
  }

  lemma FirstBehind(first: Definition, rest: seq<Definition>, v: Definition)
    requires first.key != v.key
    ensures FirstOf([first] + rest, v) <==> FirstOf(rest, v)
  {
    var all := [first] + rest;
    if FirstOf(all, v) {
      var i :| 0 <= i < |all| && all[i] == v && forall j :: 0 <= j < i ==> all[j].key != v.key;
      assert rest[i - 1] == v && forall j :: 0 <= j < i - 1 ==> rest[j] == all[j + 1];
    }
    if FirstOf(rest, v) {
      var i :| 0 <= i < |rest| && rest[i] == v && forall j :: 0 <= j < i ==> rest[j].key != v.key;
      assert all[i + 1] == v && forall j :: 0 <= j < i + 1 ==> all[j].key != v.key;
    }
  }

  lemma LimitationsAre(rules: Rules, e: Emission, l: Limitation)
    ensures var unique := Sort(Distinct(e.limitations), ByScope(rules));
            var added := AmbiguityLimitations(e.definitions, Resolve(e.definitions).ambiguous);
            l in Sort(unique + added, ByScope(rules)) <==> l in e.limitations || Ambiguous(e.definitions, l)
  {
    hide Sort, Distinct, AmbiguityLimitations, Resolve, FirstOf, Disagree;
    var unique := Sort(Distinct(e.limitations), ByScope(rules));
    var keys := Resolve(e.definitions).ambiguous;
    var added := AmbiguityLimitations(e.definitions, keys);
    SameElements(unique, Distinct(e.limitations));
    SameElements(Sort(unique + added, ByScope(rules)), unique + added);
    ResolveIsExact(e.definitions);
    AmbiguitiesAre(e.definitions, keys, l);
  }

  lemma FinishIs(rules: Rules, documents: seq<Document>, e: Emission, parts: seq<Emission>)
    requires Composed(e, parts)
    ensures ExtractionIs(
              documents, parts, Finish(rules, documents, FailedCount(documents), e, Resolve(e.definitions)))
  {
    hide Sort, Distinct, AmbiguityLimitations, Resolve, FirstOf, Disagree, Ambiguous, Joined, FailedCount, Keep,
         ByScope, ByDefinition, ByReference, ResolvedExactly, DistinctKeys;
    var x := Finish(rules, documents, FailedCount(documents), e, Resolve(e.definitions));
    ResolvedValues(rules, e.definitions);
    FinishedCoverage(rules, documents, e, parts);
  }

  lemma ResolvedValues(rules: Rules, all: seq<Definition>)
    ensures var values := Sort(Resolve(all).values, ByDefinition(rules));
            (forall v :: v in values <==> FirstOf(all, v) && !Disagree(all, v.key)) && DistinctKeys(values)
  {
    hide Sort, Resolve, FirstOf, Disagree, ByDefinition;
    ResolveIsExact(all);
    var values := Resolve(all).values;
    var sorted := Sort(values, ByDefinition(rules));
    SameElements(sorted, values);
    assert NoDuplicates(values);
    RearrangedWithoutDuplicates(values, sorted);
    forall i, j | 0 <= i < j < |sorted| ensures sorted[i].key != sorted[j].key {
      assert sorted[i] in values && sorted[j] in values;
      var a :| 0 <= a < |values| && values[a] == sorted[i];
      var b :| 0 <= b < |values| && values[b] == sorted[j];
      assert a < b || b < a;
    }
  }

  lemma FinishedCoverage(rules: Rules, documents: seq<Document>, e: Emission, parts: seq<Emission>)
    requires Composed(e, parts)
    ensures CoverageIs(
              documents, parts, Finish(rules, documents, FailedCount(documents), e, Resolve(e.definitions)).coverage)
  {
    hide Sort, Distinct, AmbiguityLimitations, Resolve, FirstOf, Disagree, Ambiguous, Joined, FailedCount, Keep,
         ByScope, ByDefinition, ByReference;
    FailuresKept(documents);
    AllFailedCount(documents);
    forall l { LimitationsAre(rules, e, l); }
    NoneFailedCount(documents);
  }

  lemma {:induction false} NoneFailedCount(documents: seq<Document>)
    ensures FailedCount(documents) == 0 <==> forall d :: d in documents ==> !d.Failed?
  {
    if documents != [] {
      var n := |documents| - 1;
      NoneFailedCount(documents[..n]);
      assert documents == documents[..n] + [documents[n]];
    }
  }

  // An extraction fails for exactly the refused documents. Otherwise it holds the
  // undisputed definitions, every reference and every diagnostic of the documents
  // in path order, and its coverage counts them.
  lemma ExtractIs(rules: Rules, documents: seq<Document>) returns (sorted: seq<Document>, parts: seq<Emission>)
    ensures Extract(rules, documents).Throws? <==> exists d :: d in documents && DocumentRefused(rules, d)
    ensures multiset(sorted) == multiset(documents)
    ensures TotalOrder(rules.leq) ==>
              forall i, j :: 0 <= i < j < |sorted| ==> rules.leq([sorted[i].path], [sorted[j].path])
    ensures Extract(rules, documents).Ok? ==>
              && |parts| == |sorted| && ExtractionIs(sorted, parts, Extract(rules, documents).value)
              && forall i :: 0 <= i < |sorted| ==> DocumentEmits(rules, sorted[i], parts[i])
  {
    hide EmitDocuments, Finish, DocumentRefused, DocumentEmits, ExtractionIs, Sort, TotalOrder, TotalPreorder;
    sorted := Sort(documents, ByPath(rules));
    SameElements(sorted, documents);
    parts := DocumentsAre(rules, sorted);
    if Extract(rules, documents).Ok? {
      FinishIs(rules, sorted, EmitDocuments(rules, sorted).value, parts);
    }
    if TotalOrder(rules.leq) {
      ByPathIsPreorder(rules);
      SortSorts(documents, ByPath(rules));
    }
  }

  ghost predicate DefinedBy(rules: Rules, documents: seq<Document>, v: Definition) {
    exists d, b :: d in documents && d.Parsed? && b in d.bindings &&
                   (DefinesDestination(rules, d, b, v) || DefinesPayload(rules, d, b, v))
  }

  ghost predicate ReferredBy(rules: Rules, documents: seq<Document>, r: Reference) {
    exists d, b :: d in documents && d.Parsed? && b in d.bindings &&
                   (RefersToDestination(rules, d, b, r) || RefersToPayload(rules, d, b, r))
  }

  lemma SameDocuments(rules: Rules, a: seq<Document>, b: seq<Document>)
    requires forall d :: d in a <==> d in b
    ensures forall r :: ReferredBy(rules, a, r) <==> ReferredBy(rules, b, r)
    ensures forall v :: DefinedBy(rules, a, v) <==> DefinedBy(rules, b, v)
  {
    hide DefinesDestination, DefinesPayload, RefersToDestination, RefersToPayload;
  }

  ghost predicate Defined(rules: Rules, documents: seq<Document>, key: Key) {
    exists v :: DefinedBy(rules, documents, v) && v.key == key
  }

  // Two definitions of the key differ in shape.
  ghost predicate Disputed(rules: Rules, documents: seq<Document>, key: Key) {
    exists v, w :: DefinedBy(rules, documents, v) && DefinedBy(rules, documents, w) &&
                   v.key == key && w.key == key && v.shape != w.shape
  }

  lemma PartsOfExtraction(documents: seq<Document>, parts: seq<Emission>, x: Extraction)
    requires ExtractionIs(documents, parts, x)
    ensures var all := Joined(Definitions(parts));
            (forall v :: v in x.definitions <==> FirstOf(all, v) && !Disagree(all, v.key))
    ensures forall r :: r in x.references <==> r in Joined(References(parts))
  {
    hide Joined, FirstOf, Disagree, CoverageIs;
    SameElements(x.references, Joined(References(parts)));
  }

  lemma FirstIsThere(all: seq<Definition>, v: Definition)
    requires FirstOf(all, v)
    ensures v in all
  {
  }

  lemma SurvivingKey(rules: Rules, documents: seq<Document>, all: seq<Definition>, x: Extraction, key: Key)
    requires forall v :: v in all <==> DefinedBy(rules, documents, v)
    requires forall v :: v in x.definitions <==> FirstOf(all, v) && !Disagree(all, v.key)
    ensures (exists v :: v in x.definitions && v.key == key) <==>
            Defined(rules, documents, key) && !Disputed(rules, documents, key)
  {
    hide DefinedBy, FirstOf;
    if Defined(rules, documents, key) {
      var first := SomeFirst(all, key);
    }
    forall v | FirstOf(all, v) ensures v in all {
      FirstIsThere(all, v);
    }
    assert Disagree(all, key) <==> Disputed(rules, documents, key);
  }

  lemma DocumentSays(rules: Rules, d: Document, e: Emission)
    requires DocumentEmits(rules, d, e)
    ensures d.Parsed? ==> EmitsByBindings(rules, d, e)
    ensures !d.Parsed? ==> e.definitions == [] && e.references == []
  {
    hide BindingEmits, DefinesDestination, DefinesPayload, RefersToDestination, RefersToPayload, Limits, Warns, Joined;
    if d.Parsed? {
      var parts :| BindingsEmit(rules, d, e, parts);
      forall x { DefinitionsByBindings(rules, d, parts, x); }
      forall x { ReferencesByBindings(rules, d, parts, x); }
      forall x { LimitationsByBindings(rules, d, parts, x); }
      forall x { DiagnosticsByBindings(rules, d, parts, x); }
    }
  }

  lemma ReferenceOfDocuments(rules: Rules, documents: seq<Document>, parts: seq<Emission>, r: Reference)
    requires |parts| == |documents|
    requires forall i :: 0 <= i < |documents| ==> DocumentEmits(rules, documents[i], parts[i])
    ensures r in Joined(References(parts)) <==> ReferredBy(rules, documents, r)
  {
    hide DocumentEmits, DefinesDestination, DefinesPayload, RefersToDestination, RefersToPayload, Limits, Warns, Joined;
    InJoined(References(parts), r);
    forall i | 0 <= i < |documents|
      ensures r in parts[i].references <==>
                documents[i].Parsed? &&
                exists b :: b in documents[i].bindings &&
                            (RefersToDestination(rules, documents[i], b, r) ||
                             RefersToPayload(rules, documents[i], b, r))
    {
      DocumentSays(rules, documents[i], parts[i]);
    }
    if d, b :| d in documents && d.Parsed? && b in d.bindings &&
               (RefersToDestination(rules, d, b, r) || RefersToPayload(rules, d, b, r))
    {
      var i :| 0 <= i < |documents| && documents[i] == d;
      assert r in References(parts)[i];
    }
  }

  lemma DefinitionOfDocuments(rules: Rules, documents: seq<Document>, parts: seq<Emission>, v: Definition)
    requires |parts| == |documents|
    requires forall i :: 0 <= i < |documents| ==> DocumentEmits(rules, documents[i], parts[i])
    ensures v in Joined(Definitions(parts)) <==> DefinedBy(rules, documents, v)
  {
    hide DocumentEmits, DefinesDestination, DefinesPayload, RefersToDestination, RefersToPayload, Limits, Warns, Joined;
    InJoined(Definitions(parts), v);
    forall i | 0 <= i < |documents|
      ensures v in parts[i].definitions <==>
                documents[i].Parsed? &&
                exists b :: b in documents[i].bindings &&
                            (DefinesDestination(rules, documents[i], b, v) || DefinesPayload(rules, documents[i], b, v))
    {
      DocumentSays(rules, documents[i], parts[i]);
    }
    if d, b :| d in documents && d.Parsed? && b in d.bindings &&
               (DefinesDestination(rules, d, b, v) || DefinesPayload(rules, d, b, v))
    {
      var i :| 0 <= i < |documents| && documents[i] == d;
      assert v in Definitions(parts)[i];
    }
  }

  // The references of an extraction are exactly those of the bindings, and a key
  // is defined in it exactly when bindings define it and agree on its shape.
  lemma ExtractedByBindings(rules: Rules, documents: seq<Document>)
    requires Extract(rules, documents).Ok?
    ensures var x := Extract(rules, documents).value;
            && (forall r :: r in x.references <==> ReferredBy(rules, documents, r))
            && (forall v :: v in x.definitions ==> DefinedBy(rules, documents, v))
            && (forall key :: (exists v :: v in x.definitions && v.key == key) <==>
                  Defined(rules, documents, key) && !Disputed(rules, documents, key))
  {
    var sorted, parts := ExtractIs(rules, documents);
    SameElements(sorted, documents);
    hide Extract, ExtractionIs, DocumentEmits, Joined, FirstOf, Disagree, DefinedBy, ReferredBy, Defined, Disputed;
    var x := Extract(rules, documents).value;
    PartsOfExtraction(sorted, parts, x);
    forall r ensures r in x.references <==> ReferredBy(rules, documents, r) {
      ReferenceOfDocuments(rules, sorted, parts, r);
      SameDocuments(rules, sorted, documents);
    }
    var all := Joined(Definitions(parts));
    forall v ensures v in all <==> DefinedBy(rules, documents, v) {
      DefinitionOfDocuments(rules, sorted, parts, v);
      SameDocuments(rules, sorted, documents);
    }
    forall v | v in x.definitions ensures v in all {
      FirstIsThere(all, v);
    }
    forall key
      ensures (exists v :: v in x.definitions && v.key == key) <==>
              Defined(rules, documents, key) && !Disputed(rules, documents, key)
    {
      SurvivingKey(rules, documents, all, x, key);
    }
  }

  // --- in what order ---------------------------------------------------------------

  function DefinitionKey(v: Definition): seq<string> {
    [v.key.contractKind, v.key.canonicalKey, v.path]
  }

  // A reference that is not resolved is placed by its pattern.
  function ReferenceKey(r: Reference): seq<string> {
    [r.contractKind, match r.target case Resolved(key) => key case Unresolved(pattern, _) => pattern, r.path]
  }

  function LimitationKey(l: Limitation): seq<string> {
    [l.code, l.scope]
  }

  ghost predicate Ordered<T>(s: seq<T>, leq: (seq<string>, seq<string>) -> bool, key: T -> seq<string>) {
    forall i, j :: 0 <= i < j < |s| ==> leq(key(s[i]), key(s[j]))
  }

  // Definitions and references come by kind, key and path, and limitations by
  // code and scope.
  lemma ExtractedInOrder(rules: Rules, documents: seq<Document>)
    requires TotalPreorder(rules.leq) && documents != [] && Extract(rules, documents).Ok?
    ensures var x := Extract(rules, documents).value;
            && Ordered(x.definitions, rules.leq, DefinitionKey)
            && Ordered(x.references, rules.leq, ReferenceKey)
            && Ordered(x.coverage.limitations, rules.leq, LimitationKey)
  {
    hide Sort, TotalPreorder, EmitDocuments, Resolve, AmbiguityLimitations, Distinct, Ordered;
    var sorted := Sort(documents, ByPath(rules));
    var e := EmitDocuments(rules, sorted).value;
    var x := Extract(rules, documents).value;
    DefinitionsInOrder(rules, Resolve(e.definitions).values, x.definitions);
    ReferencesInOrder(rules, e.references, x.references);
    var unique := Sort(Distinct(e.limitations), ByScope(rules));
    LimitationsInOrder(rules, unique + AmbiguityLimitations(e.definitions, Resolve(e.definitions).ambiguous),
                       x.coverage.limitations);
  }

  lemma DefinitionsInOrder(rules: Rules, all: seq<Definition>, sorted: seq<Definition>)
    requires TotalPreorder(rules.leq) && sorted == Sort(all, ByDefinition(rules))
    ensures Ordered(sorted, rules.leq, DefinitionKey)
  {
    hide Sort, TotalPreorder;
    SortsByKey(all, rules.leq, DefinitionKey, ByDefinition(rules));
  }

  lemma ReferencesInOrder(rules: Rules, all: seq<Reference>, sorted: seq<Reference>)
    requires TotalPreorder(rules.leq) && sorted == Sort(all, ByReference(rules))
    ensures Ordered(sorted, rules.leq, ReferenceKey)
  {
    hide Sort, TotalPreorder;
    SortsByKey(all, rules.leq, ReferenceKey, ByReference(rules));
  }

  lemma LimitationsInOrder(rules: Rules, all: seq<Limitation>, sorted: seq<Limitation>)
    requires TotalPreorder(rules.leq) && sorted == Sort(all, ByScope(rules))
    ensures Ordered(sorted, rules.leq, LimitationKey)
  {
    hide Sort, TotalPreorder;
    SortsByKey(all, rules.leq, LimitationKey, ByScope(rules));
  }
}
