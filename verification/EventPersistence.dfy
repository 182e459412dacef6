// What is checked of a persisted event document, and which of the documents
// that parsing builds pass that check.
module EventPersistence {
  import opened Outcomes
  import opened Sorting
  import opened SourceRanges
  import opened Utf16
  import opened BoundedTexts
  import opened EventExtraction
  import opened EventParsing
  import PayloadSchemas
  import ContractKeys

  const CLASSIFICATIONS: seq<string> := ["source", "generated", "vendored", "test", "example"]
  const DIGEST_PREFIX := "sha256:"

  predicate IsDigest(s: string) {
    && |s| == |DIGEST_PREFIX| + 64 && DIGEST_PREFIX <= s
    && forall i :: |DIGEST_PREFIX| <= i < |s| ==> '0' <= s[i] <= '9' || 'a' <= s[i] <= 'f'
  }

  predicate AcceptedPayload(p: Option<PayloadSchema>) {
    p.Some? ==>
      && AcceptedText(p.value.id, TEXT_LIMIT)
      && (p.value.schema.Some? ==>
            p.value.schema.value.JObject? && PayloadSchemas.Check(p.value.schema.value, ITEM_LIMIT).Some?)
  }

  predicate AcceptedBinding(b: Binding) {
    && b.provider in PROVIDERS && b.destinationKind in KINDS
    && b.destination.Some? != b.destinationExpression.Some?
    && (b.destination.Some? ==> AcceptedText(b.destination.value, TEXT_LIMIT))
    && (b.brokerNamespace.Some? ==> AcceptedText(b.brokerNamespace.value, TEXT_LIMIT))
    && (b.destinationExpression.Some? ==> IsDigest(b.destinationExpression.value))
    && (b.delivery.Some? ==> b.delivery.value in DELIVERIES)
    && (b.ordering.Some? ==> b.ordering.value in ORDERINGS)
    && AcceptedPayload(b.payloadSchema)
    && (b.range.Some? ==> AcceptedRange(b.range.value))
  }

  // `repoPath` is the check on repository paths.
  predicate AcceptedDocument(repoPath: string -> bool, d: Document) {
    && repoPath(d.path) && IsDigest(d.contentHash) && d.classification in CLASSIFICATIONS
    && (d.Parsed? ==>
          (d.stratum == MANIFEST || d.stratum == LITERAL) && forall b :: b in d.bindings ==> AcceptedBinding(b))
  }

  // --- what extraction and hashing demand ---------------------------------------------

  const DESTINATION_SCHEME := ContractKeys.Ascii("event-destination-v1")

  // Destination keys are contract keys of the four texts, over the same normal form.
  ghost predicate KeysAreIdentities(rules: Rules, n: ContractKeys.Normaliser, nfc: string -> string) {
    && (forall s :: n.normal(TextOf(s)) == TextOf(Trim(nfc(s))))
    && (forall p, ns, k, d :: rules.destinationKey(p, ns, k, d).Some? ==>
          ContractKeys.ContractKey(n, DESTINATION_SCHEME, [TextOf(p), TextOf(ns), TextOf(k), TextOf(d)]).Ok?)
  }

  // A document whose payload has a hash.
  predicate HashableDocument(d: Document) {
    d.Parsed? ==> forall b :: b in d.bindings ==> Hashable(b)
  }

  // What the patterns guarantee of their matches: the vocabularies, and that
  // regions and accounts are plain.
  ghost predicate MatchesAre(c: Reader) {
    forall text, m :: m in c.matches(text) ==>
      && m.provider in PROVIDERS && m.destinationKind in KINDS
      && (m.account.Some? ==> '\0' !in m.account.value.0 && '\0' !in m.account.value.1)
  }

  ghost predicate ReaderOk(c: Reader) {
    && MatchesAre(c) && Normalises(c.nfc) && TotalOrder(c.leq)
    && forall s :: IsDigest(c.digest(s))
  }

  // --- manifests always pass ----------------------------------------------------------

  lemma PayloadIsAccepted(c: Reader, j: Option<Json>)
    requires ParsePayloadSchema(c, j).Ok?
    ensures var p := ParsePayloadSchema(c, j).value;
            (p.Some? && p.value.schema.Some? ==> PayloadSchemas.Finite(p.value.schema.value)) <==> AcceptedPayload(p)
  {
    var p := ParsePayloadSchema(c, j).value;
    if p.Some? && p.value.schema.Some? {
      PayloadSchemas.NormalizedIsAccepted(c.nfc, Get(j.value.fields, "schema").value, ITEM_LIMIT);
    }
  }

  lemma ManifestBindingIsAccepted(c: Reader, text: string, j: Json)
    requires ReaderOk(c) && ParseBinding(c, j).Ok?
    ensures var b := Located(c, text, ParseBinding(c, j).value); AcceptedBinding(b) <==> Hashable(b)
  {
    hide IsDigest, AcceptedText, ParsePayloadSchema, PayloadSchemas.Finite, AcceptedPayload, IndexOf, RangeAfter;
    PayloadIsAccepted(c, Get(j.fields, "payloadSchema"));
  }

  lemma {:induction false} ManifestBindings(c: Reader, items: seq<Json>)
    requires ParseBindings(c, items).Ok?
    ensures forall b :: b in ParseBindings(c, items).value ==> exists j :: ParseBinding(c, j) == Ok(b)
  {
    hide ParseBinding;
    if items != [] {
      ManifestBindings(c, items[..|items| - 1]);
    }
  }

  // --- literal calls need not -----------------------------------------------------------

  // What extraction leaves unchecked: a destination without a namespace may be
  // blank or hold a NUL, and a namespace may be longer than its normal form.
  predicate SafeLiteral(b: Binding) {
    if b.brokerNamespace.None? then b.destination.Some? && HasText(b.destination.value) && '\0' !in b.destination.value
    else Length(b.brokerNamespace.value) <= TEXT_LIMIT
  }

  lemma KeySegmentsAreBounded(n: ContractKeys.Normaliser, scheme: Text, a: Text, b: Text, c: Text, d: Text)
    requires ContractKeys.ContractKey(n, scheme, [a, b, c, d]).Ok?
    ensures ContractKeys.Bounded(n.normal(b)) && ContractKeys.Bounded(n.normal(d))
  {
    assert [a, b, c, d][1..] == [b, c, d] && [b, c, d][1..] == [c, d] && [c, d][1..] == [d];
    assert ContractKeys.JoinedSegments(n, [b, c, d]).Ok? && ContractKeys.JoinedSegments(n, [c, d]).Ok?;
    assert ContractKeys.JoinedSegments(n, [d]).Ok?;
  }

  lemma IdentitiesHaveText(rules: Rules, n: ContractKeys.Normaliser, nfc: string -> string, b: Binding)
    requires KeysAreIdentities(rules, n, nfc) && Normalises(nfc)
    requires b.destination.Some? && b.brokerNamespace.Some?
    requires rules.destinationKey(b.provider, b.brokerNamespace.value, b.destinationKind, b.destination.value).Some?
    ensures HasText(b.destination.value) && '\0' !in b.destination.value
    ensures HasText(b.brokerNamespace.value) && '\0' !in b.brokerNamespace.value
  {
    hide Normalises, ContractKeys.ContractKey, HasText;
    KeySegmentsAreBounded(
      n, DESTINATION_SCHEME, TextOf(b.provider), TextOf(b.brokerNamespace.value), TextOf(b.destinationKind),
      TextOf(b.destination.value));
    assert n.normal(TextOf(b.destination.value)) == TextOf(Trim(nfc(b.destination.value)));
    assert n.normal(TextOf(b.brokerNamespace.value)) == TextOf(Trim(nfc(b.brokerNamespace.value)));
    AcceptedNormalForm(nfc, b.destination.value);
    AcceptedNormalForm(nfc, b.brokerNamespace.value);
  }

  // Only the two texts of a literal binding can fail the check.
  lemma LiteralTexts(c: Reader, m: Match)
    requires m.provider in PROVIDERS && m.destinationKind in KINDS && Literal(c, m).Some?
    ensures var b := Literal(c, m).value;
            && b.destination.Some? && Length(b.destination.value) <= TEXT_LIMIT && Hashable(b)
            && (AcceptedBinding(b) <==>
                  AcceptedText(b.destination.value, TEXT_LIMIT) &&
                  (b.brokerNamespace.Some? ==> AcceptedText(b.brokerNamespace.value, TEXT_LIMIT)))
  {
    hide HasText, RangeAfter, AcceptedText, ContextNamespace, AccountNamespace;
  }

  lemma LiteralIsAccepted(c: Reader, rules: Rules, n: ContractKeys.Normaliser, d: Document, m: Match)
    requires ReaderOk(c) && KeysAreIdentities(rules, n, c.nfc)
    requires m.provider in PROVIDERS && m.destinationKind in KINDS && Literal(c, m).Some?
    requires d.Parsed? && EmitBinding(rules, d, Literal(c, m).value).Ok?
    ensures var b := Literal(c, m).value; Hashable(b) && (AcceptedBinding(b) <==> SafeLiteral(b))
  {
    hide ReaderOk, KeysAreIdentities, HasText, EmitDestination, AcceptedBinding, Literal, Hashable;
    LiteralTexts(c, m);
    var b := Literal(c, m).value;
    if b.brokerNamespace.Some? {
      assert Normalises(c.nfc) by { ReaderNormalises(c); }
      IdentitiesHaveText(rules, n, c.nfc, b);
    }
  }

  lemma ReaderNormalises(c: Reader)
    requires ReaderOk(c)
    ensures Normalises(c.nfc)
  {
  }

  lemma {:induction false} LiteralsAreMatched(c: Reader, matches: seq<Match>)
    ensures forall b :: b in Literals(c, matches) ==> exists m :: m in matches && Literal(c, m) == Some(b)
  {
    hide Literal;
    if matches != [] {
      var n := |matches| - 1;
      LiteralsAreMatched(c, matches[..n]);
      assert matches == matches[..n] + [matches[n]];
    }
  }

  // --- the documents that can be read back ---------------------------------------------

  lemma {:induction false} EmittedBindings(rules: Rules, d: Document, bindings: seq<Binding>)
    requires d.Parsed? && EmitBindings(rules, d, bindings).Ok?
    ensures forall b :: b in bindings ==> EmitBinding(rules, d, b).Ok?
  {
    hide EmitBinding;
    if bindings != [] {
      var n := |bindings| - 1;
      EmittedBindings(rules, d, bindings[..n]);
      assert bindings == bindings[..n] + [bindings[n]];
    }
  }

  lemma ManifestBindingsOfText(c: Reader, text: string, b: Binding)
    requires ReaderOk(c) && ParseManifest(c, text).Ok? && ParseManifest(c, text).value.Some?
    requires b in ParseManifest(c, text).value.value
    ensures AcceptedBinding(Located(c, text, b)) <==> Hashable(Located(c, text, b))
  {
    hide ParseBinding, AcceptedBinding, Hashable, Located, ReaderOk;
    var items := Get(c.yaml(text).value.fields, "bindings").value.items;
    ManifestBindings(c, items);
    var j :| ParseBinding(c, j) == Ok(b);
    ManifestBindingIsAccepted(c, text, j);
  }

  predicate SafeDocument(d: Document) {
    d.Parsed? && d.stratum == LITERAL ==> forall b :: b in d.bindings ==> SafeLiteral(b)
  }

  ghost predicate BindingsPass(d: Document) {
    d.Parsed? ==>
      (d.stratum == MANIFEST || d.stratum == LITERAL) &&
      ((forall b :: b in d.bindings ==> AcceptedBinding(b)) <==> SafeDocument(d))
  }

  lemma ManifestPasses(c: Reader, a: Artifact, text: string)
    requires ReaderOk(c) && ParseManifest(c, text).Ok? && ParseManifest(c, text).value.Some?
    requires ParseText(c, a, text).Some? && ParseText(c, a, text).value.Parsed?
    requires HashableDocument(ParseText(c, a, text).value)
    ensures BindingsPass(ParseText(c, a, text).value)
  {
    hide ParseManifest, Located, AcceptedBinding, Hashable, ReaderOk, IndexOf;
    var d := ParseText(c, a, text).value;
    var bindings := ParseManifest(c, text).value.value;
    forall b | b in d.bindings ensures AcceptedBinding(b) {
      var i :| 0 <= i < |d.bindings| && d.bindings[i] == b;
      ManifestBindingsOfText(c, text, bindings[i]);
    }
  }

  lemma LiteralsPass(c: Reader, rules: Rules, n: ContractKeys.Normaliser, a: Artifact, text: string)
    requires ReaderOk(c) && KeysAreIdentities(rules, n, c.nfc) && ParseManifest(c, text) == Ok(None)
    requires ParseText(c, a, text).Some? && ParseText(c, a, text).value.Parsed?
    requires EmitDocument(rules, ParseText(c, a, text).value).Ok?
    ensures BindingsPass(ParseText(c, a, text).value)
  {
    hide ParseManifest, AcceptedBinding, Literal, SafeLiteral, KeysAreIdentities, EmitBinding, EmitBindings;
    var d := ParseText(c, a, text).value;
    EmittedBindings(rules, d, d.bindings);
    var literals := Literals(c, c.matches(text));
    LiteralsAreMatched(c, c.matches(text));
    SameElements(d.bindings, literals);
    forall b | b in d.bindings ensures AcceptedBinding(b) <==> SafeLiteral(b) {
      var m :| m in c.matches(text) && Literal(c, m) == Some(b);
      LiteralIsAccepted(c, rules, n, d, m);
    }
  }

  // A parsed document that is extracted and hashed is read back exactly when its
  // artifact's provenance is sound and its literal bindings are safe.
  lemma ParsedIsAccepted(c: Reader, rules: Rules, n: ContractKeys.Normaliser, repoPath: string -> bool, a: Artifact)
    requires ReaderOk(c) && KeysAreIdentities(rules, n, c.nfc) && Parse(c, a).Some?
    requires var d := Parse(c, a).value; EmitDocument(rules, d).Ok? && HashableDocument(d)
    ensures AcceptedDocument(repoPath, Parse(c, a).value) <==>
              repoPath(a.path) && IsDigest(a.contentHash) && a.classification in CLASSIFICATIONS &&
              SafeDocument(Parse(c, a).value)
  {
    hide ReaderOk, KeysAreIdentities, ParseText, ParseManifest, EmitDocument, HashableDocument, IsDigest,
         AcceptedBinding, SafeDocument;
    var text, d := c.decode(a.bytes).value, Parse(c, a).value;
    if d.Parsed? {
      ParsedByManifestOrLiterals(c, a, text);
      if ParseManifest(c, text) == Ok(None) {
        LiteralsPass(c, rules, n, a, text);
      } else {
        ManifestPasses(c, a, text);
      }
    } else {
      assert SafeDocument(d) by { UnparsedIsSafe(d); }
    }
  }

  lemma ParsedByManifestOrLiterals(c: Reader, a: Artifact, text: string)
    requires ParseText(c, a, text).Some? && ParseText(c, a, text).value.Parsed?
    ensures ParseManifest(c, text).Ok?
  {
    hide ParseManifest;
  }

  lemma UnparsedIsSafe(d: Document)
    requires !d.Parsed?
    ensures SafeDocument(d)
  {
  }

  // --- a document that is not read back ----------------------------------------------------

  // A call that subscribes to the topic of two blanks, without a namespace.
  function BlankSubscription(path: string, contentHash: string): Document {
    Parsed(path, contentHash, "source",
           [Binding(Consumer, "kafka", None, "topic", Some("  "), None, None, None, None, Some(RangeAfter("", 2)))],
           LITERAL)
  }

  lemma BlankIsParsed(c: Reader, a: Artifact, text: string)
    requires a.classification == "source" && |a.bytes| <= BYTE_LIMIT && c.decode(a.bytes) == Some(text)
    requires c.yaml(text) == None && !c.declares(text) && c.namespaces == map[]
    requires c.matches(text) == [Match(Consumer, "kafka", "topic", "", "  ", None)]
    ensures Parse(c, a) == Some(BlankSubscription(a.path, a.contentHash))
  {
    var blank := Match(Consumer, "kafka", "topic", "", "  ", None);
    assert [blank][..0] == [];
    assert Length("  ") == 2 by {
      assert "  "[1..] == " " && " "[1..] == "";
    }
    assert Literals(c, []) == [];
    assert Literals(c, [blank]) == [Literal(c, blank).value];
    SortOne(Literal(c, blank).value, ByDestination(c.leq));
  }

  lemma SortOne<T>(x: T, leq: (T, T) -> bool)
    ensures Sort([x], leq) == [x]
  {
  }

  lemma BlankIsExtracted(rules: Rules, path: string, contentHash: string)
    ensures Extract(rules, [BlankSubscription(path, contentHash)]).Ok?
  {
    var d := BlankSubscription(path, contentHash);
    ExtractThrows(rules, [d]);
    hide Extract;
    assert d.bindings[..0] == [];
    assert EmitBindings(rules, d, []).Ok?;
    assert EmitDocument(rules, d).Ok?;
  }

  lemma BlankIsNotAccepted(repoPath: string -> bool, path: string, contentHash: string)
    ensures !AcceptedDocument(repoPath, BlankSubscription(path, contentHash))
  {
    var bindings := BlankSubscription(path, contentHash).bindings;
    assert bindings[0] in bindings && !HasText("  ");
  }

  // --- the field checks themselves -------------------------------------------------------

  // A text with something in it, of at most 512 units and without NUL.
  ghost predicate IsIdentity(s: string) {
    (exists c :: c in s && !Blank(c)) && Length(s) <= 512 && forall c :: c in s ==> c != '\0'
  }

  ghost predicate IsHash(s: string) {
    && |s| == 71 && s[..7] == "sha256:"
    && forall i :: 7 <= i < 71 ==> s[i] in "0123456789abcdef"
  }

  // The vocabularies of the fields, one of destination and expression, bounded
  // texts, an object for a schema body, and a range that does not run backwards.
  ghost predicate StoredBinding(b: Binding) {
    && b.provider in {"kafka", "aws_sqs", "aws_sns", "gcp_pubsub"}
    && b.destinationKind in {"topic", "queue", "subscription"}
    && (b.delivery.Some? ==> b.delivery.value in {"at_most_once", "at_least_once", "exactly_once", "unknown"})
    && (b.ordering.Some? ==> b.ordering.value in {"ordered", "unordered", "partition_ordered", "unknown"})
    && (b.destination.None? <==> b.destinationExpression.Some?)
    && (b.destination.Some? ==> IsIdentity(b.destination.value))
    && (b.destinationExpression.Some? ==> IsHash(b.destinationExpression.value))
    && (b.brokerNamespace.Some? ==> IsIdentity(b.brokerNamespace.value))
    && (b.payloadSchema.Some? ==> IsIdentity(b.payloadSchema.value.id))
    && (b.payloadSchema.Some? && b.payloadSchema.value.schema.Some? ==>
          var schema := b.payloadSchema.value.schema.value;
          schema.JObject? && PayloadSchemas.Clean(schema) && PayloadSchemas.Weight(schema) <= 100_000)
    && (b.range.Some? ==>
          var r := b.range.value;
          && r.startLine >= 1 && r.endLine >= r.startLine && r.startColumn >= 1 && r.endColumn >= 1
          && (r.endLine == r.startLine ==> r.endColumn >= r.startColumn))
  }

  lemma IdentityIs(s: string)
    ensures AcceptedText(s, TEXT_LIMIT) <==> IsIdentity(s)
  {
    hide Length, Blank;
    if HasText(s) {
      var i :| 0 <= i < |s| && !Blank(s[i]);
      assert s[i] in s;
    }
  }

  lemma HashIs(s: string)
    ensures IsDigest(s) <==> IsHash(s)
  {
    assert |DIGEST_PREFIX| == 7;
    if |s| == 71 {
      assert DIGEST_PREFIX <= s <==> s[..7] == DIGEST_PREFIX;
      forall i | 7 <= i < 71
        ensures '0' <= s[i] <= '9' || 'a' <= s[i] <= 'f' <==> s[i] in "0123456789abcdef"
      {
        HexDigits(s[i]);
      }
    }
  }

  lemma HexDigits(c: char)
    ensures '0' <= c <= '9' || 'a' <= c <= 'f' <==> c in "0123456789abcdef"
  {
    var digits := "0123456789abcdef";
    if '0' <= c <= '9' {
      assert digits[c as int - '0' as int] == c;
    }
    if 'a' <= c <= 'f' {
      assert digits[c as int - 'a' as int + 10] == c;
    }
  }

  lemma BindingIsStored(b: Binding)
    ensures AcceptedBinding(b) <==> StoredBinding(b)
  {
    hide AcceptedText, IsIdentity, IsDigest, IsHash, PayloadSchemas.Check, PayloadSchemas.Clean, PayloadSchemas.Weight;
    if b.destination.Some? {
      IdentityIs(b.destination.value);
    }
    if b.destinationExpression.Some? {
      HashIs(b.destinationExpression.value);
    }
    if b.brokerNamespace.Some? {
      IdentityIs(b.brokerNamespace.value);
    }
    if b.payloadSchema.Some? {
      IdentityIs(b.payloadSchema.value.id);
      if b.payloadSchema.value.schema.Some? {
        PayloadSchemas.CheckIs(b.payloadSchema.value.schema.value, ITEM_LIMIT);
      }
    }
  }

  // A stored document is accepted exactly when its provenance is in order and,
  // if it was parsed, each of its bindings is.
  lemma AcceptedExactly(repoPath: string -> bool, d: Document)
    ensures AcceptedDocument(repoPath, d)
            <==> && repoPath(d.path) && IsHash(d.contentHash)
                 && d.classification in {"source", "generated", "vendored", "test", "example"}
                 && (d.Parsed? ==> d.stratum in {"event_manifest", "literal_source_binding"}
                                   && forall b :: b in d.bindings ==> StoredBinding(b))
  {
    hide AcceptedBinding, StoredBinding, IsDigest, IsHash;
    HashIs(d.contentHash);
    forall b ensures AcceptedBinding(b) <==> StoredBinding(b) {
      BindingIsStored(b);
    }
  }
}
