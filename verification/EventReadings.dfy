// What the event parser reads, told in terms of the manifest's own fields, of
// the matched calls, and of the text before them.
module EventReadings {
  import opened Outcomes
  import opened Sorting
  import opened SourceRanges
  import opened Utf16
  import opened BoundedTexts
  import opened EventExtraction
  import opened CanonicalJson
  import opened EventParsing
  import PayloadSchemas

  // --- fields -----------------------------------------------------------------------

  // The first field of that name.
  lemma {:induction false} GetIs(fields: seq<Field>, key: string)
    ensures Get(fields, key).None? <==> forall f :: f in fields ==> f.key != key
    ensures Get(fields, key).Some? ==>
              exists i :: 0 <= i < |fields| && fields[i] == Field(key, Get(fields, key).value)
                          && forall k :: 0 <= k < i ==> fields[k].key != key
  {
    if fields != [] {
      var rest := fields[1..];
      assert fields == [fields[0]] + rest;
      GetIs(rest, key);
      if fields[0].key != key && Get(rest, key).Some? {
        var i :| 0 <= i < |rest| && rest[i] == Field(key, Get(rest, key).value)
                 && forall k :: 0 <= k < i ==> rest[k].key != key;
        assert fields[i + 1] == rest[i];
        assert forall k :: 0 < k < i + 1 ==> fields[k] == rest[k - 1];
      }
    }
  }

  ghost predicate Chooses(j: Option<Json>, words: set<string>) {
    exists w :: w in words && j == Some(JText(w))
  }

  ghost predicate MayChoose(j: Option<Json>, words: set<string>) {
    j == None || Chooses(j, words)
  }

  // A text that is neither blank nor too long once it is normalised and trimmed.
  ghost predicate GivesText(c: Reader, j: Option<Json>, s: string) {
    && j.Some? && j.value.JText? && s == Trim(c.nfc(j.value.s))
    && HasText(s) && Length(s) <= 512 && '\0' !in s
  }

  ghost predicate MayGiveText(c: Reader, j: Option<Json>) {
    j == None || exists s :: GivesText(c, j, s)
  }

  ghost predicate TextRead(c: Reader, j: Option<Json>, t: Option<string>) {
    (t.None? <==> j.None?) && (t.Some? ==> GivesText(c, j, t.value))
  }

  lemma TextIs(c: Reader, j: Option<Json>)
    ensures OptionalText(c, j).Ok? <==> MayGiveText(c, j)
    ensures OptionalText(c, j).Ok? ==> TextRead(c, j, OptionalText(c, j).value)
  {
    if j.Some? && j.value.JText? {
      var s := Trim(c.nfc(j.value.s));
      assert s != "" ==> HasText(s);
      if OptionalText(c, j).Ok? {
        assert GivesText(c, j, s);
      }
    }
  }

  lemma WordIs(j: Option<Json>, vocabulary: seq<string>, words: set<string>)
    requires forall w :: w in words <==> w in vocabulary
    ensures Member(j, vocabulary).Ok? <==> Chooses(j, words)
    ensures Member(j, vocabulary).Ok? ==> j == Some(JText(Member(j, vocabulary).value))
    ensures OptionalMember(j, vocabulary).Ok? <==> MayChoose(j, words)
    ensures OptionalMember(j, vocabulary).Ok? ==> WordRead(j, OptionalMember(j, vocabulary).value)
  {
  }

  ghost predicate WordRead(j: Option<Json>, w: Option<string>) {
    j == if w.Some? then Some(JText(w.value)) else None
  }

  // --- payload schemas ------------------------------------------------------------------

  // A schema is an object that names itself; its body, if any, is kept as far as
  // it is understood.
  ghost predicate MayGiveSchema(c: Reader, j: Option<Json>) {
    j.Some? ==>
      && j.value.JObject? && Get(j.value.fields, "id").Some? && MayGiveText(c, Get(j.value.fields, "id"))
      && var schema := Get(j.value.fields, "schema");
         schema.Some? ==>
           && PayloadSchemas.Normalize(c.nfc, schema.value, 100_000).Ok?
           && PayloadSchemas.Normalize(c.nfc, schema.value, 100_000).value.0.JObject?
  }

  ghost predicate SchemaRead(c: Reader, j: Option<Json>, p: Option<PayloadSchema>)
    requires MayGiveSchema(c, j)
  {
    && (p.None? <==> j.None?)
    && (p.Some? ==>
          var schema := Get(j.value.fields, "schema");
          && GivesText(c, Get(j.value.fields, "id"), p.value.id)
          && (p.value.schema.None? <==> schema.None?)
          && (p.value.schema.Some? ==>
                p.value.schema.value == PayloadSchemas.Normalize(c.nfc, schema.value, 100_000).value.0))
  }

  lemma SchemaIs(c: Reader, j: Option<Json>)
    ensures ParsePayloadSchema(c, j).Ok? <==> MayGiveSchema(c, j)
    ensures ParsePayloadSchema(c, j).Ok? ==> SchemaRead(c, j, ParsePayloadSchema(c, j).value)
  {
    hide PayloadSchemas.Normalize, OptionalText, MayGiveText, GivesText;
    if j.Some? && j.value.JObject? {
      TextIs(c, Get(j.value.fields, "id"));
    }
  }

  // --- bindings ----------------------------------------------------------------------------

  ghost predicate Readable(c: Reader, j: Json) {
    && j.JObject?
    && Chooses(Get(j.fields, "role"), {"producer", "consumer"})
    && Chooses(Get(j.fields, "provider"), {"kafka", "aws_sqs", "aws_sns", "gcp_pubsub"})
    && MayChoose(Get(j.fields, "destinationKind"), {"topic", "queue", "subscription"})
    && MayChoose(Get(j.fields, "delivery"), {"at_most_once", "at_least_once", "exactly_once", "unknown"})
    && MayChoose(Get(j.fields, "ordering"), {"ordered", "unordered", "partition_ordered", "unknown"})
    && MayGiveText(c, Get(j.fields, "destination")) && MayGiveText(c, Get(j.fields, "destinationExpression"))
    && MayGiveText(c, Get(j.fields, "brokerNamespace"))
    && (Get(j.fields, "destination").Some? <==> Get(j.fields, "destinationExpression").None?)
    && MayGiveSchema(c, Get(j.fields, "payloadSchema"))
  }

  ghost predicate ReadFrom(c: Reader, j: Json, b: Binding)
    requires Readable(c, j)
  {
    && (b.role == Producer <==> Get(j.fields, "role") == Some(JText("producer")))
    && Get(j.fields, "provider") == Some(JText(b.provider))
    && KindRead(Get(j.fields, "destinationKind"), b)
    && TextRead(c, Get(j.fields, "destination"), b.destination)
    && TextRead(c, Get(j.fields, "destinationExpression"), b.destinationExpression)
    && TextRead(c, Get(j.fields, "brokerNamespace"), b.brokerNamespace)
    && WordRead(Get(j.fields, "delivery"), b.delivery)
    && WordRead(Get(j.fields, "ordering"), b.ordering)
    && SchemaRead(c, Get(j.fields, "payloadSchema"), b.payloadSchema)
  }

  // A destination is of the kind that is told, and otherwise of its provider's.
  ghost predicate KindRead(j: Option<Json>, b: Binding) {
    if j.Some? then j == Some(JText(b.destinationKind))
    else
      && (b.destinationKind == "queue" <==> b.provider == "aws_sqs")
      && (b.destinationKind == "subscription" <==> b.provider == "gcp_pubsub" && b.role == Consumer)
      && b.destinationKind in {"queue", "subscription", "topic"}
  }

  // A binding of a manifest is read exactly when it is readable, field by field.
  lemma BindingReads(c: Reader, j: Json)
    ensures ParseBinding(c, j).Ok? <==> Readable(c, j)
    ensures ParseBinding(c, j).Ok? ==> ReadFrom(c, j, ParseBinding(c, j).value)
  {
    if j.JObject? {
      WordsRead(j);
      hide Get, Member, OptionalMember, OptionalText, ParsePayloadSchema, Chooses, MayChoose, WordRead, GivesText,
           MayGiveText, SchemaRead, MayGiveSchema, TextRead, KindRead, DefaultKind;
      TextIs(c, Get(j.fields, "destination"));
      TextIs(c, Get(j.fields, "destinationExpression"));
      TextIs(c, Get(j.fields, "brokerNamespace"));
      SchemaIs(c, Get(j.fields, "payloadSchema"));
      if ParseBinding(c, j).Ok? {
        var kind := OptionalMember(Get(j.fields, "destinationKind"), KINDS).value;
        KindIs(Get(j.fields, "destinationKind"), kind, ParseBinding(c, j).value);
      }
    }
  }

  lemma KindIs(j: Option<Json>, kind: Option<string>, b: Binding)
    requires WordRead(j, kind)
    requires b.destinationKind == if kind.Some? then kind.value else DefaultKind(b.provider, b.role)
    ensures KindRead(j, b)
  {
  }

  lemma WordsRead(j: Json)
    requires j.JObject?
    ensures var role := Get(j.fields, "role");
            && (Member(role, ["producer", "consumer"]).Ok? <==> Chooses(role, {"producer", "consumer"}))
            && (Member(role, ["producer", "consumer"]).Ok? ==>
                  (Member(role, ["producer", "consumer"]).value == "producer" <==> role == Some(JText("producer"))))
    ensures var provider := Get(j.fields, "provider");
            && (Member(provider, PROVIDERS).Ok? <==> Chooses(provider, {"kafka", "aws_sqs", "aws_sns", "gcp_pubsub"}))
            && (Member(provider, PROVIDERS).Ok? ==> provider == Some(JText(Member(provider, PROVIDERS).value)))
    ensures var kind := Get(j.fields, "destinationKind");
            && (OptionalMember(kind, KINDS).Ok? <==> MayChoose(kind, {"topic", "queue", "subscription"}))
            && (OptionalMember(kind, KINDS).Ok? ==> WordRead(kind, OptionalMember(kind, KINDS).value))
    ensures var delivery := Get(j.fields, "delivery");
            && (OptionalMember(delivery, DELIVERIES).Ok?
                <==> MayChoose(delivery, {"at_most_once", "at_least_once", "exactly_once", "unknown"}))
            && (OptionalMember(delivery, DELIVERIES).Ok? ==>
                  WordRead(delivery, OptionalMember(delivery, DELIVERIES).value))
    ensures var ordering := Get(j.fields, "ordering");
            && (OptionalMember(ordering, ORDERINGS).Ok?
                <==> MayChoose(ordering, {"ordered", "unordered", "partition_ordered", "unknown"}))
            && (OptionalMember(ordering, ORDERINGS).Ok? ==>
                  WordRead(ordering, OptionalMember(ordering, ORDERINGS).value))
  {
    hide Get, Member, OptionalMember, Chooses, MayChoose, WordRead;
    WordIs(Get(j.fields, "role"), ["producer", "consumer"], {"producer", "consumer"});
    WordIs(Get(j.fields, "provider"), PROVIDERS, {"kafka", "aws_sqs", "aws_sns", "gcp_pubsub"});
    WordIs(Get(j.fields, "destinationKind"), KINDS, {"topic", "queue", "subscription"});
    WordIs(Get(j.fields, "delivery"), DELIVERIES, {"at_most_once", "at_least_once", "exactly_once", "unknown"});
    WordIs(Get(j.fields, "ordering"), ORDERINGS, {"ordered", "unordered", "partition_ordered", "unknown"});
  }

  lemma {:induction false} BindingsRead(c: Reader, items: seq<Json>)
    ensures ParseBindings(c, items).Ok? <==> forall j :: j in items ==> Readable(c, j)
    ensures ParseBindings(c, items).Ok? ==>
              var bs := ParseBindings(c, items).value;
              |bs| == |items| && forall i :: 0 <= i < |items| ==> ReadFrom(c, items[i], bs[i])
  {
    hide ParseBinding, Readable, ReadFrom;
    if items != [] {
      var front, last := items[..|items| - 1], items[|items| - 1];
      assert items == front + [last];
      BindingsRead(c, front);
      BindingReads(c, last);
    }
  }

  // --- manifests ------------------------------------------------------------------------------

  // The text is an object that calls itself an event manifest.
  ghost predicate IsManifest(c: Reader, text: string) {
    && c.yaml(text).Some? && c.yaml(text).value.JObject?
    && Get(c.yaml(text).value.fields, "schema") == Some(JText("reverb.events"))
  }

  ghost predicate GoodManifest(c: Reader, text: string) {
    && IsManifest(c, text)
    && Get(c.yaml(text).value.fields, "schemaVersion") == Some(JText("1.0"))
    && exists items :: Get(c.yaml(text).value.fields, "bindings") == Some(JArray(items))
                       && |items| <= 100_000 && forall j :: j in items ==> Readable(c, j)
  }

  // The manifest is refused exactly when its text cannot be read although it
  // declares itself one, or when it is one and not a good one.
  lemma ManifestReads(c: Reader, text: string)
    ensures var r := ParseManifest(c, text);
            && (r.Throws? <==> if c.yaml(text).None? then c.declares(text)
                               else IsManifest(c, text) && !GoodManifest(c, text))
            && (r == Ok(None) <==> !IsManifest(c, text) && !(c.yaml(text).None? && c.declares(text)))
            && (r.Ok? && r.value.Some? ==>
                  && GoodManifest(c, text)
                  && exists items :: Get(c.yaml(text).value.fields, "bindings") == Some(JArray(items))
                                     && |r.value.value| == |items|
                                     && forall i :: 0 <= i < |items| ==>
                                          Readable(c, items[i]) && ReadFrom(c, items[i], r.value.value[i]))
  {
    hide Get, Readable, ReadFrom, ParseBindings;
    if c.yaml(text).Some? && c.yaml(text).value.JObject? {
      var bindings := Get(c.yaml(text).value.fields, "bindings");
      if bindings.Some? && bindings.value.JArray? {
        BindingsRead(c, bindings.value.items);
      }
    }
  }

  // --- positions --------------------------------------------------------------------------------

  // Columns count code units from the last line break.
  lemma {:induction false} ColumnCountsUnits(head: string, tail: string)
    requires '\n' !in tail && (head == "" || head[|head| - 1] == '\n')
    ensures ColumnAfter(head + tail) == 1 + Length(tail)
    decreases |tail|
  {
    if tail == "" {
      assert head + tail == head;
    } else {
      var n := |tail| - 1;
      assert (head + tail)[..|head + tail| - 1] == head + tail[..n];
      ColumnCountsUnits(head, tail[..n]);
      LengthAppend(tail[..n], tail[n]);
      assert tail == tail[..n] + [tail[n]];
    }
  }

  lemma {:induction false} LengthAppend(s: string, c: char)
    ensures Length(s + [c]) == Length(s) + |UnitsOf(ScalarOf(c))|
  {
    if s == "" {
      assert s + [c] == [c] && [c][1..] == "";
      assert TextOf("") == [];
    } else {
      LengthAppend(s[1..], c);
      assert (s + [c])[1..] == s[1..] + [c];
    }
  }

  // The range starts where the text before it ends, on one line.
  lemma RangeStarts(head: string, tail: string, length: nat)
    requires '\n' !in tail && (head == "" || head[|head| - 1] == '\n')
    ensures RangeAfter(head + tail, length)
            == SourceRange(Newlines(head) + 1, 1 + Length(tail), Newlines(head) + 1, 1 + Length(tail) + length)
  {
    ColumnCountsUnits(head, tail);
    NoMoreNewlines(head, tail);
  }

  lemma {:induction false} NoMoreNewlines(head: string, tail: string)
    requires '\n' !in tail
    ensures Newlines(head + tail) == Newlines(head)
    decreases |tail|
  {
    if tail == "" {
      assert head + tail == head;
    } else {
      assert (head + tail)[..|head + tail| - 1] == head + tail[..|tail| - 1];
      NoMoreNewlines(head, tail[..|tail| - 1]);
    }
  }

  ghost predicate OccursAt(text: string, token: string, i: nat) {
    i <= |text| && token <= text[i..]
  }

  lemma {:induction false} IndexIsFirst(text: string, token: string)
    ensures IndexOf(text, token).None? <==> forall i: nat :: !OccursAt(text, token, i)
    ensures IndexOf(text, token).Some? ==>
              && OccursAt(text, token, IndexOf(text, token).value)
              && forall i: nat :: i < IndexOf(text, token).value ==> !OccursAt(text, token, i)
  {
    StartIsFirst(text, token);
    hide OccursAt;
    if !(token <= text) && text != "" {
      var rest := text[1..];
      IndexIsFirst(rest, token);
      if IndexOf(rest, token).None? {
        forall i: nat ensures !OccursAt(text, token, i) {
          if i > 0 {
            OccursLater(text, token, i);
          }
        }
      } else {
        var k := IndexOf(rest, token).value + 1;
        OccursLater(text, token, k);
        forall i: nat | i < k ensures !OccursAt(text, token, i) {
          if i > 0 {
            OccursLater(text, token, i);
          }
        }
      }
    }
  }

  lemma StartIsFirst(text: string, token: string)
    ensures OccursAt(text, token, 0) <==> token <= text
    ensures text == "" && token != "" ==> forall i: nat :: !OccursAt(text, token, i)
  {
    assert text[0..] == text;
  }

  lemma OccursLater(text: string, token: string, i: nat)
    requires text != "" && i > 0
    ensures OccursAt(text, token, i) <==> OccursAt(text[1..], token, i - 1)
  {
    if i <= |text| {
      assert text[i..] == text[1..][i - 1..];
    }
  }

  // A binding is placed at the first occurrence of what it names; its expression
  // is kept as a digest and nothing else of it changes.
  lemma LocatedIs(c: Reader, text: string, b: Binding)
    requires b.destination.Some? || b.destinationExpression.Some?
    ensures var l := Located(c, text, b);
            var token := if b.destination.Some? then b.destination.value else b.destinationExpression.value;
            && l == b.(destinationExpression := l.destinationExpression, range := l.range)
            && (l.destinationExpression.Some? <==> b.destinationExpression.Some?)
            && (b.destinationExpression.Some? ==>
                  l.destinationExpression == Some(c.digest(b.destinationExpression.value)))
            && (l.range.Some? <==> exists i: nat :: OccursAt(text, token, i))
            && (l.range.Some? ==>
                  exists i: nat :: OccursAt(text, token, i) && (forall k: nat :: k < i ==> !OccursAt(text, token, k))
                                   && l.range == Some(RangeAfter(text[..i], Length(token))))
  {
    hide IndexOf, RangeAfter, Length, OccursAt;
    var token := if b.destination.Some? then b.destination.value else b.destinationExpression.value;
    IndexIsFirst(text, token);
  }

  // --- literal calls ------------------------------------------------------------------------------

  // The namespace of a call is its account's, when both parts are there, and
  // else the one its context gives, when that is not blank.
  ghost predicate NamespaceRead(c: Reader, m: Match, namespace: Option<string>) {
    if m.account.Some? && m.account.value.0 != "" && m.account.value.1 != "" then
      namespace == Some("aws:" + m.account.value.0 + ":" + m.account.value.1)
    else if m.provider in c.namespaces && HasText(c.namespaces[m.provider]) then
      namespace == Some(Trim(c.namespaces[m.provider]))
    else namespace == None
  }

  ghost predicate LiteralRead(c: Reader, m: Match, b: Binding) {
    && 0 < |m.destination| && Length(m.destination) <= 512
    && b.role == m.role && b.provider == m.provider && b.destinationKind == m.destinationKind
    && b.destination == Some(m.destination) && b.destinationExpression == None
    && NamespaceRead(c, m, b.brokerNamespace)
    && b.payloadSchema == None && b.delivery == None && b.ordering == None
    && b.range == Some(RangeAfter(m.before, Length(m.destination)))
  }

  lemma LiteralIs(c: Reader, m: Match, b: Binding)
    ensures Literal(c, m) == Some(b) <==> LiteralRead(c, m, b)
  {
    hide Length, RangeAfter, Trim, HasText;
  }

  lemma {:induction false} LiteralsAre(c: Reader, matches: seq<Match>, b: Binding)
    ensures b in Literals(c, matches) <==> exists m :: m in matches && LiteralRead(c, m, b)
  {
    hide Literal, LiteralRead;
    if matches != [] {
      var front, last := matches[..|matches| - 1], matches[|matches| - 1];
      assert matches == front + [last];
      LiteralsAre(c, front, b);
      LiteralIs(c, last, b);
    }
  }

  function DestinationKey(b: Binding): seq<string> {
    [b.provider, if b.destination.Some? then b.destination.value else "",
     if b.role == Producer then "producer" else "consumer"]
  }

  // Literal bindings come by provider, destination and role.
  lemma LiteralsInOrder(c: Reader, matches: seq<Match>, sorted: seq<Binding>)
    requires TotalPreorder(c.leq) && sorted == Sort(Literals(c, matches), ByDestination(c.leq))
    ensures forall i, j :: 0 <= i < j < |sorted| ==> c.leq(DestinationKey(sorted[i]), DestinationKey(sorted[j]))
  {
    hide Sort, TotalPreorder, Literals;
    assert forall a, b :: ByDestination(c.leq)(a, b) <==> c.leq(DestinationKey(a), DestinationKey(b));
    hide ByDestination, DestinationKey;
    SortsByKey(Literals(c, matches), c.leq, DestinationKey, ByDestination(c.leq));
  }

  // --- documents ------------------------------------------------------------------------------------

  ghost predicate Decoded(c: Reader, a: Artifact, text: string) {
    a.classification !in {"vendored", "test"} && c.decode(a.bytes) == Some(text)
  }

  ghost predicate HasLiteral(c: Reader, text: string) {
    exists m :: m in c.matches(text) && 0 < |m.destination| && Length(m.destination) <= 512
  }

  // The document of an artifact whose text can be decoded: too large or refused
  // if it mentions events at all; else a manifest's bindings, each in its place;
  // else the literal calls; else incomplete if it mentions events.
  lemma DocumentReads(c: Reader, a: Artifact, text: string)
    requires Decoded(c, a, text)
    ensures var r, large := Parse(c, a), |a.bytes| > 8 * 1024 * 1024;
            && (r.None? <==> !c.mentions(text) && (large || (!GoodManifest(c, text) && !PlainLiteral(c, text))))
            && (r.Some? && r.value.Failed? <==> c.mentions(text) && (large || ManifestRefused(c, text)))
            && (r.Some? && r.value.Failed? ==> (r.value.overLimit <==> large))
            && (r.Some? && r.value.Incomplete? <==>
                  !large && c.mentions(text) && PlainText(c, text) && !HasLiteral(c, text))
            && (r.Some? && r.value.Parsed? <==> !large && (GoodManifest(c, text) || PlainLiteral(c, text)))
            && (r.Some? && r.value.Parsed? ==>
                  && (r.value.stratum == "event_manifest" <==> GoodManifest(c, text))
                  && (r.value.stratum == "literal_source_binding" <==> PlainLiteral(c, text))
                  && (PlainLiteral(c, text) ==>
                        forall b :: b in r.value.bindings <==>
                          exists m :: m in c.matches(text) && LiteralRead(c, m, b))
                  && (GoodManifest(c, text) ==> ManifestRead(c, text, r.value.bindings)))
  {
    hide ParseManifest, IsManifest, GoodManifest, LiteralRead, Literals, Sort, HasLiteral, Located, ManifestRead,
         ByDestination;
    ManifestReads(c, text);
    GoodIsManifest(c, text);
    LiteralsAreThere(c, text);
    SameElements(Sort(Literals(c, c.matches(text)), ByDestination(c.leq)), Literals(c, c.matches(text)));
    if GoodManifest(c, text) && ParseManifest(c, text).Ok? {
      ManifestIsPlaced(c, text);
    }
  }

  ghost predicate PlainText(c: Reader, text: string) {
    !IsManifest(c, text) && !(c.yaml(text).None? && c.declares(text))
  }

  ghost predicate PlainLiteral(c: Reader, text: string) {
    PlainText(c, text) && HasLiteral(c, text)
  }

  ghost predicate ManifestRefused(c: Reader, text: string) {
    if c.yaml(text).None? then c.declares(text) else IsManifest(c, text) && !GoodManifest(c, text)
  }

  ghost predicate ManifestRead(c: Reader, text: string, bindings: seq<Binding>) {
    exists items, bs: seq<Binding> ::
      && IsManifest(c, text) && Get(c.yaml(text).value.fields, "bindings") == Some(JArray(items))
      && |bindings| == |bs| == |items|
      && forall i :: 0 <= i < |items| ==>
           Readable(c, items[i]) && ReadFrom(c, items[i], bs[i]) && bindings[i] == Located(c, text, bs[i])
  }

  lemma GoodIsManifest(c: Reader, text: string)
    ensures GoodManifest(c, text) ==> IsManifest(c, text)
    ensures IsManifest(c, text) ==> c.yaml(text).Some?
  {
  }

  lemma LiteralsAreThere(c: Reader, text: string)
    ensures Literals(c, c.matches(text)) != [] <==> HasLiteral(c, text)
    ensures forall b :: b in Literals(c, c.matches(text)) <==>
              exists m :: m in c.matches(text) && LiteralRead(c, m, b)
  {
    hide Literals, Length, RangeAfter, NamespaceRead;
    var all := Literals(c, c.matches(text));
    forall b ensures b in all <==> exists m :: m in c.matches(text) && LiteralRead(c, m, b) {
      LiteralsAre(c, c.matches(text), b);
    }
    if all != [] {
      assert all[0] in all;
    }
    if m :| m in c.matches(text) && 0 < |m.destination| && Length(m.destination) <= 512 {
      LiteralIs(c, m, Literal(c, m).value);
      assert Literal(c, m).value in all;
    }
  }

  lemma ManifestIsPlaced(c: Reader, text: string)
    requires ParseManifest(c, text).Ok? && ParseManifest(c, text).value.Some?
    ensures var bs := ParseManifest(c, text).value.value;
            ManifestRead(c, text, seq(|bs|, i requires 0 <= i < |bs| => Located(c, text, bs[i])))
  {
    hide ParseManifest, Readable, ReadFrom, Located;
    ManifestReads(c, text);
  }

  // Nothing is made of vendored files, of tests, or of what cannot be decoded.
  lemma NothingIsRead(c: Reader, a: Artifact)
    requires a.classification in {"vendored", "test"} || c.decode(a.bytes).None?
    ensures Parse(c, a).None?
  {
  }
}
