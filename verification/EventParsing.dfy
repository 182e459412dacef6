// Reading one artifact: an event manifest, or the literal calls of a source file.
module EventParsing {
  import opened Outcomes
  import opened Sorting
  import opened SourceRanges
  import opened Utf16
  import opened BoundedTexts
  import opened EventExtraction
  import opened CanonicalJson
  import PayloadSchemas

  datatype Artifact = Artifact(path: string, contentHash: string, classification: string, bytes: seq<int>)

  // One match of a call pattern: the text before its destination, and the region
  // and account that the patterns for queue URLs and topic names also capture.
  datatype Match = Match(
    role: Role, provider: string, destinationKind: string, before: string, destination: string,
    account: Option<(string, string)>)

  // The parts kept abstract: decoding, the YAML reader, the three kinds of
  // pattern, Unicode normalisation, the digest and the locale's order; and the
  // broker namespaces of the request's context.
  datatype Reader = Reader(
    decode: seq<int> -> Option<string>, yaml: string -> Option<Json>, declares: string -> bool,
    mentions: string -> bool, matches: string -> seq<Match>, nfc: string -> string, digest: string -> string,
    leq: (seq<string>, seq<string>) -> bool, namespaces: map<string, string>)

  const PROVIDERS: seq<string> := ["kafka", "aws_sqs", "aws_sns", "gcp_pubsub"]
  const KINDS: seq<string> := ["topic", "queue", "subscription"]
  const DELIVERIES: seq<string> := ["at_most_once", "at_least_once", "exactly_once", "unknown"]
  const ORDERINGS: seq<string> := ["ordered", "unordered", "partition_ordered", "unknown"]
  const MANIFEST := "event_manifest"
  const LITERAL := "literal_source_binding"
  const TEXT_LIMIT := 512
  const ITEM_LIMIT := 100_000
  const BYTE_LIMIT := 8 * 1024 * 1024

  // --- manifests -------------------------------------------------------------------

  function Get(fields: seq<Field>, key: string): Option<Json> {
    if fields == [] then None
    else if fields[0].key == key then Some(fields[0].value)
    else Get(fields[1..], key)
  }

  // A required member of a vocabulary.
  function Member(j: Option<Json>, vocabulary: seq<string>): (r: Result<string>)
    ensures r.Ok? ==> r.value in vocabulary
  {
    if j.Some? && j.value.JText? && j.value.s in vocabulary then Ok(j.value.s) else Throws
  }

  function OptionalMember(j: Option<Json>, vocabulary: seq<string>): (r: Result<Option<string>>)
    ensures r.Ok? && r.value.Some? ==> r.value.value in vocabulary
  {
    if j.None? then Ok(None) else match Member(j, vocabulary) case Throws => Throws case Ok(s) => Ok(Some(s))
  }

  function OptionalText(c: Reader, j: Option<Json>): (r: Result<Option<string>>)
    ensures r.Ok? && r.value.Some? ==> AcceptedText(r.value.value, TEXT_LIMIT)
  {
    if j.None? then Ok(None)
    else if !j.value.JText? then Throws
    else match BoundedText(c.nfc, j.value.s, TEXT_LIMIT) case Throws => Throws case Ok(s) => Ok(Some(s))
  }

  function ParsePayloadSchema(c: Reader, j: Option<Json>): Result<Option<PayloadSchema>> {
    if j.None? then Ok(None)
    else if !j.value.JObject? then Throws
    else
      var schema := Get(j.value.fields, "schema");
      match OptionalText(c, Get(j.value.fields, "id"))
      case Throws => Throws
      case Ok(None) => Throws
      case Ok(Some(id)) =>
        if schema.None? then Ok(Some(PayloadSchema(id, None)))
        else
          match PayloadSchemas.Normalize(c.nfc, schema.value, ITEM_LIMIT)
          case Throws => Throws
          case Ok((kept, _)) => if kept.JObject? then Ok(Some(PayloadSchema(id, Some(kept)))) else Throws
  }

  function DefaultKind(provider: string, role: Role): string {
    if provider == "aws_sqs" then "queue"
    else if provider == "gcp_pubsub" && role == Consumer then "subscription"
    else "topic"
  }

  function ParseBinding(c: Reader, j: Json): Result<Binding> {
    if !j.JObject? then Throws
    else
      var role := Member(Get(j.fields, "role"), ["producer", "consumer"]);
      var provider := Member(Get(j.fields, "provider"), PROVIDERS);
      var kind := OptionalMember(Get(j.fields, "destinationKind"), KINDS);
      var destination := OptionalText(c, Get(j.fields, "destination"));
      var expression := OptionalText(c, Get(j.fields, "destinationExpression"));
      var namespace := OptionalText(c, Get(j.fields, "brokerNamespace"));
      var delivery := OptionalMember(Get(j.fields, "delivery"), DELIVERIES);
      var ordering := OptionalMember(Get(j.fields, "ordering"), ORDERINGS);
      var schema := ParsePayloadSchema(c, Get(j.fields, "payloadSchema"));
      if role.Throws? || provider.Throws? || kind.Throws? || destination.Throws? || expression.Throws? ||
         namespace.Throws? || delivery.Throws? || ordering.Throws? || schema.Throws? ||
         destination.value.None? == expression.value.None?
      then Throws
      else
        var side := if role.value == "producer" then Producer else Consumer;
        Ok(Binding(
          side, provider.value, namespace.value,
          if kind.value.Some? then kind.value.value else DefaultKind(provider.value, side),
          destination.value, expression.value, schema.value, delivery.value, ordering.value, None))
  }

  function ParseBindings(c: Reader, items: seq<Json>): Result<seq<Binding>> {
    if items == [] then Ok([])
    else
      match (ParseBindings(c, items[..|items| - 1]), ParseBinding(c, items[|items| - 1]))
      case (Ok(before), Ok(last)) => Ok(before + [last])
      case _ => Throws
  }

  // None when the text is not an event manifest.
  function ParseManifest(c: Reader, text: string): Result<Option<seq<Binding>>> {
    var tree := c.yaml(text);
    if tree.None? then
      if c.declares(text) then Throws else Ok(None)
    else if !tree.value.JObject? || Get(tree.value.fields, "schema") != Some(JText("reverb.events")) then Ok(None)
    else
      var bindings := Get(tree.value.fields, "bindings");
      if Get(tree.value.fields, "schemaVersion") != Some(JText("1.0")) || bindings.None? || !bindings.value.JArray? ||
         |bindings.value.items| > ITEM_LIMIT
      then Throws
      else match ParseBindings(c, bindings.value.items) case Throws => Throws case Ok(bs) => Ok(Some(bs))
  }

  // --- positions -------------------------------------------------------------------

  // The column after a text, in code units.
  function ColumnAfter(before: string): (column: nat)
    ensures column > 0
  {
    if before == "" || before[|before| - 1] == '\n' then 1
    else ColumnAfter(before[..|before| - 1]) + |UnitsOf(ScalarOf(before[|before| - 1]))|
  }

  function RangeAfter(before: string, length: nat): (r: SourceRange)
    ensures AcceptedRange(r)
  {
    var line, column := Newlines(before) + 1, ColumnAfter(before);
    SourceRange(line, column, line, column + length)
  }

  // The first place at which a token occurs.
  function IndexOf(text: string, token: string): (r: Option<nat>)
    ensures r.Some? ==> r.value <= |text|
  {
    if token <= text then Some(0)
    else if text == "" then None
    else match IndexOf(text[1..], token) case None => None case Some(i) => Some(i + 1)
  }

  // A manifest's binding at its place in the text, its expression hashed.
  function Located(c: Reader, text: string, b: Binding): Binding {
    var token := if b.destination.Some? then b.destination.value
                 else if b.destinationExpression.Some? then b.destinationExpression.value else "";
    var offset := IndexOf(text, token);
    b.(destinationExpression :=
         if b.destinationExpression.Some? then Some(c.digest(b.destinationExpression.value)) else None,
       range := if offset.None? then None else Some(RangeAfter(text[..offset.value], Length(token))))
  }

  // --- literal calls ---------------------------------------------------------------

  function ContextNamespace(c: Reader, provider: string): (r: Option<string>)
    ensures r.Some? ==> HasText(r.value)
  {
    if provider in c.namespaces && Trim(c.namespaces[provider]) != "" then Some(Trim(c.namespaces[provider])) else None
  }

  function AccountNamespace(account: Option<(string, string)>): Option<string> {
    if account.Some? && account.value.0 != "" && account.value.1 != ""
    then Some("aws:" + account.value.0 + ":" + account.value.1)
    else None
  }

  function Literal(c: Reader, m: Match): Option<Binding> {
    if m.destination == "" || Length(m.destination) > TEXT_LIMIT then None
    else
      var account := AccountNamespace(m.account);
      Some(Binding(
        m.role, m.provider, if account.Some? then account else ContextNamespace(c, m.provider), m.destinationKind,
        Some(m.destination), None, None, None, None, Some(RangeAfter(m.before, Length(m.destination)))))
  }

  function Literals(c: Reader, matches: seq<Match>): seq<Binding> {
    if matches == [] then []
    else
      var last := Literal(c, matches[|matches| - 1]);
      Literals(c, matches[..|matches| - 1]) + if last.Some? then [last.value] else []
  }

  function RoleName(role: Role): string {
    if role == Producer then "producer" else "consumer"
  }

  function ByDestination(leq: (seq<string>, seq<string>) -> bool): (Binding, Binding) -> bool {
    var key := (b: Binding) => [b.provider, if b.destination.Some? then b.destination.value else "", RoleName(b.role)];
    (l: Binding, r: Binding) => leq(key(l), key(r))
  }

  // The matches in turn, then in order of provider, destination and role.
  method LiteralBindings(c: Reader, text: string) returns (bindings: seq<Binding>)
    ensures bindings == Sort(Literals(c, c.matches(text)), ByDestination(c.leq))
  {
    hide Literal;
    var matches := c.matches(text);
    bindings := [];
    for i := 0 to |matches|
      invariant bindings == Literals(c, matches[..i])
    {
      assert matches[..i + 1][..i] == matches[..i];
      var binding := Literal(c, matches[i]);
      if binding.Some? {
        bindings := bindings + [binding.value];
      }
    }
    assert matches[..|matches|] == matches;
    bindings := Sort(bindings, ByDestination(c.leq));
  }

  // --- artifacts --------------------------------------------------------------------

  function ParseText(c: Reader, a: Artifact, text: string): Option<Document> {
    var probable := c.mentions(text);
    if |a.bytes| > BYTE_LIMIT then
      if probable then Some(Failed(a.path, a.contentHash, a.classification, true)) else None
    else
      match ParseManifest(c, text)
      case Throws => if probable then Some(Failed(a.path, a.contentHash, a.classification, false)) else None
      case Ok(Some(bindings)) =>
        var located := seq(|bindings|, i requires 0 <= i < |bindings| => Located(c, text, bindings[i]));
        Some(Parsed(a.path, a.contentHash, a.classification, located, MANIFEST))
      case Ok(None) =>
        var bindings := Sort(Literals(c, c.matches(text)), ByDestination(c.leq));
        if bindings != [] then Some(Parsed(a.path, a.contentHash, a.classification, bindings, LITERAL))
        else if probable then Some(Incomplete(a.path, a.contentHash, a.classification))
        else None
  }

  function Parse(c: Reader, a: Artifact): (r: Option<Document>)
    ensures r.Some? ==>
              && r.value.path == a.path && r.value.contentHash == a.contentHash
              && r.value.classification == a.classification
  {
    if a.classification == "vendored" || a.classification == "test" then None
    else match c.decode(a.bytes) case None => None case Some(text) => ParseText(c, a, text)
  }
}
