// The relational join of changed contracts with indexed definitions and
// references, and the findings derived from its edges.
module EvidenceJoin {
  import opened Outcomes
  import opened Sorting
  import opened StringKeys
  import opened KeyedLists

  datatype Protocol = Protocol(
    adapterId: string, adapterVersion: string, extractionVersion: string, identityVersion: int,
    partitioningVersion: int, compatibilityVersion: string)

  datatype Definition = Definition(
    workspaceId: string, repositoryId: string, generationId: string, commitSha: string, family: string,
    contractKind: string, canonicalKey: string, protocol: Protocol, shapeHash: string)

  datatype Reference = Reference(
    workspaceId: string, repositoryId: string, generationId: string, commitSha: string, family: string,
    contractKind: string, canonicalKey: Option<string>, semanticOwner: Option<string>, evidenceStratum: string,
    stableReferenceId: string, path: string, protocol: Protocol)

  datatype Compatibility = Breaking | PotentiallyBreaking | Compatible | UnknownCompatibility
  datatype CoverageState = Complete | Partial | Failed | Unsupported

  datatype ContractChange = ContractChange(
    workspaceId: string, producerRepositoryId: string, baseGenerationId: string, headGenerationId: string,
    baseSha: string, headSha: string, family: string, contractKind: string, canonicalKey: string, changeKind: string,
    compatibility: Compatibility, protocol: Protocol, coverageState: CoverageState)

  datatype Selection = Selection(generationId: string, commitSha: string)
  datatype Capability = Capability(workspaceId: string, registryRevision: string, repositoryIds: seq<string>)

  // What the hashed identities are made of.
  datatype ReferenceIdentity = ReferenceIdentity(
    family: string, contractKind: string, canonicalKey: string, semanticOwner: Option<string>, evidenceStratum: string)
  datatype EdgeIdentity = EdgeIdentity(
    workspaceId: string, producerRepositoryId: string, consumerRepositoryId: string, producerGenerationId: string,
    consumerGenerationId: string, definitionKey: string, stableReferenceId: string, family: string,
    registryRevision: string)
  datatype FindingIdentity = FindingIdentity(
    workspaceId: string, producerRepositoryId: string, consumerRepositoryId: string, contractKind: string,
    canonicalKey: string, changeKind: string, stableReferenceId: string, policyMajor: int)

  datatype Hashes = Hashes(
    reference: ReferenceIdentity -> string, edge: EdgeIdentity -> string, finding: FindingIdentity -> string)

  ghost predicate Injective(h: Hashes) {
    && (forall a, b :: h.reference(a) == h.reference(b) ==> a == b)
    && (forall a, b :: h.edge(a) == h.edge(b) ==> a == b)
    && (forall a, b :: h.finding(a) == h.finding(b) ==> a == b)
  }

  datatype Edge = Edge(
    id: string, workspaceId: string, family: string, producerRepositoryId: string, consumerRepositoryId: string,
    producerGenerationId: string, consumerGenerationId: string, definitionKey: string, stableReferenceId: string,
    contractKind: string, registryRevision: string, definition: Definition, reference: Reference)

  datatype Input = Input(
    capability: Capability, workspaceId: string, registryRevision: string, changes: seq<ContractChange>,
    definitions: seq<Definition>, references: seq<Reference>, selected: map<string, Selection>)

  // --- what the loops look at ----------------------------------------------------

  function DefinitionKey(repositoryId: string, generationId: string, kind: string, key: string): string {
    repositoryId + NUL + (generationId + NUL + (kind + NUL + key))
  }

  function KeyOfDefinition(): Definition -> string {
    (d: Definition) => DefinitionKey(d.repositoryId, d.generationId, d.contractKind, d.canonicalKey)
  }

  // The head definition is preferred over the base one.
  function DefinitionFor(definitions: map<string, Definition>, c: ContractChange): Option<Definition> {
    var head := DefinitionKey(c.producerRepositoryId, c.headGenerationId, c.contractKind, c.canonicalKey);
    var base := DefinitionKey(c.producerRepositoryId, c.baseGenerationId, c.contractKind, c.canonicalKey);
    if head in definitions then Some(definitions[head])
    else if base in definitions then Some(definitions[base])
    else None
  }

  predicate MayRead(cap: Capability, workspaceId: string, repositoryId: string) {
    cap.workspaceId == workspaceId && repositoryId in cap.repositoryIds
  }

  predicate Provenance(input: Input, c: ContractChange, d: Definition) {
    && d.workspaceId == input.workspaceId && d.repositoryId == c.producerRepositoryId
    && d.family == c.family && d.contractKind == c.contractKind
    && ((d.generationId == c.headGenerationId && d.commitSha == c.headSha)
        || (d.generationId == c.baseGenerationId && d.commitSha == c.baseSha))
    && d.protocol == c.protocol
  }

  predicate Matches(input: Input, c: ContractChange, r: Reference) {
    && r.workspaceId == input.workspaceId && r.family == c.family && r.contractKind == c.contractKind
    && r.canonicalKey == Some(c.canonicalKey)
    && r.repositoryId in input.selected
    && input.selected[r.repositoryId] == Selection(r.generationId, r.commitSha)
  }

  predicate Admissible(h: Hashes, input: Input, c: ContractChange, r: Reference) {
    && MayRead(input.capability, input.workspaceId, r.repositoryId)
    && r.protocol.adapterId == c.protocol.adapterId && r.protocol.identityVersion == c.protocol.identityVersion
    && r.stableReferenceId
       == h.reference(ReferenceIdentity(r.family, r.contractKind, c.canonicalKey, r.semanticOwner, r.evidenceStratum))
  }

  function EdgeOf(h: Hashes, input: Input, c: ContractChange, d: Definition, r: Reference): Edge {
    Edge(h.edge(EdgeIdentity(input.workspaceId, d.repositoryId, r.repositoryId, d.generationId, r.generationId,
                             d.canonicalKey, r.stableReferenceId, c.family, input.registryRevision)),
         input.workspaceId, c.family, d.repositoryId, r.repositoryId, d.generationId, r.generationId, d.canonicalKey,
         r.stableReferenceId, c.contractKind, input.registryRevision, d, r)
  }

  // An edge under the key of the map it is stored in.
  datatype Keyed = Keyed(key: string, edge: Edge)

  function EdgeKey(c: ContractChange, r: Reference): string {
    c.canonicalKey + NUL + (r.repositoryId + NUL + r.stableReferenceId)
  }

  function KeyOfEdge(): Keyed -> string {
    (k: Keyed) => k.key
  }

  // Every matching reference of one change, in order.
  function EdgesFor(h: Hashes, input: Input, c: ContractChange, d: Definition, references: seq<Reference>): seq<Keyed> {
    if references == [] then []
    else
      var r := references[|references| - 1];
      EdgesFor(h, input, c, d, references[..|references| - 1])
      + if Matches(input, c, r) then [Keyed(EdgeKey(c, r), EdgeOf(h, input, c, d, r))] else []
  }

  function EdgesUpTo(h: Hashes, input: Input, definitions: map<string, Definition>, changes: seq<ContractChange>)
    : seq<Keyed>
  {
    if changes == [] then []
    else
      var c := changes[|changes| - 1];
      var found := DefinitionFor(definitions, c);
      EdgesUpTo(h, input, definitions, changes[..|changes| - 1])
      + if found.None? then [] else EdgesFor(h, input, c, found.value, input.references)
  }

  // --- what makes the join succeed ----------------------------------------------

  // The reference stands for the changed contract, in the selected generation
  // and commit of its repository.
  ghost predicate Agrees(input: Input, c: ContractChange, r: Reference) {
    && r.workspaceId == input.workspaceId
    && r.family == c.family
    && r.contractKind == c.contractKind
    && r.canonicalKey == Some(c.canonicalKey)
    && r.repositoryId in input.selected
    && r.generationId == input.selected[r.repositoryId].generationId
    && r.commitSha == input.selected[r.repositoryId].commitSha
  }

  // Its repository may be read, its adapter names things as the producer's does,
  // and its id is the one derived from its contract.
  ghost predicate Trusted(h: Hashes, input: Input, c: ContractChange, r: Reference) {
    && input.capability.workspaceId == input.workspaceId
    && r.repositoryId in input.capability.repositoryIds
    && r.protocol.adapterId == c.protocol.adapterId
    && r.protocol.identityVersion == c.protocol.identityVersion
    && r.stableReferenceId
       == h.reference(ReferenceIdentity(r.family, r.contractKind, c.canonicalKey, r.semanticOwner, r.evidenceStratum))
  }

  // The definition is of the change's own contract, at its head or base commit.
  ghost predicate ComesFrom(input: Input, c: ContractChange, d: Definition) {
    && d.workspaceId == input.workspaceId
    && d.repositoryId == c.producerRepositoryId
    && d.family == c.family
    && d.contractKind == c.contractKind
    && d.protocol == c.protocol
    && ((d.generationId == c.headGenerationId && d.commitSha == c.headSha)
        || (d.generationId == c.baseGenerationId && d.commitSha == c.baseSha))
  }

  ghost predicate ChangeOk(h: Hashes, input: Input, definitions: map<string, Definition>, c: ContractChange) {
    && input.capability.workspaceId == input.workspaceId
    && c.producerRepositoryId in input.capability.repositoryIds
    && c.workspaceId == input.workspaceId
    && (DefinitionFor(definitions, c).Some? ==>
          && ComesFrom(input, c, DefinitionFor(definitions, c).value)
          && forall r :: r in input.references && Agrees(input, c, r) ==> Trusted(h, input, c, r))
  }

  ghost predicate Acceptable(h: Hashes, input: Input) {
    && input.capability.registryRevision == input.registryRevision
    && (forall repo :: repo in input.selected ==>
          input.capability.workspaceId == input.workspaceId && repo in input.capability.repositoryIds)
    && (forall c :: c in input.changes ==> ChangeOk(h, input, ByKey(input.definitions, KeyOfDefinition()), c))
  }

  lemma ChecksAre(h: Hashes, input: Input, c: ContractChange, r: Reference)
    ensures Matches(input, c, r) <==> Agrees(input, c, r)
    ensures Admissible(h, input, c, r) <==> Trusted(h, input, c, r)
  {
  }

  // --- the loops -----------------------------------------------------------------

  method JoinReferences(h: Hashes, input: Input, c: ContractChange, d: Definition, edgesBefore: map<string, Keyed>,
                        ghost before: seq<Keyed>)
    returns (edges: Result<map<string, Keyed>>)
    requires edgesBefore == ByKey(before, KeyOfEdge())
    ensures edges.Ok? <==> forall r :: r in input.references && Agrees(input, c, r) ==> Trusted(h, input, c, r)
    ensures edges.Ok? ==> edges.value == ByKey(before + EdgesFor(h, input, c, d, input.references), KeyOfEdge())
  {
    hide Matches, Admissible, Agrees, Trusted, EdgeOf, ByKey;
    var m := edgesBefore;
    assert before + [] == before;
    for i := 0 to |input.references|
      invariant forall r :: r in input.references[..i] && Agrees(input, c, r) ==> Trusted(h, input, c, r)
      invariant m == ByKey(before + EdgesFor(h, input, c, d, input.references[..i]), KeyOfEdge())
    {
      var r := input.references[i];
      ChecksAre(h, input, c, r);
      ghost var done := EdgesFor(h, input, c, d, input.references[..i]);
      assert input.references[..i + 1] == input.references[..i] + [r];
      assert input.references[..i + 1][..i] == input.references[..i];
      if !Matches(input, c, r) {
        assert done + [] == done;
        continue;
      }
      if !Admissible(h, input, c, r) {
        return Throws;
      }
      var keyed := Keyed(EdgeKey(c, r), EdgeOf(h, input, c, d, r));
      assert before + (done + [keyed]) == (before + done) + [keyed];
      ByKeyAppend(before + done, keyed, KeyOfEdge());
      m := m[EdgeKey(c, r) := keyed];
    }
    assert input.references[..|input.references|] == input.references;
    edges := Ok(m);
  }

  method JoinChanges(h: Hashes, input: Input) returns (edges: Result<map<string, Keyed>>)
    ensures edges.Ok? <==> forall c :: c in input.changes ==>
                             ChangeOk(h, input, ByKey(input.definitions, KeyOfDefinition()), c)
    ensures edges.Ok? ==>
              edges.value ==
              ByKey(EdgesUpTo(h, input, ByKey(input.definitions, KeyOfDefinition()), input.changes), KeyOfEdge())
  {
    hide Matches, Admissible, Agrees, Trusted, EdgesFor, DefinitionFor, ByKey;
    var definitions := IndexByKey(input.definitions, KeyOfDefinition());
    var m: map<string, Keyed> := map[];
    assert m == ByKey([], KeyOfEdge()) by { EmptyByKey(KeyOfEdge()); }
    for i := 0 to |input.changes|
      invariant forall c :: c in input.changes[..i] ==> ChangeOk(h, input, definitions, c)
      invariant m == ByKey(EdgesUpTo(h, input, definitions, input.changes[..i]), KeyOfEdge())
    {
      var c := input.changes[i];
      ghost var done := EdgesUpTo(h, input, definitions, input.changes[..i]);
      assert input.changes[..i + 1] == input.changes[..i] + [c];
      assert input.changes[..i + 1][..i] == input.changes[..i];
      assert done + [] == done && c in input.changes;
      if !MayRead(input.capability, input.workspaceId, c.producerRepositoryId) || c.workspaceId != input.workspaceId {
        return Throws;
      }
      var found := DefinitionFor(definitions, c);
      if found.None? {
        continue;
      }
      if !Provenance(input, c, found.value) {
        return Throws;
      }
      var joined := JoinReferences(h, input, c, found.value, m, done);
      if joined.Throws? {
        return Throws;
      }
      m := joined.value;
    }
    assert input.changes[..|input.changes|] == input.changes;
    edges := Ok(m);
  }

  // Every repository of the selection must be readable.
  method SelectionReadable(input: Input) returns (ok: bool)
    ensures ok <==> forall repo :: repo in input.selected ==> MayRead(input.capability, input.workspaceId, repo)
  {
    var rest := input.selected.Keys;
    while rest != {}
      invariant rest <= input.selected.Keys
      invariant forall repo :: repo in input.selected && repo !in rest ==>
                  MayRead(input.capability, input.workspaceId, repo)
    {
      var repo :| repo in rest;
      if !MayRead(input.capability, input.workspaceId, repo) {
        return false;
      }
      rest := rest - {repo};
    }
    ok := true;
  }

  function ById(leq: (string, string) -> bool): (Edge, Edge) -> bool {
    (a: Edge, b: Edge) => leq(a.id, b.id)
  }

  // The entries of the map in some order.
  ghost predicate Entries(m: map<string, Keyed>, all: seq<Keyed>) {
    && (forall i, j :: 0 <= i < j < |all| ==> all[i].key != all[j].key)
    && (forall x :: x in all ==> x.key in m && m[x.key] == x)
    && (forall k :: k in m ==> m[k] in all)
  }

  function EdgesOf(all: seq<Keyed>): (s: seq<Edge>)
    ensures |s| == |all| && forall i :: 0 <= i < |s| ==> s[i] == all[i].edge
  {
    seq(|all|, i requires 0 <= i < |all| => all[i].edge)
  }

  method EntriesOf(m: map<string, Keyed>) returns (all: seq<Keyed>)
    requires forall k :: k in m ==> m[k].key == k
    ensures Entries(m, all)
  {
    all := [];
    var rest := m.Keys;
    while rest != {}
      invariant rest <= m.Keys
      invariant forall i, j :: 0 <= i < j < |all| ==> all[i].key != all[j].key
      invariant forall x :: x in all ==> x.key in m && m[x.key] == x && x.key !in rest
      invariant forall k :: k in m && k !in rest ==> m[k] in all
    {
      var k :| k in rest;
      all, rest := all + [m[k]], rest - {k};
    }
  }

  // The edges of the map in the order of their ids.
  ghost predicate Lists(m: map<string, Keyed>, s: seq<Edge>, leq: (string, string) -> bool) {
    exists all :: Entries(m, all) && s == Sort(EdgesOf(all), ById(leq))
  }

  method Join(h: Hashes, input: Input, leq: (string, string) -> bool) returns (edges: Result<seq<Edge>>)
    ensures edges.Ok? <==> Acceptable(h, input)
    ensures edges.Ok? ==>
              Lists(ByKey(EdgesUpTo(h, input, ByKey(input.definitions, KeyOfDefinition()), input.changes), KeyOfEdge()),
                    edges.value, leq)
  {
    hide ByKey, EdgesUpTo, ChangeOk, Lists;
    if input.capability.registryRevision != input.registryRevision {
      return Throws;
    }
    var readable := SelectionReadable(input);
    if !readable {
      return Throws;
    }
    var joined := JoinChanges(h, input);
    if joined.Throws? {
      return Throws;
    }
    assert forall k :: k in joined.value ==> KeyOfEdge()(joined.value[k]) == k;
    var all := EntriesOf(joined.value);
    assert Lists(joined.value, Sort(EdgesOf(all), ById(leq)), leq) by { SortedEntries(joined.value, all, leq); }
    edges := Ok(Sort(EdgesOf(all), ById(leq)));
  }

  lemma SortedEntries(m: map<string, Keyed>, all: seq<Keyed>, leq: (string, string) -> bool)
    requires Entries(m, all)
    ensures Lists(m, Sort(EdgesOf(all), ById(leq)), leq)
  {
  }

  // --- what the joined edges are -------------------------------------------------

  // A change, its preferred definition and a reference that agrees with both.
  ghost predicate Matched(input: Input, definitions: map<string, Definition>, c: ContractChange, r: Reference) {
    c in input.changes && DefinitionFor(definitions, c).Some? && r in input.references && Agrees(input, c, r)
  }

  lemma {:induction false} EdgesForAre(h: Hashes, input: Input, c: ContractChange, d: Definition,
      references: seq<Reference>, x: Keyed)
    ensures x in EdgesFor(h, input, c, d, references)
            <==> exists r :: r in references && Matches(input, c, r)
                             && x == Keyed(EdgeKey(c, r), EdgeOf(h, input, c, d, r))
  {
    hide Matches, EdgeOf, EdgeKey;
    if references != [] {
      var n := |references| - 1;
      assert references == references[..n] + [references[n]];
      EdgesForAre(h, input, c, d, references[..n], x);
    }
  }

  lemma {:induction false} EdgesUpToAre(h: Hashes, input: Input, definitions: map<string, Definition>,
      changes: seq<ContractChange>, x: Keyed)
    ensures x in EdgesUpTo(h, input, definitions, changes)
            <==> exists c :: c in changes && YieldedBy(h, input, definitions, c, x)
  {
    hide EdgesFor, YieldedBy, DefinitionFor;
    if changes != [] {
      var n, c := |changes| - 1, changes[|changes| - 1];
      assert changes == changes[..n] + [c];
      EdgesUpToAre(h, input, definitions, changes[..n], x);
      YieldedIs(h, input, definitions, c, x);
    }
  }

  lemma YieldedIs(h: Hashes, input: Input, definitions: map<string, Definition>, c: ContractChange, x: Keyed)
    ensures YieldedBy(h, input, definitions, c, x)
            <==> DefinitionFor(definitions, c).Some?
                 && x in EdgesFor(h, input, c, DefinitionFor(definitions, c).value, input.references)
  {
    hide EdgesFor, DefinitionFor, Matches, EdgeOf, EdgeKey;
    if DefinitionFor(definitions, c).Some? {
      EdgesForAre(h, input, c, DefinitionFor(definitions, c).value, input.references, x);
    }
  }

  ghost predicate YieldedBy(
      h: Hashes, input: Input, definitions: map<string, Definition>, c: ContractChange, x: Keyed)
  {
    && DefinitionFor(definitions, c).Some?
    && exists r :: r in input.references && Matches(input, c, r)
                   && x == Keyed(EdgeKey(c, r), EdgeOf(h, input, c, DefinitionFor(definitions, c).value, r))
  }

  // Repository ids, generation ids, contract kinds and keys hold no NUL.
  ghost predicate NamesOk(input: Input) {
    && (forall d :: d in input.definitions ==>
          NulFree(d.repositoryId) && NulFree(d.generationId) && NulFree(d.contractKind))
    && (forall c :: c in input.changes ==>
          && NulFree(c.producerRepositoryId) && NulFree(c.headGenerationId) && NulFree(c.baseGenerationId)
          && NulFree(c.contractKind) && NulFree(c.canonicalKey))
    && (forall r :: r in input.references ==> NulFree(r.repositoryId))
  }

  lemma DefinitionKeysDiffer(a: Definition, repositoryId: string, generationId: string, kind: string, key: string)
    requires NulFree(a.repositoryId) && NulFree(a.generationId) && NulFree(a.contractKind)
    requires NulFree(repositoryId) && NulFree(generationId) && NulFree(kind)
    requires KeyOfDefinition()(a) == DefinitionKey(repositoryId, generationId, kind, key)
    ensures a.repositoryId == repositoryId && a.generationId == generationId
    ensures a.contractKind == kind && a.canonicalKey == key
  {
    var x, y := a.contractKind + NUL + a.canonicalKey, kind + NUL + key;
    assert a.repositoryId + NUL + (a.generationId + NUL + x) <= repositoryId + NUL + (generationId + NUL + y);
    GluedPrefix(a.repositoryId, a.generationId + NUL + x, repositoryId, generationId + NUL + y);
    GluedPrefix(repositoryId, generationId + NUL + y, a.repositoryId, a.generationId + NUL + x);
    GluedPrefix(a.generationId, x, generationId, y);
    GluedPrefix(generationId, y, a.generationId, x);
    GluedPrefix(a.contractKind, a.canonicalKey, kind, key);
    GluedPrefix(kind, key, a.contractKind, a.canonicalKey);
  }

  ghost predicate DefinedAt(input: Input, generationId: string, c: ContractChange, d: Definition) {
    && d in input.definitions && d.repositoryId == c.producerRepositoryId && d.generationId == generationId
    && d.contractKind == c.contractKind && d.canonicalKey == c.canonicalKey
  }

  // A definition of the changed contract, at the head whenever there is one.
  lemma DefinitionIsPreferred(input: Input, c: ContractChange)
    requires NamesOk(input) && c in input.changes
    ensures var found := DefinitionFor(ByKey(input.definitions, KeyOfDefinition()), c);
            && (found.None? <==>
                  forall d ::
                    !DefinedAt(input, c.headGenerationId, c, d) && !DefinedAt(input, c.baseGenerationId, c, d))
            && (found.Some? && (exists d :: DefinedAt(input, c.headGenerationId, c, d)) ==>
                  DefinedAt(input, c.headGenerationId, c, found.value))
            && (found.Some? && (forall d :: !DefinedAt(input, c.headGenerationId, c, d)) ==>
                  DefinedAt(input, c.baseGenerationId, c, found.value))
  {
    DefinedUnderKey(input, c, c.headGenerationId);
    DefinedUnderKey(input, c, c.baseGenerationId);
  }

  lemma DefinedUnderKey(input: Input, c: ContractChange, generationId: string)
    requires NamesOk(input) && c in input.changes && NulFree(generationId)
    ensures var m := ByKey(input.definitions, KeyOfDefinition());
            var k := DefinitionKey(c.producerRepositoryId, generationId, c.contractKind, c.canonicalKey);
            && (k in m <==> exists d :: DefinedAt(input, generationId, c, d))
            && (k in m ==> DefinedAt(input, generationId, c, m[k]))
  {
    var m := ByKey(input.definitions, KeyOfDefinition());
    var k := DefinitionKey(c.producerRepositoryId, generationId, c.contractKind, c.canonicalKey);
    if k in m {
      DefinitionKeysDiffer(m[k], c.producerRepositoryId, generationId, c.contractKind, c.canonicalKey);
      assert DefinedAt(input, generationId, c, m[k]);
    }
    forall d | DefinedAt(input, generationId, c, d) ensures k in m {
      assert KeyOfDefinition()(d) == k;
    }
  }

  // The identifying triple of an edge.
  datatype Triple = Triple(key: string, consumer: string, reference: string)

  function TripleOf(e: Edge): Triple {
    Triple(e.definitionKey, e.consumerRepositoryId, e.stableReferenceId)
  }

  function MatchTriple(c: ContractChange, r: Reference): Triple {
    Triple(c.canonicalKey, r.repositoryId, r.stableReferenceId)
  }

  function Glued(t: Triple): string {
    t.key + NUL + (t.consumer + NUL + t.reference)
  }

  lemma GluedTriplesDiffer(a: Triple, b: Triple)
    requires NulFree(a.key) && NulFree(a.consumer) && NulFree(b.key) && NulFree(b.consumer) && Glued(a) == Glued(b)
    ensures a == b
  {
    GluedPrefix(a.key, a.consumer + NUL + a.reference, b.key, b.consumer + NUL + b.reference);
    GluedPrefix(b.key, b.consumer + NUL + b.reference, a.key, a.consumer + NUL + a.reference);
    GluedPrefix(a.consumer, a.reference, b.consumer, b.reference);
    GluedPrefix(b.consumer, b.reference, a.consumer, a.reference);
  }

  // `e` is the edge of a matching change and reference.
  ghost predicate Derived(h: Hashes, input: Input, e: Edge, c: ContractChange, r: Reference) {
    var definitions := ByKey(input.definitions, KeyOfDefinition());
    && Matched(input, definitions, c, r)
    && e.definition == DefinitionFor(definitions, c).value && e.reference == r
    && e.workspaceId == input.workspaceId && e.registryRevision == input.registryRevision
    && e.family == c.family && e.contractKind == c.contractKind && e.definitionKey == c.canonicalKey
    && e.producerRepositoryId == c.producerRepositoryId && e.producerGenerationId == e.definition.generationId
    && e.consumerRepositoryId == r.repositoryId && e.consumerGenerationId == r.generationId
    && e.stableReferenceId == r.stableReferenceId
    && e.id == h.edge(EdgeIdentity(e.workspaceId, e.producerRepositoryId, e.consumerRepositoryId,
                                   e.producerGenerationId, e.consumerGenerationId, e.definitionKey,
                                   e.stableReferenceId, e.family, e.registryRevision))
    && e.consumerRepositoryId in input.capability.repositoryIds
  }

  function JoinedMap(h: Hashes, input: Input): map<string, Keyed> {
    ByKey(EdgesUpTo(h, input, ByKey(input.definitions, KeyOfDefinition()), input.changes), KeyOfEdge())
  }

  lemma StoredEdgesAreDerived(h: Hashes, input: Input, k: string) returns (c: ContractChange, r: Reference)
    requires Acceptable(h, input) && NamesOk(input) && k in JoinedMap(h, input)
    ensures Derived(h, input, JoinedMap(h, input)[k].edge, c, r) && k == Glued(MatchTriple(c, r))
  {
    hide EdgesUpTo, Acceptable, NamesOk, DefinitionFor, Matches, EdgeOf, Derived;
    var definitions := ByKey(input.definitions, KeyOfDefinition());
    var all := EdgesUpTo(h, input, definitions, input.changes);
    var x := JoinedMap(h, input)[k];
    EdgesUpToAre(h, input, definitions, input.changes, x);
    c :| c in input.changes && YieldedBy(h, input, definitions, c, x);
    r :| r in input.references && Matches(input, c, r)
         && x == Keyed(EdgeKey(c, r), EdgeOf(h, input, c, DefinitionFor(definitions, c).value, r));
    EdgeIsDerived(h, input, c, r);
  }

  lemma EdgeIsDerived(h: Hashes, input: Input, c: ContractChange, r: Reference)
    requires Acceptable(h, input) && NamesOk(input) && c in input.changes && r in input.references
    requires Matches(input, c, r) && DefinitionFor(ByKey(input.definitions, KeyOfDefinition()), c).Some?
    ensures var d := DefinitionFor(ByKey(input.definitions, KeyOfDefinition()), c).value;
            Derived(h, input, EdgeOf(h, input, c, d, r), c, r)
  {
    hide ByKey, DefinitionFor, NamesOk;
    DefinitionCarriesTheKey(input, c);
    assert ChangeOk(h, input, ByKey(input.definitions, KeyOfDefinition()), c);
  }

  lemma DefinitionCarriesTheKey(input: Input, c: ContractChange)
    requires NamesOk(input) && c in input.changes
    requires DefinitionFor(ByKey(input.definitions, KeyOfDefinition()), c).Some?
    ensures DefinitionFor(ByKey(input.definitions, KeyOfDefinition()), c).value.canonicalKey == c.canonicalKey
  {
    DefinedUnderKey(input, c, c.headGenerationId);
    DefinedUnderKey(input, c, c.baseGenerationId);
  }

  lemma MatchesAreStored(h: Hashes, input: Input, c: ContractChange, r: Reference)
    requires Matched(input, ByKey(input.definitions, KeyOfDefinition()), c, r)
    ensures Glued(MatchTriple(c, r)) in JoinedMap(h, input)
  {
    hide DefinitionFor, Matches, Agrees, EdgeOf, EdgesUpTo;
    ChecksAre(h, input, c, r);
    var definitions := ByKey(input.definitions, KeyOfDefinition());
    var x := Keyed(EdgeKey(c, r), EdgeOf(h, input, c, DefinitionFor(definitions, c).value, r));
    assert YieldedBy(h, input, definitions, c, x);
    EdgesUpToAre(h, input, definitions, input.changes, x);
    assert KeyOfEdge()(x) == Glued(MatchTriple(c, r));
  }

  // A successful join lists exactly one edge for every matching contract key,
  // consumer repository and stable reference, all with different ids, and every
  // edge is derived from such a match inside the capability.
  lemma JoinIsExact(h: Hashes, input: Input, edges: seq<Edge>, leq: (string, string) -> bool)
    requires Injective(h) && Acceptable(h, input) && NamesOk(input) && Lists(JoinedMap(h, input), edges, leq)
    ensures forall e :: e in edges ==> exists c, r :: Derived(h, input, e, c, r)
    ensures forall c, r :: Matched(input, ByKey(input.definitions, KeyOfDefinition()), c, r) ==>
              exists e :: e in edges && TripleOf(e) == MatchTriple(c, r)
    ensures forall i, j :: 0 <= i < j < |edges| ==>
              edges[i].id != edges[j].id && TripleOf(edges[i]) != TripleOf(edges[j])
    ensures TotalPreorder(leq) ==> forall i, j :: 0 <= i < j < |edges| ==> leq(edges[i].id, edges[j].id)
  {
    hide *;
    forall e | e in edges ensures exists c, r :: Derived(h, input, e, c, r) {
      var c, r := EdgeHasMatch(h, input, edges, leq, e);
    }
    forall c, r | Matched(input, ByKey(input.definitions, KeyOfDefinition()), c, r)
      ensures exists e :: e in edges && TripleOf(e) == MatchTriple(c, r)
    {
      var e := MatchHasEdge(h, input, edges, leq, c, r);
    }
    EdgesDiffer(h, input, edges, leq);
    if TotalPreorder(leq) {
      EdgesAreListedInOrder(JoinedMap(h, input), edges, leq);
    }
  }

  lemma EdgeHasMatch(h: Hashes, input: Input, edges: seq<Edge>, leq: (string, string) -> bool, e: Edge)
    returns (c: ContractChange, r: Reference)
    requires Acceptable(h, input) && NamesOk(input) && Lists(JoinedMap(h, input), edges, leq) && e in edges
    ensures Derived(h, input, e, c, r)
  {
    hide JoinedMap, Acceptable, NamesOk, Derived, Sort;
    var m := JoinedMap(h, input);
    var all :| Entries(m, all) && edges == Sort(EdgesOf(all), ById(leq));
    var i :| 0 <= i < |edges| && edges[i] == e;
    var k := EntryOf(m, all, edges, i);
    c, r := StoredEdgesAreDerived(h, input, k);
  }

  lemma MatchHasEdge(h: Hashes, input: Input, edges: seq<Edge>, leq: (string, string) -> bool, c: ContractChange,
                     r: Reference) returns (e: Edge)
    requires Acceptable(h, input) && NamesOk(input) && Lists(JoinedMap(h, input), edges, leq)
    requires Matched(input, ByKey(input.definitions, KeyOfDefinition()), c, r)
    ensures e in edges && TripleOf(e) == MatchTriple(c, r)
  {
    hide JoinedMap, Acceptable, NamesOk, Derived, Matched, Sort;
    var m := JoinedMap(h, input);
    var all :| Entries(m, all) && edges == Sort(EdgesOf(all), ById(leq));
    SameElements(edges, EdgesOf(all));
    MatchesAreStored(h, input, c, r);
    var k := Glued(MatchTriple(c, r));
    var c', r' := StoredEdgesAreDerived(h, input, k);
    e := m[k].edge;
    DerivedTriple(h, input, e, c', r');
    NamesOfMatch(input, c, r);
    DerivedNames(h, input, e, c', r');
    GluedTriplesDiffer(MatchTriple(c, r), MatchTriple(c', r'));
    assert m[k] in all;
    var i :| 0 <= i < |all| && all[i] == m[k];
    assert EdgesOf(all)[i] == e;
  }

  lemma EdgesAreListedInOrder(m: map<string, Keyed>, edges: seq<Edge>, leq: (string, string) -> bool)
    requires TotalPreorder(leq) && Lists(m, edges, leq)
    ensures forall i, j :: 0 <= i < j < |edges| ==> leq(edges[i].id, edges[j].id)
  {
    hide Sort, TotalPreorder, Entries;
    var all :| Entries(m, all) && edges == Sort(EdgesOf(all), ById(leq));
    EdgesAreInOrder(EdgesOf(all), edges, leq);
  }

  lemma EdgesAreInOrder(edges: seq<Edge>, sorted: seq<Edge>, leq: (string, string) -> bool)
    requires TotalPreorder(leq) && sorted == Sort(edges, ById(leq))
    ensures forall i, j :: 0 <= i < j < |sorted| ==> leq(sorted[i].id, sorted[j].id)
  {
    hide Sort, TotalPreorder;
    SortsByKey(edges, leq, (e: Edge) => e.id, ById(leq));
  }

  lemma FindingsAreInOrder(findings: seq<Finding>, sorted: seq<Finding>, leq: (string, string) -> bool)
    requires TotalPreorder(leq) && sorted == Sort(findings, ByFingerprint(leq))
    ensures forall i, j :: 0 <= i < j < |sorted| ==> leq(sorted[i].fingerprint, sorted[j].fingerprint)
  {
    hide Sort, TotalPreorder;
    SortsByKey(findings, leq, (f: Finding) => f.fingerprint, ByFingerprint(leq));
  }

  lemma DerivedTriple(h: Hashes, input: Input, e: Edge, c: ContractChange, r: Reference)
    requires Derived(h, input, e, c, r)
    ensures TripleOf(e) == MatchTriple(c, r)
    ensures Matched(input, ByKey(input.definitions, KeyOfDefinition()), c, r)
  {
  }

  lemma NamesOfMatch(input: Input, c: ContractChange, r: Reference)
    requires NamesOk(input) && Matched(input, ByKey(input.definitions, KeyOfDefinition()), c, r)
    ensures NulFree(c.canonicalKey) && NulFree(r.repositoryId)
  {
  }

  lemma DerivedNames(h: Hashes, input: Input, e: Edge, c: ContractChange, r: Reference)
    requires NamesOk(input) && Derived(h, input, e, c, r)
    ensures NulFree(c.canonicalKey) && NulFree(r.repositoryId)
  {
  }

  lemma SameTripleSameKey(h: Hashes, input: Input, j: string, k: string)
    requires Acceptable(h, input) && NamesOk(input) && j in JoinedMap(h, input) && k in JoinedMap(h, input)
    requires TripleOf(JoinedMap(h, input)[j].edge) == TripleOf(JoinedMap(h, input)[k].edge)
    ensures j == k
  {
    hide JoinedMap, Acceptable, NamesOk;
    var c, r := StoredEdgesAreDerived(h, input, j);
    var c', r' := StoredEdgesAreDerived(h, input, k);
  }

  lemma SameIdSameTriple(h: Hashes, input: Input, j: string, k: string)
    requires Injective(h) && Acceptable(h, input) && NamesOk(input)
    requires j in JoinedMap(h, input) && k in JoinedMap(h, input)
    requires JoinedMap(h, input)[j].edge.id == JoinedMap(h, input)[k].edge.id
    ensures TripleOf(JoinedMap(h, input)[j].edge) == TripleOf(JoinedMap(h, input)[k].edge)
  {
    hide JoinedMap, Acceptable, NamesOk;
    var c, r := StoredEdgesAreDerived(h, input, j);
    var c', r' := StoredEdgesAreDerived(h, input, k);
  }

  lemma EdgesDiffer(h: Hashes, input: Input, edges: seq<Edge>, leq: (string, string) -> bool)
    requires Injective(h) && Acceptable(h, input) && NamesOk(input) && Lists(JoinedMap(h, input), edges, leq)
    ensures forall i, j :: 0 <= i < j < |edges| ==>
              edges[i].id != edges[j].id && TripleOf(edges[i]) != TripleOf(edges[j])
  {
    hide JoinedMap, Acceptable, NamesOk, Injective, Sort;
    var m := JoinedMap(h, input);
    var all :| Entries(m, all) && edges == Sort(EdgesOf(all), ById(leq));
    forall j, k | j in m && k in m && (m[j].edge.id == m[k].edge.id || TripleOf(m[j].edge) == TripleOf(m[k].edge))
      ensures j == k
    {
      if m[j].edge.id == m[k].edge.id {
        SameIdSameTriple(h, input, j, k);
      }
      SameTripleSameKey(h, input, j, k);
    }
    ListedOnce(m, all, edges);
    forall i, j | 0 <= i < j < |edges| ensures edges[i].id != edges[j].id && TripleOf(edges[i]) != TripleOf(edges[j]) {
      var a := EntryOf(m, all, edges, i);
      var b := EntryOf(m, all, edges, j);
    }
  }

  lemma EntryOf(m: map<string, Keyed>, all: seq<Keyed>, edges: seq<Edge>, i: nat) returns (k: string)
    requires Entries(m, all) && multiset(edges) == multiset(EdgesOf(all)) && i < |edges|
    ensures k in m && m[k].edge == edges[i]
  {
    SameElements(edges, EdgesOf(all));
    assert edges[i] in EdgesOf(all);
    var j :| 0 <= j < |all| && EdgesOf(all)[j] == edges[i];
    k := all[j].key;
    assert all[j] in all;
  }

  lemma ListedOnce(m: map<string, Keyed>, all: seq<Keyed>, edges: seq<Edge>)
    requires Entries(m, all) && multiset(edges) == multiset(EdgesOf(all))
    requires forall j, k :: j in m && k in m && m[j].edge.id == m[k].edge.id ==> j == k
    ensures forall i, j :: 0 <= i < j < |edges| ==> edges[i] != edges[j]
  {
    forall i, j | 0 <= i < j < |all| ensures EdgesOf(all)[i] != EdgesOf(all)[j] {
      assert all[i] in all && all[j] in all;
    }
    RearrangedWithoutDuplicates(EdgesOf(all), edges);
  }

  // --- findings --------------------------------------------------------------

  datatype Action = Coordinate | Review | NoAction
  datatype Finding = Finding(fingerprint: string, abstained: bool, change: ContractChange, edge: Edge, action: Action)

  function ChangeKey(family: string, kind: string, key: string): string {
    family + NUL + (kind + NUL + key)
  }

  function KeyOfChange(): ContractChange -> string {
    (c: ContractChange) => ChangeKey(c.family, c.contractKind, c.canonicalKey)
  }

  predicate Incomplete(c: ContractChange) {
    !c.coverageState.Complete? || c.compatibility.UnknownCompatibility?
  }

  function FindingOf(h: Hashes, policyMajor: int, c: ContractChange, e: Edge): Finding {
    Finding(h.finding(FindingIdentity(c.workspaceId, c.producerRepositoryId, e.consumerRepositoryId, c.contractKind,
                                      c.canonicalKey, c.changeKind, e.stableReferenceId, policyMajor)),
            Incomplete(c), c, e,
            match c.compatibility
            case Breaking => Coordinate
            case PotentiallyBreaking => Coordinate
            case UnknownCompatibility => Review
            case Compatible => NoAction)
  }

  // An edge without a change of its own gives no finding.
  function FindingList(h: Hashes, policyMajor: int, changes: map<string, ContractChange>, edges: seq<Edge>)
      : seq<Finding>
  {
    if edges == [] then []
    else
      var e := edges[|edges| - 1];
      var k := ChangeKey(e.family, e.contractKind, e.definitionKey);
      FindingList(h, policyMajor, changes, edges[..|edges| - 1])
      + if k in changes then [FindingOf(h, policyMajor, changes[k], e)] else []
  }

  function ByFingerprint(leq: (string, string) -> bool): (Finding, Finding) -> bool {
    (a: Finding, b: Finding) => leq(a.fingerprint, b.fingerprint)
  }

  function CreateFindings(h: Hashes, policyMajor: int, changes: seq<ContractChange>, edges: seq<Edge>,
                          leq: (string, string) -> bool): seq<Finding>
  {
    Sort(FindingList(h, policyMajor, ByKey(changes, KeyOfChange()), edges), ByFingerprint(leq))
  }

  lemma {:induction false} FindingPerEdge(h: Hashes, policyMajor: int, changes: map<string, ContractChange>,
      edges: seq<Edge>)
    requires forall e :: e in edges ==> ChangeKey(e.family, e.contractKind, e.definitionKey) in changes
    ensures var l := FindingList(h, policyMajor, changes, edges);
            && |l| == |edges|
            && forall i :: 0 <= i < |l| ==>
                 var key := ChangeKey(edges[i].family, edges[i].contractKind, edges[i].definitionKey);
                 l[i] == FindingOf(h, policyMajor, changes[key], edges[i])
  {
    hide FindingOf, ChangeKey;
    if edges != [] {
      var n := |edges| - 1;
      assert edges == edges[..n] + [edges[n]];
      FindingPerEdge(h, policyMajor, changes, edges[..n]);
    }
  }

  ghost predicate About(c: ContractChange, e: Edge) {
    c.family == e.family && c.contractKind == e.contractKind && c.canonicalKey == e.definitionKey
  }

  // The last change in the list that is about the edge's contract.
  ghost predicate LastAbout(changes: seq<ContractChange>, c: ContractChange, e: Edge) {
    && About(c, e)
    && exists i :: 0 <= i < |changes| && changes[i] == c && forall j :: i < j < |changes| ==> !About(changes[j], e)
  }

  // A finding reports on the last change of its edge's own contract, abstains
  // when that change is not fully known, and asks for what its class demands.
  ghost predicate Reports(h: Hashes, policyMajor: int, changes: seq<ContractChange>, f: Finding) {
    && LastAbout(changes, f.change, f.edge)
    && (f.abstained <==> f.change.coverageState != Complete || f.change.compatibility == UnknownCompatibility)
    && (f.action == Coordinate <==> f.change.compatibility in {Breaking, PotentiallyBreaking})
    && (f.action == Review <==> f.change.compatibility == UnknownCompatibility)
    && f.fingerprint
       == h.finding(FindingIdentity(f.change.workspaceId, f.change.producerRepositoryId, f.edge.consumerRepositoryId,
                                    f.change.contractKind, f.change.canonicalKey, f.change.changeKind,
                                    f.edge.stableReferenceId, policyMajor))
  }

  ghost predicate SingleProducer(changes: seq<ContractChange>) {
    forall c, d :: c in changes && d in changes ==> c.producerRepositoryId == d.producerRepositoryId
  }

  ghost predicate KindsOk(changes: seq<ContractChange>) {
    forall c :: c in changes ==> NulFree(c.family) && NulFree(c.contractKind)
  }

  lemma ChangeOfEdge(changes: seq<ContractChange>, e: Edge, c: ContractChange)
    requires KindsOk(changes) && c in changes
    requires e.family == c.family && e.contractKind == c.contractKind && e.definitionKey == c.canonicalKey
    ensures var k := ChangeKey(e.family, e.contractKind, e.definitionKey);
            var m := ByKey(changes, KeyOfChange());
            k in m && m[k] in changes && LastAbout(changes, m[k], e)
  {
    hide ByKey;
    var m := ByKey(changes, KeyOfChange());
    var k := ChangeKey(e.family, e.contractKind, e.definitionKey);
    assert KeyOfChange()(c) == k;
    var d := m[k];
    var i := LastWins(changes, KeyOfChange(), k);
    GluedPrefix(d.family, d.contractKind + NUL + d.canonicalKey, c.family, c.contractKind + NUL + c.canonicalKey);
    GluedPrefix(c.family, c.contractKind + NUL + c.canonicalKey, d.family, d.contractKind + NUL + d.canonicalKey);
    GluedPrefix(d.contractKind, d.canonicalKey, c.contractKind, c.canonicalKey);
    GluedPrefix(c.contractKind, c.canonicalKey, d.contractKind, d.canonicalKey);
  }

  // Every joined edge gives exactly one finding, about a change of its own
  // contract, and no two findings share a fingerprint. With one producer the
  // change is that of the edge's producer.
  lemma FindingsAreExact(h: Hashes, input: Input, policyMajor: int, edges: seq<Edge>, leq: (string, string) -> bool)
    requires Injective(h) && Acceptable(h, input) && NamesOk(input) && KindsOk(input.changes)
    requires Lists(JoinedMap(h, input), edges, leq)
    ensures var findings := CreateFindings(h, policyMajor, input.changes, edges, leq);
            && |findings| == |edges|
            && (forall f :: f in findings ==> f.edge in edges && Reports(h, policyMajor, input.changes, f))
            && (forall e :: e in edges ==> exists f :: f in findings && f.edge == e)
            && (forall i, j :: 0 <= i < j < |findings| ==>
                  findings[i].edge != findings[j].edge && findings[i].fingerprint != findings[j].fingerprint)
            && (SingleProducer(input.changes) ==>
                  forall f :: f in findings ==> f.change.producerRepositoryId == f.edge.producerRepositoryId)
            && (TotalPreorder(leq) ==>
                  forall i, j :: 0 <= i < j < |findings| ==> leq(findings[i].fingerprint, findings[j].fingerprint))
  {
    hide TotalPreorder, Reports, LastAbout;
    hide JoinedMap, Acceptable, NamesOk, KindsOk, Lists, Sort, FindingOf, Derived, FindingList, ChangeKey, Injective;
    JoinIsExact(h, input, edges, leq);
    var m := ByKey(input.changes, KeyOfChange());
    forall e | e in edges ensures ChangeKey(e.family, e.contractKind, e.definitionKey) in m {
      var c, r :| Derived(h, input, e, c, r);
      DerivedFields(h, input, e, c, r);
      ChangeOfEdge(input.changes, e, c);
    }
    FindingPerEdge(h, policyMajor, m, edges);
    var l := FindingList(h, policyMajor, m, edges);
    forall i | 0 <= i < |l| ensures l[i].edge == edges[i] && FindingIsSound(h, input, policyMajor, l[i]) {
      var e := edges[i];
      assert e in edges;
      var c, r :| Derived(h, input, e, c, r);
      DerivedFields(h, input, e, c, r);
      ChangeOfEdge(input.changes, e, c);
      SoundFinding(h, input, policyMajor, e, c, m[ChangeKey(e.family, e.contractKind, e.definitionKey)]);
    }
    forall i, j | 0 <= i < j < |l| ensures l[i].fingerprint != l[j].fingerprint {
      assert FindingIsSound(h, input, policyMajor, l[i]) && FindingIsSound(h, input, policyMajor, l[j]);
      FingerprintsDiffer(h, input, policyMajor, l[i], l[j]);
    }
    SortedFindings(h, input, policyMajor, edges, l, leq);
    if TotalPreorder(leq) {
      FindingsAreInOrder(l, CreateFindings(h, policyMajor, input.changes, edges, leq), leq);
    }
    forall f | FindingIsSound(h, input, policyMajor, f) ensures Reports(h, policyMajor, input.changes, f) {
    }
  }

  ghost predicate FindingIsSound(h: Hashes, input: Input, policyMajor: int, f: Finding) {
    && Reports(h, policyMajor, input.changes, f)
    && f == FindingOf(h, policyMajor, f.change, f.edge)
    && (SingleProducer(input.changes) ==>
          f.change.producerRepositoryId == f.edge.producerRepositoryId)
  }

  lemma DerivedFields(h: Hashes, input: Input, e: Edge, c: ContractChange, r: Reference)
    requires NamesOk(input) && Derived(h, input, e, c, r) && Acceptable(h, input)
    ensures c in input.changes && e.family == c.family
    ensures e.contractKind == c.contractKind && e.definitionKey == c.canonicalKey
    ensures e.producerRepositoryId == c.producerRepositoryId
  {
    hide ByKey, Matches, DefinitionFor;
    var definitions := ByKey(input.definitions, KeyOfDefinition());
    assert ChangeOk(h, input, definitions, c);
  }

  lemma SoundFinding(h: Hashes, input: Input, policyMajor: int, e: Edge, c: ContractChange, d: ContractChange)
    requires c in input.changes && d in input.changes && e.producerRepositoryId == c.producerRepositoryId
    requires LastAbout(input.changes, d, e)
    ensures FindingOf(h, policyMajor, d, e).edge == e
    ensures FindingIsSound(h, input, policyMajor, FindingOf(h, policyMajor, d, e))
  {
  }

  lemma FingerprintsDiffer(h: Hashes, input: Input, policyMajor: int, f: Finding, g: Finding)
    requires Injective(h) && FindingIsSound(h, input, policyMajor, f) && FindingIsSound(h, input, policyMajor, g)
    requires TripleOf(f.edge) != TripleOf(g.edge)
    ensures f.fingerprint != g.fingerprint
  {
    var a := FindingIdentity(f.change.workspaceId, f.change.producerRepositoryId, f.edge.consumerRepositoryId,
                             f.change.contractKind, f.change.canonicalKey, f.change.changeKind,
                             f.edge.stableReferenceId, policyMajor);
    var b := FindingIdentity(g.change.workspaceId, g.change.producerRepositoryId, g.edge.consumerRepositoryId,
                             g.change.contractKind, g.change.canonicalKey, g.change.changeKind,
                             g.edge.stableReferenceId, policyMajor);
    assert a != b;
  }

  lemma SortedFindings(h: Hashes, input: Input, policyMajor: int, edges: seq<Edge>, l: seq<Finding>,
                       leq: (string, string) -> bool)
    requires |l| == |edges|
    requires forall i :: 0 <= i < |l| ==> l[i].edge == edges[i] && FindingIsSound(h, input, policyMajor, l[i])
    requires forall i, j :: 0 <= i < j < |l| ==> l[i].fingerprint != l[j].fingerprint && edges[i] != edges[j]
    ensures var s := Sort(l, ByFingerprint(leq));
            && |s| == |edges|
            && (forall f :: f in s ==> f.edge in edges && FindingIsSound(h, input, policyMajor, f))
            && (forall e :: e in edges ==> exists f :: f in s && f.edge == e)
            && (forall i, j :: 0 <= i < j < |s| ==> s[i].edge != s[j].edge && s[i].fingerprint != s[j].fingerprint)
  {
    hide Sort, FindingIsSound;
    var s := Sort(l, ByFingerprint(leq));
    SameElements(l, s);
    RearrangedWithoutDuplicates(l, s);
    forall i, j | 0 <= i < j < |s| ensures s[i].edge != s[j].edge && s[i].fingerprint != s[j].fingerprint {
      assert s[i] in l && s[j] in l;
      var a :| 0 <= a < |l| && l[a] == s[i];
      var b :| 0 <= b < |l| && l[b] == s[j];
      assert a < b || b < a;
    }
    forall e | e in edges ensures exists f :: f in s && f.edge == e {
      var i :| 0 <= i < |edges| && edges[i] == e;
      assert l[i] in s;
    }
  }
}
