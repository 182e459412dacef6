// Incremental event extraction: persisted per-document partitions, a change
// list and the changed artifacts, against rebuilding from the head tree.
module EventPartitions {
  import opened Outcomes
  import opened Sorting
  import opened TextOrder
  import opened Changes
  import opened EventExtraction
  import opened EventParsing
  import opened EventPersistence
  import ContractKeys

  datatype Partition = Partition(
    partitionKey: string, ownedPaths: seq<string>, dependencyKeys: seq<string>, payload: Document,
    extraction: Extraction)

  datatype View = View(
    partitionKey: string, ownedPaths: seq<string>, dependencyKeys: seq<string>, payload: Document, outputHash: string)

  datatype Update = Update(
    replacements: map<string, Partition>, tombstones: set<string>, coverage: Coverage, diagnostics: seq<Diagnostic>)

  // How artifacts are parsed, and the parts kept abstract: the payload hash and
  // the check on repository paths.
  datatype Engine = Engine(
    rules: Rules, parse: Artifact -> Option<Document>, payloadHash: Document -> string, repoPath: string -> bool)

  ghost predicate WellFormed(e: Engine) {
    && TotalOrder(e.rules.leq)
    && forall a :: e.parse(a).Some? ==> e.parse(a).value.path == a.path
  }

  const KEY_PREFIX := "event-document:"

  function PartitionKey(path: string): string {
    KEY_PREFIX + path
  }

  function PathOf(key: string): string {
    if |KEY_PREFIX| <= |key| then key[|KEY_PREFIX|..] else ""
  }

  lemma PartitionKeysDiffer(a: string, b: string)
    requires PartitionKey(a) == PartitionKey(b)
    ensures a == b
  {
    assert a == PathOf(PartitionKey(a));
    assert b == PathOf(PartitionKey(b));
  }

  // A tree holds one artifact per path.
  type Tree = map<string, Artifact>

  ghost predicate TreeOk(tree: Tree) {
    forall p :: p in tree ==> tree[p].path == p
  }

  // The documents of a tree under their partition keys.
  ghost function Keyed(e: Engine, tree: Tree): map<string, Document> {
    map k | k in (set p | p in tree && e.parse(tree[p]).Some? :: PartitionKey(p)) :: e.parse(tree[PathOf(k)]).value
  }

  lemma KeyedAt(e: Engine, tree: Tree, path: string)
    ensures PartitionKey(path) in Keyed(e, tree) <==> path in tree && e.parse(tree[path]).Some?
    ensures PartitionKey(path) in Keyed(e, tree) ==> Keyed(e, tree)[PartitionKey(path)] == e.parse(tree[path]).value
    ensures forall k :: k in Keyed(e, tree) ==> k == PartitionKey(PathOf(k))
  {
    assert PathOf(PartitionKey(path)) == path;
    forall k | k in Keyed(e, tree) ensures k == PartitionKey(PathOf(k)) {
      var p :| p in tree && k == PartitionKey(p);
      assert PathOf(PartitionKey(p)) == p;
    }
  }

  // --- persisted partitions -----------------------------------------------

  function ViewOf(e: Engine, d: Document): View {
    View(PartitionKey(d.path), [d.path], [], d, e.payloadHash(d))
  }

  predicate IntactView(e: Engine, v: View) {
    && AcceptedDocument(e.repoPath, v.payload) && v.partitionKey == PartitionKey(v.payload.path)
    && v.ownedPaths == [v.payload.path] && v.dependencyKeys == [] && v.outputHash == e.payloadHash(v.payload)
  }

  // Every view must be intact, and no key may repeat.
  function DecodedViews(e: Engine, views: seq<View>): Option<map<string, Document>> {
    if views == [] then Some(map[])
    else
      var v := views[|views| - 1];
      match DecodedViews(e, views[..|views| - 1])
      case None => None
      case Some(m) => if !IntactView(e, v) || v.partitionKey in m then None else Some(m[v.partitionKey := v.payload])
  }

  // `m` holds the payloads of the views under their keys, and nothing else.
  ghost predicate HoldsViews(m: map<string, Document>, views: seq<View>) {
    && (forall k :: k in m ==> exists v :: v in views && v.partitionKey == k)
    && (forall v :: v in views ==> v.partitionKey in m && m[v.partitionKey] == v.payload)
  }

  lemma {:induction false} DecodedContents(e: Engine, views: seq<View>)
    requires DecodedViews(e, views).Some?
    ensures HoldsViews(DecodedViews(e, views).value, views)
  {
    hide IntactView;
    if views != [] {
      var n := |views| - 1;
      DecodedContents(e, views[..n]);
      assert views == views[..n] + [views[n]];
    }
  }

  ghost predicate KeysDiffer(views: seq<View>) {
    forall i, j :: 0 <= i < j < |views| ==> views[i].partitionKey != views[j].partitionKey
  }

  lemma KeysDifferAppend(views: seq<View>, v: View)
    ensures KeysDiffer(views + [v]) <==>
              KeysDiffer(views) && forall w :: w in views ==> w.partitionKey != v.partitionKey
  {
    var all := views + [v];
    if KeysDiffer(all) {
      forall w | w in views ensures w.partitionKey != v.partitionKey {
        var i :| 0 <= i < |views| && views[i] == w;
        assert all[i] == w && all[|views|] == v;
      }
      forall i, j | 0 <= i < j < |views| ensures views[i].partitionKey != views[j].partitionKey {
        assert all[i] == views[i] && all[j] == views[j];
      }
    }
  }

  // A stored view speaks of its own document: its key, its only path, no
  // dependencies, and the hash of its payload.
  ghost predicate SpeaksOfItself(e: Engine, v: View) {
    && v.partitionKey == "event-document:" + v.payload.path && v.ownedPaths == [v.payload.path]
    && v.dependencyKeys == [] && v.outputHash == e.payloadHash(v.payload)
  }

  lemma IntactViewsAre(e: Engine, v: View)
    ensures IntactView(e, v) <==> AcceptedDocument(e.repoPath, v.payload) && SpeaksOfItself(e, v)
  {
    hide AcceptedDocument;
  }

  lemma {:induction false} DecodedExactly(e: Engine, views: seq<View>)
    ensures DecodedViews(e, views).Some? <==>
              (forall v :: v in views ==> AcceptedDocument(e.repoPath, v.payload) && SpeaksOfItself(e, v)) &&
              KeysDiffer(views)
    ensures DecodedViews(e, views).Some? ==> HoldsViews(DecodedViews(e, views).value, views)
  {
    hide IntactView, KeysDiffer, AcceptedDocument, SpeaksOfItself;
    if views == [] {
      assert KeysDiffer([]) by { NoKeysDiffer(); }
    } else {
      var n, last := |views| - 1, views[|views| - 1];
      var front := views[..n];
      assert views == front + [last];
      DecodedExactly(e, front);
      KeysDifferAppend(front, last);
      IntactViewsAre(e, last);
      assert forall v :: v in views <==> v in front || v == last;
    }
    if DecodedViews(e, views).Some? {
      DecodedContents(e, views);
    }
  }

  lemma NoKeysDiffer()
    ensures KeysDiffer([])
  {
  }

  lemma {:induction false} UndecodedStays(e: Engine, views: seq<View>, n: nat)
    requires n <= |views| && DecodedViews(e, views[..n]).None?
    ensures DecodedViews(e, views).None?
    decreases |views|
  {
    hide IntactView;
    if n < |views| {
      assert views[..|views| - 1][..n] == views[..n];
      UndecodedStays(e, views[..|views| - 1], n);
    } else {
      assert views[..n] == views;
    }
  }

  method Decode(e: Engine, views: seq<View>) returns (r: Option<map<string, Document>>)
    ensures r == DecodedViews(e, views)
  {
    hide IntactView;
    var logical: map<string, Document> := map[];
    for i := 0 to |views|
      invariant DecodedViews(e, views[..i]) == Some(logical)
    {
      assert views[..i + 1][..i] == views[..i];
      if !IntactView(e, views[i]) || views[i].partitionKey in logical {
        UndecodedStays(e, views, i + 1);
        return None;
      }
      logical := logical[views[i].partitionKey := views[i].payload];
    }
    assert views[..|views|] == views;
    r := Some(logical);
  }

  // --- the update ---------------------------------------------------------

  // The paths a change list removes from the logical documents.
  function Removed(changes: seq<Change>): set<string> {
    (set c | c in changes :: c.path) +
    (set c | c in changes && c.previousPath.Some? && c.kind != Copied :: c.previousPath.value)
  }

  function RemovedKeys(changes: seq<Change>): set<string> {
    set p | p in Removed(changes) :: PartitionKey(p)
  }

  // The documents the supplied artifacts put back, the last one for a path winning.
  function Supplied(e: Engine, artifacts: seq<Artifact>): map<string, Document> {
    if artifacts == [] then map[]
    else
      var before, last := Supplied(e, artifacts[..|artifacts| - 1]), artifacts[|artifacts| - 1];
      match e.parse(last)
      case None => before
      case Some(d) => before[PartitionKey(d.path) := d]
  }

  // The documents after the change list and the supplied artifacts.
  function Logical(e: Engine, base: map<string, Document>, changes: seq<Change>, artifacts: seq<Artifact>)
      : map<string, Document>
  {
    (base - RemovedKeys(changes)) + Supplied(e, artifacts)
  }

  // Changed paths that should exist at the head and were not supplied.
  function Missing(changes: seq<Change>, artifacts: seq<Artifact>): seq<string> {
    if changes == [] then []
    else
      var before, c := Missing(changes[..|changes| - 1], artifacts), changes[|changes| - 1];
      if c.kind == Deleted || c.path in before || (exists a :: a in artifacts && a.path == c.path) then before
      else before + [c.path]
  }

  // A path is removed when a change names it, or leaves it without copying.
  lemma RemovedIs(changes: seq<Change>, p: string)
    ensures p in Removed(changes) <==>
              exists c :: c in changes && (c.path == p || (c.previousPath == Some(p) && c.kind != Copied))
  {
  }

  // Artifact `i` is the last one that parses for the key.
  ghost predicate LastFor(e: Engine, artifacts: seq<Artifact>, k: string, i: int) {
    && 0 <= i < |artifacts| && ParsesFor(e, artifacts[i], k)
    && forall j :: i < j < |artifacts| ==> !ParsesFor(e, artifacts[j], k)
  }

  ghost predicate ParsesFor(e: Engine, a: Artifact, k: string) {
    e.parse(a).Some? && k == "event-document:" + e.parse(a).value.path
  }

  lemma {:induction false} LastSuppliedWins(e: Engine, artifacts: seq<Artifact>, k: string)
    ensures k in Supplied(e, artifacts) <==> exists i :: LastFor(e, artifacts, k, i)
    ensures forall i :: LastFor(e, artifacts, k, i) ==> Supplied(e, artifacts)[k] == e.parse(artifacts[i]).value
  {
    if artifacts != [] {
      var n := |artifacts| - 1;
      var front := artifacts[..n];
      LastSuppliedWins(e, front, k);
      assert ParsesFor(e, artifacts[n], k) <==>
               e.parse(artifacts[n]).Some? && k == PartitionKey(e.parse(artifacts[n]).value.path);
      hide ParsesFor, PartitionKey;
      if ParsesFor(e, artifacts[n], k) {
        assert LastFor(e, artifacts, k, n);
      } else {
        forall i ensures LastFor(e, artifacts, k, i) <==> LastFor(e, front, k, i) {
          assert 0 <= i < n ==> front[i] == artifacts[i];
          assert forall j :: 0 <= j < n ==> front[j] == artifacts[j];
        }
      }
    }
  }

  // Each document once, in any order.
  ghost predicate Lists(documents: seq<Document>, m: map<string, Document>) {
    && DistinctPaths(documents)
    && (forall d :: d in documents ==> PartitionKey(d.path) in m && m[PartitionKey(d.path)] == d)
    && (forall k :: k in m ==> m[k] in documents)
  }

  ghost predicate KeysSpellPaths(m: map<string, Document>) {
    forall k :: k in m ==> k == PartitionKey(m[k].path)
  }

  method ListValues(m: map<string, Document>) returns (documents: seq<Document>)
    requires KeysSpellPaths(m)
    ensures Lists(documents, m)
  {
    documents := [];
    var todo := m.Keys;
    while todo != {}
      invariant todo <= m.Keys && DistinctPaths(documents)
      invariant forall d :: d in documents ==>
                  PartitionKey(d.path) in m && PartitionKey(d.path) !in todo && m[PartitionKey(d.path)] == d
      invariant forall k :: k in m && k !in todo ==> m[k] in documents
      decreases todo
    {
      var k :| k in todo;
      documents := documents + [m[k]];
      todo := todo - {k};
    }
  }

  lemma ListingsExtractAlike(e: Engine, a: seq<Document>, b: seq<Document>, m: map<string, Document>)
    requires WellFormed(e) && Lists(a, m) && Lists(b, m)
    ensures Extract(e.rules, a) == Extract(e.rules, b)
  {
    hide Extract;
    assert forall d :: d in a <==> d in b;
    assert NoDuplicates(a) && NoDuplicates(b);
    ListingsAgree(a, b);
    ExtractIgnoresOrder(e.rules, a, b);
  }

  function MissingLimitations(paths: seq<string>): seq<Limitation> {
    seq(|paths|, i requires 0 <= i < |paths| => Limitation("changed_artifact_missing", paths[i]))
  }

  function MissingDiagnostics(paths: seq<string>): seq<Diagnostic> {
    seq(|paths|, i requires 0 <= i < |paths| =>
      Diagnostic("missing_blob", "error", "Changed event artifact is unavailable.", paths[i]))
  }

  // The coverage an update reports for what it materialized.
  function UpdateCoverage(c: Coverage, planComplete: bool, missing: seq<string>): Coverage {
    if missing != [] || !planComplete || c.state != Complete
    then c.(state := Partial, limitations := c.limitations + MissingLimitations(missing))
    else c
  }

  const INVALID_STATE := Update(
    map[], {}, Coverage(AllFailed, 1, 0, 0, 1, [Limitation("invalid_partition_payload", "")]),
    [Diagnostic("parse_failure", "error", "Persisted event state is invalid.", "")])

  // The replacement partition built for one supplied document.
  ghost predicate BuiltFrom(e: Engine, k: string, d: Document, p: Partition) {
    Extract(e.rules, [d]).Ok? && p == Partition(k, [d.path], [], d, Extract(e.rules, [d]).value)
  }

  // What a successful update promises about the documents it ends with.
  ghost predicate UpdateOf(
      e: Engine, base: map<string, Document>, planComplete: bool, changes: seq<Change>, artifacts: seq<Artifact>,
      u: Update)
  {
    && u.replacements.Keys == Supplied(e, artifacts).Keys
    && (forall k :: k in u.replacements ==> BuiltFrom(e, k, Supplied(e, artifacts)[k], u.replacements[k]))
    && u.tombstones == (base.Keys * RemovedKeys(changes)) - Supplied(e, artifacts).Keys
    && exists documents ::
         && Lists(documents, Logical(e, base, changes, artifacts)) && Extract(e.rules, documents).Ok?
         && var x := Extract(e.rules, documents).value;
            && u.coverage == UpdateCoverage(x.coverage, planComplete, Missing(changes, artifacts))
            && u.diagnostics == x.diagnostics + MissingDiagnostics(Missing(changes, artifacts))
  }

  // What an update reports, beside the extraction of the documents it ends with.
  ghost predicate Reports(x: Extraction, planComplete: bool, missing: seq<string>, u: Update) {
    && u.coverage.eligible == x.coverage.eligible && u.coverage.processed == x.coverage.processed
    && u.coverage.skipped == x.coverage.skipped && u.coverage.failed == x.coverage.failed
    && u.coverage.state == (if missing == [] && planComplete && x.coverage.state == Complete then Complete else Partial)
    && |u.coverage.limitations| == |x.coverage.limitations| + |missing|
    && u.coverage.limitations[..|x.coverage.limitations|] == x.coverage.limitations
    && (forall i :: 0 <= i < |missing| ==>
          u.coverage.limitations[|x.coverage.limitations| + i] == Limitation("changed_artifact_missing", missing[i]))
    && |u.diagnostics| == |x.diagnostics| + |missing| && u.diagnostics[..|x.diagnostics|] == x.diagnostics
    && (forall i :: 0 <= i < |missing| ==>
          u.diagnostics[|x.diagnostics| + i] ==
          Diagnostic("missing_blob", "error", "Changed event artifact is unavailable.", missing[i]))
  }

  lemma UpdateReports(
      e: Engine, base: map<string, Document>, planComplete: bool, changes: seq<Change>, artifacts: seq<Artifact>,
      u: Update) returns (documents: seq<Document>)
    requires UpdateOf(e, base, planComplete, changes, artifacts, u)
    ensures Lists(documents, Logical(e, base, changes, artifacts)) && Extract(e.rules, documents).Ok?
    ensures Reports(Extract(e.rules, documents).value, planComplete, Missing(changes, artifacts), u)
  {
    hide Extract, Lists, BuiltFrom, Logical, Missing;
    documents :| Lists(documents, Logical(e, base, changes, artifacts)) && Extract(e.rules, documents).Ok? &&
                 var x := Extract(e.rules, documents).value;
                 && u.coverage == UpdateCoverage(x.coverage, planComplete, Missing(changes, artifacts))
                 && u.diagnostics == x.diagnostics + MissingDiagnostics(Missing(changes, artifacts));
  }

  ghost predicate DocumentThrows(e: Engine, d: Document) {
    EmitDocument(e.rules, d).Throws?
  }

  method BuildPartition(e: Engine, d: Document) returns (r: Result<Partition>)
    ensures r.Throws? <==> DocumentThrows(e, d)
    ensures r.Ok? ==> BuiltFrom(e, PartitionKey(d.path), d, r.value)
  {
    hide EmitDocument, Extract;
    var x := Materialize(e.rules, [d]);
    ExtractThrows(e.rules, [d]);
    match x
    case Throws => return Throws;
    case Ok(extraction) => return Ok(Partition(PartitionKey(d.path), [d.path], [], d, extraction));
  }

  lemma SuppliedKeysSpellPaths(e: Engine, artifacts: seq<Artifact>)
    ensures KeysSpellPaths(Supplied(e, artifacts))
  {
  }

  // Walking the change list: what is left, what is dropped, what must reappear.
  method RemoveChanged(base: map<string, Document>, changes: seq<Change>)
    returns (logical: map<string, Document>, tombstones: set<string>)
    ensures logical == base - RemovedKeys(changes)
    ensures tombstones == base.Keys * RemovedKeys(changes)
  {
    hide RemovedKeys, PartitionKey;
    logical, tombstones := base, {};
    NothingRemoved();
    assert changes[..0] == [];
    for i := 0 to |changes|
      invariant logical == base - RemovedKeys(changes[..i])
      invariant tombstones == base.Keys * RemovedKeys(changes[..i])
    {
      var c := changes[i];
      assert changes[..i + 1] == changes[..i] + [c];
      RemovedOneMore(changes[..i], c);
      if PartitionKey(c.path) in logical {
        logical, tombstones := logical - {PartitionKey(c.path)}, tombstones + {PartitionKey(c.path)};
      }
      if c.previousPath.Some? && c.kind != Copied {
        var key := PartitionKey(c.previousPath.value);
        if key in logical {
          logical, tombstones := logical - {key}, tombstones + {key};
        }
      }
    }
    assert changes[..|changes|] == changes;
  }

  lemma NothingRemoved()
    ensures RemovedKeys([]) == {}
  {
  }

  lemma RemovedOneMore(changes: seq<Change>, c: Change)
    ensures RemovedKeys(changes + [c]) ==
            RemovedKeys(changes) + {PartitionKey(c.path)} +
            if c.previousPath.Some? && c.kind != Copied then {PartitionKey(c.previousPath.value)} else {}
  {
    hide PartitionKey;
    assert forall d :: d in changes + [c] <==> d in changes || d == c;
    assert Removed(changes + [c]) ==
           Removed(changes) + {c.path} +
           if c.previousPath.Some? && c.kind != Copied then {c.previousPath.value} else {};
  }

  // Taking the supplied artifacts in turn.
  method SupplyArtifacts(e: Engine, kept: map<string, Document>, dropped: set<string>, artifacts: seq<Artifact>)
    returns (threw: bool, logical: map<string, Document>, tombstones: set<string>, replacements: map<string, Partition>)
    requires WellFormed(e)
    ensures threw <==> exists a :: a in artifacts && e.parse(a).Some? && DocumentThrows(e, e.parse(a).value)
    ensures !threw ==>
              && logical == kept + Supplied(e, artifacts)
              && tombstones == dropped - Supplied(e, artifacts).Keys
              && replacements.Keys == Supplied(e, artifacts).Keys
              && forall k :: k in replacements ==> BuiltFrom(e, k, Supplied(e, artifacts)[k], replacements[k])
  {
    hide BuiltFrom, DocumentThrows, PartitionKey;
    threw, logical, tombstones, replacements := false, kept, dropped, map[];
    for i := 0 to |artifacts|
      invariant logical == kept + Supplied(e, artifacts[..i])
      invariant tombstones == dropped - Supplied(e, artifacts[..i]).Keys
      invariant replacements.Keys == Supplied(e, artifacts[..i]).Keys
      invariant forall k :: k in replacements ==> BuiltFrom(e, k, Supplied(e, artifacts[..i])[k], replacements[k])
      invariant forall j :: 0 <= j < i && e.parse(artifacts[j]).Some? ==>
                  !DocumentThrows(e, e.parse(artifacts[j]).value)
    {
      assert artifacts[..i + 1][..i] == artifacts[..i];
      var document := e.parse(artifacts[i]);
      if document.Some? {
        var key := PartitionKey(document.value.path);
        var replacement := BuildPartition(e, document.value);
        if replacement.Throws? {
          threw := true;
          return;
        }
        logical := logical[key := document.value];
        replacements := replacements[key := replacement.value];
        tombstones := tombstones - {key};
      }
    }
    assert artifacts[..|artifacts|] == artifacts;
  }

  method UpdatePartitions(
      e: Engine, views: seq<View>, planComplete: bool, changes: seq<Change>, artifacts: seq<Artifact>)
    returns (r: Result<Update>)
    requires WellFormed(e)
    ensures DecodedViews(e, views).None? ==> r == Ok(INVALID_STATE)
    ensures DecodedViews(e, views).Some? ==>
              var base := DecodedViews(e, views).value;
              && (r.Throws? <==>
                   (exists a :: a in artifacts && e.parse(a).Some? && DocumentThrows(e, e.parse(a).value)) ||
                   (exists k :: k in Logical(e, base, changes, artifacts) &&
                                DocumentThrows(e, Logical(e, base, changes, artifacts)[k])) ||
                   (exists k :: k in Supplied(e, artifacts) && !HashableDocument(Supplied(e, artifacts)[k])))
              && (r.Ok? ==> UpdateOf(e, base, planComplete, changes, artifacts, r.value))
  {
    hide BuiltFrom, DocumentThrows, Extract, EmitDocument, RemovedKeys, UpdateCoverage, Missing, Supplied, DecodedViews;
    var decoded := Decode(e, views);
    if decoded.None? {
      return Ok(INVALID_STATE);
    }
    DecodedKeysSpellPaths(e, views);
    var logical, tombstones := RemoveChanged(decoded.value, changes);
    var threw, replacements;
    threw, logical, tombstones, replacements := SupplyArtifacts(e, logical, tombstones, artifacts);
    if threw {
      return Throws;
    }
    SuppliedKeysSpellPaths(e, artifacts);
    var documents := ListValues(logical);
    var x := Materialize(e.rules, documents);
    assert logical == Logical(e, decoded.value, changes, artifacts);
    ThrowsIffListedThrows(e, documents, logical);
    if x.Throws? {
      return Throws;
    }
    if exists k :: k in replacements && !HashableDocument(replacements[k].payload) {
      ReplacedAreSupplied(e, artifacts, replacements);
      return Throws;
    }
    ReplacedAreSupplied(e, artifacts, replacements);
    var missing := Missing(changes, artifacts);
    r := Ok(Update(replacements, tombstones, UpdateCoverage(x.value.coverage, planComplete, missing),
                   x.value.diagnostics + MissingDiagnostics(missing)));
  }

  lemma ReplacedAreSupplied(e: Engine, artifacts: seq<Artifact>, replacements: map<string, Partition>)
    requires replacements.Keys == Supplied(e, artifacts).Keys
    requires forall k :: k in replacements ==> BuiltFrom(e, k, Supplied(e, artifacts)[k], replacements[k])
    ensures forall k :: k in replacements ==> replacements[k].payload == Supplied(e, artifacts)[k]
  {
    hide Supplied, Extract;
  }

  lemma DecodedKeysSpellPaths(e: Engine, views: seq<View>)
    requires DecodedViews(e, views).Some?
    ensures KeysSpellPaths(DecodedViews(e, views).value)
  {
    hide DecodedViews, AcceptedDocument;
    DecodedExactly(e, views);
  }

  lemma ThrowsIffListedThrows(e: Engine, documents: seq<Document>, m: map<string, Document>)
    requires Lists(documents, m)
    ensures Extract(e.rules, documents).Throws? <==> exists k :: k in m && DocumentThrows(e, m[k])
  {
    hide Extract, EmitDocument;
    ExtractThrows(e.rules, documents);
    if d :| d in documents && EmitDocument(e.rules, d).Throws? {
      assert m[PartitionKey(d.path)] == d;
    }
  }

  // --- incremental equals from scratch ---------------------------------------

  // Base and head differ only where the change list says so, every touched path
  // of the head is supplied, and nothing is supplied that the head does not hold.
  ghost predicate ExactDiff(base: Tree, head: Tree, changes: seq<Change>, artifacts: seq<Artifact>) {
    && TreeOk(base) && TreeOk(head)
    && (forall p :: p !in Removed(changes) ==> (p in base <==> p in head) && (p in base ==> base[p] == head[p]))
    && (forall p :: p in Removed(changes) && p in head ==> head[p] in artifacts)
    && (forall a :: a in artifacts ==> a.path in head && head[a.path] == a)
  }

  lemma {:induction false} SuppliedFromTree(e: Engine, tree: Tree, artifacts: seq<Artifact>, path: string)
    requires WellFormed(e) && TreeOk(tree)
    requires forall a :: a in artifacts ==> a.path in tree && tree[a.path] == a
    ensures PartitionKey(path) in Supplied(e, artifacts) <==>
              path in tree && tree[path] in artifacts && e.parse(tree[path]).Some?
    ensures PartitionKey(path) in Supplied(e, artifacts) ==>
              Supplied(e, artifacts)[PartitionKey(path)] == e.parse(tree[path]).value
  {
    hide PartitionKey;
    if artifacts != [] {
      var n := |artifacts| - 1;
      var a := artifacts[n];
      SuppliedFromTree(e, tree, artifacts[..n], path);
      assert artifacts == artifacts[..n] + [a];
      if PartitionKey(a.path) == PartitionKey(path) {
        PartitionKeysDiffer(a.path, path);
      }
    }
  }

  lemma RemovedKeysAt(changes: seq<Change>, path: string)
    ensures PartitionKey(path) in RemovedKeys(changes) <==> path in Removed(changes)
  {
    hide PartitionKey, Removed;
    if PartitionKey(path) in RemovedKeys(changes) {
      var p :| p in Removed(changes) && PartitionKey(path) == PartitionKey(p);
      PartitionKeysDiffer(path, p);
    }
  }

  lemma LogicalAt(e: Engine, base: Tree, head: Tree, changes: seq<Change>, artifacts: seq<Artifact>, path: string)
    requires WellFormed(e) && ExactDiff(base, head, changes, artifacts)
    ensures var k, logical := PartitionKey(path), Logical(e, Keyed(e, base), changes, artifacts);
            (k in logical <==> k in Keyed(e, head)) && (k in logical ==> logical[k] == Keyed(e, head)[k])
  {
    hide PartitionKey, Keyed, Supplied, RemovedKeys, Removed;
    KeyedAt(e, base, path);
    KeyedAt(e, head, path);
    SuppliedFromTree(e, head, artifacts, path);
    RemovedKeysAt(changes, path);
  }

  // The logical documents after the update are the head's documents.
  lemma LogicalIsHead(e: Engine, base: Tree, head: Tree, changes: seq<Change>, artifacts: seq<Artifact>)
    requires WellFormed(e) && ExactDiff(base, head, changes, artifacts)
    ensures Logical(e, Keyed(e, base), changes, artifacts) == Keyed(e, head)
  {
    var logical, wanted := Logical(e, Keyed(e, base), changes, artifacts), Keyed(e, head);
    SuppliedKeysSpellPaths(e, artifacts);
    KeyedAt(e, base, "");
    KeyedAt(e, head, "");
    hide PartitionKey, Keyed, Supplied, RemovedKeys, Removed;
    forall k | k in logical || k in wanted
      ensures k in logical && k in wanted && logical[k] == wanted[k]
    {
      var supplied := Supplied(e, artifacts);
      var path := if k in supplied then supplied[k].path else PathOf(k);
      assert k == PartitionKey(path);
      hide Logical;
      LogicalAt(e, base, head, changes, artifacts, path);
    }
  }

  // What the store holds after dropping tombstones and adding replacements.
  ghost function Applied(base: map<string, Document>, u: Update): map<string, Document> {
    (base - u.tombstones) + map k | k in u.replacements :: u.replacements[k].payload
  }

  lemma AppliedIsLogical(
      e: Engine, base: map<string, Document>, planComplete: bool, changes: seq<Change>, artifacts: seq<Artifact>,
      u: Update)
    requires UpdateOf(e, base, planComplete, changes, artifacts, u)
    ensures Applied(base, u) == Logical(e, base, changes, artifacts)
  {
    hide Extract, Supplied, RemovedKeys, Lists, UpdateCoverage, Missing, MissingDiagnostics, KeysDiffer;
    forall k | k in u.replacements ensures u.replacements[k].payload == Supplied(e, artifacts)[k] {
      assert BuiltFrom(e, k, Supplied(e, artifacts)[k], u.replacements[k]);
    }
  }

  // The documents of a list of artifacts, in its order.
  function ParsedIn(e: Engine, artifacts: seq<Artifact>): seq<Document> {
    if artifacts == [] then []
    else
      var before, last := ParsedIn(e, artifacts[..|artifacts| - 1]), e.parse(artifacts[|artifacts| - 1]);
      if last.Some? then before + [last.value] else before
  }

  ghost predicate ListsTree(artifacts: seq<Artifact>, tree: Tree) {
    && TreeOk(tree)
    && (forall i, j :: 0 <= i < j < |artifacts| ==> artifacts[i].path != artifacts[j].path)
    && (forall a :: a in artifacts ==> a.path in tree && tree[a.path] == a)
    && (forall p :: p in tree ==> tree[p] in artifacts)
  }

  lemma {:induction false} ParsedInIs(e: Engine, artifacts: seq<Artifact>)
    requires WellFormed(e)
    requires forall i, j :: 0 <= i < j < |artifacts| ==> artifacts[i].path != artifacts[j].path
    ensures DistinctPaths(ParsedIn(e, artifacts))
    ensures forall d :: d in ParsedIn(e, artifacts) ==> exists a :: a in artifacts && e.parse(a) == Some(d)
    ensures forall a :: a in artifacts && e.parse(a).Some? ==> e.parse(a).value in ParsedIn(e, artifacts)
  {
    if artifacts != [] {
      var n := |artifacts| - 1;
      ParsedInIs(e, artifacts[..n]);
      assert artifacts == artifacts[..n] + [artifacts[n]];
      forall d | d in ParsedIn(e, artifacts[..n]) ensures d.path != artifacts[n].path {
        var a :| a in artifacts[..n] && e.parse(a) == Some(d);
      }
    }
  }

  lemma ParsedListsTree(e: Engine, artifacts: seq<Artifact>, tree: Tree)
    requires WellFormed(e) && ListsTree(artifacts, tree)
    ensures Lists(ParsedIn(e, artifacts), Keyed(e, tree))
  {
    hide Keyed, PartitionKey, PathOf;
    ParsedInIs(e, artifacts);
    forall d | d in ParsedIn(e, artifacts)
      ensures PartitionKey(d.path) in Keyed(e, tree) && Keyed(e, tree)[PartitionKey(d.path)] == d
    {
      KeyedAt(e, tree, d.path);
    }
    forall k | k in Keyed(e, tree) ensures Keyed(e, tree)[k] in ParsedIn(e, artifacts) {
      KeyedAt(e, tree, PathOf(k));
    }
  }

  function ViewsOf(e: Engine, documents: seq<Document>): (views: seq<View>)
    ensures |views| == |documents| && forall i :: 0 <= i < |documents| ==> views[i] == ViewOf(e, documents[i])
  {
    seq(|documents|, i requires 0 <= i < |documents| => ViewOf(e, documents[i]))
  }

  lemma ViewSpeaks(e: Engine, d: Document)
    ensures SpeaksOfItself(e, ViewOf(e, d))
  {
  }

  lemma BuiltViewsAreIntact(e: Engine, tree: Tree, documents: seq<Document>)
    requires WellFormed(e) && TreeOk(tree) && Lists(documents, Keyed(e, tree))
    ensures var m, views := Keyed(e, tree), ViewsOf(e, documents);
            && (forall v :: v in views ==> v.partitionKey in m && m[v.partitionKey] == v.payload)
            && (forall v :: v in views ==> SpeaksOfItself(e, v))
            && KeysDiffer(views)
            && (forall k :: k in m ==> exists v :: v in views && v.partitionKey == k)
  {
    hide Keyed, PathOf, ViewsOf, AcceptedDocument;
    var m, views := Keyed(e, tree), ViewsOf(e, documents);
    forall v | v in views ensures SpeaksOfItself(e, v) {
      ViewSpeaks(e, v.payload);
    }
    hide PartitionKey;
    forall i, j | 0 <= i < j < |views| ensures views[i].partitionKey != views[j].partitionKey {
      if PartitionKey(documents[i].path) == PartitionKey(documents[j].path) {
        PartitionKeysDiffer(documents[i].path, documents[j].path);
      }
    }
    forall k | k in m ensures exists v :: v in views && v.partitionKey == k {
      KeyedAt(e, tree, PathOf(k));
      var i :| 0 <= i < |documents| && documents[i] == m[k];
      assert views[i] in views;
    }
  }

  // Persisting documents and reading them back, in whatever order, changes nothing
  // when every document passes the field checks, and is refused otherwise.
  lemma BuiltViewsDecode(e: Engine, tree: Tree, documents: seq<Document>)
    requires WellFormed(e) && TreeOk(tree) && Lists(documents, Keyed(e, tree))
    ensures DecodedViews(e, ViewsOf(e, documents)) ==
            if forall d :: d in documents ==> AcceptedDocument(e.repoPath, d) then Some(Keyed(e, tree)) else None
  {
    hide Keyed, PartitionKey, PathOf, ViewsOf, DecodedViews, SpeaksOfItself, AcceptedDocument, KeysDiffer;
    var m, views := Keyed(e, tree), ViewsOf(e, documents);
    BuiltViewsAreIntact(e, tree, documents);
    DecodedExactly(e, views);
    ViewsHoldDocuments(e, documents);
    hide HoldsViews;
    if DecodedViews(e, views).Some? {
      SameContents(DecodedViews(e, views).value, m, views);
    }
  }

  lemma ViewsHoldDocuments(e: Engine, documents: seq<Document>)
    ensures var views := ViewsOf(e, documents);
            && (forall d :: d in documents ==> exists v :: v in views && v.payload == d)
            && (forall v :: v in views ==> v.payload in documents)
  {
    hide ViewsOf;
    var views := ViewsOf(e, documents);
    forall d | d in documents ensures exists v :: v in views && v.payload == d {
      var i :| 0 <= i < |documents| && documents[i] == d;
      assert views[i] in views && views[i].payload == d;
    }
    forall v | v in views ensures v.payload in documents {
      var i :| 0 <= i < |views| && views[i] == v;
    }
  }

  lemma SameContents(a: map<string, Document>, b: map<string, Document>, views: seq<View>)
    requires HoldsViews(a, views)
    requires forall v :: v in views ==> v.partitionKey in b && b[v.partitionKey] == v.payload
    requires forall k :: k in b ==> exists v :: v in views && v.partitionKey == k
    ensures a == b
  {
    forall k | k in b ensures k in a && a[k] == b[k] {
      var v :| v in views && v.partitionKey == k;
    }
    forall k | k in a ensures k in b {
      var v :| v in views && v.partitionKey == k;
    }
  }

  // What can be read back of a tree whose documents were extracted and hashed.
  lemma TreeIsReadBack(
      e: Engine, c: Reader, n: ContractKeys.Normaliser, tree: Tree, documents: seq<Document>)
    requires WellFormed(e) && TreeOk(tree) && Lists(documents, Keyed(e, tree))
    requires (forall a :: e.parse(a) == Parse(c, a)) && ReaderOk(c) && KeysAreIdentities(e.rules, n, c.nfc)
    requires Extract(e.rules, documents).Ok? && forall d :: d in documents ==> HashableDocument(d)
    requires forall p :: p in tree ==>
               e.repoPath(p) && IsDigest(tree[p].contentHash) && tree[p].classification in CLASSIFICATIONS
    ensures DecodedViews(e, ViewsOf(e, documents)) ==
            if forall d :: d in documents ==> SafeDocument(d) then Some(Keyed(e, tree)) else None
  {
    hide DecodedViews, ViewsOf, Keyed, Extract, EmitDocument, AcceptedDocument, SafeDocument, HashableDocument, Parse,
         ReaderOk, KeysAreIdentities, PartitionKey, PathOf, IsDigest;
    BuiltViewsDecode(e, tree, documents);
    ExtractThrows(e.rules, documents);
    forall d | d in documents ensures AcceptedDocument(e.repoPath, d) <==> SafeDocument(d) {
      KeyedAt(e, tree, d.path);
      ParsedIsAccepted(c, e.rules, n, e.repoPath, tree[d.path]);
    }
  }

  // It is parsed and extracted, but its partition is never read back.
  lemma BlankTopicIsRefused(e: Engine, c: Reader, a: Artifact, text: string)
    requires a.classification == "source" && |a.bytes| <= BYTE_LIMIT && c.decode(a.bytes) == Some(text)
    requires c.yaml(text) == None && !c.declares(text) && c.namespaces == map[]
    requires c.matches(text) == [Match(Consumer, "kafka", "topic", "", "  ", None)]
    ensures Parse(c, a) == Some(BlankSubscription(a.path, a.contentHash))
    ensures Extract(e.rules, [BlankSubscription(a.path, a.contentHash)]).Ok?
    ensures DecodedViews(e, ViewsOf(e, [BlankSubscription(a.path, a.contentHash)])).None?
  {
    hide Extract, ViewsOf, DecodedViews, Parse, AcceptedDocument, BlankSubscription;
    var d := BlankSubscription(a.path, a.contentHash);
    BlankIsParsed(c, a, text);
    BlankIsExtracted(e.rules, a.path, a.contentHash);
    BlankIsNotAccepted(e.repoPath, a.path, a.contentHash);
    var views := ViewsOf(e, [d]);
    assert views[0] in views && views[0].payload == d;
    DecodedExactly(e, views);
  }

  function Payloads(views: seq<View>): (documents: seq<Document>)
    ensures |documents| == |views| && forall i :: 0 <= i < |views| ==> documents[i] == views[i].payload
  {
    seq(|views|, i requires 0 <= i < |views| => views[i].payload)
  }

  // Reading persisted partitions back into an extraction; a corrupt one throws.
  method MaterializePartitions(e: Engine, views: seq<View>) returns (r: Result<Extraction>)
    ensures r == if DecodedViews(e, views).Some? then Extract(e.rules, Payloads(views)) else Throws
  {
    hide DecodedViews, Extract;
    var decoded := Decode(e, views);
    if decoded.None? {
      return Throws;
    }
    r := Materialize(e.rules, Payloads(views));
  }

  // The central law: updating the base partitions and rebuilding from the head
  // give the same partitions, and materializing them is extracting the head.
  lemma IncrementalIsScratch(
      e: Engine, base: Tree, head: Tree, changes: seq<Change>, supplied: seq<Artifact>, planComplete: bool, u: Update,
      stored: seq<Document>, headArtifacts: seq<Artifact>)
    requires WellFormed(e) && ExactDiff(base, head, changes, supplied)
    requires UpdateOf(e, Keyed(e, base), planComplete, changes, supplied, u)
    requires Lists(stored, Applied(Keyed(e, base), u)) && ListsTree(headArtifacts, head)
    ensures Applied(Keyed(e, base), u) == Keyed(e, head)
    ensures Extract(e.rules, stored) == Extract(e.rules, ParsedIn(e, headArtifacts))
  {
    hide UpdateOf, ExactDiff, ListsTree, Lists, Applied, Keyed, Extract, Logical;
    AppliedIsLogical(e, Keyed(e, base), planComplete, changes, supplied, u);
    LogicalIsHead(e, base, head, changes, supplied);
    ParsedListsTree(e, headArtifacts, head);
    ListingsExtractAlike(e, stored, ParsedIn(e, headArtifacts), Keyed(e, head));
  }

  lemma {:induction false} MissingIs(changes: seq<Change>, artifacts: seq<Artifact>, path: string)
    ensures path in Missing(changes, artifacts) <==>
              (exists c :: c in changes && c.kind != Deleted && c.path == path) &&
              !exists a :: a in artifacts && a.path == path
  {
    if changes != [] {
      var n := |changes| - 1;
      MissingIs(changes[..n], artifacts, path);
      assert changes == changes[..n] + [changes[n]];
    }
  }

  lemma NothingMissing(base: Tree, head: Tree, changes: seq<Change>, artifacts: seq<Artifact>)
    requires ExactDiff(base, head, changes, artifacts)
    requires forall c :: c in changes && c.kind != Deleted ==> c.path in head
    ensures Missing(changes, artifacts) == []
  {
    if Missing(changes, artifacts) != [] {
      var path := Missing(changes, artifacts)[0];
      MissingIs(changes, artifacts, path);
    }
  }

  // The update's own coverage is the head's exactly when some document of the
  // head could be read: other heads are reported as partial.
  lemma UpdateCoverageAgrees(
      e: Engine, base: Tree, head: Tree, changes: seq<Change>, supplied: seq<Artifact>, u: Update,
      headArtifacts: seq<Artifact>)
    requires WellFormed(e) && ExactDiff(base, head, changes, supplied) && ListsTree(headArtifacts, head)
    requires forall c :: c in changes && c.kind != Deleted ==> c.path in head
    requires UpdateOf(e, Keyed(e, base), true, changes, supplied, u)
    ensures Extract(e.rules, ParsedIn(e, headArtifacts)).Ok?
    ensures var x := Extract(e.rules, ParsedIn(e, headArtifacts)).value;
            && u.diagnostics == x.diagnostics
            && u.coverage.state == (if x.coverage.state == Complete then Complete else Partial)
            && (u.coverage == x.coverage <==>
                  exists a :: a in headArtifacts && e.parse(a).Some? && !e.parse(a).value.Failed?)
  {
    hide ExactDiff, ListsTree, Lists, Keyed, Extract, Logical, BuiltFrom;
    NothingMissing(base, head, changes, supplied);
    LogicalIsHead(e, base, head, changes, supplied);
    var documents :| Lists(documents, Logical(e, Keyed(e, base), changes, supplied)) &&
                     Extract(e.rules, documents).Ok? &&
                     u.coverage == UpdateCoverage(Extract(e.rules, documents).value.coverage, true, []) &&
                     u.diagnostics == Extract(e.rules, documents).value.diagnostics + MissingDiagnostics([]);
    ParsedListsTree(e, headArtifacts, head);
    ListingsExtractAlike(e, documents, ParsedIn(e, headArtifacts), Keyed(e, head));
    SomeReadable(e, headArtifacts);
  }

  lemma SomeReadable(e: Engine, artifacts: seq<Artifact>)
    requires Extract(e.rules, ParsedIn(e, artifacts)).Ok?
    ensures var state := Extract(e.rules, ParsedIn(e, artifacts)).value.coverage.state;
            (state == Complete || state == Partial) <==>
              exists a :: a in artifacts && e.parse(a).Some? && !e.parse(a).value.Failed?
  {
    hide Extract;
    StateIsReadable(e.rules, ParsedIn(e, artifacts));
    ParsedInAre(e, artifacts);
  }

  lemma {:induction false} ParsedInAre(e: Engine, artifacts: seq<Artifact>)
    ensures forall d :: d in ParsedIn(e, artifacts) <==> exists a :: a in artifacts && e.parse(a) == Some(d)
  {
    if artifacts != [] {
      var n := |artifacts| - 1;
      ParsedInAre(e, artifacts[..n]);
      assert artifacts == artifacts[..n] + [artifacts[n]];
    }
  }

  // A head whose only document is over the limit is reported as partial.
  lemma FailedHeadIsPartial(e: Engine, a: Artifact, u: Update)
    requires WellFormed(e) && e.parse(a) == Some(Failed(a.path, a.contentHash, a.classification, true))
    requires UpdateOf(e, map[], true, [Change(Added, a.path, None)], [a], u)
    ensures Extract(e.rules, ParsedIn(e, [a])).Ok?
    ensures Extract(e.rules, ParsedIn(e, [a])).value.coverage.state == AllFailed && u.coverage.state == Partial
  {
    hide Keyed, Removed, UpdateOf, Extract, ParsedIn, ExactDiff, ListsTree;
    OneFileIsAdded(a);
    NothingKeyed(e);
    OneIsParsed(e, a);
    UpdateCoverageAgrees(e, map[], map[a.path := a], [Change(Added, a.path, None)], [a], u, [a]);
    StateOfFailed(e.rules, e.parse(a).value);
  }

  lemma OneFileIsAdded(a: Artifact)
    ensures ExactDiff(map[], map[a.path := a], [Change(Added, a.path, None)], [a]) && ListsTree([a], map[a.path := a])
  {
    var changes := [Change(Added, a.path, None)];
    assert changes[0] in changes;
  }

  lemma NothingKeyed(e: Engine)
    ensures Keyed(e, map[]) == map[]
  {
  }

  lemma OneIsParsed(e: Engine, a: Artifact)
    requires e.parse(a).Some?
    ensures ParsedIn(e, [a]) == [e.parse(a).value]
  {
    assert [a][..0] == [];
  }

  lemma StateOfFailed(rules: Rules, d: Document)
    requires d.Failed? && Extract(rules, [d]).Ok?
    ensures Extract(rules, [d]).value.coverage.state == AllFailed
  {
  }

  // Two files that trade places are an exact diff once both are supplied.
  lemma SwappedRenamesAreExact(a: Artifact, b: Artifact, a': Artifact, b': Artifact)
    requires a.path == a'.path && b.path == b'.path && a.path != b.path
    ensures ExactDiff(
              map[a.path := a, b.path := b], map[a.path := a', b.path := b'],
              [Change(Renamed, b.path, Some(a.path)), Change(Renamed, a.path, Some(b.path))], [a', b'])
  {
    var changes := [Change(Renamed, b.path, Some(a.path)), Change(Renamed, a.path, Some(b.path))];
    assert changes[0] in changes && changes[1] in changes;
    assert a.path in Removed(changes) && b.path in Removed(changes);
  }
}
