// Chains of event updates, with and without missing artifacts, against the
// documents of the last tree.
module EventRuns {
  import opened Outcomes
  import opened Changes
  import opened EventExtraction
  import opened EventParsing
  import opened EventPersistence
  import opened EventPartitions
  import Sorting

  datatype Step = Step(changes: seq<Change>, supplied: seq<Artifact>, planComplete: bool)

  ghost predicate Expected(changes: seq<Change>, path: string) {
    exists c :: c in changes && c.kind != Deleted && c.path == path
  }

  ghost predicate Supplies(artifacts: seq<Artifact>, path: string) {
    exists a :: a in artifacts && a.path == path
  }

  // The trees differ only where the change list says so, a touched path of the
  // head is expected there or supplied, and nothing is supplied that the head
  // does not hold. Expected artifacts need not be supplied.
  ghost predicate ExactStep(base: Tree, head: Tree, step: Step) {
    && TreeOk(base) && TreeOk(head)
    && (forall p :: p !in Removed(step.changes) ==> (p in base <==> p in head) && (p in base ==> base[p] == head[p]))
    && (forall p :: p in Removed(step.changes) && p in head ==> Expected(step.changes, p) || Supplies(step.supplied, p))
    && (forall a :: a in step.supplied ==> a.path in head && head[a.path] == a)
  }

  // What an update leaves lost: what it misses itself, and what was lost before
  // and is neither removed nor supplied.
  ghost function StillLost(lost: set<string>, step: Step): set<string> {
    (set p | p in Missing(step.changes, step.supplied)) +
    set p | p in lost && p !in Removed(step.changes) && !Supplies(step.supplied, p)
  }

  lemma StillLostAt(lost: set<string>, step: Step, p: string)
    ensures p in StillLost(lost, step) <==>
              !Supplies(step.supplied, p) &&
              (Expected(step.changes, p) || (p in lost && p !in Removed(step.changes)))
  {
    MissingIs(step.changes, step.supplied, p);
  }

  lemma ExpectedIsRemoved(changes: seq<Change>, p: string)
    requires Expected(changes, p)
    ensures p in Removed(changes)
  {
  }

  // --- one update ------------------------------------------------------------------

  lemma SuppliedFromHead(artifacts: seq<Artifact>, head: Tree, p: string)
    requires TreeOk(head) && forall a :: a in artifacts ==> a.path in head && head[a.path] == a
    ensures Supplies(artifacts, p) <==> p in head && head[p] in artifacts
  {
  }

  lemma StepAt(e: Engine, base: Tree, head: Tree, lost: set<string>, step: Step, path: string)
    requires WellFormed(e) && ExactStep(base, head, step)
    ensures var k := PartitionKey(path);
            var logical := Logical(e, Keyed(e, base - lost), step.changes, step.supplied);
            var rest := Keyed(e, head - StillLost(lost, step));
            (k in logical <==> k in rest) && (k in logical ==> logical[k] == rest[k])
  {
    hide PartitionKey, Keyed, EventPartitions.Supplied, RemovedKeys, Removed, Expected, Supplies, StillLost;
    KeyedAt(e, base - lost, path);
    KeyedAt(e, head - StillLost(lost, step), path);
    SuppliedFromTree(e, head, step.supplied, path);
    SuppliedFromHead(step.supplied, head, path);
    RemovedKeysAt(step.changes, path);
    StillLostAt(lost, step, path);
    if Expected(step.changes, path) {
      ExpectedIsRemoved(step.changes, path);
    }
  }

  // The documents after one update are those of the head without what is lost.
  lemma StepIsHead(e: Engine, base: Tree, head: Tree, lost: set<string>, step: Step)
    requires WellFormed(e) && ExactStep(base, head, step)
    ensures Logical(e, Keyed(e, base - lost), step.changes, step.supplied) == Keyed(e, head - StillLost(lost, step))
  {
    var logical := Logical(e, Keyed(e, base - lost), step.changes, step.supplied);
    var rest := Keyed(e, head - StillLost(lost, step));
    SuppliedKeysSpellPaths(e, step.supplied);
    KeyedAt(e, base - lost, "");
    KeyedAt(e, head - StillLost(lost, step), "");
    hide PartitionKey, Keyed, EventPartitions.Supplied, RemovedKeys, Removed, StillLost, ExactStep;
    forall k | k in logical || k in rest
      ensures k in logical && k in rest && logical[k] == rest[k]
    {
      var supplied := EventPartitions.Supplied(e, step.supplied);
      var path := if k in supplied then supplied[k].path else PathOf(k);
      assert k == PartitionKey(path);
      hide Logical;
      StepAt(e, base, head, lost, step, path);
    }
  }

  // --- which paths are lost ------------------------------------------------------------

  ghost function LostAfter(steps: seq<Step>): set<string> {
    if steps == [] then {} else StillLost(LostAfter(steps[..|steps| - 1]), steps[|steps| - 1])
  }

  // Update `i` missed the path, and none removed or supplied it since.
  ghost predicate LostAt(steps: seq<Step>, p: string, i: int) {
    && 0 <= i < |steps| && p in Missing(steps[i].changes, steps[i].supplied)
    && forall j :: i < j < |steps| ==> p !in Removed(steps[j].changes) && !Supplies(steps[j].supplied, p)
  }

  lemma LostAtFront(steps: seq<Step>, p: string, i: int)
    requires 0 <= i < |steps| - 1
    ensures var n := |steps| - 1;
            LostAt(steps, p, i) <==>
              LostAt(steps[..n], p, i) && p !in Removed(steps[n].changes) && !Supplies(steps[n].supplied, p)
  {
    hide Missing, Removed, Supplies;
    var front := steps[..|steps| - 1];
    assert forall j :: 0 <= j < |front| ==> front[j] == steps[j];
  }

  lemma {:induction false} LostIs(steps: seq<Step>, p: string)
    ensures p in LostAfter(steps) <==> exists i :: LostAt(steps, p, i)
  {
    hide Missing, Removed, Supplies;
    if steps != [] {
      var n := |steps| - 1;
      LostIs(steps[..n], p);
      if i :| LostAt(steps[..n], p, i) {
        LostAtFront(steps, p, i);
      }
      if i :| LostAt(steps, p, i) && i < n {
        LostAtFront(steps, p, i);
      }
      assert LostAt(steps, p, n) <==> p in Missing(steps[n].changes, steps[n].supplied);
    }
  }

  // An update in which every touched file of the head is supplied loses nothing
  // that the head holds.
  lemma ExactDiffsLoseNothing(base: Tree, head: Tree, step: Step, p: string)
    requires ExactDiff(base, head, step.changes, step.supplied)
    ensures ExactStep(base, head, step)
    ensures p in StillLost({}, step) ==> p !in head
  {
    forall q | q in Removed(step.changes) && q in head ensures Supplies(step.supplied, q) {
      assert head[q] in step.supplied && head[q].path == q;
    }
    StillLostAt({}, step, p);
  }

  // --- runs --------------------------------------------------------------------------

  // The partitions of the documents, listed and stored in any order.
  ghost predicate Stores(e: Engine, views: seq<View>, m: map<string, Document>) {
    exists documents :: Lists(documents, m) && views == ViewsOf(e, documents)
  }

  // What a run stores: the start's partitions, and after every update that could
  // read its base the partitions with the update applied.
  ghost predicate StoredRun(
      e: Engine, start: map<string, Document>, steps: seq<Step>, updates: seq<Update>, stored: seq<seq<View>>)
  {
    && |updates| == |steps| && |stored| == |steps| + 1 && Stores(e, stored[0], start)
    && forall i :: 0 <= i < |steps| && DecodedViews(e, stored[i]).Some? ==>
         var base := DecodedViews(e, stored[i]).value;
         && UpdateOf(e, base, steps[i].planComplete, steps[i].changes, steps[i].supplied, updates[i])
         && Stores(e, stored[i + 1], Applied(base, updates[i]))
  }

  lemma StoredStep(
      e: Engine, start: map<string, Document>, steps: seq<Step>, updates: seq<Update>, stored: seq<seq<View>>, i: nat,
      base: map<string, Document>)
    requires StoredRun(e, start, steps, updates, stored) && i < |steps| && DecodedViews(e, stored[i]) == Some(base)
    ensures UpdateOf(e, base, steps[i].planComplete, steps[i].changes, steps[i].supplied, updates[i])
    ensures Stores(e, stored[i + 1], Applied(base, updates[i]))
  {
    hide DecodedViews, UpdateOf, Stores, Applied;
  }

  ghost predicate ExactRun(trees: seq<Tree>, steps: seq<Step>) {
    && |trees| == |steps| + 1 && TreeOk(trees[0])
    && forall i :: 0 <= i < |steps| ==> ExactStep(trees[i], trees[i + 1], steps[i])
  }

  // What is left of tree `i` after the first `i` updates.
  ghost function Rest(trees: seq<Tree>, steps: seq<Step>, i: nat): Tree
    requires i < |trees| && i <= |steps|
  {
    trees[i] - LostAfter(steps[..i])
  }

  ghost predicate AllAccepted(e: Engine, tree: Tree) {
    forall p :: p in tree && e.parse(tree[p]).Some? ==> AcceptedDocument(e.repoPath, e.parse(tree[p]).value)
  }

  lemma AcceptedInTree(e: Engine, tree: Tree, documents: seq<Document>)
    requires WellFormed(e) && TreeOk(tree) && Lists(documents, Keyed(e, tree))
    ensures (forall d :: d in documents ==> AcceptedDocument(e.repoPath, d)) <==> AllAccepted(e, tree)
  {
    hide Keyed, PartitionKey, PathOf, AcceptedDocument;
    forall d | d in documents ensures d.path in tree && e.parse(tree[d.path]) == Some(d) {
      KeyedAt(e, tree, d.path);
    }
    forall p | p in tree && e.parse(tree[p]).Some? ensures e.parse(tree[p]).value in documents {
      KeyedAt(e, tree, p);
    }
  }

  lemma StoredTree(e: Engine, tree: Tree, views: seq<View>)
    requires WellFormed(e) && TreeOk(tree) && Stores(e, views, Keyed(e, tree))
    ensures DecodedViews(e, views) == if AllAccepted(e, tree) then Some(Keyed(e, tree)) else None
  {
    hide Keyed, DecodedViews, ViewsOf, Lists, AllAccepted, AcceptedDocument;
    var documents :| Lists(documents, Keyed(e, tree)) && views == ViewsOf(e, documents);
    BuiltViewsDecode(e, tree, documents);
    AcceptedInTree(e, tree, documents);
  }

  lemma TreesAreOk(trees: seq<Tree>, steps: seq<Step>, i: nat)
    requires ExactRun(trees, steps) && i <= |steps|
    ensures TreeOk(trees[i]) && TreeOk(Rest(trees, steps, i))
  {
    hide LostAfter;
    if i > 0 {
      assert ExactStep(trees[i - 1], trees[i], steps[i - 1]);
    }
  }

  // As long as everything could be read back, the store holds the documents of
  // the tree without what is lost.
  lemma {:induction false} RunStores(
      e: Engine, trees: seq<Tree>, steps: seq<Step>, updates: seq<Update>, stored: seq<seq<View>>, n: nat)
    requires WellFormed(e) && ExactRun(trees, steps) && n <= |steps|
    requires StoredRun(e, Keyed(e, trees[0]), steps, updates, stored)
    requires forall i :: 0 <= i < n ==> DecodedViews(e, stored[i]).Some?
    ensures Stores(e, stored[n], Keyed(e, Rest(trees, steps, n)))
    ensures DecodedViews(e, stored[n]) ==
            if AllAccepted(e, Rest(trees, steps, n)) then Some(Keyed(e, Rest(trees, steps, n))) else None
    decreases n
  {
    hide Keyed, DecodedViews, Stores, AllAccepted, StillLost, Applied, UpdateOf, Logical, ExactStep;
    TreesAreOk(trees, steps, n);
    if n == 0 {
      assert trees[0] - {} == trees[0];
      StoredTree(e, trees[0], stored[0]);
    } else {
      RunStores(e, trees, steps, updates, stored, n - 1);
      var step, base := steps[n - 1], Keyed(e, Rest(trees, steps, n - 1));
      assert steps[..n][..n - 1] == steps[..n - 1];
      StepIsHead(e, trees[n - 1], trees[n], LostAfter(steps[..n - 1]), step);
      StoredStep(e, Keyed(e, trees[0]), steps, updates, stored, n - 1, base);
      AppliedIsLogical(e, base, step.planComplete, step.changes, step.supplied, updates[n - 1]);
      StoredTree(e, Rest(trees, steps, n), stored[n]);
    }
  }

  // What is stored is what was lost short of the tree, and no more.
  lemma NothingElseIsLost(e: Engine, tree: Tree, lost: set<string>)
    requires WellFormed(e) && TreeOk(tree)
    ensures Keyed(e, tree - lost) == Keyed(e, tree) <==>
              forall p :: p in lost && p in tree ==> e.parse(tree[p]).None?
  {
    hide Keyed, PartitionKey, PathOf;
    if Keyed(e, tree - lost) == Keyed(e, tree) {
      forall p | p in lost && p in tree ensures e.parse(tree[p]).None? {
        KeyedAt(e, tree, p);
        KeyedAt(e, tree - lost, p);
      }
    }
    if forall p :: p in lost && p in tree ==> e.parse(tree[p]).None? {
      var a, b := Keyed(e, tree - lost), Keyed(e, tree);
      forall k | k in a || k in b ensures k in a && k in b && a[k] == b[k] {
        KeyedAt(e, tree, PathOf(k));
        KeyedAt(e, tree - lost, PathOf(k));
      }
    }
  }

  ghost predicate AllReadBack(e: Engine, stored: seq<seq<View>>) {
    forall i :: 0 <= i < |stored| ==> DecodedViews(e, stored[i]).Some?
  }

  ghost predicate AllTreesAccepted(e: Engine, trees: seq<Tree>, steps: seq<Step>)
    requires |trees| == |steps| + 1
  {
    forall i :: 0 <= i < |trees| ==> AllAccepted(e, Rest(trees, steps, i))
  }

  // A run is never refused exactly when no tree on its way holds a document that
  // fails the stored field checks, lost paths aside.
  lemma RunIsReadBack(e: Engine, trees: seq<Tree>, steps: seq<Step>, updates: seq<Update>, stored: seq<seq<View>>)
    requires WellFormed(e) && ExactRun(trees, steps)
    requires StoredRun(e, Keyed(e, trees[0]), steps, updates, stored)
    ensures AllReadBack(e, stored) <==> AllTreesAccepted(e, trees, steps)
  {
    hide Keyed, DecodedViews, Stores, AllAccepted, UpdateOf, Applied, ExactStep, Rest;
    if AllReadBack(e, stored) {
      forall i | 0 <= i < |trees| ensures AllAccepted(e, Rest(trees, steps, i)) {
        RunStores(e, trees, steps, updates, stored, i);
      }
    }
    if AllTreesAccepted(e, trees, steps) {
      ReadBackUpTo(e, trees, steps, updates, stored, |stored|);
    }
  }

  lemma {:induction false} ReadBackUpTo(
      e: Engine, trees: seq<Tree>, steps: seq<Step>, updates: seq<Update>, stored: seq<seq<View>>, n: nat)
    requires WellFormed(e) && ExactRun(trees, steps) && n <= |stored|
    requires StoredRun(e, Keyed(e, trees[0]), steps, updates, stored) && AllTreesAccepted(e, trees, steps)
    ensures forall i :: 0 <= i < n ==> DecodedViews(e, stored[i]).Some?
    decreases n
  {
    hide Keyed, DecodedViews, Stores, AllAccepted, UpdateOf, Applied, ExactStep, Rest;
    if n > 0 {
      ReadBackUpTo(e, trees, steps, updates, stored, n - 1);
      RunStores(e, trees, steps, updates, stored, n - 1);
    }
  }

  // The law for chains: whatever was missing on the way, the stored partitions
  // are those of the last tree without the lost paths, materializing them is
  // extracting that tree without them, and nothing is left out of the last tree
  // exactly when no lost path has a document there.
  lemma RunIsHead(
      e: Engine, trees: seq<Tree>, steps: seq<Step>, updates: seq<Update>, stored: seq<seq<View>>,
      artifacts: seq<Artifact>)
    requires WellFormed(e) && ExactRun(trees, steps)
    requires StoredRun(e, Keyed(e, trees[0]), steps, updates, stored) && AllReadBack(e, stored)
    requires ListsTree(artifacts, Rest(trees, steps, |steps|))
    ensures var n := |steps|;
            var last, lost := DecodedViews(e, stored[n]).value, LostAfter(steps);
            && last == Keyed(e, trees[n] - lost)
            && (last == Keyed(e, trees[n]) <==>
                  forall p :: p in lost && p in trees[n] ==> e.parse(trees[n][p]).None?)
            && Extract(e.rules, Payloads(stored[n])) == Extract(e.rules, ParsedIn(e, artifacts))
  {
    hide Keyed, DecodedViews, UpdateOf, Applied, ExactStep, Extract, AllAccepted, LostAfter, Lists, ListsTree, ViewsOf;
    var n := |steps|;
    var rest := Rest(trees, steps, n);
    RunStores(e, trees, steps, updates, stored, n);
    assert steps[..n] == steps;
    TreesAreOk(trees, steps, n);
    NothingElseIsLost(e, trees[n], LostAfter(steps));
    var documents :| Lists(documents, Keyed(e, rest)) && stored[n] == ViewsOf(e, documents);
    assert Payloads(ViewsOf(e, documents)) == documents;
    ParsedListsTree(e, artifacts, rest);
    ListingsExtractAlike(e, documents, ParsedIn(e, artifacts), Keyed(e, rest));
  }

  // --- what an update reports of it -------------------------------------------------------

  // The last update reports the extraction of what is left, the files that it
  // misses itself and the state of its plan, and nothing of earlier losses.
  lemma LastReport(
      e: Engine, trees: seq<Tree>, steps: seq<Step>, updates: seq<Update>, stored: seq<seq<View>>,
      artifacts: seq<Artifact>)
    requires WellFormed(e) && ExactRun(trees, steps) && steps != []
    requires StoredRun(e, Keyed(e, trees[0]), steps, updates, stored) && AllReadBack(e, stored)
    requires ListsTree(artifacts, Rest(trees, steps, |steps|))
    ensures Extract(e.rules, ParsedIn(e, artifacts)).Ok?
    ensures var step, u := steps[|steps| - 1], updates[|steps| - 1];
            var x := Extract(e.rules, ParsedIn(e, artifacts)).value;
            var missing := Missing(step.changes, step.supplied);
            && u.coverage == UpdateCoverage(x.coverage, step.planComplete, missing)
            && (u.coverage.state == Complete <==> missing == [] && step.planComplete && x.coverage.state == Complete)
  {
    hide Keyed, DecodedViews, Applied, ExactStep, Extract, AllAccepted, Lists, ListsTree, Stores, Logical, BuiltFrom,
         StillLost;
    var n := |steps|;
    var step, u, rest := steps[n - 1], updates[n - 1], Rest(trees, steps, n);
    RunStores(e, trees, steps, updates, stored, n - 1);
    StoredStep(e, Keyed(e, trees[0]), steps, updates, stored, n - 1, Keyed(e, Rest(trees, steps, n - 1)));
    assert steps[..n][..n - 1] == steps[..n - 1];
    StepIsHead(e, trees[n - 1], trees[n], LostAfter(steps[..n - 1]), step);
    var documents :| Lists(documents, Keyed(e, rest)) && Extract(e.rules, documents).Ok? &&
                     u.coverage == UpdateCoverage(Extract(e.rules, documents).value.coverage, step.planComplete,
                                                  Missing(step.changes, step.supplied));
    ParsedListsTree(e, artifacts, rest);
    ListingsExtractAlike(e, documents, ParsedIn(e, artifacts), Keyed(e, rest));
  }

  // A manifest that declares no binding.
  function EmptyManifest(a: Artifact): Document {
    Parsed(a.path, a.contentHash, a.classification, [], MANIFEST)
  }

  ghost predicate IsEmpty(d: Document) {
    d.Parsed? && d.bindings == []
  }

  lemma {:induction false} EmptyDocumentsEmitNothing(rules: Rules, documents: seq<Document>)
    requires forall d :: d in documents ==> IsEmpty(d)
    ensures EmitDocuments(rules, documents) == Ok(NOTHING) && FailedCount(documents) == 0
  {
    if documents != [] {
      var n := |documents| - 1;
      assert documents[n] in documents;
      EmptyDocumentsEmitNothing(rules, documents[..n]);
      assert Both(NOTHING, NOTHING) == NOTHING;
    }
  }

  lemma EmptyDocumentsAreComplete(rules: Rules, documents: seq<Document>)
    requires documents != [] && forall d :: d in documents ==> IsEmpty(d)
    ensures Extract(rules, documents).Ok? && Extract(rules, documents).value.coverage.state == CoverageState.Complete
  {
    hide EmitDocuments, ByPath, ByScope, IsEmpty;
    var sorted := Sorting.Sort(documents, ByPath(rules));
    Sorting.SameElements(sorted, documents);
    assert documents[0] in sorted;
    EmptyDocumentsEmitNothing(rules, sorted);
  }

  function Pair(a: Artifact, b: Artifact): Tree {
    map[a.path := a, b.path := b]
  }

  function Modify(path: string, supplied: seq<Artifact>): Step {
    Step([Change(Modified, path, None)], supplied, true)
  }

  lemma ModifyIs(path: string, supplied: seq<Artifact>)
    ensures var changes := Modify(path, supplied).changes;
            && Removed(changes) == {path} && Modify(path, supplied).supplied == supplied
            && Missing(changes, supplied) == (if Supplies(supplied, path) then [] else [path])
            && forall p :: Expected(changes, p) <==> p == path
  {
    var c := Change(Modified, path, None);
    assert c in [c] && [c][..0] == [];
    assert Missing([], supplied) == [];
  }

  lemma UnsuppliedStep(a: Artifact, a': Artifact, b: Artifact)
    requires a.path == a'.path && a.path != b.path
    ensures ExactStep(Pair(a, b), Pair(a', b), Modify(a.path, []))
    ensures StillLost({}, Modify(a.path, [])) == {a.path}
    ensures Missing(Modify(a.path, []).changes, []) == [a.path]
  {
    ModifyIs(a.path, []);
    hide Modify, Missing, Removed, Expected;
  }

  lemma SuppliedStep(a: Artifact, b: Artifact, b': Artifact)
    requires b.path == b'.path && a.path != b.path
    ensures ExactStep(Pair(a, b), Pair(a, b'), Modify(b.path, [b']))
    ensures StillLost({a.path}, Modify(b.path, [b'])) == {a.path}
    ensures Missing(Modify(b.path, [b']).changes, [b']) == []
  {
    assert b' in [b'];
    ModifyIs(b.path, [b']);
    hide Modify, Missing, Removed, Expected;
  }

  lemma OneLeft(a: Artifact, b: Artifact)
    requires a.path != b.path
    ensures Pair(a, b) - {} == Pair(a, b) && Pair(a, b) - {a.path} == map[b.path := b]
    ensures a.path in Pair(a, b) && Pair(a, b)[a.path] == a
  {
  }

  // A file that one update missed is gone from the store, and the next update
  // reports complete coverage although the head holds it.
  lemma MissedFilesAreForgotten(e: Engine, a: Artifact, a': Artifact, b: Artifact, b': Artifact, u: Update, v: Update)
    requires WellFormed(e) && a.path == a'.path && b.path == b'.path && a.path != b.path
    requires e.parse(a') == Some(EmptyManifest(a')) && e.parse(b') == Some(EmptyManifest(b'))
    requires UpdateOf(e, Keyed(e, Pair(a, b)), true, Modify(a.path, []).changes, [], u)
    requires UpdateOf(e, Applied(Keyed(e, Pair(a, b)), u), true, Modify(b.path, [b']).changes, [b'], v)
    ensures u.coverage.state == Partial && v.coverage.state == CoverageState.Complete
    ensures PartitionKey(a.path) !in Applied(Applied(Keyed(e, Pair(a, b)), u), v)
    ensures PartitionKey(a.path) in Keyed(e, Pair(a', b'))
  {
    hide Keyed, UpdateOf, Applied, Logical, Extract, PartitionKey, ExactStep, StillLost, Pair, Missing, EmptyManifest;
    var first, second := Modify(a.path, []), Modify(b.path, [b']);
    UnsuppliedStep(a, a', b);
    SuppliedStep(a', b, b');
    OneLeft(a, b);
    OneLeft(a', b');
    StepIsHead(e, Pair(a, b), Pair(a', b), {}, first);
    AppliedIsLogical(e, Keyed(e, Pair(a, b)), true, first.changes, [], u);
    FirstIsPartial(e, Keyed(e, Pair(a, b)), first, u);
    var left := Keyed(e, Pair(a', b) - {a.path});
    StepIsHead(e, Pair(a', b), Pair(a', b'), {a.path}, second);
    AppliedIsLogical(e, left, true, second.changes, [b'], v);
    SecondIsComplete(e, left, second, v, b');
    KeyedAt(e, Pair(a', b'), a.path);
    KeyedAt(e, map[b'.path := b'], a.path);
  }

  lemma FirstIsPartial(e: Engine, base: map<string, Document>, step: Step, u: Update)
    requires UpdateOf(e, base, step.planComplete, step.changes, step.supplied, u)
    requires Missing(step.changes, step.supplied) != []
    ensures u.coverage.state == Partial
  {
    hide Extract, Lists, BuiltFrom, Logical, Missing;
  }

  lemma OnlyDocument(e: Engine, b: Artifact, documents: seq<Document>)
    requires e.parse(b) == Some(EmptyManifest(b)) && Lists(documents, Keyed(e, map[b.path := b]))
    ensures documents != [] && forall d :: d in documents ==> IsEmpty(d)
  {
    hide Keyed, PartitionKey;
    KeyedAt(e, map[b.path := b], b.path);
    forall d | d in documents ensures IsEmpty(d) {
      KeyedAt(e, map[b.path := b], d.path);
    }
  }

  lemma SecondIsComplete(e: Engine, base: map<string, Document>, step: Step, u: Update, b: Artifact)
    requires UpdateOf(e, base, true, step.changes, step.supplied, u) && Missing(step.changes, step.supplied) == []
    requires Logical(e, base, step.changes, step.supplied) == Keyed(e, map[b.path := b])
    requires e.parse(b) == Some(EmptyManifest(b))
    ensures u.coverage.state == CoverageState.Complete
  {
    hide Extract, BuiltFrom, Logical, Keyed, PartitionKey, Lists, Missing, EmptyManifest, IsEmpty;
    var documents :| Lists(documents, Keyed(e, map[b.path := b])) && Extract(e.rules, documents).Ok? &&
                     u.coverage == UpdateCoverage(Extract(e.rules, documents).value.coverage, true, []);
    OnlyDocument(e, b, documents);
    EmptyDocumentsAreComplete(e.rules, documents);
  }
}
