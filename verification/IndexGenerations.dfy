// Indexing a tree with two reuse layers: the artifacts of a previous
// generation and a content cache shared by all generations of a workspace.
module IndexGenerations {
  import opened Outcomes
  import opened Sorting
  import opened KeyedLists
  import opened Artifacts

  datatype CacheKey = CacheKey(
    workspaceId: string, sourceBlobId: string, contextHash: string, bundle: string,
    parserId: string, parserVersion: string, configRevision: string)
  type Cache = map<CacheKey, Portable>

  datatype Context = Context(path: string, kind: EntryKind, mode: string, size: Option<nat>, maximumBytes: nat)

  datatype Request = Request(
    workspaceId: string, generationId: string, previousGenerationId: Option<string>, bundle: string, settings: Settings)

  datatype Indexer = Indexer(tools: Tools, contextHash: Context -> string)

  ghost predicate ContextsDiffer(ix: Indexer) {
    forall a, b :: ix.contextHash(a) == ix.contextHash(b) ==> a == b
  }

  function KeyOf(ix: Indexer, r: Request, e: TreeEntry): CacheKey {
    CacheKey(r.workspaceId, e.objectId,
             ix.contextHash(Context(e.path, e.kind, e.mode, e.size, r.settings.maximumBytes)),
             r.bundle, PARSER_ID, PARSER_VERSION, r.settings.configRevision)
  }

  // --- the previous generation ---------------------------------------------

  function PreviousKey(blobId: string, path: string): string {
    blobId + "\0" + path
  }

  function KeyOfArtifact(): FileArtifact -> string {
    (a: FileArtifact) => PreviousKey(a.portable.sourceBlobId, a.path)
  }

  // Later artifacts replace earlier ones that share a key.
  function PreviousByBlob(artifacts: seq<FileArtifact>): map<string, FileArtifact> {
    ByKey(artifacts, KeyOfArtifact())
  }

  predicate PreviousMatches(a: FileArtifact, e: TreeEntry, maximumBytes: nat) {
    && a.path == e.path && a.portable.sourceBlobId == e.objectId
    && (e.size.Some? ==> a.portable.size == e.size.value)
    && match e.kind
       case Symlink => a.portable.classification.SymlinkEntry?
       case Submodule => a.portable.classification.SubmoduleEntry?
       case Blob =>
         && !a.portable.classification.SymlinkEntry? && !a.portable.classification.SubmoduleEntry?
         && (OrElse(e.size, a.portable.size) > maximumBytes <==> a.portable.classification.Oversized?)
  }

  predicate Reusable(r: Request, a: FileArtifact, e: TreeEntry) {
    && PreviousMatches(a, e, r.settings.maximumBytes)
    && a.portable.parserId == PARSER_ID && a.portable.parserVersion == PARSER_VERSION
    && a.portable.configRevision == r.settings.configRevision
  }

  predicate ReusesPrevious(r: Request, previous: map<string, FileArtifact>, e: TreeEntry) {
    var k := PreviousKey(e.objectId, e.path);
    k in previous && Reusable(r, previous[k], e)
  }

  // --- one tree after another ----------------------------------------------

  datatype Tally = Tally(reused: nat, failed: nat, skipped: nat, parsed: nat, languages: nat)

  datatype Run = Run(artifacts: Result<seq<FileArtifact>>, cache: Cache, tally: Tally)

  const NOTHING_YET := Tally(0, 0, 0, 0, 0)

  function Counted(t: Tally, p: Portable): Tally {
    t.(parsed := t.parsed + (if p.parseState.Parsed? then 1 else 0),
       skipped := t.skipped + (if p.parseState.Skipped? then 1 else 0),
       languages := t.languages + (if p.language == "unknown" then 0 else 1))
  }

  // What happens to one more entry after the earlier ones gave `run`.
  function IndexOne(ix: Indexer, r: Request, previous: map<string, FileArtifact>, read: string -> BlobRead,
                    e: TreeEntry, run: Run): Run
    requires run.artifacts.Ok?
  {
    var done := run.artifacts.value;
    if ReusesPrevious(r, previous, e) then
      var kept := previous[PreviousKey(e.objectId, e.path)];
      var a := FileArtifact(r.generationId, e.path, kept.portable, Some(kept.generationId));
      Run(Ok(done + [a]), run.cache, Counted(run.tally.(reused := run.tally.reused + 1), kept.portable))
    else if KeyOf(ix, r, e) in run.cache then
      var p := run.cache[KeyOf(ix, r, e)];
      var a := FileArtifact(r.generationId, e.path, p, r.previousGenerationId);
      Run(Ok(done + [a]), run.cache, Counted(run.tally.(reused := run.tally.reused + 1), p))
    else
      match ReadAndClassify(ix.tools, r.settings, e, read(e.path))
      case Throws => run.(artifacts := Throws)
      case Ok(p) =>
        var a := FileArtifact(r.generationId, e.path, p, None);
        var counted := Counted(run.tally, p);
        if p.parseState.Failed? then
          Run(Ok(done + [a]), run.cache, counted.(failed := counted.failed + 1))
        else
          Run(Ok(done + [a]), run.cache[KeyOf(ix, r, e) := p], counted)
  }

  function IndexAll(ix: Indexer, r: Request, previous: map<string, FileArtifact>, read: string -> BlobRead,
                    entries: seq<TreeEntry>, cache: Cache): Run
  {
    if entries == [] then Run(Ok([]), cache, NOTHING_YET)
    else
      var before := IndexAll(ix, r, previous, read, entries[..|entries| - 1], cache);
      if before.artifacts.Throws? then before
      else IndexOne(ix, r, previous, read, entries[|entries| - 1], before)
  }

  lemma {:induction false} ThrowingStays(ix: Indexer, r: Request, previous: map<string, FileArtifact>,
      read: string -> BlobRead, entries: seq<TreeEntry>, cache: Cache, n: nat)
    requires n <= |entries| && IndexAll(ix, r, previous, read, entries[..n], cache).artifacts.Throws?
    ensures IndexAll(ix, r, previous, read, entries, cache) == IndexAll(ix, r, previous, read, entries[..n], cache)
    decreases |entries|
  {
    hide IndexOne;
    if n < |entries| {
      assert entries[..|entries| - 1][..n] == entries[..n];
      ThrowingStays(ix, r, previous, read, entries[..|entries| - 1], cache, n);
    } else {
      assert entries[..n] == entries;
    }
  }

  lemma NothingIndexed(ix: Indexer, r: Request, previous: map<string, FileArtifact>, read: string -> BlobRead,
                       cache: Cache)
    ensures IndexAll(ix, r, previous, read, [], cache) == Run(Ok([]), cache, NOTHING_YET)
  {
  }

  lemma IndexedOneMore(ix: Indexer, r: Request, previous: map<string, FileArtifact>, read: string -> BlobRead,
                       entries: seq<TreeEntry>, cache: Cache, i: nat)
    requires i < |entries| && IndexAll(ix, r, previous, read, entries[..i], cache).artifacts.Ok?
    ensures IndexAll(ix, r, previous, read, entries[..i + 1], cache) ==
            IndexOne(ix, r, previous, read, entries[i], IndexAll(ix, r, previous, read, entries[..i], cache))
  {
    hide IndexOne;
    assert entries[..i + 1][..i] == entries[..i];
  }

  // The entries a run gets to when it is found superseded at entry `stop`, if
  // there is one.
  function Reached(entries: seq<TreeEntry>, stop: nat): seq<TreeEntry> {
    if stop < |entries| then entries[..stop] else entries
  }

  // The indexing loop: reuse, then cache, then source.
  method IndexEntries(ix: Indexer, r: Request, previousArtifacts: seq<FileArtifact>, read: string -> BlobRead,
                      entries: seq<TreeEntry>, cacheBefore: Cache, stop: nat)
    returns (artifacts: Result<seq<FileArtifact>>, cache: Cache, tally: Tally)
    ensures var run := IndexAll(ix, r, PreviousByBlob(previousArtifacts), read, Reached(entries, stop), cacheBefore);
            Run(artifacts, cache, tally) == if stop < |entries| then run.(artifacts := Throws) else run
  {
    hide ReadAndClassify, Reusable, ByKey, Counted, KeyOf, PreviousKey, IndexAll;
    NothingIndexed(ix, r, PreviousByBlob(previousArtifacts), read, cacheBefore);
    var previous := IndexByKey(previousArtifacts, KeyOfArtifact());
    var reached := Reached(entries, stop);
    var done: seq<FileArtifact> := [];
    cache, tally := cacheBefore, NOTHING_YET;
    assert reached[..0] == [];
    for i := 0 to |reached|
      invariant Run(Ok(done), cache, tally) == IndexAll(ix, r, previous, read, reached[..i], cacheBefore)
    {
      var e := reached[i];
      IndexedOneMore(ix, r, previous, read, reached, cacheBefore, i);
      var key := PreviousKey(e.objectId, e.path);
      if key in previous && Reusable(r, previous[key], e) {
        var kept := previous[key];
        done := done + [FileArtifact(r.generationId, e.path, kept.portable, Some(kept.generationId))];
        tally := Counted(tally.(reused := tally.reused + 1), kept.portable);
        continue;
      }
      var cacheKey := KeyOf(ix, r, e);
      if cacheKey in cache {
        var p := cache[cacheKey];
        done := done + [FileArtifact(r.generationId, e.path, p, r.previousGenerationId)];
        tally := Counted(tally.(reused := tally.reused + 1), p);
        continue;
      }
      var classified := ReadAndClassify(ix.tools, r.settings, e, read(e.path));
      if classified.Throws? {
        ThrowingStays(ix, r, previous, read, reached, cacheBefore, i + 1);
        return Throws, cache, tally;
      }
      var p := classified.value;
      done := done + [FileArtifact(r.generationId, e.path, p, None)];
      tally := Counted(tally, p);
      if p.parseState.Failed? {
        tally := tally.(failed := tally.failed + 1);
      } else {
        cache := cache[cacheKey := p];
      }
    }
    assert reached[..|reached|] == reached;
    artifacts := if stop < |entries| then Throws else Ok(done);
  }

  // --- reuse against fresh classification ----------------------------------

  // Where an artifact of this parser can come from: an entry that was
  // classified from its true contents, or one that could not be read.
  ghost predicate FromHistory(f: Facts, tools: Tools, a: FileArtifact) {
    a.portable.parserId == PARSER_ID && a.portable.parserVersion == PARSER_VERSION ==>
      exists e: TreeEntry, s: Settings :: Origin(f, tools, a, e, s)
  }

  ghost predicate Origin(f: Facts, tools: Tools, a: FileArtifact, e: TreeEntry, s: Settings) {
    && Described(f, e) && a.path == e.path
    && (a.portable == Fresh(f, tools, s, e) || a.portable == FailedPortable(s, e))
  }

  // A result that did not fail says the same under every limit it is reused under.
  lemma SuccessIsReusable(f: Facts, tools: Tools, r: Request, a: FileArtifact, e: TreeEntry, e': TreeEntry, s: Settings)
    requires Origin(f, tools, a, e', s) && Described(f, e) && Reusable(r, a, e)
    requires !a.portable.parseState.Failed?
    ensures a.portable == Fresh(f, tools, r.settings, e)
  {
    hide LineCount;
    OnlyUnreadBlobsFail(f, tools, s, e');
    assert e'.objectId == e.objectId && e'.path == e.path && e'.size == e.size && e'.kind == e.kind;
    assert s.configRevision == r.settings.configRevision;
  }

  // Reuse gives the fresh result unless it resurrects an old failure.
  lemma ReuseIsExact(f: Facts, tools: Tools, r: Request, a: FileArtifact, e: TreeEntry)
    requires FromHistory(f, tools, a) && Described(f, e) && Reusable(r, a, e)
    ensures a.portable == Fresh(f, tools, r.settings, e)
            <==> (a.portable.parseState.Failed? ==> TooLargeToRead(f, r.settings, e))
  {
    hide Classify;
    var e', s :| Origin(f, tools, a, e', s);
    OnlyUnreadBlobsFail(f, tools, r.settings, e);
    OnlyUnreadBlobsFail(f, tools, s, e');
    if a.portable.parseState.Failed? {
      assert a.portable == FailedPortable(r.settings, e);
    } else {
      SuccessIsReusable(f, tools, r, a, e, e', s);
    }
  }

  // Every cached value is the fresh classification of the entry its key names.
  ghost predicate Coherent(f: Facts, ix: Indexer, cache: Cache) {
    forall e: TreeEntry, r: Request :: KeyOf(ix, r, e) in cache && Described(f, e) ==>
      CachesFresh(f, ix, cache, e, r)
  }

  ghost predicate CachesFresh(f: Facts, ix: Indexer, cache: Cache, e: TreeEntry, r: Request)
    requires KeyOf(ix, r, e) in cache
  {
    && cache[KeyOf(ix, r, e)] == Fresh(f, ix.tools, r.settings, e)
    && !TooLargeToRead(f, r.settings, e)
  }

  // A key names one entry and one pair of settings.
  lemma KeysNameEntries(ix: Indexer, r: Request, e: TreeEntry, r': Request, e': TreeEntry)
    requires ContextsDiffer(ix) && KeyOf(ix, r, e) == KeyOf(ix, r', e')
    ensures e == e' && r.settings == r'.settings && r.workspaceId == r'.workspaceId && r.bundle == r'.bundle
  {
    var c := Context(e.path, e.kind, e.mode, e.size, r.settings.maximumBytes);
    var c' := Context(e'.path, e'.kind, e'.mode, e'.size, r'.settings.maximumBytes);
    assert ix.contextHash(c) == ix.contextHash(c');
    assert c == c';
  }

  lemma CachingKeepsCoherence(f: Facts, ix: Indexer, r: Request, cache: Cache, e: TreeEntry)
    requires ContextsDiffer(ix) && Coherent(f, ix, cache) && Described(f, e) && !TooLargeToRead(f, r.settings, e)
    ensures Coherent(f, ix, cache[KeyOf(ix, r, e) := Fresh(f, ix.tools, r.settings, e)])
  {
    hide Fresh, TooLargeToRead, Described;
    var cache' := cache[KeyOf(ix, r, e) := Fresh(f, ix.tools, r.settings, e)];
    forall e': TreeEntry, r': Request | KeyOf(ix, r', e') in cache' && Described(f, e')
      ensures CachesFresh(f, ix, cache', e', r')
    {
      if KeyOf(ix, r', e') == KeyOf(ix, r, e) {
        KeysNameEntries(ix, r, e, r', e');
      } else {
        assert CachesFresh(f, ix, cache, e', r');
      }
    }
  }

  // The one way a reused artifact can differ from a fresh one.
  ghost predicate Stale(f: Facts, r: Request, previous: map<string, FileArtifact>, e: TreeEntry) {
    && ReusesPrevious(r, previous, e)
    && previous[PreviousKey(e.objectId, e.path)].portable.parseState.Failed?
    && !TooLargeToRead(f, r.settings, e)
  }

  ghost predicate HonestReader(f: Facts, s: Settings, entries: seq<TreeEntry>, read: string -> BlobRead) {
    forall e :: e in entries ==> Described(f, e) && HonestRead(f, s, e, read(e.path))
  }

  // What the loop owes for entry `e`: fresh unless stale, and reusable later.
  ghost predicate Delivers(f: Facts, ix: Indexer, r: Request, previous: map<string, FileArtifact>, e: TreeEntry,
                           a: FileArtifact) {
    && a.path == e.path && a.generationId == r.generationId
    && (a.portable == Fresh(f, ix.tools, r.settings, e) <==> !Stale(f, r, previous, e))
    && (Stale(f, r, previous, e) ==> a.portable.parseState.Failed?)
    && FromHistory(f, ix.tools, a)
  }

  lemma FreshIsHistory(f: Facts, tools: Tools, a: FileArtifact, e: TreeEntry, s: Settings)
    requires Described(f, e) && a.path == e.path && a.portable == Fresh(f, tools, s, e)
    ensures FromHistory(f, tools, a)
  {
    assert Origin(f, tools, a, e, s);
  }

  lemma ReuseDelivers(f: Facts, ix: Indexer, r: Request, previous: map<string, FileArtifact>, e: TreeEntry,
      a: FileArtifact)
    requires Described(f, e) && ReusesPrevious(r, previous, e)
    requires var kept := previous[PreviousKey(e.objectId, e.path)];
             FromHistory(f, ix.tools, kept)
             && a == FileArtifact(r.generationId, e.path, kept.portable, Some(kept.generationId))
    ensures Delivers(f, ix, r, previous, e, a)
  {
    hide Fresh, TooLargeToRead, FailedPortable, Described;
    var kept := previous[PreviousKey(e.objectId, e.path)];
    ReuseIsExact(f, ix.tools, r, kept, e);
    var e', s :| Origin(f, ix.tools, kept, e', s);
    assert Origin(f, ix.tools, a, e', s);
  }

  lemma OneMoreEntry(f: Facts, ix: Indexer, r: Request, previous: map<string, FileArtifact>, read: string -> BlobRead,
                     e: TreeEntry, run: Run)
    requires ContextsDiffer(ix) && run.artifacts.Ok? && Coherent(f, ix, run.cache)
    requires Described(f, e) && HonestRead(f, r.settings, e, read(e.path))
    requires forall k :: k in previous ==> FromHistory(f, ix.tools, previous[k])
    ensures var next := IndexOne(ix, r, previous, read, e, run);
            && next.artifacts.Ok? && Coherent(f, ix, next.cache)
            && |next.artifacts.value| == |run.artifacts.value| + 1
            && next.artifacts.value[..|run.artifacts.value|] == run.artifacts.value
            && Delivers(f, ix, r, previous, e, next.artifacts.value[|run.artifacts.value|])
  {
    hide Fresh, TooLargeToRead, FailedPortable, Described, HonestRead, ReadAndClassify, Counted, Coherent, Delivers,
         FromHistory, Reusable;
    var next := IndexOne(ix, r, previous, read, e, run);
    HonestReadGivesFresh(f, ix.tools, r.settings, e, read(e.path));
    OnlyUnreadBlobsFail(f, ix.tools, r.settings, e);
    var a := next.artifacts.value[|run.artifacts.value|];
    if ReusesPrevious(r, previous, e) {
      ReuseDelivers(f, ix, r, previous, e, a);
    } else if KeyOf(ix, r, e) in run.cache {
      CacheHitIsFresh(f, ix, r, run.cache, e);
      DeliversFresh(f, ix, r, previous, e, a);
    } else {
      DeliversFresh(f, ix, r, previous, e, a);
      if !TooLargeToRead(f, r.settings, e) {
        CachingKeepsCoherence(f, ix, r, run.cache, e);
      }
    }
  }

  lemma CacheHitIsFresh(f: Facts, ix: Indexer, r: Request, cache: Cache, e: TreeEntry)
    requires Coherent(f, ix, cache) && Described(f, e) && KeyOf(ix, r, e) in cache
    ensures cache[KeyOf(ix, r, e)] == Fresh(f, ix.tools, r.settings, e)
  {
    assert CachesFresh(f, ix, cache, e, r);
  }

  lemma DeliversFresh(f: Facts, ix: Indexer, r: Request, previous: map<string, FileArtifact>, e: TreeEntry,
      a: FileArtifact)
    requires Described(f, e) && !ReusesPrevious(r, previous, e)
    requires a.path == e.path && a.generationId == r.generationId && a.portable == Fresh(f, ix.tools, r.settings, e)
    ensures Delivers(f, ix, r, previous, e, a)
  {
    hide Fresh, Described;
    FreshIsHistory(f, ix.tools, a, e, r.settings);
  }

  // Whatever is reused, every artifact of a run is the fresh classification of
  // its entry, save where an old failure was resurrected; the cache stays
  // coherent and the artifacts may serve as a previous generation in turn.
  lemma {:induction false} RunsDeliver(f: Facts, ix: Indexer, r: Request, previous: map<string, FileArtifact>,
      read: string -> BlobRead, entries: seq<TreeEntry>, cache: Cache)
    requires ContextsDiffer(ix) && Coherent(f, ix, cache) && HonestReader(f, r.settings, entries, read)
    requires forall k :: k in previous ==> FromHistory(f, ix.tools, previous[k])
    ensures var run := IndexAll(ix, r, previous, read, entries, cache);
            && run.artifacts.Ok? && Coherent(f, ix, run.cache)
            && |run.artifacts.value| == |entries|
            && forall i :: 0 <= i < |entries| ==> Delivers(f, ix, r, previous, entries[i], run.artifacts.value[i])
  {
    hide Coherent, Delivers, FromHistory, HonestRead, Described, IndexOne, ContextsDiffer;
    if entries != [] {
      var n := |entries| - 1;
      assert HonestReader(f, r.settings, entries[..n], read) by {
        forall e | e in entries[..n] ensures Described(f, e) && HonestRead(f, r.settings, e, read(e.path)) {
          assert e in entries;
        }
      }
      RunsDeliver(f, ix, r, previous, read, entries[..n], cache);
      var before := IndexAll(ix, r, previous, read, entries[..n], cache);
      assert entries[n] in entries;
      OneMoreEntry(f, ix, r, previous, read, entries[n], before);
      var run := IndexAll(ix, r, previous, read, entries, cache);
      forall i | 0 <= i < |entries| ensures Delivers(f, ix, r, previous, entries[i], run.artifacts.value[i]) {
        if i < n {
          assert run.artifacts.value[..n][i] == run.artifacts.value[i] && entries[..n][i] == entries[i];
        }
      }
    }
  }

  // A run that is stopped leaves a coherent cache behind as well.
  lemma StoppedRunsKeepCoherence(f: Facts, ix: Indexer, r: Request, previous: map<string, FileArtifact>,
      read: string -> BlobRead, entries: seq<TreeEntry>, cache: Cache, stop: nat)
    requires ContextsDiffer(ix) && Coherent(f, ix, cache) && HonestReader(f, r.settings, entries, read)
    requires forall k :: k in previous ==> FromHistory(f, ix.tools, previous[k])
    ensures Coherent(f, ix, IndexAll(ix, r, previous, read, Reached(entries, stop), cache).cache)
  {
    hide Coherent, FromHistory, HonestRead, Described, IndexAll, ContextsDiffer;
    assert forall e :: e in Reached(entries, stop) ==> e in entries;
    RunsDeliver(f, ix, r, previous, read, Reached(entries, stop), cache);
  }

  // --- what the hashes and counters of a run say -----------------------------

  function SemanticList(artifacts: seq<FileArtifact>): (l: seq<Semantic>)
    ensures |l| == |artifacts| && forall i :: 0 <= i < |l| ==> l[i] == SemanticOf(artifacts[i])
  {
    seq(|artifacts|, i requires 0 <= i < |artifacts| => SemanticOf(artifacts[i]))
  }

  function ByPath(leq: (string, string) -> bool): (Semantic, Semantic) -> bool {
    (a: Semantic, b: Semantic) => leq(a.path, b.path)
  }

  // The list whose digest is the result hash of a generation.
  function ResultList(artifacts: seq<FileArtifact>, leq: (string, string) -> bool): seq<Semantic> {
    Sort(SemanticList(artifacts), ByPath(leq))
  }

  ghost predicate DistinctPaths(entries: seq<TreeEntry>) {
    forall i, j :: 0 <= i < j < |entries| ==> entries[i].path != entries[j].path
  }

  // The result hash of a run with any reuse equals that of a first run from
  // empty caches exactly when no old failure is resurrected.
  lemma ReuseKeepsTheResult(f: Facts, ix: Indexer, r: Request, previous: map<string, FileArtifact>,
      read: string -> BlobRead, readFirst: string -> BlobRead, entries: seq<TreeEntry>, cache: Cache,
      leq: (string, string) -> bool)
    requires ContextsDiffer(ix) && Coherent(f, ix, cache) && DistinctPaths(entries)
    requires HonestReader(f, r.settings, entries, read) && HonestReader(f, r.settings, entries, readFirst)
    requires forall k :: k in previous ==> FromHistory(f, ix.tools, previous[k])
    ensures var run := IndexAll(ix, r, previous, read, entries, cache);
            var first := IndexAll(ix, r, map[], readFirst, entries, map[]);
            && run.artifacts.Ok? && first.artifacts.Ok?
            && (ResultList(run.artifacts.value, leq) == ResultList(first.artifacts.value, leq)
                <==> forall e :: e in entries ==> !Stale(f, r, previous, e))
  {
    hide Fresh, TooLargeToRead, Described, FromHistory, HonestReader, ContextsDiffer, IndexAll, Sort, Reusable,
         ReusesPrevious, Coherent;
    var run := IndexAll(ix, r, previous, read, entries, cache);
    var first := IndexAll(ix, r, map[], readFirst, entries, map[]);
    RunsDeliver(f, ix, r, previous, read, entries, cache);
    NothingCached(f, ix);
    RunsDeliver(f, ix, r, map[], readFirst, entries, map[]);
    var a, b := SemanticList(run.artifacts.value), SemanticList(first.artifacts.value);
    forall i | 0 <= i < |entries|
      ensures a[i].path == b[i].path == entries[i].path
      ensures a[i] == b[i] <==> !Stale(f, r, previous, entries[i])
    {
      assert Delivers(f, ix, r, previous, entries[i], run.artifacts.value[i]);
      FirstRunIsNeverStale(f, r, entries[i]);
      assert Delivers(f, ix, r, map[], entries[i], first.artifacts.value[i]);
    }
    SortedListsAgree(a, b, leq);
  }

  lemma NothingCached(f: Facts, ix: Indexer)
    ensures Coherent(f, ix, map[])
  {
  }

  lemma FirstRunIsNeverStale(f: Facts, r: Request, e: TreeEntry)
    ensures !Stale(f, r, map[], e)
  {
  }

  lemma SortedListsAgree(a: seq<Semantic>, b: seq<Semantic>, leq: (string, string) -> bool)
    requires |a| == |b| && (forall i :: 0 <= i < |a| ==> a[i].path == b[i].path)
    requires forall i, j :: 0 <= i < j < |a| ==> a[i].path != a[j].path
    ensures Sort(a, ByPath(leq)) == Sort(b, ByPath(leq)) <==> a == b
  {
    hide Sort;
    if Sort(a, ByPath(leq)) == Sort(b, ByPath(leq)) {
      assert multiset(a) == multiset(b);
      forall i | 0 <= i < |a| ensures a[i] == b[i] {
        assert a[i] in multiset(b);
        var j :| 0 <= j < |b| && b[j] == a[i];
        assert a[i].path == a[j].path;
      }
    }
  }

  function Failures(artifacts: seq<FileArtifact>): nat {
    if artifacts == [] then 0
    else Failures(artifacts[..|artifacts| - 1])
         + if artifacts[|artifacts| - 1].portable.parseState.Failed? then 1 else 0
  }

  function ReusedFailures(r: Request, previous: map<string, FileArtifact>, entries: seq<TreeEntry>): nat {
    if entries == [] then 0
    else
      var e := entries[|entries| - 1];
      ReusedFailures(r, previous, entries[..|entries| - 1])
      + if ReusesPrevious(r, previous, e) && previous[PreviousKey(e.objectId, e.path)].portable.parseState.Failed?
        then 1
        else 0
  }

  // The failed-file counter behind file coverage counts every failed artifact
  // except the reused ones; every other artifact is either parsed or skipped.
  lemma {:induction false} FailuresAreCounted(f: Facts, ix: Indexer, r: Request, previous: map<string, FileArtifact>,
      read: string -> BlobRead, entries: seq<TreeEntry>, cache: Cache)
    requires ContextsDiffer(ix) && Coherent(f, ix, cache) && HonestReader(f, r.settings, entries, read)
    requires forall k :: k in previous ==> FromHistory(f, ix.tools, previous[k])
    ensures var run := IndexAll(ix, r, previous, read, entries, cache);
            && run.artifacts.Ok?
            && run.tally.failed + ReusedFailures(r, previous, entries) == Failures(run.artifacts.value)
            && run.tally.parsed + run.tally.skipped + Failures(run.artifacts.value) == |entries|
  {
    hide HonestRead, Described, FromHistory, ContextsDiffer, Coherent, IndexOne, ReusesPrevious, Delivers;
    RunsDeliver(f, ix, r, previous, read, entries, cache);
    if entries != [] {
      var n, e := |entries| - 1, entries[|entries| - 1];
      forall x | x in entries[..n] ensures x in entries {}
      RunsDeliver(f, ix, r, previous, read, entries[..n], cache);
      FailuresAreCounted(f, ix, r, previous, read, entries[..n], cache);
      var before := IndexAll(ix, r, previous, read, entries[..n], cache);
      assert e in entries;
      if KeyOf(ix, r, e) in before.cache {
        CachedNeverFailed(f, ix, r, before.cache, e);
      }
      OneMoreCount(ix, r, previous, read, e, before);
    }
  }

  lemma OneMoreCount(ix: Indexer, r: Request, previous: map<string, FileArtifact>, read: string -> BlobRead,
                     e: TreeEntry, run: Run)
    requires run.artifacts.Ok?
    requires KeyOf(ix, r, e) in run.cache ==> !run.cache[KeyOf(ix, r, e)].parseState.Failed?
    ensures var next := IndexOne(ix, r, previous, read, e, run);
            next.artifacts.Ok? ==>
              var failed := Failures(next.artifacts.value) - Failures(run.artifacts.value);
              && next.tally.failed - run.tally.failed + ReusedFailures(r, previous, [e]) == failed
              && next.tally.parsed + next.tally.skipped + failed == run.tally.parsed + run.tally.skipped + 1
  {
    hide ReadAndClassify, Reusable, KeyOf;
    var next := IndexOne(ix, r, previous, read, e, run);
    if next.artifacts.Ok? {
      var n := |run.artifacts.value|;
      assert next.artifacts.value[..n] == run.artifacts.value && |next.artifacts.value| == n + 1;
      assert [e][..0] == [];
      assert ReusedFailures(r, previous, [e][..0]) == 0;
    }
  }

  lemma CachedNeverFailed(f: Facts, ix: Indexer, r: Request, cache: Cache, e: TreeEntry)
    requires Coherent(f, ix, cache) && Described(f, e) && KeyOf(ix, r, e) in cache
    ensures !cache[KeyOf(ix, r, e)].parseState.Failed?
  {
    assert CachesFresh(f, ix, cache, e, r);
    OnlyUnreadBlobsFail(f, ix.tools, r.settings, e);
  }

  // A file that was too large under the old limit, whose size the tree does
  // not list, stays failed under a new limit that admits it.
  lemma FailuresOutliveTheirCause(tools: Tools)
    ensures exists f: Facts, r: Request, a: FileArtifact, e: TreeEntry ::
      Described(f, e) && FromHistory(f, tools, a) && Stale(f, r, map[PreviousKey(e.objectId, e.path) := a], e)
  {
    var f := Facts(_ => [1, 2], _ => None);
    var e := TreeEntry("a.ts", Blob, "100644", None, "b0");
    var r := Request("w", "g2", Some("g1"), "v1", Settings(2, "c"));
    var a := FileArtifact("g1", "a.ts", FailedPortable(Settings(1, "c"), e), None);
    assert Origin(f, tools, a, e, Settings(1, "c"));
    assert !TooLargeToRead(f, r.settings, e);
    assert Stale(f, r, map[PreviousKey(e.objectId, e.path) := a], e);
  }
}
