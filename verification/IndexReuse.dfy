// What the reuse layers of indexing spare, and what its counters count.
module IndexReuse {
  import opened Outcomes
  import opened Sorting
  import opened KeyedLists
  import opened Artifacts
  import opened IndexGenerations
  import opened StringKeys

  // --- counters --------------------------------------------------------------------

  function Count(artifacts: seq<FileArtifact>, p: FileArtifact -> bool): nat {
    |Keep(artifacts, p)|
  }

  lemma CountAppend(artifacts: seq<FileArtifact>, a: FileArtifact, p: FileArtifact -> bool)
    ensures Count(artifacts + [a], p) == Count(artifacts, p) + if p(a) then 1 else 0
  {
    hide Keep;
    KeepConcat(artifacts, [a], p);
    KeepOfCons(a, [], p);
    assert [a] + [] == [a];
    KeepOfNothing(p);
  }

  ghost predicate Counters(r: Request, run: Run) {
    run.artifacts.Ok? ==>
      var all := run.artifacts.value;
      && run.tally.parsed == Count(all, (a: FileArtifact) => a.portable.parseState == Parsed)
      && run.tally.skipped == Count(all, (a: FileArtifact) => a.portable.parseState == Skipped)
      && run.tally.languages == Count(all, (a: FileArtifact) => a.portable.language != "unknown")
      && (r.previousGenerationId.Some? ==>
            run.tally.reused == Count(all, (a: FileArtifact) => a.reusedFrom.Some?))
  }

  lemma OneMoreCounted(ix: Indexer, r: Request, previous: map<string, FileArtifact>, read: string -> BlobRead,
                       e: TreeEntry, run: Run)
    requires run.artifacts.Ok? && Counters(r, run)
    ensures Counters(r, IndexOne(ix, r, previous, read, e, run))
  {
    hide Count, ReadAndClassify, Reusable, KeyOf;
    var next := IndexOne(ix, r, previous, read, e, run);
    if next.artifacts.Ok? {
      var n := |run.artifacts.value|;
      var a := next.artifacts.value[n];
      assert next.artifacts.value == run.artifacts.value + [a];
      CountAppend(run.artifacts.value, a, (x: FileArtifact) => x.portable.parseState == Parsed);
      CountAppend(run.artifacts.value, a, (x: FileArtifact) => x.portable.parseState == Skipped);
      CountAppend(run.artifacts.value, a, (x: FileArtifact) => x.portable.language != "unknown");
      CountAppend(run.artifacts.value, a, (x: FileArtifact) => x.reusedFrom.Some?);
    }
  }

  // Parsed, skipped and recognised files are those among the artifacts, and so
  // are the reused ones.
  lemma {:induction false} CountersAreExact(
      ix: Indexer, r: Request, previous: map<string, FileArtifact>, read: string -> BlobRead, entries: seq<TreeEntry>,
      cache: Cache)
    ensures Counters(r, IndexAll(ix, r, previous, read, entries, cache))
  {
    hide IndexOne, Counters;
    if entries == [] {
      NothingCounted(r, cache);
    } else {
      var n := |entries| - 1;
      CountersAreExact(ix, r, previous, read, entries[..n], cache);
      var before := IndexAll(ix, r, previous, read, entries[..n], cache);
      if before.artifacts.Ok? {
        OneMoreCounted(ix, r, previous, read, entries[n], before);
      }
    }
  }

  lemma NothingCounted(r: Request, cache: Cache)
    ensures Counters(r, Run(Ok([]), cache, NOTHING_YET))
  {
  }

  // --- when the previous generation is taken over ---------------------------------------

  ghost predicate SameFile(a: FileArtifact, e: TreeEntry) {
    a.path == e.path && a.portable.sourceBlobId == e.objectId
  }

  // Artifact `i` is the last one of the entry's path and object.
  ghost predicate LastOf(previous: seq<FileArtifact>, e: TreeEntry, i: int) {
    0 <= i < |previous| && SameFile(previous[i], e) && forall j :: i < j < |previous| ==> !SameFile(previous[j], e)
  }

  // It was made by this parser under these settings, is as long as the tree says,
  // and is of the entry's kind: a file is classed as too large exactly when it
  // now is, by its listed length or else by its own.
  ghost predicate Current(r: Request, a: FileArtifact, e: TreeEntry) {
    var p := a.portable;
    && p.parserId == PARSER_ID && p.parserVersion == PARSER_VERSION && p.configRevision == r.settings.configRevision
    && (e.size.Some? ==> e.size == Some(p.size))
    && (e.kind == Symlink <==> p.classification == SymlinkEntry)
    && (e.kind == Submodule <==> p.classification == SubmoduleEntry)
    && (e.kind == Blob ==> (p.classification == Oversized <==> r.settings.maximumBytes < OrElse(e.size, p.size)))
  }

  // Object ids hold no NUL.
  ghost predicate NamesOk(previous: seq<FileArtifact>, e: TreeEntry) {
    NulFree(e.objectId) && forall a :: a in previous ==> NulFree(a.portable.sourceBlobId)
  }

  lemma PreviousKeysDiffer(a: FileArtifact, e: TreeEntry)
    requires NulFree(e.objectId) && NulFree(a.portable.sourceBlobId)
    ensures KeyOfArtifact()(a) == PreviousKey(e.objectId, e.path) <==> SameFile(a, e)
  {
    var b := a.portable.sourceBlobId;
    if KeyOfArtifact()(a) == PreviousKey(e.objectId, e.path) {
      assert b + NUL + a.path == e.objectId + NUL + e.path;
      GluedPrefix(b, a.path, e.objectId, e.path);
      GluedPrefix(e.objectId, e.path, b, a.path);
    }
  }

  // An entry is taken over exactly when the last artifact of its path and object
  // is still current.
  lemma TakenOverExactly(r: Request, previous: seq<FileArtifact>, e: TreeEntry)
    requires NamesOk(previous, e)
    ensures ReusesPrevious(r, PreviousByBlob(previous), e)
            <==> exists i :: LastOf(previous, e, i) && Current(r, previous[i], e)
  {
    hide PreviousKey, ByKey;
    var k, m := PreviousKey(e.objectId, e.path), PreviousByBlob(previous);
    forall i | 0 <= i < |previous| ensures KeyOfArtifact()(previous[i]) == k <==> SameFile(previous[i], e) {
      PreviousKeysDiffer(previous[i], e);
    }
    if k in m {
      var i := LastWins(previous, KeyOfArtifact(), k);
      assert LastOf(previous, e, i);
      CurrentIsReusable(r, previous[i], e);
    }
  }

  lemma CurrentIsReusable(r: Request, a: FileArtifact, e: TreeEntry)
    requires SameFile(a, e)
    ensures Reusable(r, a, e) <==> Current(r, a, e)
  {
  }

  // --- nothing is read twice ----------------------------------------------------------

  // A file whose path excludes it, listed as larger than the limit.
  predicate LargeExcluded(tools: Tools, s: Settings, e: TreeEntry) {
    e.kind == Blob && tools.excluded(e.path).Some? && e.size.Some? && e.size.value > s.maximumBytes
  }

  // The result of the same entry under the same settings passes the reuse test,
  // except for large excluded files, whose class is not the one for large files.
  lemma UnchangedIsReusable(f: Facts, tools: Tools, r: Request, e: TreeEntry, a: FileArtifact)
    requires Described(f, e) && a.path == e.path && a.portable == Fresh(f, tools, r.settings, e)
    ensures Reusable(r, a, e) <==> !LargeExcluded(tools, r.settings, e)
  {
    hide LineCount;
  }

  // An entry that has a reusable artifact takes it over, without the cache or the reader.
  lemma ReusedAsItIs(ix: Indexer, r: Request, previous: map<string, FileArtifact>, read: string -> BlobRead,
                     e: TreeEntry, run: Run, kept: FileArtifact)
    requires run.artifacts.Ok? && PreviousKey(e.objectId, e.path) in previous
    requires previous[PreviousKey(e.objectId, e.path)] == kept && Reusable(r, kept, e)
    ensures var next := IndexOne(ix, r, previous, read, e, run);
            && next.artifacts ==
               Ok(run.artifacts.value + [FileArtifact(r.generationId, e.path, kept.portable, Some(kept.generationId))])
            && next.cache == run.cache && next.tally.reused == run.tally.reused + 1
  {
    hide Reusable;
  }

  // An entry that the cache knows, and no artifact of the previous generation,
  // is served from it without the reader.
  lemma CachedAsItIs(ix: Indexer, r: Request, previous: map<string, FileArtifact>, read: string -> BlobRead,
                     e: TreeEntry, run: Run)
    requires run.artifacts.Ok? && PreviousKey(e.objectId, e.path) !in previous && KeyOf(ix, r, e) in run.cache
    ensures var next := IndexOne(ix, r, previous, read, e, run);
            && next.artifacts ==
               Ok(run.artifacts.value +
                  [FileArtifact(r.generationId, e.path, run.cache[KeyOf(ix, r, e)], r.previousGenerationId)])
            && next.cache == run.cache && next.tally.reused == run.tally.reused + 1
  {
    hide KeyOf, Reusable;
  }

  // Any other entry is read: its artifact has no origin, and it is remembered
  // in the cache unless the file failed.
  lemma ReadAsItIs(ix: Indexer, r: Request, previous: map<string, FileArtifact>, read: string -> BlobRead,
                   e: TreeEntry, run: Run)
    requires run.artifacts.Ok? && !ReusesPrevious(r, previous, e) && KeyOf(ix, r, e) !in run.cache
    ensures var next, got := IndexOne(ix, r, previous, read, e, run),
                               ReadAndClassify(ix.tools, r.settings, e, read(e.path));
            && (got.Throws? ==> next == run.(artifacts := Throws))
            && (got.Ok? ==>
                  && next.artifacts ==
                     Ok(run.artifacts.value + [FileArtifact(r.generationId, e.path, got.value, None)])
                  && next.tally.reused == run.tally.reused
                  && next.tally.failed == run.tally.failed + (if got.value.parseState == Failed then 1 else 0)
                  && (got.value.parseState == Failed ==> next.cache == run.cache)
                  && (got.value.parseState != Failed ==> next.cache == run.cache[KeyOf(ix, r, e) := got.value]))
  {
    hide ReadAndClassify, Reusable, KeyOf;
  }

  ghost predicate Remembers(f: Facts, ix: Indexer, r: Request, previous: map<string, FileArtifact>, e: TreeEntry) {
    var k := PreviousKey(e.objectId, e.path);
    && Described(f, e) && k in previous && previous[k].path == e.path
    && previous[k].portable == Fresh(f, ix.tools, r.settings, e)
  }

  // What becomes of one entry whose result is remembered, whatever the reader says.
  lemma RememberedEntry(f: Facts, ix: Indexer, r: Request, previous: map<string, FileArtifact>,
                        read: string -> BlobRead, e: TreeEntry, run: Run)
    requires ContextsDiffer(ix) && Coherent(f, ix, run.cache) && run.artifacts.Ok? && Remembers(f, ix, r, previous, e)
    ensures var next := IndexOne(ix, r, previous, read, e, run);
            && next.artifacts.Ok? && Coherent(f, ix, next.cache)
            && |next.artifacts.value| == |run.artifacts.value| + 1
            && next.artifacts.value[..|run.artifacts.value|] == run.artifacts.value
            && next.artifacts.value[|run.artifacts.value|].path == e.path
            && next.artifacts.value[|run.artifacts.value|].portable == Fresh(f, ix.tools, r.settings, e)
            && (!LargeExcluded(ix.tools, r.settings, e) ==>
                  next.cache == run.cache && next.tally.reused == run.tally.reused + 1)
  {
    hide IndexOne, Fresh, Reusable, Described, Coherent, ContextsDiffer, ReadAndClassify, KeyOf;
    var kept := previous[PreviousKey(e.objectId, e.path)];
    UnchangedIsReusable(f, ix.tools, r, e, kept);
    if LargeExcluded(ix.tools, r.settings, e) {
      LargeExcludedEntry(f, ix, r, previous, read, e, run);
    } else {
      ReusedAsItIs(ix, r, previous, read, e, run, kept);
    }
  }

  lemma LargeExcludedEntry(f: Facts, ix: Indexer, r: Request, previous: map<string, FileArtifact>,
                           read: string -> BlobRead, e: TreeEntry, run: Run)
    requires ContextsDiffer(ix) && Coherent(f, ix, run.cache) && run.artifacts.Ok? && Remembers(f, ix, r, previous, e)
    requires LargeExcluded(ix.tools, r.settings, e) && !ReusesPrevious(r, previous, e)
    ensures var next := IndexOne(ix, r, previous, read, e, run);
            && next.artifacts.Ok? && Coherent(f, ix, next.cache)
            && |next.artifacts.value| == |run.artifacts.value| + 1
            && next.artifacts.value[..|run.artifacts.value|] == run.artifacts.value
            && next.artifacts.value[|run.artifacts.value|].path == e.path
            && next.artifacts.value[|run.artifacts.value|].portable == Fresh(f, ix.tools, r.settings, e)
  {
    UnwantedNeedsNoReader(f, ix.tools, r.settings, e, read(e.path));
    hide Fresh, Reusable, Coherent, ReadAndClassify, ContextsDiffer;
    if KeyOf(ix, r, e) in run.cache {
      CachedIsFresh(f, ix, r, run.cache, e);
    } else {
      CachingKeepsCoherence(f, ix, r, run.cache, e);
    }
  }

  lemma CachedIsFresh(f: Facts, ix: Indexer, r: Request, cache: Cache, e: TreeEntry)
    requires Coherent(f, ix, cache) && Described(f, e) && KeyOf(ix, r, e) in cache
    ensures cache[KeyOf(ix, r, e)] == Fresh(f, ix.tools, r.settings, e)
  {
    assert CachesFresh(f, ix, cache, e, r);
  }

  lemma UnwantedNeedsNoReader(f: Facts, tools: Tools, s: Settings, e: TreeEntry, read: BlobRead)
    requires LargeExcluded(tools, s, e)
    ensures ReadAndClassify(tools, s, e, read) == Ok(Fresh(f, tools, s, e)) && !TooLargeToRead(f, s, e)
    ensures !Fresh(f, tools, s, e).parseState.Failed?
  {
  }

  // A run whose previous generation holds the result of every entry gives those
  // results whatever the reader says, and, large excluded files aside, takes
  // every one of them over and stores nothing.
  lemma {:induction false} RememberedRunsReadNothing(
      f: Facts, ix: Indexer, r: Request, previous: map<string, FileArtifact>, read: string -> BlobRead,
      entries: seq<TreeEntry>, cache: Cache)
    requires ContextsDiffer(ix) && Coherent(f, ix, cache) && forall e :: e in entries ==>
               Remembers(f, ix, r, previous, e)
    ensures var run := IndexAll(ix, r, previous, read, entries, cache);
            && run.artifacts.Ok? && |run.artifacts.value| == |entries| && Coherent(f, ix, run.cache)
            && ((forall e :: e in entries ==> !LargeExcluded(ix.tools, r.settings, e)) ==>
                  run.cache == cache && run.tally.reused == |entries|)
            && forall i :: 0 <= i < |entries| ==>
                 && run.artifacts.value[i].path == entries[i].path
                 && run.artifacts.value[i].portable == Fresh(f, ix.tools, r.settings, entries[i])
  {
    hide IndexOne, Fresh, Reusable, Described, Coherent, ContextsDiffer, LargeExcluded, Remembers;
    if entries != [] {
      var n := |entries| - 1;
      assert forall x :: x in entries[..n] ==> x in entries;
      assert entries[n] in entries;
      RememberedRunsReadNothing(f, ix, r, previous, read, entries[..n], cache);
      var before := IndexAll(ix, r, previous, read, entries[..n], cache);
      RememberedEntry(f, ix, r, previous, read, entries[n], before);
      var all := IndexAll(ix, r, previous, read, entries, cache).artifacts.value;
      forall i | 0 <= i < n ensures all[i] == before.artifacts.value[i] {
        assert all[..n][i] == before.artifacts.value[i];
      }
    }
  }

  // What a first run leaves for a second one of the same tree.
  lemma SecondRunsReadNothing(
      f: Facts, ix: Indexer, r: Request, r': Request, read: string -> BlobRead, read': string -> BlobRead,
      entries: seq<TreeEntry>, cache: Cache, cache': Cache)
    requires ContextsDiffer(ix) && Coherent(f, ix, cache) && Coherent(f, ix, cache')
    requires HonestReader(f, r.settings, entries, read)
    requires r'.settings == r.settings && DistinctPaths(entries) && forall e :: e in entries ==> NulFree(e.objectId)
    ensures IndexAll(ix, r, map[], read, entries, cache).artifacts.Ok?
    ensures var first := IndexAll(ix, r, map[], read, entries, cache).artifacts.value;
            var second := IndexAll(ix, r', PreviousByBlob(first), read', entries, cache');
            && second.artifacts.Ok?
            && ((forall e :: e in entries ==> !LargeExcluded(ix.tools, r.settings, e)) ==>
                  second.cache == cache' && second.tally.reused == |entries|)
            && |second.artifacts.value| == |first|
            && forall i :: 0 <= i < |first| ==> SemanticOf(second.artifacts.value[i]) == SemanticOf(first[i])
  {
    hide IndexAll, Coherent, Fresh, FromHistory, HonestRead, Described, TooLargeToRead, ContextsDiffer, LargeExcluded;
    RunsDeliver(f, ix, r, map[], read, entries, cache);
    var first := IndexAll(ix, r, map[], read, entries, cache).artifacts.value;
    forall i | 0 <= i < |entries|
      ensures first[i].path == entries[i].path && first[i].portable == Fresh(f, ix.tools, r.settings, entries[i])
    {
      assert Delivers(f, ix, r, map[], entries[i], first[i]);
    }
    forall e | e in entries ensures Remembers(f, ix, r', PreviousByBlob(first), e) {
      var i :| 0 <= i < |entries| && entries[i] == e;
      RunRemembers(f, ix, r', entries, first, i);
    }
    RememberedRunsReadNothing(f, ix, r', PreviousByBlob(first), read', entries, cache');
  }

  lemma RunRemembers(f: Facts, ix: Indexer, r: Request, entries: seq<TreeEntry>, artifacts: seq<FileArtifact>, i: nat)
    requires |artifacts| == |entries| && i < |entries| && DistinctPaths(entries)
    requires forall e :: e in entries ==> NulFree(e.objectId)
    requires forall j :: 0 <= j < |entries| ==>
               && Described(f, entries[j]) && artifacts[j].path == entries[j].path
               && artifacts[j].portable == Fresh(f, ix.tools, r.settings, entries[j])
    ensures Remembers(f, ix, r, PreviousByBlob(artifacts), entries[i])
  {
    hide Fresh, ByKey, NulFree;
    forall j | 0 <= j < |entries| ensures artifacts[j].portable.sourceBlobId == entries[j].objectId {
      OnlyUnreadBlobsFail(f, ix.tools, r.settings, entries[j]);
    }
    var k := PreviousKey(entries[i].objectId, entries[i].path);
    assert artifacts[i] in artifacts && KeyOfArtifact()(artifacts[i]) == k;
    var j := LastWins(artifacts, KeyOfArtifact(), k);
    assert entries[i] in entries && entries[j] in entries;
    SamePath(entries[i], entries[j]);
  }

  lemma SamePath(a: TreeEntry, b: TreeEntry)
    requires NulFree(a.objectId) && NulFree(b.objectId)
    requires PreviousKey(a.objectId, a.path) == PreviousKey(b.objectId, b.path)
    ensures a.path == b.path
  {
    GluedPrefix(a.objectId, a.path, b.objectId, b.path);
    GluedPrefix(b.objectId, b.path, a.objectId, a.path);
  }
}
