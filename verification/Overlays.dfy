// Pull-request overlays: the change loop that emits tombstones and
// replacements, and the view of a base generation under them.
module Overlays {
  import opened Outcomes
  import opened Sorting
  import opened Changes
  import opened Artifacts

  datatype OverlayEntry =
    | Tombstone(path: string)
    | Replacement(path: string, artifact: Semantic, previousPath: Option<string>)

  type Tree = map<string, TreeEntry>

  datatype Emission = Emission(entries: Result<seq<OverlayEntry>>, missing: nat, partial: bool)

  function TombstonesOf(c: Change): seq<OverlayEntry> {
    if c.kind.Deleted? then [Tombstone(c.path)]
    else if c.kind.Renamed? && c.previousPath.Some? then [Tombstone(c.previousPath.value)]
    else []
  }

  // One change after the earlier ones gave `done`.
  function EmitOne(tools: Tools, s: Settings, head: Tree, read: string -> BlobRead, c: Change, done: Emission): Emission
    requires done.entries.Ok?
  {
    var kept := done.entries.value + TombstonesOf(c);
    if c.kind.Deleted? then done.(entries := Ok(kept))
    else if c.path !in head then Emission(Ok(kept), done.missing + 1, true)
    else
      match ReadAndClassify(tools, s, head[c.path], read(c.path))
      case Throws => done.(entries := Throws)
      case Ok(p) =>
        done.(entries := Ok(kept + [Replacement(c.path, Semantic(head[c.path].path, p), c.previousPath)]),
              partial := done.partial || !p.parseState.Parsed?)
  }

  function EmitAll(tools: Tools, s: Settings, head: Tree, read: string -> BlobRead, changes: seq<Change>,
                   complete: bool): Emission
  {
    if changes == [] then Emission(Ok([]), 0, !complete)
    else
      var before := EmitAll(tools, s, head, read, changes[..|changes| - 1], complete);
      if before.entries.Throws? then before
      else EmitOne(tools, s, head, read, changes[|changes| - 1], before)
  }

  lemma {:induction false} ThrowingStays(tools: Tools, s: Settings, head: Tree, read: string -> BlobRead,
      changes: seq<Change>, complete: bool, n: nat)
    requires n <= |changes| && EmitAll(tools, s, head, read, changes[..n], complete).entries.Throws?
    ensures EmitAll(tools, s, head, read, changes, complete).entries.Throws?
    decreases |changes|
  {
    hide EmitOne;
    if n < |changes| {
      assert changes[..|changes| - 1][..n] == changes[..n];
      ThrowingStays(tools, s, head, read, changes[..|changes| - 1], complete, n);
    } else {
      assert changes[..n] == changes;
    }
  }

  // At change `stop`, if there is one, the overlay is found to be superseded.
  method EmitOverlay(tools: Tools, s: Settings, head: Tree, read: string -> BlobRead, changes: seq<Change>,
                     complete: bool, stop: nat)
    returns (r: Result<seq<OverlayEntry>>, missing: nat, partial: bool)
    ensures r == if stop < |changes| then Throws else EmitAll(tools, s, head, read, changes, complete).entries
    ensures r.Ok? ==> EmitAll(tools, s, head, read, changes, complete) == Emission(r, missing, partial)
  {
    hide ReadAndClassify;
    var entries: seq<OverlayEntry> := [];
    missing, partial := 0, !complete;
    for i := 0 to |changes|
      invariant i <= stop
      invariant EmitAll(tools, s, head, read, changes[..i], complete) == Emission(Ok(entries), missing, partial)
    {
      if i == stop {
        return Throws, missing, partial;
      }
      var c := changes[i];
      assert changes[..i + 1][..i] == changes[..i] && entries + [] == entries;
      if c.kind.Deleted? {
        entries := entries + [Tombstone(c.path)];
        continue;
      }
      if c.kind.Renamed? && c.previousPath.Some? {
        entries := entries + [Tombstone(c.previousPath.value)];
      }
      if c.path !in head {
        missing, partial := missing + 1, true;
        continue;
      }
      var classified := ReadAndClassify(tools, s, head[c.path], read(c.path));
      if classified.Throws? {
        ThrowingStays(tools, s, head, read, changes, complete, i + 1);
        return Throws, missing, partial;
      }
      partial := partial || !classified.value.parseState.Parsed?;
      entries := entries + [Replacement(c.path, Semantic(head[c.path].path, classified.value), c.previousPath)];
    }
    assert changes[..|changes|] == changes;
    r := Ok(entries);
  }

  // --- what is emitted ---------------------------------------------------------

  // The file of a change is there to be read.
  ghost predicate Reads(head: Tree, c: Change) {
    !c.kind.Deleted? && c.path in head
  }

  function Absent(head: Tree): Change -> bool {
    (c: Change) => !c.kind.Deleted? && c.path !in head
  }

  // A deletion buries its path and a rename the path it left, a copy buries
  // nothing; a file of the head replaces its path, under the path it came from.
  ghost predicate Gives(tools: Tools, s: Settings, head: Tree, read: string -> BlobRead, c: Change, x: OverlayEntry) {
    || (c.kind.Deleted? && x == Tombstone(c.path))
    || (c.kind.Renamed? && c.previousPath.Some? && x == Tombstone(c.previousPath.value))
    || (Reads(head, c) && x.Replacement? && x.path == c.path && x.previousPath == c.previousPath
        && x.artifact.path == head[c.path].path
        && ReadAndClassify(tools, s, head[c.path], read(c.path)) == Ok(x.artifact.portable))
  }

  ghost predicate Incomplete(tools: Tools, s: Settings, head: Tree, read: string -> BlobRead, c: Change) {
    || Absent(head)(c)
    || (Reads(head, c)
        && exists p :: ReadAndClassify(tools, s, head[c.path], read(c.path)) == Ok(p) && p.parseState != Parsed)
  }

  // The emission fails exactly when some file fails to be classified. Otherwise
  // its entries are those the changes give, it counts the changed files that the
  // head does not have, and it is partial when something is.
  lemma {:induction false} EmissionIs(tools: Tools, s: Settings, head: Tree, read: string -> BlobRead,
      changes: seq<Change>, complete: bool)
    ensures var e := EmitAll(tools, s, head, read, changes, complete);
            && (e.entries.Ok? <==> forall c :: c in changes && Reads(head, c) ==>
                                     ReadAndClassify(tools, s, head[c.path], read(c.path)).Ok?)
            && (e.entries.Ok? ==>
                  && (forall x :: x in e.entries.value <==>
                        exists c :: c in changes && Gives(tools, s, head, read, c, x))
                  && e.missing == |Keep(changes, Absent(head))|
                  && (e.partial <==> !complete || exists c :: c in changes && Incomplete(tools, s, head, read, c)))
  {
    hide ReadAndClassify, EmitOne, Gives, Incomplete, Reads;
    if changes == [] {
    } else {
      var front, c := changes[..|changes| - 1], changes[|changes| - 1];
      assert changes == front + [c];
      EmissionIs(tools, s, head, read, front, complete);
      var before := EmitAll(tools, s, head, read, front, complete);
      KeepConcat(front, [c], Absent(head));
      if before.entries.Ok? {
        OneEmissionIs(tools, s, head, read, c, before);
      }
    }
  }

  lemma OneEmissionIs(tools: Tools, s: Settings, head: Tree, read: string -> BlobRead, c: Change, done: Emission)
    requires done.entries.Ok?
    ensures var e := EmitOne(tools, s, head, read, c, done);
            && (e.entries.Ok? <==>
                  Reads(head, c) ==> ReadAndClassify(tools, s, head[c.path], read(c.path)).Ok?)
            && (e.entries.Ok? ==>
                  && (forall x :: x in e.entries.value <==>
                        x in done.entries.value || Gives(tools, s, head, read, c, x))
                  && e.missing == done.missing + |Keep([c], Absent(head))|
                  && (e.partial <==> done.partial || Incomplete(tools, s, head, read, c)))
  {
    hide ReadAndClassify;
  }

  // --- what an exact change list says ----------------------------------------

  ghost predicate TreeOk(t: Tree) {
    forall p :: p in t ==> t[p].path == p
  }

  ghost predicate Targets(changes: seq<Change>, path: string) {
    exists c :: c in changes && !c.kind.Deleted? && c.path == path
  }

  ghost predicate Vacates(changes: seq<Change>, path: string) {
    exists c :: c in changes &&
                ((c.kind.Deleted? && c.path == path) || (c.kind.Renamed? && c.previousPath == Some(path)))
  }

  // Every difference is listed, and nothing is said that is not so. A path may
  // be vacated by one rename and filled again by another change.
  ghost predicate ExactDiff(base: Tree, head: Tree, changes: seq<Change>) {
    && (forall p :: p in head && (p !in base || base[p] != head[p]) ==> Targets(changes, p))
    && (forall p :: p in base && p !in head ==> Vacates(changes, p))
    && (forall p :: Targets(changes, p) ==> p in head)
    && (forall p :: Vacates(changes, p) ==> p in base && (p in head ==> Targets(changes, p)))
  }

  ghost predicate HonestReader(f: Facts, s: Settings, head: Tree, read: string -> BlobRead) {
    forall p :: p in head ==> Described(f, head[p]) && HonestRead(f, s, head[p], read(p))
  }

  function ReplacementOf(f: Facts, tools: Tools, s: Settings, head: Tree, c: Change): OverlayEntry
    requires c.path in head
  {
    Replacement(c.path, Semantic(c.path, Fresh(f, tools, s, head[c.path])), c.previousPath)
  }

  // The entries of one change when the reader is honest.
  function HonestEntries(f: Facts, tools: Tools, s: Settings, head: Tree, c: Change): seq<OverlayEntry> {
    TombstonesOf(c) + if c.kind.Deleted? || c.path !in head then [] else [ReplacementOf(f, tools, s, head, c)]
  }

  function AllHonestEntries(f: Facts, tools: Tools, s: Settings, head: Tree, changes: seq<Change>): seq<OverlayEntry> {
    if changes == [] then []
    else AllHonestEntries(f, tools, s, head, changes[..|changes| - 1])
         + HonestEntries(f, tools, s, head, changes[|changes| - 1])
  }

  lemma {:induction false} HonestEmission(f: Facts, tools: Tools, s: Settings, head: Tree, read: string -> BlobRead,
      changes: seq<Change>, complete: bool)
    requires TreeOk(head) && HonestReader(f, s, head, read)
    ensures EmitAll(tools, s, head, read, changes, complete).entries == Ok(AllHonestEntries(f, tools, s, head, changes))
  {
    hide Fresh, ReadAndClassify, Described, HonestRead;
    if changes != [] {
      HonestEmission(f, tools, s, head, read, changes[..|changes| - 1], complete);
      var c := changes[|changes| - 1];
      if c.path in head {
        HonestReadGivesFresh(f, tools, s, head[c.path], read(c.path));
      }
      var kept := AllHonestEntries(f, tools, s, head, changes[..|changes| - 1]) + TombstonesOf(c);
      if c.kind.Deleted? || c.path !in head {
        assert AllHonestEntries(f, tools, s, head, changes) == kept;
      } else {
        assert AllHonestEntries(f, tools, s, head, changes) == kept + [ReplacementOf(f, tools, s, head, c)];
      }
    }
  }

  lemma {:induction false} HonestEntriesAre(f: Facts, tools: Tools, s: Settings, head: Tree, changes: seq<Change>,
      x: OverlayEntry)
    ensures x in AllHonestEntries(f, tools, s, head, changes)
            <==> exists c :: c in changes && x in HonestEntries(f, tools, s, head, c)
  {
    hide HonestEntries;
    if changes != [] {
      var front, last := changes[..|changes| - 1], changes[|changes| - 1];
      HonestEntriesAre(f, tools, s, head, front, x);
      assert changes == front + [last];
    }
  }

  // --- the overlaid view -------------------------------------------------------

  ghost predicate Buries(entries: seq<OverlayEntry>, path: string) {
    Tombstone(path) in entries
  }

  ghost predicate Replaces(entries: seq<OverlayEntry>, path: string) {
    exists x :: x in entries && x.Replacement? && x.path == path
  }

  // Base without the tombstoned paths, then the replacements.
  ghost predicate Overlaid(base: map<string, Portable>, entries: seq<OverlayEntry>, view: map<string, Portable>) {
    && (forall p :: p in view <==> Replaces(entries, p) || (p in base && !Buries(entries, p)))
    && (forall x :: x in entries && x.Replacement? ==> x.path in view && view[x.path] == x.artifact.portable)
    && (forall p :: p in base && !Buries(entries, p) && !Replaces(entries, p) ==> p in view && view[p] == base[p])
  }

  lemma EmittedEntries(f: Facts, tools: Tools, s: Settings, head: Tree, changes: seq<Change>, p: string)
    requires forall q :: Targets(changes, q) ==> q in head
    ensures var entries := AllHonestEntries(f, tools, s, head, changes);
            && (Buries(entries, p) <==> Vacates(changes, p))
            && (Replaces(entries, p) <==> Targets(changes, p))
            && (forall x :: x in entries && x.Replacement? && x.path == p ==>
                  p in head && x.artifact == Semantic(p, Fresh(f, tools, s, head[p])))
  {
    hide Fresh;
    var entries := AllHonestEntries(f, tools, s, head, changes);
    HonestEntriesAre(f, tools, s, head, changes, Tombstone(p));
    if Targets(changes, p) {
      var c :| c in changes && !c.kind.Deleted? && c.path == p;
      var x := ReplacementOf(f, tools, s, head, c);
      assert x in HonestEntries(f, tools, s, head, c);
      HonestEntriesAre(f, tools, s, head, changes, x);
    }
    forall x | x in entries && x.Replacement? && x.path == p
      ensures p in head && x.artifact == Semantic(p, Fresh(f, tools, s, head[p])) && Targets(changes, p)
    {
      HonestEntriesAre(f, tools, s, head, changes, x);
    }
  }

  // For an exact change list and an honest reader, the view has exactly the
  // paths of the head tree. Each changed path carries the classification of
  // its head entry and each other path keeps its base artifact.
  lemma OverlayIsHead(f: Facts, tools: Tools, s: Settings, baseTree: Tree, head: Tree, changes: seq<Change>,
      read: string -> BlobRead, complete: bool, base: map<string, Portable>, view: map<string, Portable>)
    requires TreeOk(head) && HonestReader(f, s, head, read) && ExactDiff(baseTree, head, changes)
    requires base.Keys == baseTree.Keys
    requires EmitAll(tools, s, head, read, changes, complete).entries.Ok? ==>
               Overlaid(base, EmitAll(tools, s, head, read, changes, complete).entries.value, view)
    ensures EmitAll(tools, s, head, read, changes, complete).entries.Ok?
    ensures view.Keys == head.Keys
    ensures forall p :: p in head && Targets(changes, p) ==> view[p] == Fresh(f, tools, s, head[p])
    ensures forall p :: p in head && !Targets(changes, p) ==> p in base && head[p] == baseTree[p] && view[p] == base[p]
    ensures (forall p :: p in head ==> view[p] == Fresh(f, tools, s, head[p]))
            <==> (forall p :: p in head && !Targets(changes, p) ==> base[p] == Fresh(f, tools, s, head[p]))
  {
    hide Fresh, EmitAll, Described, HonestRead, AllHonestEntries;
    HonestEmission(f, tools, s, head, read, changes, complete);
    var entries := AllHonestEntries(f, tools, s, head, changes);
    forall p
      ensures p in view <==> p in head
      ensures p in head && Targets(changes, p) ==> view[p] == Fresh(f, tools, s, head[p])
      ensures p in head && !Targets(changes, p) ==> p in base && head[p] == baseTree[p] && view[p] == base[p]
    {
      EmittedEntries(f, tools, s, head, changes, p);
    }
  }

  // --- materialising the view ----------------------------------------------------

  ghost predicate DistinctArtifacts(base: seq<FileArtifact>) {
    forall i, j :: 0 <= i < j < |base| ==> base[i].path != base[j].path
  }

  ghost predicate DistinctEntries(entries: seq<OverlayEntry>) {
    forall i, j :: 0 <= i < j < |entries| ==> entries[i].path != entries[j].path
  }

  ghost predicate SamePaths(entries: seq<OverlayEntry>) {
    forall x :: x in entries && x.Replacement? ==> x.artifact.path == x.path
  }

  // A base artifact as it appears in a derived generation.
  function Carried(generationId: string, a: FileArtifact): FileArtifact {
    a.(generationId := generationId,
       reusedFrom := if a.generationId != generationId then Some(a.generationId) else a.reusedFrom)
  }

  function Replacing(generationId: string, x: OverlayEntry): FileArtifact
    requires x.Replacement?
  {
    FileArtifact(generationId, x.artifact.path, x.artifact.portable, None)
  }

  ghost predicate Listed(base: seq<FileArtifact>, path: string) {
    exists a :: a in base && a.path == path
  }

  // The view of a base generation under overlay entries, with provenance.
  ghost predicate Materialized(generationId: string, base: seq<FileArtifact>, entries: seq<OverlayEntry>,
                               m: map<string, FileArtifact>) {
    && (forall p :: p in m <==> Replaces(entries, p) || (Listed(base, p) && !Buries(entries, p)))
    && (forall x :: x in entries && x.Replacement? ==>
          x.path in m && m[x.path] == FileArtifact(generationId, x.artifact.path, x.artifact.portable, None))
    && (forall a :: a in base && !Buries(entries, a.path) && !Replaces(entries, a.path) ==>
          a.path in m && CarriedAs(generationId, a, m[a.path]))
  }

  // The same artifact in the new generation, which tells where it came from.
  ghost predicate CarriedAs(generationId: string, a: FileArtifact, b: FileArtifact) {
    && b.generationId == generationId && b.path == a.path && b.portable == a.portable
    && (a.generationId == generationId ==> b.reusedFrom == a.reusedFrom)
    && (a.generationId != generationId ==> b.reusedFrom == Some(a.generationId))
  }

  lemma OneMoreEntry(generationId: string, base: seq<FileArtifact>, entries: seq<OverlayEntry>, x: OverlayEntry,
                     m: map<string, FileArtifact>)
    requires Materialized(generationId, base, entries, m)
    requires forall y :: y in entries ==> y.path != x.path
    ensures Materialized(generationId, base, entries + [x],
                         if x.Tombstone? then m - {x.path} else m[x.path := Replacing(generationId, x)])
  {
    hide CarriedAs;
    var next := entries + [x];
    forall p
      ensures Buries(next, p) <==> Buries(entries, p) || (x.Tombstone? && p == x.path)
      ensures Replaces(next, p) <==> Replaces(entries, p) || (x.Replacement? && p == x.path)
    {
      if Replaces(entries, p) {
        var y :| y in entries && y.Replacement? && y.path == p;
        assert y in next;
      }
      if x.Replacement? && p == x.path {
        assert x in next;
      }
    }
    assert !Replaces(entries, x.path) && !Buries(entries, x.path);
  }

  method CarryBase(generationId: string, base: seq<FileArtifact>) returns (r: Result<map<string, FileArtifact>>)
    ensures r.Ok? <==> DistinctArtifacts(base)
    ensures r.Ok? ==> Materialized(generationId, base, [], r.value)
  {
    var m: map<string, FileArtifact> := map[];
    for i := 0 to |base|
      invariant DistinctArtifacts(base[..i])
      invariant forall p :: p in m <==> Listed(base[..i], p)
      invariant forall a :: a in base[..i] ==> a.path in m && m[a.path] == Carried(generationId, a)
    {
      var a := base[i];
      assert base[..i + 1] == base[..i] + [a];
      if a.path in m {
        var b :| b in base[..i] && b.path == a.path;
        var j :| 0 <= j < i && base[j] == b;
        assert base[j].path == base[i].path;
        return Throws;
      }
      m := m[a.path := Carried(generationId, a)];
      forall p ensures p in m <==> Listed(base[..i + 1], p) {
        if Listed(base[..i], p) {
          var b :| b in base[..i] && b.path == p;
          assert b in base[..i + 1];
        }
        if p == a.path {
          assert a in base[..i + 1];
        }
      }
    }
    assert base[..|base|] == base;
    r := Ok(m);
  }

  // Fails on a repeated path or a mislabelled replacement, and on nothing else.
  method MaterializeOverlay(generationId: string, base: seq<FileArtifact>, entries: seq<OverlayEntry>)
    returns (r: Result<map<string, FileArtifact>>)
    ensures r.Ok? <==> DistinctArtifacts(base) && DistinctEntries(entries) && SamePaths(entries)
    ensures r.Ok? ==> Materialized(generationId, base, entries, r.value)
  {
    hide Materialized, Carried, Replacing, DistinctArtifacts;
    var carried := CarryBase(generationId, base);
    if carried.Throws? {
      return Throws;
    }
    var m := carried.value;
    var changed: set<string> := {};
    assert entries[..0] == [];
    for i := 0 to |entries|
      invariant DistinctEntries(entries[..i]) && SamePaths(entries[..i])
      invariant forall p :: p in changed <==> exists j :: 0 <= j < i && entries[j].path == p
      invariant Materialized(generationId, base, entries[..i], m)
    {
      var x := entries[i];
      assert entries[..i + 1] == entries[..i] + [x];
      if x.path in changed {
        return Throws;
      }
      changed := changed + {x.path};
      OneMoreEntry(generationId, base, entries[..i], x, m);
      if x.Tombstone? {
        m := m - {x.path};
        continue;
      }
      if x.artifact.path != x.path {
        assert x in entries;
        return Throws;
      }
      m := m[x.path := Replacing(generationId, x)];
    }
    assert entries[..|entries|] == entries;
    r := Ok(m);
  }

  // The artifacts of a generation by path.
  ghost predicate Holds(base: seq<FileArtifact>, m: map<string, Portable>) {
    && (forall p :: p in m <==> Listed(base, p))
    && (forall a :: a in base ==> a.path in m && m[a.path] == a.portable)
  }

  // The materialised artifacts are the overlaid ones with provenance added.
  lemma MaterializedIsOverlaid(generationId: string, base: seq<FileArtifact>, held: map<string, Portable>,
      entries: seq<OverlayEntry>, m: map<string, FileArtifact>)
    requires Holds(base, held) && Materialized(generationId, base, entries, m)
    ensures Overlaid(held, entries, map p | p in m :: m[p].portable)
    ensures forall p :: p in m ==> m[p].generationId == generationId
  {
    var view := map p | p in m :: m[p].portable;
    forall p | p in m && !Replaces(entries, p)
      ensures p in held && view[p] == held[p] && m[p].generationId == generationId
    {
      var a :| a in base && a.path == p;
      assert m[a.path] == Carried(generationId, a);
    }
    forall p | Replaces(entries, p) ensures p in m && m[p].generationId == generationId {
      var x :| x in entries && x.Replacement? && x.path == p;
      assert m[x.path] == Replacing(generationId, x);
    }
  }

  // --- when an emitted overlay can be materialised -----------------------------

  predicate Leaves(c: Change) {
    c.kind.Renamed? && c.previousPath.Some?
  }

  // Two changes of one list never claim the same path: their own paths differ,
  // and a path that a rename left is neither filled nor left again.
  ghost predicate Apart(c: Change, d: Change) {
    && c.path != d.path
    && (Leaves(c) ==> c.previousPath.value != d.path)
    && (Leaves(d) ==> d.previousPath.value != c.path)
    && (Leaves(c) && Leaves(d) ==> c.previousPath != d.previousPath)
  }

  ghost predicate NoChains(changes: seq<Change>) {
    && (forall c :: c in changes && Leaves(c) ==> c.previousPath.value != c.path)
    && (forall i, j :: 0 <= i < j < |changes| ==> Apart(changes[i], changes[j]))
  }

  ghost predicate Disjoint(a: seq<OverlayEntry>, b: seq<OverlayEntry>) {
    forall x, y :: x in a && y in b ==> x.path != y.path
  }

  lemma DistinctAppend(a: seq<OverlayEntry>, b: seq<OverlayEntry>)
    ensures DistinctEntries(a + b) <==> DistinctEntries(a) && DistinctEntries(b) && Disjoint(a, b)
  {
    if DistinctEntries(a + b) {
      forall i, j | 0 <= i < j < |a| ensures a[i].path != a[j].path {
        assert (a + b)[i] == a[i] && (a + b)[j] == a[j];
      }
      forall i, j | 0 <= i < j < |b| ensures b[i].path != b[j].path {
        assert (a + b)[|a| + i] == b[i] && (a + b)[|a| + j] == b[j];
      }
      forall x, y | x in a && y in b ensures x.path != y.path {
        var i :| 0 <= i < |a| && a[i] == x;
        var j :| 0 <= j < |b| && b[j] == y;
        assert (a + b)[i] == x && (a + b)[|a| + j] == y;
      }
    }
  }

  lemma ChangesApart(f: Facts, tools: Tools, s: Settings, head: Tree, c: Change, d: Change)
    requires (!c.kind.Deleted? ==> c.path in head) && (!d.kind.Deleted? ==> d.path in head)
    ensures Disjoint(HonestEntries(f, tools, s, head, c), HonestEntries(f, tools, s, head, d)) <==> Apart(c, d)
    ensures DistinctEntries(HonestEntries(f, tools, s, head, c)) <==> (Leaves(c) ==> c.previousPath.value != c.path)
  {
    hide Fresh;
    var a, b := HonestEntries(f, tools, s, head, c), HonestEntries(f, tools, s, head, d);
    assert a[|a| - 1] in a && b[|b| - 1] in b && a[0] in a && b[0] in b;
  }

  // What was emitted for an exact change list can be materialised exactly when
  // no rename starts where another change lands.
  lemma {:induction false} EmittedPathsDiffer(f: Facts, tools: Tools, s: Settings, head: Tree, changes: seq<Change>)
    requires forall c :: c in changes && !c.kind.Deleted? ==> c.path in head
    ensures DistinctEntries(AllHonestEntries(f, tools, s, head, changes)) <==> NoChains(changes)
  {
    hide HonestEntries, Apart, DistinctEntries, Disjoint;
    if changes == [] {
      assert DistinctEntries([]) by { AllApartFromNothing(); }
    } else {
      var n, c := |changes| - 1, changes[|changes| - 1];
      var front := changes[..n];
      assert changes == front + [c];
      EmittedPathsDiffer(f, tools, s, head, front);
      DistinctAppend(AllHonestEntries(f, tools, s, head, front), HonestEntries(f, tools, s, head, c));
      ChangesApart(f, tools, s, head, c, c);
      EmittedApart(f, tools, s, head, front, c);
      if NoChains(changes) {
        forall i | 0 <= i < n ensures Apart(front[i], c) {
          assert Apart(changes[i], changes[n]);
        }
      }
    }
  }

  lemma AllApartFromNothing()
    ensures DistinctEntries([])
  {
  }

  lemma {:induction false} EmittedApart(f: Facts, tools: Tools, s: Settings, head: Tree, changes: seq<Change>,
      d: Change)
    requires forall c :: c in changes && !c.kind.Deleted? ==> c.path in head
    requires !d.kind.Deleted? ==> d.path in head
    ensures Disjoint(AllHonestEntries(f, tools, s, head, changes), HonestEntries(f, tools, s, head, d))
            <==> forall i :: 0 <= i < |changes| ==> Apart(changes[i], d)
  {
    hide HonestEntries, Apart;
    if changes != [] {
      var n, c := |changes| - 1, changes[|changes| - 1];
      var front := changes[..n];
      assert changes == front + [c];
      EmittedApart(f, tools, s, head, front, d);
      ChangesApart(f, tools, s, head, c, d);
      assert (forall i :: 0 <= i < |changes| ==> Apart(changes[i], d))
          <==> Apart(c, d) && forall i :: 0 <= i < n ==> Apart(front[i], d);
    }
  }

  // Swapping two files by renames: the view is right, but the entries that
  // describe it are refused.
  lemma SwapsAreRefused(f: Facts, tools: Tools, s: Settings, a: TreeEntry, b: TreeEntry)
    requires a.path != b.path
    ensures var base: Tree := map[a.path := a, b.path := b];
            var head: Tree := map[a.path := b.(path := a.path), b.path := a.(path := b.path)];
            var changes := [Change(Renamed, b.path, Some(a.path)), Change(Renamed, a.path, Some(b.path))];
            && ExactDiff(base, head, changes)
            && !DistinctEntries(AllHonestEntries(f, tools, s, head, changes))
  {
    hide Fresh;
    var base: Tree := map[a.path := a, b.path := b];
    var head: Tree := map[a.path := b.(path := a.path), b.path := a.(path := b.path)];
    var c, d := Change(Renamed, b.path, Some(a.path)), Change(Renamed, a.path, Some(b.path));
    var changes := [c, d];
    assert c in changes && d in changes;
    assert Tombstone(a.path) in TombstonesOf(c) && Tombstone(b.path) in TombstonesOf(d);
    assert Targets(changes, a.path) && Targets(changes, b.path);
    assert Vacates(changes, a.path) && Vacates(changes, b.path);
    assert !Apart(changes[0], changes[1]);
    EmittedPathsDiffer(f, tools, s, head, changes);
  }
}
