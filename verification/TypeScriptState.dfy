// The persisted state of a TypeScript package: five maps by path, their
// encoding as sorted lists, and the update by a change list.
module TypeScriptState {
  import opened Outcomes
  import opened Sorting
  import opened Changes
  import opened Utf16

  datatype Classification = Source | Generated | Vendored | Test | Example
  datatype Artifact = Artifact(path: string, contentHash: string, classification: Classification, bytes: seq<int>)

  datatype Descriptor = Descriptor(path: string, contentHash: string, classification: Classification)

  // `facts` stands for the symbols, re-exports and imports of a module.
  datatype Module = Module(
    artifact: Descriptor, bytes: seq<int>, facts: string, parseErrors: nat, unresolved: Option<nat>)
  datatype Config = Config(path: string, body: string)
  datatype Reason = ByteLimit | SyntaxError | UnsafeInput | MissingChangedBlob
  datatype Failure = Failure(path: string, reason: Reason)

  datatype State = State(
    packageRoot: string, artifacts: map<string, Descriptor>, modules: map<string, Module>,
    packageJson: map<string, string>, configs: map<string, Config>, failures: map<string, Failure>)

  function Empty(root: string): State {
    State(root, map[], map[], map[], map[], map[])
  }

  const ROOT_LIMIT := 512

  // The package roots that a request may name.
  predicate AcceptedRoot(root: string) {
    Length(root) <= ROOT_LIMIT && '\0' !in root
  }

  // Path patterns and parsers are kept abstract.
  datatype ParsedModule = Unsafe | Parsed(facts: string, errors: nat, unresolved: Option<nat>)
  datatype Tools = Tools(
    isModule: string -> bool, isPackage: string -> bool, isConfig: string -> bool,
    parsePackage: Artifact -> Option<string>, parseConfig: Artifact -> Option<string>,
    parseModule: Artifact -> ParsedModule, maximumBytes: nat, leq: (string, string) -> bool)

  predicate Relevant(t: Tools, path: string) {
    t.isModule(path) || t.isPackage(path) || t.isConfig(path)
  }

  function DescriptorOf(a: Artifact): Descriptor {
    Descriptor(a.path, a.contentHash, a.classification)
  }

  // --- one path at a time ------------------------------------------------------

  // Everything a state holds for one path.
  datatype Cell = Cell(
    artifact: Option<Descriptor>, moduleFact: Option<Module>, package: Option<string>, config: Option<Config>,
    failure: Option<Failure>)

  const NOTHING := Cell(None, None, None, None, None)

  function At<V>(m: map<string, V>, p: string): Option<V> {
    if p in m then Some(m[p]) else None
  }

  function CellAt(s: State, p: string): Cell {
    Cell(At(s.artifacts, p), At(s.modules, p), At(s.packageJson, p), At(s.configs, p), At(s.failures, p))
  }

  lemma SameMap<V>(m: map<string, V>, n: map<string, V>)
    requires forall p :: At(m, p) == At(n, p)
    ensures m == n
  {
    forall p ensures p in m <==> p in n {
      assert At(m, p) == At(n, p);
    }
    forall p | p in m ensures m[p] == n[p] {
      assert At(m, p) == At(n, p);
    }
  }

  lemma SameState(s: State, u: State)
    requires s.packageRoot == u.packageRoot && forall p :: CellAt(s, p) == CellAt(u, p)
    ensures s == u
  {
    hide At;
    forall p
      ensures At(s.artifacts, p) == At(u.artifacts, p) && At(s.modules, p) == At(u.modules, p)
      ensures At(s.packageJson, p) == At(u.packageJson, p) && At(s.configs, p) == At(u.configs, p)
      ensures At(s.failures, p) == At(u.failures, p)
    {
      assert CellAt(s, p) == CellAt(u, p);
    }
    SameMap(s.artifacts, u.artifacts);
    SameMap(s.modules, u.modules);
    SameMap(s.packageJson, u.packageJson);
    SameMap(s.configs, u.configs);
    SameMap(s.failures, u.failures);
  }

  function Put<V>(m: map<string, V>, p: string, v: Option<V>): map<string, V> {
    if v.Some? then m[p := v.value] else m - {p}
  }

  function PutCell(s: State, p: string, c: Cell): State {
    State(s.packageRoot,
          Put(s.artifacts, p, c.artifact), Put(s.modules, p, c.moduleFact), Put(s.packageJson, p, c.package),
          Put(s.configs, p, c.config), Put(s.failures, p, c.failure))
  }

  lemma PutCellAt(s: State, p: string, c: Cell, q: string)
    ensures CellAt(PutCell(s, p, c), q) == if q == p then c else CellAt(s, q)
  {
  }

  // What an artifact contributes.
  function ModuleOf(a: Artifact, parsed: ParsedModule): Module
    requires parsed.Parsed?
  {
    Module(DescriptorOf(a), a.bytes, parsed.facts, parsed.errors, parsed.unresolved)
  }

  predicate Parses(t: Tools, a: Artifact) {
    t.isModule(a.path) && !a.classification.Vendored? && !a.classification.Test?
  }

  function CellOf(t: Tools, a: Artifact): Cell {
    var blank := Cell(Some(DescriptorOf(a)), None,
                      if t.isPackage(a.path) then t.parsePackage(a) else None,
                      if t.isConfig(a.path) && t.parseConfig(a).Some?
                      then Some(Config(a.path, t.parseConfig(a).value)) else None,
                      None);
    if !Parses(t, a) then blank
    else if |a.bytes| > t.maximumBytes then blank.(failure := Some(Failure(a.path, ByteLimit)))
    else
      var parsed := t.parseModule(a);
      if parsed.Unsafe? then blank.(failure := Some(Failure(a.path, UnsafeInput)))
      else if parsed.errors > 0 then blank.(failure := Some(Failure(a.path, SyntaxError)))
      else blank.(moduleFact := Some(ModuleOf(a, parsed)))
  }

  function WithArtifact(t: Tools, s: State, a: Artifact): State {
    if Relevant(t, a.path) then PutCell(s, a.path, CellOf(t, a)) else s
  }

  // Set when there is something to set; otherwise leave alone.
  function Overlay<V>(m: map<string, V>, p: string, v: Option<V>): map<string, V> {
    if v.Some? then m[p := v.value] else m
  }

  lemma RemovedThenOverlaid(t: Tools, s: State, a: Artifact)
    ensures var c := CellOf(t, a);
            var r := WithoutPath(s, a.path);
            PutCell(s, a.path, c)
            == State(s.packageRoot, r.artifacts[a.path := DescriptorOf(a)], Overlay(r.modules, a.path, c.moduleFact),
                     Overlay(r.packageJson, a.path, c.package), Overlay(r.configs, a.path, c.config),
                     Overlay(r.failures, a.path, c.failure))
  {
    var c := CellOf(t, a);
    assert c.artifact == Some(DescriptorOf(a));
    hide CellOf;
  }

  function WithoutPath(s: State, p: string): State {
    PutCell(s, p, NOTHING)
  }

  function WithArtifacts(t: Tools, s: State, artifacts: seq<Artifact>): State {
    if artifacts == [] then s
    else WithArtifact(t, WithArtifacts(t, s, artifacts[..|artifacts| - 1]), artifacts[|artifacts| - 1])
  }

  function WithoutChange(t: Tools, s: State, c: Change): State {
    var one := if Relevant(t, c.path) then WithoutPath(s, c.path) else s;
    if !c.kind.Copied? && c.previousPath.Some? && Relevant(t, c.previousPath.value)
    then WithoutPath(one, c.previousPath.value)
    else one
  }

  function WithoutChanges(t: Tools, s: State, changes: seq<Change>): State {
    if changes == [] then s
    else WithoutChange(t, WithoutChanges(t, s, changes[..|changes| - 1]), changes[|changes| - 1])
  }

  // --- the mutable maps --------------------------------------------------------

  class Maps {
    const packageRoot: string
    var artifacts: map<string, Descriptor>
    var modules: map<string, Module>
    var packageJson: map<string, string>
    var configs: map<string, Config>
    var failures: map<string, Failure>

    constructor (s: State)
      ensures Value() == s
    {
      packageRoot := s.packageRoot;
      artifacts, modules, packageJson := s.artifacts, s.modules, s.packageJson;
      configs, failures := s.configs, s.failures;
    }

    function Value(): State
      reads this
    {
      State(packageRoot, artifacts, modules, packageJson, configs, failures)
    }

    method RemovePath(p: string)
      modifies this
      ensures Value() == WithoutPath(old(Value()), p)
    {
      artifacts := artifacts - {p};
      modules := modules - {p};
      packageJson := packageJson - {p};
      configs := configs - {p};
      failures := failures - {p};
    }

    method AddMetadata(t: Tools, a: Artifact)
      modifies this
      ensures Value() == old(Value()).(artifacts := old(artifacts)[a.path := DescriptorOf(a)],
                                       packageJson := Overlay(old(packageJson), a.path, CellOf(t, a).package),
                                       configs := Overlay(old(configs), a.path, CellOf(t, a).config))
    {
      artifacts := artifacts[a.path := DescriptorOf(a)];
      if t.isPackage(a.path) {
        var raw := t.parsePackage(a);
        if raw.Some? {
          packageJson := packageJson[a.path := raw.value];
        }
      }
      if t.isConfig(a.path) {
        var body := t.parseConfig(a);
        if body.Some? {
          configs := configs[a.path := Config(a.path, body.value)];
        }
      }
    }

    method AddModule(t: Tools, a: Artifact)
      modifies this
      ensures Value() == old(Value()).(modules := Overlay(old(modules), a.path, CellOf(t, a).moduleFact),
                                       failures := Overlay(old(failures), a.path, CellOf(t, a).failure))
    {
      if !Parses(t, a) {
        return;
      }
      if |a.bytes| > t.maximumBytes {
        failures := failures[a.path := Failure(a.path, ByteLimit)];
        return;
      }
      var parsed := t.parseModule(a);
      if parsed.Unsafe? {
        failures := failures[a.path := Failure(a.path, UnsafeInput)];
      } else if parsed.errors > 0 {
        failures := failures[a.path := Failure(a.path, SyntaxError)];
      } else {
        modules := modules[a.path := ModuleOf(a, parsed)];
      }
    }

    method AddArtifact(t: Tools, a: Artifact)
      modifies this
      ensures Value() == WithArtifact(t, old(Value()), a)
    {
      hide CellOf, Parses, Overlay;
      if !Relevant(t, a.path) {
        return;
      }
      RemovePath(a.path);
      AddMetadata(t, a);
      AddModule(t, a);
      RemovedThenOverlaid(t, old(Value()), a);
    }

    method AddArtifacts(t: Tools, artifacts: seq<Artifact>)
      modifies this
      ensures Value() == WithArtifacts(t, old(Value()), artifacts)
    {
      hide WithArtifact;
      for i := 0 to |artifacts|
        invariant Value() == WithArtifacts(t, old(Value()), artifacts[..i])
      {
        assert artifacts[..i + 1][..i] == artifacts[..i];
        AddArtifact(t, artifacts[i]);
      }
      assert artifacts[..|artifacts|] == artifacts;
    }

    // Forget what the changes touched; collect the paths they leave behind.
    method ForgetChanges(t: Tools, changes: seq<Change>) returns (expected: set<string>)
      modifies this
      ensures Value() == WithoutChanges(t, old(Value()), changes)
      ensures forall p :: p in expected <==> Relevant(t, p) && Expected(changes, p)
    {
      hide WithoutPath, Relevant;
      expected := {};
      for i := 0 to |changes|
        invariant Value() == WithoutChanges(t, old(Value()), changes[..i])
        invariant forall p :: p in expected <==> Relevant(t, p) && Expected(changes[..i], p)
      {
        var c := changes[i];
        assert changes[..i + 1][..i] == changes[..i];
        assert changes[..i + 1] == changes[..i] + [c];
        forall p { ExpectedAppend(changes[..i], c, p); }
        if Relevant(t, c.path) {
          RemovePath(c.path);
        }
        if !c.kind.Copied? && c.previousPath.Some? && Relevant(t, c.previousPath.value) {
          RemovePath(c.previousPath.value);
        }
        if !c.kind.Deleted? && Relevant(t, c.path) {
          expected := expected + {c.path};
        }
      }
      assert changes[..|changes|] == changes;
    }

    method NoteMissing(missing: set<string>)
      modifies this
      ensures Value() == old(Value()).(failures := WithMissing(old(failures), missing))
    {
      var rest := missing;
      while rest != {}
        invariant rest <= missing
        invariant Value() == old(Value()).(failures := failures)
        invariant forall p :: At(failures, p) ==
                    if p in missing - rest then Some(Failure(p, MissingChangedBlob)) else At(old(failures), p)
        decreases rest
      {
        var p :| p in rest;
        failures := failures[p := Failure(p, MissingChangedBlob)];
        rest := rest - {p};
      }
      forall p ensures At(failures, p) == At(WithMissing(old(failures), missing), p) {}
      SameMap(failures, WithMissing(old(failures), missing));
    }
  }

  ghost predicate Expected(changes: seq<Change>, p: string) {
    exists c :: c in changes && !c.kind.Deleted? && c.path == p
  }

  lemma ExpectedAppend(changes: seq<Change>, c: Change, p: string)
    ensures Expected(changes + [c], p) <==> Expected(changes, p) || (!c.kind.Deleted? && c.path == p)
  {
    if Expected(changes, p) {
      var d :| d in changes && !d.kind.Deleted? && d.path == p;
      assert d in changes + [c];
    }
    assert c in changes + [c];
  }

  function WithMissing(failures: map<string, Failure>, missing: set<string>): map<string, Failure> {
    map p | p in failures.Keys + missing :: if p in missing then Failure(p, MissingChangedBlob) else failures[p]
  }

  // --- encoding ------------------------------------------------------------------

  datatype ModuleRecord = ModuleRecord(path: string, facts: string, unresolved: Option<nat>)
  datatype PackageRecord = PackageRecord(path: string, raw: string)
  datatype Payload = Payload(
    schemaVersion: string, packageRoot: string, artifacts: seq<Descriptor>, modules: seq<ModuleRecord>,
    packageJson: seq<PackageRecord>, configs: seq<Config>, failures: seq<Failure>)

  // Zero unresolved exports are not written down.
  function RecordOf(m: Module): ModuleRecord {
    ModuleRecord(m.artifact.path, m.facts, if m.unresolved == Some(0) then None else m.unresolved)
  }

  // The values of a map in the order of their paths.
  ghost predicate Listing<V>(m: map<string, V>, l: seq<V>, path: V -> string, leq: (string, string) -> bool) {
    && (forall i, j :: 0 <= i < j < |l| ==> path(l[i]) != path(l[j]) && leq(path(l[i]), path(l[j])))
    && (forall v :: v in l ==> path(v) in m && m[path(v)] == v)
    && (forall p :: p in m ==> m[p] in l)
  }

  function PathOrder<V>(path: V -> string, leq: (string, string) -> bool): (V, V) -> bool {
    (a: V, b: V) => leq(path(a), path(b))
  }

  lemma ListingsAreEqual<V(!new)>(m: map<string, V>, k: seq<V>, l: seq<V>, path: V -> string,
                                  leq: (string, string) -> bool)
    requires TotalOrder(leq) && Listing(m, k, path, leq) && Listing(m, l, path, leq)
    ensures k == l
  {
    hide TotalOrder;
    PulledBack(leq, path, PathOrder(path, leq));
    assert NoDuplicates(k) && NoDuplicates(l);
    forall v ensures v in k <==> v in l {
      assert v in k ==> m[path(v)] in l;
      assert v in l ==> m[path(v)] in k;
    }
    ListingsAgree(k, l);
    AntisymmetricListing(m, k, path, leq);
    SortedUnique(k, l, PathOrder(path, leq));
  }

  lemma AntisymmetricListing<V(!new)>(m: map<string, V>, l: seq<V>, path: V -> string, leq: (string, string) -> bool)
    requires TotalOrder(leq) && Listing(m, l, path, leq)
    ensures AntisymmetricOn(l, PathOrder(path, leq))
  {
    forall x, y | x in l && y in l && PathOrder(path, leq)(x, y) && PathOrder(path, leq)(y, x) ensures x == y {
      assert path(x) == path(y);
    }
  }

  method ListByPath<V(!new)>(m: map<string, V>, path: V -> string, leq: (string, string) -> bool) returns (l: seq<V>)
    requires TotalOrder(leq) && forall p :: p in m ==> path(m[p]) == p
    ensures Listing(m, l, path, leq)
  {
    hide TotalOrder;
    var all: seq<V> := [];
    var rest := m.Keys;
    while rest != {}
      invariant rest <= m.Keys
      invariant forall i, j :: 0 <= i < j < |all| ==> path(all[i]) != path(all[j])
      invariant forall v :: v in all ==> path(v) in m && m[path(v)] == v && path(v) !in rest
      invariant forall p :: p in m && p !in rest ==> m[p] in all
      decreases rest
    {
      var p :| p in rest;
      all, rest := all + [m[p]], rest - {p};
    }
    l := Sort(all, PathOrder(path, leq));
    SortedListing(m, all, path, leq);
  }

  lemma SortedListing<V(!new)>(m: map<string, V>, all: seq<V>, path: V -> string, leq: (string, string) -> bool)
    requires TotalOrder(leq)
    requires forall i, j :: 0 <= i < j < |all| ==> path(all[i]) != path(all[j])
    requires forall v :: v in all ==> path(v) in m && m[path(v)] == v
    requires forall p :: p in m ==> m[p] in all
    ensures Listing(m, Sort(all, PathOrder(path, leq)), path, leq)
  {
    hide TotalOrder, Sort, TotalPreorder;
    var l := Sort(all, PathOrder(path, leq));
    PulledBack(leq, path, PathOrder(path, leq));
    SortSorts(all, PathOrder(path, leq));
    SameElements(l, all);
    RearrangedWithoutDuplicates(all, l);
    forall i, j | 0 <= i < j < |l| ensures path(l[i]) != path(l[j]) && leq(path(l[i]), path(l[j])) {
      assert l[i] in all && l[j] in all && PathOrder(path, leq)(l[i], l[j]);
      assert m[path(l[i])] == l[i] && m[path(l[j])] == l[j] && l[i] != l[j];
    }
  }

  function ModuleRecords(s: State): map<string, ModuleRecord> {
    map p | p in s.modules :: RecordOf(s.modules[p])
  }

  function PackageRecords(s: State): map<string, PackageRecord> {
    map p | p in s.packageJson :: PackageRecord(p, s.packageJson[p])
  }

  function DescriptorPath(): Descriptor -> string { (d: Descriptor) => d.path }
  function ModulePath(): ModuleRecord -> string { (m: ModuleRecord) => m.path }
  function PackagePath(): PackageRecord -> string { (p: PackageRecord) => p.path }
  function ConfigPath(): Config -> string { (c: Config) => c.path }
  function FailurePath(): Failure -> string { (f: Failure) => f.path }

  const WRITTEN_VERSION := "1.1"

  ghost predicate IsEncoding(t: Tools, s: State, p: Payload) {
    && p.schemaVersion == WRITTEN_VERSION && p.packageRoot == s.packageRoot
    && Listing(s.artifacts, p.artifacts, DescriptorPath(), t.leq)
    && Listing(ModuleRecords(s), p.modules, ModulePath(), t.leq)
    && Listing(PackageRecords(s), p.packageJson, PackagePath(), t.leq)
    && Listing(s.configs, p.configs, ConfigPath(), t.leq)
    && Listing(s.failures, p.failures, FailurePath(), t.leq)
  }

  // What holds of every state the adapter builds.
  ghost predicate WellKept(s: State) {
    && Length(s.packageRoot) <= ROOT_LIMIT
    && (forall p :: p in s.artifacts ==> s.artifacts[p].path == p)
    && (forall p :: p in s.modules ==>
          p in s.artifacts && s.modules[p].artifact == s.artifacts[p] && s.modules[p].parseErrors == 0)
    && (forall p :: p in s.packageJson ==> p in s.artifacts)
    && (forall p :: p in s.configs ==> p in s.artifacts && s.configs[p].path == p)
    && (forall p :: p in s.failures ==> s.failures[p].path == p)
  }

  method EncodeState(t: Tools, s: State) returns (p: Payload)
    requires TotalOrder(t.leq) && WellKept(s)
    ensures IsEncoding(t, s, p)
  {
    hide TotalOrder, Listing;
    var artifacts := ListByPath(s.artifacts, DescriptorPath(), t.leq);
    var modules := ListByPath(ModuleRecords(s), ModulePath(), t.leq);
    var packageJson := ListByPath(PackageRecords(s), PackagePath(), t.leq);
    var configs := ListByPath(s.configs, ConfigPath(), t.leq);
    var failures := ListByPath(s.failures, FailurePath(), t.leq);
    p := Payload(WRITTEN_VERSION, s.packageRoot, artifacts, modules, packageJson, configs, failures);
  }

  // The encoding depends on the contents of the maps only.
  lemma EncodingIsDetermined(t: Tools, s: State, p: Payload, q: Payload)
    requires TotalOrder(t.leq) && IsEncoding(t, s, p) && IsEncoding(t, s, q)
    ensures p == q
  {
    hide TotalOrder, Listing;
    ListingsAreEqual(s.artifacts, p.artifacts, q.artifacts, DescriptorPath(), t.leq);
    ListingsAreEqual(ModuleRecords(s), p.modules, q.modules, ModulePath(), t.leq);
    ListingsAreEqual(PackageRecords(s), p.packageJson, q.packageJson, PackagePath(), t.leq);
    ListingsAreEqual(s.configs, p.configs, q.configs, ConfigPath(), t.leq);
    ListingsAreEqual(s.failures, p.failures, q.failures, FailurePath(), t.leq);
  }

  // --- decoding --------------------------------------------------------------------

  // Refuses a repeated path, and one that is not allowed.
  function Collect<V>(l: seq<V>, path: V -> string, allowed: string -> bool): Result<map<string, V>> {
    if l == [] then Ok(map[])
    else
      match Collect(l[..|l| - 1], path, allowed)
      case Throws => Throws
      case Ok(m) =>
        var v := l[|l| - 1];
        if !allowed(path(v)) || path(v) in m then Throws else Ok(m[path(v) := v])
  }

  lemma {:induction false} CollectThrows<V>(l: seq<V>, path: V -> string, allowed: string -> bool, n: nat)
    requires n <= |l| && Collect(l[..n], path, allowed).Throws?
    ensures Collect(l, path, allowed).Throws?
    decreases |l|
  {
    if n < |l| {
      assert l[..|l| - 1][..n] == l[..n];
      CollectThrows(l[..|l| - 1], path, allowed, n);
    } else {
      assert l[..n] == l;
    }
  }

  method CollectByPath<V>(l: seq<V>, path: V -> string, allowed: string -> bool) returns (r: Result<map<string, V>>)
    ensures r == Collect(l, path, allowed)
  {
    var m: map<string, V> := map[];
    for i := 0 to |l|
      invariant Collect(l[..i], path, allowed) == Ok(m)
    {
      assert l[..i + 1][..i] == l[..i];
      if !allowed(path(l[i])) || path(l[i]) in m {
        CollectThrows(l, path, allowed, i + 1);
        return Throws;
      }
      m := m[path(l[i]) := l[i]];
    }
    assert l[..|l|] == l;
    r := Ok(m);
  }

  function Anywhere(): string -> bool { (p: string) => true }

  function Among(keys: set<string>): string -> bool { (p: string) => p in keys }

  function OrZero(count: Option<nat>): nat {
    if count.Some? then count.value else 0
  }

  function Revived(artifacts: map<string, Descriptor>, records: map<string, ModuleRecord>): map<string, Module> {
    map p | p in records && p in artifacts ::
      Module(artifacts[p], [], records[p].facts, 0, Some(OrZero(records[p].unresolved)))
  }

  function RawOf(records: map<string, PackageRecord>): map<string, string> {
    map p | p in records :: records[p].raw
  }

  predicate ReadableHeader(p: Payload) {
    (p.schemaVersion == "1.0" || p.schemaVersion == WRITTEN_VERSION) && Length(p.packageRoot) <= ROOT_LIMIT
  }

  // The first version had no compiler configurations.
  function ConfigsIn(p: Payload): seq<Config> {
    if p.schemaVersion == WRITTEN_VERSION then p.configs else []
  }

  function Decode(p: Payload): Result<State> {
    if !ReadableHeader(p) then Throws
    else
      match Collect(p.artifacts, DescriptorPath(), Anywhere())
      case Throws => Throws
      case Ok(artifacts) => DecodeFacts(p, artifacts)
  }

  function DecodeFacts(p: Payload, artifacts: map<string, Descriptor>): Result<State> {
    var known := Among(artifacts.Keys);
    match (Collect(p.modules, ModulePath(), known), Collect(p.packageJson, PackagePath(), known),
           Collect(ConfigsIn(p), ConfigPath(), known), Collect(p.failures, FailurePath(), Anywhere()))
    case (Ok(modules), Ok(packages), Ok(configs), Ok(failures)) =>
      Ok(State(p.packageRoot, artifacts, Revived(artifacts, modules), RawOf(packages), configs, failures))
    case _ => Throws
  }

  method DecodeState(p: Payload) returns (r: Result<State>)
    ensures r == Decode(p)
  {
    hide Collect;
    if !ReadableHeader(p) { return Throws; }
    var artifacts := CollectByPath(p.artifacts, DescriptorPath(), Anywhere());
    if artifacts.Throws? { return Throws; }
    var known := Among(artifacts.value.Keys);
    var modules := CollectByPath(p.modules, ModulePath(), known);
    if modules.Throws? { return Throws; }
    var packages := CollectByPath(p.packageJson, PackagePath(), known);
    if packages.Throws? { return Throws; }
    var configs := CollectByPath(ConfigsIn(p), ConfigPath(), known);
    if configs.Throws? { return Throws; }
    var failures := CollectByPath(p.failures, FailurePath(), Anywhere());
    if failures.Throws? { return Throws; }
    r := Ok(State(p.packageRoot, artifacts.value, Revived(artifacts.value, modules.value), RawOf(packages.value),
                  configs.value, failures.value));
  }

  lemma {:induction false} CollectAccepts<V>(l: seq<V>, path: V -> string, allowed: string -> bool)
    requires forall i, j :: 0 <= i < j < |l| ==> path(l[i]) != path(l[j])
    requires forall v :: v in l ==> allowed(path(v))
    ensures Collect(l, path, allowed).Ok?
    ensures var m := Collect(l, path, allowed).value;
            && (forall p :: p in m ==> m[p] in l && path(m[p]) == p)
            && (forall v :: v in l ==> path(v) in m && m[path(v)] == v)
  {
    if l != [] {
      var n := |l| - 1;
      assert l == l[..n] + [l[n]];
      CollectAccepts(l[..n], path, allowed);
    }
  }

  lemma ListingIsCollected<V(!new)>(m: map<string, V>, l: seq<V>, path: V -> string, leq: (string, string) -> bool,
                                    allowed: string -> bool)
    requires Listing(m, l, path, leq) && forall p :: p in m ==> allowed(p) && path(m[p]) == p
    ensures Collect(l, path, allowed) == Ok(m)
  {
    hide Collect;
    CollectAccepts(l, path, allowed);
    var n := Collect(l, path, allowed).value;
    assert n.Keys == m.Keys;
    assert n == m;
  }

  // A state without source bytes and with counted unresolved exports.
  function Erased(s: State): State {
    s.(modules := map p | p in s.modules ::
         s.modules[p].(bytes := [], unresolved := Some(OrZero(s.modules[p].unresolved))))
  }

  lemma RecordsKeepTheirPaths(s: State)
    requires WellKept(s)
    ensures forall p :: p in ModuleRecords(s) ==> p in s.artifacts && ModuleRecords(s)[p].path == p
    ensures forall p :: p in PackageRecords(s) ==> p in s.artifacts && PackageRecords(s)[p].path == p
  {
  }

  lemma RevivedIsErased(s: State)
    requires WellKept(s)
    ensures Revived(s.artifacts, ModuleRecords(s)) == Erased(s).modules && RawOf(PackageRecords(s)) == s.packageJson
  {
  }

  lemma DecodingInvertsEncoding(t: Tools, s: State, p: Payload)
    requires WellKept(s) && IsEncoding(t, s, p)
    ensures Decode(p) == Ok(Erased(s))
  {
    hide Listing, Collect, ModuleRecords, PackageRecords, Revived, RawOf;
    ListingIsCollected(s.artifacts, p.artifacts, DescriptorPath(), t.leq, Anywhere());
    var known := Among(s.artifacts.Keys);
    RecordsKeepTheirPaths(s);
    ListingIsCollected(ModuleRecords(s), p.modules, ModulePath(), t.leq, known);
    ListingIsCollected(PackageRecords(s), p.packageJson, PackagePath(), t.leq, known);
    ListingIsCollected(s.configs, p.configs, ConfigPath(), t.leq, known);
    ListingIsCollected(s.failures, p.failures, FailurePath(), t.leq, Anywhere());
    RevivedIsErased(s);
  }

  // Erasing changes nothing that is written down.
  lemma EncodingErases(t: Tools, s: State, p: Payload)
    ensures IsEncoding(t, s, p) <==> IsEncoding(t, Erased(s), p)
  {
    assert ModuleRecords(Erased(s)) == ModuleRecords(s);
    hide Listing;
  }

  // --- every state the adapter builds is well kept ---------------------------

  ghost predicate CellOk(p: string, c: Cell) {
    && (c.artifact.Some? ==> c.artifact.value.path == p)
    && (c.moduleFact.Some? ==> c.artifact == Some(c.moduleFact.value.artifact) && c.moduleFact.value.parseErrors == 0)
    && (c.package.Some? ==> c.artifact.Some?)
    && (c.config.Some? ==> c.artifact.Some? && c.config.value.path == p)
    && (c.failure.Some? ==> c.failure.value.path == p)
  }

  lemma WellKeptByCells(s: State)
    ensures WellKept(s) <==> Length(s.packageRoot) <= ROOT_LIMIT && forall p :: CellOk(p, CellAt(s, p))
  {
    if forall p :: CellOk(p, CellAt(s, p)) {
      forall p | p in s.artifacts || p in s.modules || p in s.packageJson || p in s.configs || p in s.failures
        ensures CellOk(p, CellAt(s, p))
      {
      }
    }
  }

  lemma PutKeepsRoot(s: State, p: string, c: Cell)
    ensures PutCell(s, p, c).packageRoot == s.packageRoot
  {
  }

  lemma PutKeeps(s: State, p: string, c: Cell)
    requires WellKept(s) && CellOk(p, c)
    ensures WellKept(PutCell(s, p, c)) && PutCell(s, p, c).packageRoot == s.packageRoot
  {
    hide WellKept, CellOk, CellAt, PutCell;
    PutKeepsRoot(s, p, c);
    WellKeptByCells(s);
    WellKeptByCells(PutCell(s, p, c));
    forall q ensures CellOk(q, CellAt(PutCell(s, p, c), q)) {
      PutCellAt(s, p, c, q);
    }
  }

  lemma CellOfIsOk(t: Tools, a: Artifact)
    ensures CellOk(a.path, CellOf(t, a))
  {
  }

  lemma {:induction false} ArtifactsKeep(t: Tools, s: State, artifacts: seq<Artifact>)
    requires WellKept(s)
    ensures WellKept(WithArtifacts(t, s, artifacts)) && WithArtifacts(t, s, artifacts).packageRoot == s.packageRoot
  {
    hide WellKept, CellOf, PutCell;
    if artifacts != [] {
      var n := |artifacts| - 1;
      var before, a := WithArtifacts(t, s, artifacts[..n]), artifacts[n];
      ArtifactsKeep(t, s, artifacts[..n]);
      CellOfIsOk(t, a);
      if Relevant(t, a.path) {
        PutKeeps(before, a.path, CellOf(t, a));
      }
    }
  }

  // --- the update against building from the head -----------------------------

  ghost predicate Touched(changes: seq<Change>, p: string) {
    exists c :: c in changes && (c.path == p || (!c.kind.Copied? && c.previousPath == Some(p)))
  }

  lemma TouchedAppend(changes: seq<Change>, c: Change, p: string)
    ensures Touched(changes + [c], p)
            <==> Touched(changes, p) || c.path == p || (!c.kind.Copied? && c.previousPath == Some(p))
  {
    if Touched(changes, p) {
      var d :| d in changes && (d.path == p || (!d.kind.Copied? && d.previousPath == Some(p)));
      assert d in changes + [c];
    }
    assert c in changes + [c];
  }

  lemma {:induction false} ClearedCell(t: Tools, s: State, changes: seq<Change>, p: string)
    ensures CellAt(WithoutChanges(t, s, changes), p)
            == if Relevant(t, p) && Touched(changes, p) then NOTHING else CellAt(s, p)
  {
    hide CellAt, PutCell, Relevant, Touched;
    if changes == [] {
      assert !Touched(changes, p) by { NothingTouched(p); }
    } else {
      var n, c := |changes| - 1, changes[|changes| - 1];
      var before := WithoutChanges(t, s, changes[..n]);
      assert changes == changes[..n] + [c];
      ClearedCell(t, s, changes[..n], p);
      TouchedAppend(changes[..n], c, p);
      PutCellAt(before, c.path, NOTHING, p);
      if !c.kind.Copied? && c.previousPath.Some? {
        PutCellAt(before, c.previousPath.value, NOTHING, p);
        PutCellAt(WithoutPath(before, c.path), c.previousPath.value, NOTHING, p);
      }
    }
  }

  lemma NothingTouched(p: string)
    ensures !Touched([], p)
  {
  }

  // One artifact per path.
  type Tree = map<string, Artifact>

  ghost predicate TreeOk(tree: Tree) {
    forall p :: p in tree ==> tree[p].path == p
  }

  ghost predicate From(tree: Tree, artifacts: seq<Artifact>) {
    forall a :: a in artifacts ==> a.path in tree && tree[a.path] == a
  }

  ghost predicate Supplies(artifacts: seq<Artifact>, p: string) {
    exists a :: a in artifacts && a.path == p
  }

  lemma SuppliesAppend(artifacts: seq<Artifact>, a: Artifact, p: string)
    ensures Supplies(artifacts + [a], p) <==> Supplies(artifacts, p) || a.path == p
  {
    if Supplies(artifacts, p) {
      var b :| b in artifacts && b.path == p;
      assert b in artifacts + [a];
    }
    assert a in artifacts + [a];
  }

  lemma {:induction false} SuppliedCell(t: Tools, s: State, tree: Tree, artifacts: seq<Artifact>, p: string)
    requires From(tree, artifacts)
    ensures Supplies(artifacts, p) ==> p in tree
    ensures CellAt(WithArtifacts(t, s, artifacts), p)
            == if Relevant(t, p) && Supplies(artifacts, p) then CellOf(t, tree[p]) else CellAt(s, p)
  {
    hide CellAt, PutCell, Relevant, CellOf;
    if artifacts != [] {
      var n, a := |artifacts| - 1, artifacts[|artifacts| - 1];
      assert artifacts == artifacts[..n] + [a];
      assert a in artifacts;
      forall b | b in artifacts[..n] ensures b in artifacts {}
      SuppliedCell(t, s, tree, artifacts[..n], p);
      SuppliesAppend(artifacts[..n], a, p);
      PutCellAt(WithArtifacts(t, s, artifacts[..n]), a.path, CellOf(t, a), p);
    }
  }

  function MissingPaths(t: Tools, changes: seq<Change>, supplied: seq<Artifact>): set<string> {
    (set c | c in changes && !c.kind.Deleted? && Relevant(t, c.path) :: c.path)
    - (set a | a in supplied && Relevant(t, a.path) :: a.path)
  }

  function Updated(t: Tools, base: State, changes: seq<Change>, supplied: seq<Artifact>): State {
    var s := WithArtifacts(t, WithoutChanges(t, base, changes), supplied);
    s.(failures := WithMissing(s.failures, MissingPaths(t, changes, supplied)))
  }

  // Decode, forget what changed, add what was supplied, record what was not.
  method UpdateState(t: Tools, p: Payload, changes: seq<Change>, supplied: seq<Artifact>) returns (r: Result<State>)
    ensures r == match Decode(p) case Throws => Throws case Ok(base) => Ok(Updated(t, base, changes, supplied))
  {
    hide Decode, WithArtifacts, WithoutChanges, WithMissing;
    var decoded := DecodeState(p);
    if decoded.Throws? {
      return Throws;
    }
    var maps := new Maps(decoded.value);
    var expected := maps.ForgetChanges(t, changes);
    maps.AddArtifacts(t, supplied);
    var suppliedPaths := set a | a in supplied && Relevant(t, a.path) :: a.path;
    assert expected == set c | c in changes && !c.kind.Deleted? && Relevant(t, c.path) :: c.path;
    maps.NoteMissing(expected - suppliedPaths);
    r := Ok(maps.Value());
  }

  // Outside the touched paths nothing differs; a touched path is in the head
  // exactly when some change puts it there.
  ghost predicate ExactChanges(t: Tools, base: Tree, head: Tree, changes: seq<Change>) {
    && (forall p :: Relevant(t, p) && !Touched(changes, p) ==> AtTree(base, p) == AtTree(head, p))
    && (forall p :: Relevant(t, p) && Touched(changes, p) ==> (p in head <==> Expected(changes, p)))
  }

  function AtTree(tree: Tree, p: string): Option<Artifact> {
    if p in tree then Some(tree[p]) else None
  }

  ghost predicate ListsTree(tree: Tree, artifacts: seq<Artifact>) {
    From(tree, artifacts) && forall p :: p in tree ==> Supplies(artifacts, p)
  }

  // The state built from artifacts.
  function Prepared(t: Tools, root: string, artifacts: seq<Artifact>): State {
    WithArtifacts(t, Empty(root), artifacts)
  }

  // A request whose package root is not acceptable is refused.
  method PrepareState(t: Tools, root: string, artifacts: seq<Artifact>) returns (r: Result<State>)
    ensures r == if Length(root) <= 512 && '\0' !in root then Ok(Prepared(t, root, artifacts)) else Throws
    ensures r.Ok? ==> WellKept(r.value)
  {
    if !AcceptedRoot(root) {
      return Throws;
    }
    var maps := new Maps(Empty(root));
    maps.AddArtifacts(t, artifacts);
    PreparedIsKept(t, root, artifacts);
    r := Ok(maps.Value());
  }

  lemma PreparedIsKept(t: Tools, root: string, artifacts: seq<Artifact>)
    requires Length(root) <= ROOT_LIMIT
    ensures WellKept(Prepared(t, root, artifacts)) && Prepared(t, root, artifacts).packageRoot == root
  {
    hide WithArtifacts, Length;
    ArtifactsKeep(t, Empty(root), artifacts);
  }

  function ErasedCell(c: Cell): Cell {
    c.(moduleFact := match c.moduleFact
                     case None => None
                     case Some(m) =>
                       Some(m.(bytes := [], unresolved := Some(OrZero(m.unresolved)))))
  }

  lemma ErasedAt(s: State, p: string)
    ensures CellAt(Erased(s), p) == ErasedCell(CellAt(s, p))
  {
  }

  // What the persisted state of a whole tree holds for a path.
  function TreeCell(t: Tools, tree: Tree, p: string): Cell {
    if Relevant(t, p) && p in tree then ErasedCell(CellOf(t, tree[p])) else NOTHING
  }

  lemma PreparedCell(t: Tools, root: string, tree: Tree, artifacts: seq<Artifact>, p: string)
    requires ListsTree(tree, artifacts)
    ensures CellAt(Erased(Prepared(t, root, artifacts)), p) == TreeCell(t, tree, p)
  {
    hide CellOf, Relevant, WithArtifacts, Erased;
    SuppliedCell(t, Empty(root), tree, artifacts, p);
    ErasedAt(Prepared(t, root, artifacts), p);
  }

  // The cell of a path that the head has but nobody supplied.
  function MissingCell(p: string): Cell {
    NOTHING.(failure := Some(Failure(p, MissingChangedBlob)))
  }

  lemma MissingAre(t: Tools, changes: seq<Change>, supplied: seq<Artifact>, p: string)
    ensures p in MissingPaths(t, changes, supplied) <==>
              Relevant(t, p) && Expected(changes, p) && !Supplies(supplied, p)
  {
    hide Relevant;
  }

  lemma WithMissingAt(s: State, missing: set<string>, p: string)
    ensures CellAt(s.(failures := WithMissing(s.failures, missing)), p)
            == if p in missing then CellAt(s, p).(failure := Some(Failure(p, MissingChangedBlob))) else CellAt(s, p)
  {
  }

  lemma ExpectedIsTouched(changes: seq<Change>, p: string)
    ensures Expected(changes, p) ==> Touched(changes, p)
  {
  }

  // --- every reachable state ------------------------------------------------------------

  lemma {:induction false} ChangesKeep(t: Tools, s: State, changes: seq<Change>)
    requires WellKept(s)
    ensures WellKept(WithoutChanges(t, s, changes)) && WithoutChanges(t, s, changes).packageRoot == s.packageRoot
  {
    hide WellKept, Relevant;
    if changes != [] {
      var n, c := |changes| - 1, changes[|changes| - 1];
      ChangesKeep(t, s, changes[..n]);
      var before := WithoutChanges(t, s, changes[..n]);
      PutKeeps(before, c.path, NOTHING);
      if c.previousPath.Some? {
        PutKeeps(before, c.previousPath.value, NOTHING);
        PutKeeps(WithoutPath(before, c.path), c.previousPath.value, NOTHING);
      }
    }
  }

  lemma MissingKeeps(s: State, missing: set<string>)
    requires WellKept(s)
    ensures WellKept(s.(failures := WithMissing(s.failures, missing)))
  {
  }

  lemma UpdateKeeps(t: Tools, s: State, changes: seq<Change>, supplied: seq<Artifact>)
    requires WellKept(s)
    ensures WellKept(Updated(t, s, changes, supplied)) && Updated(t, s, changes, supplied).packageRoot == s.packageRoot
  {
    hide WellKept, WithMissing, MissingPaths;
    ChangesKeep(t, s, changes);
    ArtifactsKeep(t, WithoutChanges(t, s, changes), supplied);
    MissingKeeps(WithArtifacts(t, WithoutChanges(t, s, changes), supplied), MissingPaths(t, changes, supplied));
  }

  lemma ErasingKeeps(s: State)
    requires WellKept(s)
    ensures WellKept(Erased(s))
  {
  }

  datatype Step = Step(changes: seq<Change>, supplied: seq<Artifact>)

  // The state after each update has started from the state read back.
  function StateAfter(t: Tools, start: State, steps: seq<Step>): State {
    if steps == [] then start
    else
      var n := |steps| - 1;
      Updated(t, Erased(StateAfter(t, start, steps[..n])), steps[n].changes, steps[n].supplied)
  }

  // The payloads persisted by a run: the start's, and after every update the
  // encoding of what was read back and updated.
  ghost predicate PersistedRun(t: Tools, start: State, steps: seq<Step>, payloads: seq<Payload>) {
    && |payloads| == |steps| + 1 && IsEncoding(t, start, payloads[0])
    && forall i :: 0 <= i < |steps| && Decode(payloads[i]).Ok? ==>
         IsEncoding(t, Updated(t, Decode(payloads[i]).value, steps[i].changes, steps[i].supplied), payloads[i + 1])
  }

  // Every payload of every run is read back as the state it was written for.
  lemma {:induction false} RunsAreReadBack(t: Tools, start: State, steps: seq<Step>, payloads: seq<Payload>, n: nat)
    requires WellKept(start) && PersistedRun(t, start, steps, payloads) && n <= |steps|
    ensures WellKept(StateAfter(t, start, steps[..n])) && IsEncoding(t, StateAfter(t, start, steps[..n]), payloads[n])
    ensures StateAfter(t, start, steps[..n]).packageRoot == start.packageRoot
    ensures Decode(payloads[n]) == Ok(Erased(StateAfter(t, start, steps[..n])))
    decreases n
  {
    hide WellKept, IsEncoding, Decode, Updated, Erased;
    if n == 0 {
      DecodingInvertsEncoding(t, start, payloads[0]);
    } else {
      RunsAreReadBack(t, start, steps, payloads, n - 1);
      var before := StateAfter(t, start, steps[..n - 1]);
      var step := steps[n - 1];
      assert steps[..n][..n - 1] == steps[..n - 1];
      ErasingKeeps(before);
      ErasedRoot(before);
      UpdateKeeps(t, Erased(before), step.changes, step.supplied);
      DecodingInvertsEncoding(t, Updated(t, Erased(before), step.changes, step.supplied), payloads[n]);
    }
  }

  lemma ErasedRoot(s: State)
    ensures Erased(s).packageRoot == s.packageRoot
  {
  }

  // --- runs against building from the head -------------------------------------------------

  // The persisted state is that of the tree, but for the lost paths, which hold
  // nothing but a failure.
  ghost predicate Represents(t: Tools, s: State, tree: Tree, lost: set<string>) {
    && (forall p :: CellAt(Erased(s), p) == if p in lost then MissingCell(p) else TreeCell(t, tree, p))
    && (forall p :: p in lost ==> Relevant(t, p) && p in tree)
  }

  // What an update leaves lost: what it misses itself, and what was lost before
  // and is neither touched nor supplied.
  ghost function StillLost(t: Tools, lost: set<string>, step: Step): set<string> {
    MissingPaths(t, step.changes, step.supplied) +
    set p | p in lost && !Touched(step.changes, p) && !Supplies(step.supplied, p)
  }

  ghost predicate ExactStep(t: Tools, base: Tree, head: Tree, step: Step) {
    ExactChanges(t, base, head, step.changes) && From(head, step.supplied)
  }

  lemma StepCell(t: Tools, s: State, base: Tree, head: Tree, lost: set<string>, step: Step, p: string)
    requires Represents(t, s, base, lost) && ExactStep(t, base, head, step)
    ensures CellAt(Erased(Updated(t, Erased(s), step.changes, step.supplied)), p)
            == if p in StillLost(t, lost, step) then MissingCell(p) else TreeCell(t, head, p)
    ensures p in StillLost(t, lost, step) ==> Relevant(t, p) && p in head
  {
    hide CellAt, CellOf, WithArtifacts, WithoutChanges, WithMissing, MissingPaths, Relevant, Erased, Touched, Expected,
         Supplies;
    var decoded := Erased(s);
    var cleared := WithoutChanges(t, decoded, step.changes);
    var added := WithArtifacts(t, cleared, step.supplied);
    ErasedAt(Updated(t, decoded, step.changes, step.supplied), p);
    ClearedCell(t, decoded, step.changes, p);
    SuppliedCell(t, cleared, head, step.supplied, p);
    WithMissingAt(added, MissingPaths(t, step.changes, step.supplied), p);
    MissingAre(t, step.changes, step.supplied, p);
    ExpectedIsTouched(step.changes, p);
    assert CellAt(decoded, p) == if p in lost then MissingCell(p) else TreeCell(t, base, p);
    assert AtTree(base, p) == AtTree(head, p) || Touched(step.changes, p) || !Relevant(t, p);
  }

  lemma StepRepresents(t: Tools, s: State, base: Tree, head: Tree, lost: set<string>, step: Step)
    requires Represents(t, s, base, lost) && ExactStep(t, base, head, step)
    ensures Represents(t, Updated(t, Erased(s), step.changes, step.supplied), head, StillLost(t, lost, step))
  {
    forall p
      ensures CellAt(Erased(Updated(t, Erased(s), step.changes, step.supplied)), p)
              == if p in StillLost(t, lost, step) then MissingCell(p) else TreeCell(t, head, p)
      ensures p in StillLost(t, lost, step) ==> Relevant(t, p) && p in head
    {
      hide *;
      StepCell(t, s, base, head, lost, step, p);
    }
    hide CellAt, Erased, Updated, StillLost, TreeCell, MissingCell, Relevant;
  }

  ghost predicate ExactRun(t: Tools, trees: seq<Tree>, steps: seq<Step>) {
    |trees| == |steps| + 1 && forall i :: 0 <= i < |steps| ==> ExactStep(t, trees[i], trees[i + 1], steps[i])
  }

  ghost function LostAfter(t: Tools, steps: seq<Step>): set<string> {
    if steps == [] then {} else StillLost(t, LostAfter(t, steps[..|steps| - 1]), steps[|steps| - 1])
  }

  // Update `i` missed the path, and none touched or supplied it since.
  ghost predicate LostAt(t: Tools, steps: seq<Step>, p: string, i: int) {
    && 0 <= i < |steps| && p in MissingPaths(t, steps[i].changes, steps[i].supplied)
    && forall j :: i < j < |steps| ==> !Touched(steps[j].changes, p) && !Supplies(steps[j].supplied, p)
  }

  lemma LostAtFront(t: Tools, steps: seq<Step>, p: string, i: int)
    requires 0 <= i < |steps| - 1
    ensures var n := |steps| - 1;
            LostAt(t, steps, p, i) <==>
              LostAt(t, steps[..n], p, i) && !Touched(steps[n].changes, p) && !Supplies(steps[n].supplied, p)
  {
    hide MissingPaths, Touched, Supplies;
    var front := steps[..|steps| - 1];
    assert forall j :: 0 <= j < |front| ==> front[j] == steps[j];
  }

  lemma {:induction false} LostIs(t: Tools, steps: seq<Step>, p: string)
    ensures p in LostAfter(t, steps) <==> exists i :: LostAt(t, steps, p, i)
  {
    hide MissingPaths, Touched, Supplies;
    if steps != [] {
      var n := |steps| - 1;
      LostIs(t, steps[..n], p);
      if i :| LostAt(t, steps[..n], p, i) {
        LostAtFront(t, steps, p, i);
      }
      if i :| LostAt(t, steps, p, i) && i < n {
        LostAtFront(t, steps, p, i);
      }
      assert LostAt(t, steps, p, n) <==> p in MissingPaths(t, steps[n].changes, steps[n].supplied);
    }
  }

  lemma {:induction false} RunRepresents(t: Tools, start: State, trees: seq<Tree>, steps: seq<Step>)
    requires ExactRun(t, trees, steps) && Represents(t, start, trees[0], {})
    ensures Represents(t, StateAfter(t, start, steps), trees[|steps|], LostAfter(t, steps))
  {
    hide Represents, ExactStep, StillLost, Updated;
    if steps != [] {
      var n := |steps| - 1;
      assert ExactRun(t, trees[..n + 1], steps[..n]);
      RunRepresents(t, start, trees[..n + 1], steps[..n]);
      StepRepresents(t, StateAfter(t, start, steps[..n]), trees[n], trees[n + 1], LostAfter(t, steps[..n]), steps[n]);
    }
  }

  lemma PreparedRepresents(t: Tools, root: string, tree: Tree, artifacts: seq<Artifact>)
    requires ListsTree(tree, artifacts)
    ensures Represents(t, Prepared(t, root, artifacts), tree, {})
  {
    hide CellAt, Erased, Prepared, TreeCell, ListsTree;
    forall p ensures CellAt(Erased(Prepared(t, root, artifacts)), p) == TreeCell(t, tree, p) {
      PreparedCell(t, root, tree, artifacts, p);
    }
  }

  // A lost path is seen in the payload.
  lemma LostIsSeen(t: Tools, tree: Tree, p: string)
    requires Relevant(t, p) && p in tree
    ensures MissingCell(p) != TreeCell(t, tree, p)
  {
  }

  // From the persisted base, a run of updates reaches the state of its last tree:
  // every path is as if built from that tree, save that each lost path holds
  // nothing but a failure. Payloads of that tree are written exactly when
  // nothing is lost.
  lemma RunIsHead(t: Tools, root: string, baseList: seq<Artifact>, headList: seq<Artifact>, trees: seq<Tree>,
                  steps: seq<Step>, payloads: seq<Payload>)
    requires Length(root) <= ROOT_LIMIT && ExactRun(t, trees, steps)
    requires ListsTree(trees[0], baseList) && ListsTree(trees[|steps|], headList)
    requires PersistedRun(t, Prepared(t, root, baseList), steps, payloads)
    ensures var last, lost := payloads[|steps|], LostAfter(t, steps);
            && Decode(last).Ok?
            && (forall p :: CellAt(Decode(last).value, p)
                            == if p in lost then MissingCell(p) else TreeCell(t, trees[|steps|], p))
            && (IsEncoding(t, Prepared(t, root, headList), last) <==> lost == {})
  {
    hide WellKept, IsEncoding, Decode, Erased, Prepared, StateAfter, LostAfter, Represents, ExactRun, PersistedRun,
         CellAt, TreeCell, ListsTree, Length;
    var start, head := Prepared(t, root, baseList), Prepared(t, root, headList);
    var n := |steps|;
    assert |trees| == n + 1 by { TreesOf(t, trees, steps); }
    PreparedIsKept(t, root, baseList);
    PreparedIsKept(t, root, headList);
    PreparedRepresents(t, root, trees[0], baseList);
    PreparedRepresents(t, root, trees[n], headList);
    PayloadsOf(t, start, steps, payloads);
    RunsAreReadBack(t, start, steps, payloads, n);
    assert steps[..n] == steps;
    RunRepresents(t, start, trees, steps);
    EncodesHeadExactly(t, StateAfter(t, start, steps), head, trees[n], LostAfter(t, steps), payloads[n]);
  }

  lemma TreesOf(t: Tools, trees: seq<Tree>, steps: seq<Step>)
    requires ExactRun(t, trees, steps)
    ensures |trees| == |steps| + 1
  {
  }

  lemma PayloadsOf(t: Tools, start: State, steps: seq<Step>, payloads: seq<Payload>)
    requires PersistedRun(t, start, steps, payloads)
    ensures |payloads| == |steps| + 1
  {
  }

  lemma EncodesHeadExactly(t: Tools, s: State, head: State, tree: Tree, lost: set<string>, p: Payload)
    requires WellKept(s) && WellKept(head) && s.packageRoot == head.packageRoot
    requires Represents(t, s, tree, lost) && Represents(t, head, tree, {}) && IsEncoding(t, s, p)
    ensures forall q :: CellAt(Erased(s), q) == if q in lost then MissingCell(q) else TreeCell(t, tree, q)
    ensures IsEncoding(t, head, p) <==> lost == {}
  {
    hide WellKept, IsEncoding, Decode, Erased, CellAt, TreeCell, MissingCell, Relevant;
    if lost == {} {
      ErasedRoot(s);
      ErasedRoot(head);
      SameState(Erased(s), Erased(head));
      EncodingErases(t, s, p);
      EncodingErases(t, head, p);
    } else {
      var q :| q in lost;
      LostIsSeen(t, tree, q);
      assert CellAt(Erased(s), q) != CellAt(Erased(head), q);
      if IsEncoding(t, head, p) {
        DecodingInvertsEncoding(t, s, p);
        DecodingInvertsEncoding(t, head, p);
      }
    }
  }

  // One update on its own.
  lemma UpdateIsHead(t: Tools, root: string, base: Tree, baseList: seq<Artifact>, head: Tree, headList: seq<Artifact>,
                     changes: seq<Change>, supplied: seq<Artifact>, persisted: Payload)
    requires Length(root) <= ROOT_LIMIT && ListsTree(base, baseList) && ListsTree(head, headList)
    requires IsEncoding(t, Prepared(t, root, baseList), persisted)
    requires ExactChanges(t, base, head, changes) && From(head, supplied)
    ensures Decode(persisted).Ok?
    ensures var updated := Updated(t, Decode(persisted).value, changes, supplied);
            var missing := MissingPaths(t, changes, supplied);
            && (forall p :: CellAt(Erased(updated), p)
                            == if p in missing then MissingCell(p) else TreeCell(t, head, p))
            && forall q :: IsEncoding(t, updated, q) ==>
                 (IsEncoding(t, Prepared(t, root, headList), q) <==> missing == {})
  {
    hide IsEncoding, Decode, WellKept, Erased, Prepared, Updated, CellAt, MissingPaths, ListsTree, TreeCell, Represents,
         Length;
    var start, step := Prepared(t, root, baseList), Step(changes, supplied);
    PreparedIsKept(t, root, baseList);
    PreparedIsKept(t, root, headList);
    DecodingInvertsEncoding(t, start, persisted);
    PreparedRepresents(t, root, base, baseList);
    PreparedRepresents(t, root, head, headList);
    StepRepresents(t, start, base, head, {}, step);
    var updated := Updated(t, Erased(start), changes, supplied);
    assert StillLost(t, {}, step) == MissingPaths(t, changes, supplied);
    ErasingKeeps(start);
    ErasedRoot(start);
    UpdateKeeps(t, Erased(start), changes, supplied);
    CellsOf(t, updated, head, MissingPaths(t, changes, supplied));
    forall q | IsEncoding(t, updated, q)
      ensures IsEncoding(t, Prepared(t, root, headList), q) <==> MissingPaths(t, changes, supplied) == {}
    {
      EncodesHeadExactly(t, updated, Prepared(t, root, headList), head, MissingPaths(t, changes, supplied), q);
    }
  }

  lemma CellsOf(t: Tools, s: State, tree: Tree, lost: set<string>)
    requires Represents(t, s, tree, lost)
    ensures forall p :: CellAt(Erased(s), p) == if p in lost then MissingCell(p) else TreeCell(t, tree, p)
  {
  }
}
