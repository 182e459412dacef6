// What one artifact leaves in a package's state, what is written down of it, and
// what is accepted when it is read back, field by field.
module TypeScriptFacts {
  import opened Outcomes
  import opened Sorting
  import opened Utf16
  import opened TypeScriptState

  // A path that is a module's and whose file counts as the package's own source.
  ghost predicate IsSource(t: Tools, a: Artifact) {
    t.isModule(a.path) && a.classification !in {Vendored, Test}
  }

  ghost predicate FailsWith(t: Tools, a: Artifact, reason: Reason) {
    && IsSource(t, a)
    && match reason
       case ByteLimit => |a.bytes| > t.maximumBytes
       case UnsafeInput => |a.bytes| <= t.maximumBytes && t.parseModule(a).Unsafe?
       case SyntaxError =>
         |a.bytes| <= t.maximumBytes && t.parseModule(a).Parsed? && t.parseModule(a).errors > 0
       case MissingChangedBlob => false
  }

  ghost predicate IsParsed(t: Tools, a: Artifact) {
    && IsSource(t, a) && |a.bytes| <= t.maximumBytes && t.parseModule(a).Parsed? && t.parseModule(a).errors == 0
  }

  // Adding an artifact that matters replaces all that is held for its path: its
  // descriptor, the package and the configuration that can be read from it, and
  // either its facts or the reason why there are none. It touches no other path.
  lemma CellTable(t: Tools, s: State, a: Artifact)
    ensures var after, p := WithArtifact(t, s, a), a.path;
            if t.isModule(p) || t.isPackage(p) || t.isConfig(p)
            then
              && p in after.artifacts && after.artifacts[p] == Descriptor(p, a.contentHash, a.classification)
              && (p in after.packageJson <==> t.isPackage(p) && t.parsePackage(a).Some?)
              && (p in after.packageJson ==> Some(after.packageJson[p]) == t.parsePackage(a))
              && (p in after.configs <==> t.isConfig(p) && t.parseConfig(a).Some?)
              && (p in after.configs ==>
                    after.configs[p].path == p && Some(after.configs[p].body) == t.parseConfig(a))
              && (p in after.failures <==> exists reason :: FailsWith(t, a, reason))
              && (p in after.failures ==>
                    after.failures[p].path == p && FailsWith(t, a, after.failures[p].reason))
              && (p in after.modules <==> IsParsed(t, a))
              && (p in after.modules ==>
                    after.modules[p] == Module(Descriptor(p, a.contentHash, a.classification), a.bytes,
                                               t.parseModule(a).facts, 0, t.parseModule(a).unresolved))
            else after == s
    ensures WithArtifact(t, s, a).packageRoot == s.packageRoot
    ensures forall q :: q != a.path ==> CellAt(WithArtifact(t, s, a), q) == CellAt(s, q)
  {
    hide CellOf, CellAt, FailsWith, IsParsed, PutCell;
    var after, p := WithArtifact(t, s, a), a.path;
    PutCellAt(s, p, CellOf(t, a), p);
    PutKeepsRoot(s, p, CellOf(t, a));
    forall q | q != p ensures CellAt(after, q) == CellAt(s, q) {
      PutCellAt(s, p, CellOf(t, a), q);
    }
    if Relevant(t, p) {
      CellIs(t, a);
      HeldAt(after, p);
    }
  }

  lemma HeldAt(s: State, p: string)
    ensures var c := CellAt(s, p);
            && (c.artifact.Some? <==> p in s.artifacts) && (p in s.artifacts ==> c.artifact == Some(s.artifacts[p]))
            && (c.moduleFact.Some? <==> p in s.modules) && (p in s.modules ==> c.moduleFact == Some(s.modules[p]))
            && (c.package.Some? <==> p in s.packageJson)
            && (p in s.packageJson ==> c.package == Some(s.packageJson[p]))
            && (c.config.Some? <==> p in s.configs) && (p in s.configs ==> c.config == Some(s.configs[p]))
            && (c.failure.Some? <==> p in s.failures) && (p in s.failures ==> c.failure == Some(s.failures[p]))
  {
  }

  lemma CellIs(t: Tools, a: Artifact)
    ensures var c, p := CellOf(t, a), a.path;
            && c.artifact == Some(Descriptor(p, a.contentHash, a.classification))
            && c.package == (if t.isPackage(p) then t.parsePackage(a) else None)
            && (c.config.Some? <==> t.isConfig(p) && t.parseConfig(a).Some?)
            && (c.config.Some? ==> c.config.value.path == p && Some(c.config.value.body) == t.parseConfig(a))
            && (c.failure.Some? <==> exists reason :: FailsWith(t, a, reason))
            && (c.failure.Some? ==> c.failure.value.path == p && FailsWith(t, a, c.failure.value.reason))
            && (c.moduleFact.Some? <==> IsParsed(t, a))
            && (c.moduleFact.Some? ==>
                  c.moduleFact.value == Module(Descriptor(p, a.contentHash, a.classification), a.bytes,
                                               t.parseModule(a).facts, 0, t.parseModule(a).unresolved))
  {
    var c := CellOf(t, a);
    if c.failure.Some? {
      assert FailsWith(t, a, c.failure.value.reason);
    }
  }

  // What is written of a module is its path, its facts, and the number of its
  // unresolved exports when that is known and positive.
  lemma WrittenModules(t: Tools, s: State, p: Payload)
    requires WellKept(s) && IsEncoding(t, s, p)
    ensures forall r :: r in p.modules ==> r.path in s.modules && Writes(s.modules[r.path], r)
    ensures forall path :: path in s.modules ==> exists r :: r in p.modules && r.path == path
    ensures forall r :: r in p.packageJson ==> r.path in s.packageJson && r.raw == s.packageJson[r.path]
    ensures forall path :: path in s.packageJson ==> exists r :: r in p.packageJson && r.path == path
    ensures p.schemaVersion == "1.1" && p.packageRoot == s.packageRoot
  {
    forall path | path in s.modules ensures exists r :: r in p.modules && r.path == path {
      assert ModuleRecords(s)[path] in p.modules && ModuleRecords(s)[path].path == path;
    }
    forall path | path in s.packageJson ensures exists r :: r in p.packageJson && r.path == path {
      assert PackageRecords(s)[path] in p.packageJson && PackageRecords(s)[path].path == path;
    }
    forall r | r in p.modules ensures r.path in s.modules && Writes(s.modules[r.path], r) {
      assert ModuleRecords(s)[ModulePath()(r)] == r;
    }
    forall r | r in p.packageJson ensures r.path in s.packageJson && r.raw == s.packageJson[r.path] {
      assert PackageRecords(s)[PackagePath()(r)] == r;
    }
  }

  ghost predicate Writes(m: Module, r: ModuleRecord) {
    && r.facts == m.facts
    && (r.unresolved.Some? <==> m.unresolved.Some? && m.unresolved.value > 0)
    && (r.unresolved.Some? ==> r.unresolved == m.unresolved)
  }

  // --- reading back ---------------------------------------------------------------

  ghost predicate Distinct<V>(l: seq<V>, path: V -> string) {
    forall i, j :: 0 <= i < j < |l| ==> path(l[i]) != path(l[j])
  }

  ghost predicate Lists<V>(l: seq<V>, path: V -> string, p: string) {
    exists v :: v in l && path(v) == p
  }

  ghost predicate AllListed<V, W>(l: seq<V>, path: V -> string, known: seq<W>, knownPath: W -> string) {
    forall v :: v in l ==> Lists(known, knownPath, path(v))
  }

  lemma {:induction false} CollectIs<V>(l: seq<V>, path: V -> string, allowed: string -> bool)
    ensures Collect(l, path, allowed).Ok? <==> Distinct(l, path) && forall v :: v in l ==> allowed(path(v))
    ensures Collect(l, path, allowed).Ok? ==>
              var m := Collect(l, path, allowed).value;
              && (forall p :: p in m <==> Lists(l, path, p))
              && (forall v :: v in l ==> path(v) in m && m[path(v)] == v)
  {
    if l != [] {
      var front, last := l[..|l| - 1], l[|l| - 1];
      assert l == front + [last];
      CollectIs(front, path, allowed);
      assert forall p :: Lists(l, path, p) <==> Lists(front, path, p) || path(last) == p by {
        forall p ensures Lists(l, path, p) <==> Lists(front, path, p) || path(last) == p {
          if Lists(front, path, p) {
            var v :| v in front && path(v) == p;
            assert v in l;
          }
          assert last in l;
        }
      }
      assert Distinct(l, path) <==> Distinct(front, path) && !Lists(front, path, path(last)) by {
        if Lists(front, path, path(last)) {
          var v :| v in front && path(v) == path(last);
          var i :| 0 <= i < |front| && front[i] == v;
          assert path(l[i]) == path(l[|front|]);
        }
        if Distinct(front, path) && !Lists(front, path, path(last)) {
          forall i, j | 0 <= i < j < |l| ensures path(l[i]) != path(l[j]) {
            assert l[i] in front;
          }
        }
      }
    }
  }

  // A payload of the first or the current version is accepted unless its root is
  // too long, a path is listed twice, or facts are listed without their artifact.
  ghost predicate Acceptable(p: Payload) {
    && p.schemaVersion in {"1.0", "1.1"} && Length(p.packageRoot) <= 512
    && Distinct(p.artifacts, DescriptorPath()) && Distinct(p.modules, ModulePath())
    && Distinct(p.packageJson, PackagePath()) && Distinct(p.failures, FailurePath())
    && AllListed(p.modules, ModulePath(), p.artifacts, DescriptorPath())
    && AllListed(p.packageJson, PackagePath(), p.artifacts, DescriptorPath())
    && (p.schemaVersion == "1.1" ==>
          Distinct(p.configs, ConfigPath()) && AllListed(p.configs, ConfigPath(), p.artifacts, DescriptorPath()))
  }

  ghost predicate ReadBackAs(p: Payload, s: State) {
    && s.packageRoot == p.packageRoot
    && (forall path :: path in s.artifacts <==> Lists(p.artifacts, DescriptorPath(), path))
    && (forall a :: a in p.artifacts ==> s.artifacts[a.path] == a)
    && (forall path :: path in s.modules <==> Lists(p.modules, ModulePath(), path))
    && (forall m :: m in p.modules ==>
          var r := s.modules[m.path];
          && m.path in s.artifacts && r.artifact == s.artifacts[m.path] && r.bytes == [] && r.facts == m.facts &&
               r.parseErrors == 0
          && r.unresolved == if m.unresolved.Some? then m.unresolved else Some(0))
    && (forall path :: path in s.packageJson <==> Lists(p.packageJson, PackagePath(), path))
    && (forall k :: k in p.packageJson ==> s.packageJson[k.path] == k.raw)
    && (forall path :: path in s.configs <==>
          p.schemaVersion == "1.1" && Lists(p.configs, ConfigPath(), path))
    && (p.schemaVersion == "1.1" ==> forall c :: c in p.configs ==> s.configs[c.path] == c)
    && (forall path :: path in s.failures <==> Lists(p.failures, FailurePath(), path))
    && (forall f :: f in p.failures ==> s.failures[f.path] == f)
  }

  lemma DecodeIs(p: Payload)
    ensures Decode(p).Ok? <==> Acceptable(p)
    ensures Decode(p).Ok? ==> ReadBackAs(p, Decode(p).value)
  {
    hide Collect, Distinct, Length, AllListed, Lists, Revived, RawOf;
    CollectIs(p.artifacts, DescriptorPath(), Anywhere());
    CollectIs(p.failures, FailurePath(), Anywhere());
    if Collect(p.artifacts, DescriptorPath(), Anywhere()).Ok? {
      var artifacts := Collect(p.artifacts, DescriptorPath(), Anywhere()).value;
      FactsAre(p.modules, ModulePath(), p.artifacts, artifacts);
      FactsAre(p.packageJson, PackagePath(), p.artifacts, artifacts);
      FactsAre(ConfigsIn(p), ConfigPath(), p.artifacts, artifacts);
      NothingListed(ConfigPath(), p.artifacts);
      if Decode(p).Ok? {
        RevivedAre(p, artifacts);
      }
    }
  }

  lemma NothingListed<V(!new)>(path: V -> string, known: seq<Descriptor>)
    ensures Distinct([], path) && AllListed([], path, known, DescriptorPath()) && forall p :: !Lists([], path, p)
  {
  }

  lemma FactsAre<V>(l: seq<V>, path: V -> string, known: seq<Descriptor>, artifacts: map<string, Descriptor>)
    requires Collect(known, DescriptorPath(), Anywhere()) == Ok(artifacts)
    ensures var collected := Collect(l, path, Among(artifacts.Keys));
            && (collected.Ok? <==> Distinct(l, path) && AllListed(l, path, known, DescriptorPath()))
            && (collected.Ok? ==>
                  && (forall p :: p in collected.value <==> Lists(l, path, p))
                  && (forall p :: p in collected.value ==> p in artifacts)
                  && (forall v :: v in l ==> path(v) in collected.value && collected.value[path(v)] == v))
  {
    hide Collect, Distinct;
    CollectIs(known, DescriptorPath(), Anywhere());
    CollectIs(l, path, Among(artifacts.Keys));
  }

  lemma RevivedAre(p: Payload, artifacts: map<string, Descriptor>)
    requires Decode(p).Ok? && Collect(p.artifacts, DescriptorPath(), Anywhere()) == Ok(artifacts)
    ensures var s := Decode(p).value;
            && s.artifacts == artifacts
            && (forall path :: path in s.modules <==> Lists(p.modules, ModulePath(), path))
            && (forall m :: m in p.modules ==>
                  var r := s.modules[m.path];
                  && m.path in artifacts && r.artifact == artifacts[m.path] && r.bytes == [] && r.facts == m.facts
                  && r.parseErrors == 0 && r.unresolved == if m.unresolved.Some? then m.unresolved else Some(0))
            && (forall path :: path in s.packageJson <==> Lists(p.packageJson, PackagePath(), path))
            && (forall k :: k in p.packageJson ==> s.packageJson[k.path] == k.raw)
  {
    hide Collect, Lists, AllListed, Distinct;
    FactsAre(p.modules, ModulePath(), p.artifacts, artifacts);
    FactsAre(p.packageJson, PackagePath(), p.artifacts, artifacts);
    forall m | m in p.modules ensures ModulePath()(m) in Decode(p).value.modules {
    }
    forall k | k in p.packageJson ensures PackagePath()(k) in Decode(p).value.packageJson {
    }
  }
}
