// Resolving the public symbols of a module through its re-exports, by a
// depth-first walk that remembers only the modules on the current path.
module ReExports {
  import opened Outcomes

  datatype Space = TypeSpace | ValueSpace
  datatype Origin = Origin(path: string, contentHash: string, line: nat)
  datatype Symbol = Symbol(name: string, space: Space, declarationKind: string, shape: string, origin: Origin)

  datatype ReExport =
    | Star(source: string, origin: Origin)
    | Named(source: string, imported: string, exported: string, typeOnly: bool, origin: Origin)

  datatype Module = Module(symbols: seq<Symbol>, reExports: seq<ReExport>, unresolvedExports: nat)

  // The module graph: parsed modules, and where a specifier in a module leads.
  datatype Graph = Graph(modules: map<string, Module>, target: (string, string) -> Option<string>)

  datatype Visited = Visited(symbols: seq<Symbol>, unresolved: nat)

  function External(e: ReExport): Symbol
    requires e.Named?
  {
    Symbol(e.exported, if e.typeOnly then TypeSpace else ValueSpace, "external_reexport",
           e.source + "\0" + e.imported, e.origin)
  }

  predicate Passes(e: ReExport, s: Symbol) {
    match e
    case Star(_, _) => s.name != "default"
    case Named(_, imported, _, typeOnly, _) => s.name == imported && (!typeOnly || s.space == TypeSpace)
  }

  function Republished(e: ReExport, s: Symbol): Symbol {
    match e
    case Star(_, _) => s
    case Named(_, _, exported, typeOnly, origin) =>
      s.(name := exported, space := if typeOnly then TypeSpace else s.space, origin := origin)
  }

  function Select(e: ReExport, symbols: seq<Symbol>): (r: seq<Symbol>)
    ensures forall x :: x in r <==> exists s :: s in symbols && Passes(e, s) && x == Republished(e, s)
  {
    if symbols == [] then []
    else
      var n := |symbols| - 1;
      assert symbols == symbols[..n] + [symbols[n]];
      Select(e, symbols[..n]) + if Passes(e, symbols[n]) then [Republished(e, symbols[n])] else []
  }

  // What one re-export contributes, given what its target yields.
  function Contribute(e: ReExport, child: Option<Visited>): Visited {
    match child
    case None => if e.Named? then Visited([External(e)], 0) else Visited([], 1)
    case Some(v) =>
      var selected := Select(e, v.symbols);
      Visited(selected, v.unresolved + if e.Named? && selected == [] then 1 else 0)
  }

  function Visit(g: Graph, path: string, seen: set<string>): Visited
    decreases g.modules.Keys - seen, 0, 0
  {
    if path in seen || path !in g.modules then Visited([], 1)
    else VisitFirst(g, path, |g.modules[path].reExports|, seen + {path})
  }

  // The module's own symbols and its first n re-exports.
  function VisitFirst(g: Graph, path: string, n: nat, seen: set<string>): Visited
    requires path in g.modules && n <= |g.modules[path].reExports|
    decreases g.modules.Keys - seen, 1, n
  {
    if n == 0 then Visited(g.modules[path].symbols, g.modules[path].unresolvedExports)
    else
      var before := VisitFirst(g, path, n - 1, seen);
      var e := g.modules[path].reExports[n - 1];
      var added := Contribute(e, ChildOf(g, path, e, seen));
      Visited(before.symbols + added.symbols, before.unresolved + added.unresolved)
  }

  function ChildOf(g: Graph, path: string, e: ReExport, seen: set<string>): Option<Visited>
    decreases g.modules.Keys - seen, 0, 1
  {
    match g.target(path, e.source)
    case None => None
    case Some(t) => Some(Visit(g, t, seen))
  }

  // The walk as a recursive procedure that accumulates symbols and a count.
  method Walk(g: Graph, path: string, seen: set<string>) returns (symbols: seq<Symbol>, unresolved: nat)
    ensures Visited(symbols, unresolved) == Visit(g, path, seen)
    decreases g.modules.Keys - seen
  {
    if path in seen || path !in g.modules {
      return [], 1;
    }
    var m := g.modules[path];
    symbols, unresolved := m.symbols, m.unresolvedExports;
    for i := 0 to |m.reExports|
      invariant Visited(symbols, unresolved) == VisitFirst(g, path, i, seen + {path})
    {
      var e := m.reExports[i];
      match g.target(path, e.source) {
        case None =>
          if e.Named? {
            symbols := symbols + [External(e)];
          } else {
            unresolved := unresolved + 1;
          }
        case Some(t) =>
          var found, missing := Walk(g, t, seen + {path});
          unresolved := unresolved + missing;
          var selected := Select(e, found);
          if e.Named? && selected == [] {
            unresolved := unresolved + 1;
          }
          symbols := symbols + selected;
      }
    }
  }

  // --- the export relation ----------------------------------------------------

  // `s` is exported by `path` through a chain of at most `depth` modules.
  ghost predicate Exports(g: Graph, path: string, s: Symbol, depth: nat)
    decreases depth, 1
  {
    && depth > 0 && path in g.modules
    && (s in g.modules[path].symbols ||
        exists e :: e in g.modules[path].reExports && Through(g, path, e, s, depth - 1))
  }

  ghost predicate Through(g: Graph, path: string, e: ReExport, s: Symbol, depth: nat)
    decreases depth, 2
  {
    match g.target(path, e.source)
    case None => IsExternal(e, s)
    case Some(t) => exists x :: Exports(g, t, x, depth) && HandsOn(e, x, s)
  }

  // A star hands on everything but the default, unchanged; a name hands on the
  // symbols it imports, as types only if it says so, under its own name and origin.
  ghost predicate HandsOn(e: ReExport, x: Symbol, s: Symbol) {
    match e
    case Star(_, _) => x.name != "default" && s == x
    case Named(_, imported, exported, typeOnly, origin) =>
      && x.name == imported && (typeOnly ==> x.space == TypeSpace)
      && s.name == exported && s.space == x.space && s.origin == origin
      && s.declarationKind == x.declarationKind && s.shape == x.shape
  }

  // A name whose source lies outside the package stands for itself.
  ghost predicate IsExternal(e: ReExport, s: Symbol) {
    && e.Named? && s.name == e.exported && s.origin == e.origin
    && s.space == (if e.typeOnly then TypeSpace else ValueSpace)
    && s.declarationKind == "external_reexport" && s.shape == e.source + "\0" + e.imported
  }

  // The target holds something that the name imports.
  ghost predicate Imports(g: Graph, e: ReExport, t: string)
    requires e.Named?
  {
    exists x :: Exported(g, t, x) && x.name == e.imported && (e.typeOnly ==> x.space == TypeSpace)
  }

  lemma HandsOnIs(e: ReExport, x: Symbol, s: Symbol)
    ensures HandsOn(e, x, s) <==> Passes(e, x) && s == Republished(e, x)
    ensures e.Named? ==> (IsExternal(e, s) <==> s == External(e))
    ensures e.Named? ==> (Passes(e, x) <==> x.name == e.imported && (e.typeOnly ==> x.space == TypeSpace))
  {
  }

  ghost predicate Exported(g: Graph, path: string, s: Symbol) {
    exists depth: nat :: Exports(g, path, s, depth)
  }

  lemma ExportsThrough(g: Graph, path: string, e: ReExport, s: Symbol, depth: nat)
    requires path in g.modules && e in g.modules[path].reExports && Through(g, path, e, s, depth)
    ensures Exports(g, path, s, depth + 1) && Exported(g, path, s)
  {
    assert Through(g, path, e, s, depth + 1 - 1);
    assert Exports(g, path, s, depth + 1);
  }

  // Every symbol the walk returns is exported through a chain of re-exports.
  lemma {:induction false} VisitIsSound(g: Graph, path: string, seen: set<string>, s: Symbol)
    requires s in Visit(g, path, seen).symbols
    ensures Exported(g, path, s)
    decreases g.modules.Keys - seen, 0, 0
  {
    VisitFirstIsSound(g, path, |g.modules[path].reExports|, seen + {path}, s);
  }

  lemma {:induction false} VisitFirstIsSound(g: Graph, path: string, n: nat, seen: set<string>, s: Symbol)
    requires path in g.modules && n <= |g.modules[path].reExports|
    requires s in VisitFirst(g, path, n, seen).symbols
    ensures Exported(g, path, s)
    decreases g.modules.Keys - seen, 1, n
  {
    if n == 0 {
      assert Exports(g, path, s, 1);
    } else if s in VisitFirst(g, path, n - 1, seen).symbols {
      VisitFirstIsSound(g, path, n - 1, seen, s);
    } else {
      var e := g.modules[path].reExports[n - 1];
      match g.target(path, e.source) {
        case None =>
          HandsOnIs(e, s, s);
          ExportsThrough(g, path, e, s, 0);
        case Some(t) =>
          var x :| x in Visit(g, t, seen).symbols && Passes(e, x) && s == Republished(e, x);
          VisitIsSound(g, t, seen, x);
          var depth: nat :| Exports(g, t, x, depth);
          HandsOnIs(e, x, s);
          ExportsThrough(g, path, e, s, depth);
      }
    }
  }

  // A module's own symbols come first, in their order, then those of its
  // re-exports in theirs.
  lemma {:induction false} VisitIsInOrder(g: Graph, path: string, n: nat, seen: set<string>)
    requires path in g.modules && path !in seen && n <= |g.modules[path].reExports|
    ensures g.modules[path].symbols <= VisitFirst(g, path, n, seen + {path}).symbols <= Visit(g, path, seen).symbols
    decreases |g.modules[path].reExports| - n
  {
    OwnSymbolsFirst(g, path, n, seen + {path});
    if n < |g.modules[path].reExports| {
      VisitIsInOrder(g, path, n + 1, seen);
    }
  }

  lemma {:induction false} OwnSymbolsFirst(g: Graph, path: string, n: nat, seen: set<string>)
    requires path in g.modules && n <= |g.modules[path].reExports|
    ensures g.modules[path].symbols <= VisitFirst(g, path, n, seen).symbols
    decreases n
  {
    if n > 0 {
      OwnSymbolsFirst(g, path, n - 1, seen);
    }
  }

  // When nothing of a module is unresolved, nothing of its targets is.
  lemma {:induction false} ChildIsClean(g: Graph, path: string, n: nat, seen: set<string>, i: nat)
    requires path in g.modules && i < n <= |g.modules[path].reExports|
    requires VisitFirst(g, path, n, seen).unresolved == 0
    ensures var e := g.modules[path].reExports[i];
            var added := Contribute(e, ChildOf(g, path, e, seen));
            && added.unresolved == 0
            && forall s :: s in added.symbols ==> s in VisitFirst(g, path, n, seen).symbols
    ensures forall s :: s in g.modules[path].symbols ==> s in VisitFirst(g, path, n, seen).symbols
    decreases n
  {
    if i < n - 1 {
      ChildIsClean(g, path, n - 1, seen, i);
    } else if n > 1 {
      ChildIsClean(g, path, n - 1, seen, 0);
    }
  }

  lemma {:induction false} OwnSymbolsStay(g: Graph, path: string, n: nat, seen: set<string>)
    requires path in g.modules && n <= |g.modules[path].reExports|
    ensures forall s :: s in g.modules[path].symbols ==> s in VisitFirst(g, path, n, seen).symbols
    ensures g.modules[path].unresolvedExports <= VisitFirst(g, path, n, seen).unresolved
  {
    if n > 0 {
      OwnSymbolsStay(g, path, n - 1, seen);
    }
  }

  // With nothing unresolved, the walk finds every exported symbol.
  lemma {:induction false} VisitIsComplete(g: Graph, path: string, seen: set<string>, s: Symbol, depth: nat)
    requires Visit(g, path, seen).unresolved == 0 && Exports(g, path, s, depth)
    ensures s in Visit(g, path, seen).symbols
    decreases depth
  {
    var m := g.modules[path];
    OwnSymbolsStay(g, path, |m.reExports|, seen + {path});
    if s !in m.symbols {
      var e :| e in m.reExports && Through(g, path, e, s, depth - 1);
      var i :| 0 <= i < |m.reExports| && m.reExports[i] == e;
      ChildIsClean(g, path, |m.reExports|, seen + {path}, i);
      match g.target(path, e.source) {
        case None =>
          HandsOnIs(e, s, s);
        case Some(t) =>
          var x :| Exports(g, t, x, depth - 1) && HandsOn(e, x, s);
          HandsOnIs(e, x, s);
          VisitIsComplete(g, t, seen + {path}, x, depth - 1);
      }
    }
  }

  // --- when nothing is unresolved ---------------------------------------------

  ghost predicate Edge(g: Graph, a: string, b: string) {
    a in g.modules && exists e :: e in g.modules[a].reExports && g.target(a, e.source) == Some(b)
  }

  ghost predicate Path(g: Graph, walk: seq<string>, start: string) {
    && walk != [] && walk[0] == start
    && forall i :: 0 < i < |walk| ==> Edge(g, walk[i - 1], walk[i])
  }

  ghost predicate NoRepeats(walk: seq<string>) {
    forall i, j :: 0 <= i < j < |walk| ==> walk[i] != walk[j]
  }

  // The module is known, all its own exports resolve, and every name it picks
  // from a target is exported there.
  ghost predicate LocallyResolved(g: Graph, path: string) {
    && path in g.modules && g.modules[path].unresolvedExports == 0
    && forall e :: e in g.modules[path].reExports ==>
         match g.target(path, e.source)
         case None => e.Named?
         case Some(t) => e.Named? ==> Imports(g, e, t)
  }

  ghost predicate AcyclicAndResolved(g: Graph, path: string, seen: set<string>) {
    forall walk :: Path(g, walk, path) ==>
      NoRepeats(walk) && LocallyResolved(g, walk[|walk| - 1]) && forall p :: p in walk ==> p !in seen
  }

  lemma {:induction false} CleanWalk(g: Graph, path: string, seen: set<string>, walk: seq<string>)
    requires Visit(g, path, seen).unresolved == 0 && Path(g, walk, path)
    ensures NoRepeats(walk) && (forall p :: p in walk ==> p !in seen) && LocallyResolved(g, walk[|walk| - 1])
    decreases |walk|
  {
    var m := g.modules[path];
    if |walk| == 1 {
      CleanIsLocallyResolved(g, path, seen);
    } else {
      assert Edge(g, walk[0], walk[1]);
      var e :| e in m.reExports && g.target(path, e.source) == Some(walk[1]);
      var i :| 0 <= i < |m.reExports| && m.reExports[i] == e;
      ChildIsClean(g, path, |m.reExports|, seen + {path}, i);
      var rest := walk[1..];
      assert forall i :: 0 < i < |rest| ==> rest[i - 1] == walk[i] && rest[i] == walk[i + 1];
      CleanWalk(g, walk[1], seen + {path}, rest);
      assert forall p :: p in walk ==> p == path || p in rest;
      assert path !in rest;
    }
  }

  lemma CleanIsLocallyResolved(g: Graph, path: string, seen: set<string>)
    requires Visit(g, path, seen).unresolved == 0
    ensures LocallyResolved(g, path)
  {
    var m := g.modules[path];
    OwnSymbolsStay(g, path, |m.reExports|, seen + {path});
    forall e | e in m.reExports
      ensures match g.target(path, e.source)
              case None => e.Named?
              case Some(t) => e.Named? ==> Imports(g, e, t)
    {
      var i :| 0 <= i < |m.reExports| && m.reExports[i] == e;
      ChildIsClean(g, path, |m.reExports|, seen + {path}, i);
      match g.target(path, e.source) {
        case None =>
        case Some(t) =>
          if e.Named? {
            var child := Visit(g, t, seen + {path});
            var picked := Select(e, child.symbols)[0];
            assert picked in Select(e, child.symbols);
            var x :| x in child.symbols && Passes(e, x) && picked == Republished(e, x);
            HandsOnIs(e, x, picked);
            VisitIsSound(g, t, seen + {path}, x);
          }
      }
    }
  }

  lemma {:induction false} AcyclicIsClean(g: Graph, path: string, seen: set<string>)
    requires AcyclicAndResolved(g, path, seen)
    ensures Visit(g, path, seen).unresolved == 0
    decreases g.modules.Keys - seen, 0, 0
  {
    assert Path(g, [path], path);
    assert path in [path];
    AcyclicFirstIsClean(g, path, |g.modules[path].reExports|, seen);
  }

  lemma {:induction false} AcyclicFirstIsClean(g: Graph, path: string, n: nat, seen: set<string>)
    requires AcyclicAndResolved(g, path, seen) && path in g.modules && path !in seen && LocallyResolved(g, path)
    requires n <= |g.modules[path].reExports|
    ensures VisitFirst(g, path, n, seen + {path}).unresolved == 0
    decreases g.modules.Keys - (seen + {path}), 1, n
  {
    hide AcyclicAndResolved, Path;
    if n > 0 {
      AcyclicFirstIsClean(g, path, n - 1, seen);
      var e := g.modules[path].reExports[n - 1];
      match g.target(path, e.source) {
        case None =>
        case Some(t) =>
          assert Edge(g, path, t);
          AcyclicBelow(g, path, t, seen);
          AcyclicIsClean(g, t, seen + {path});
          if e.Named? {
            var x :| Exported(g, t, x) && x.name == e.imported && (e.typeOnly ==> x.space == TypeSpace);
            HandsOnIs(e, x, x);
            var depth: nat :| Exports(g, t, x, depth);
            VisitIsComplete(g, t, seen + {path}, x, depth);
            assert Republished(e, x) in Select(e, Visit(g, t, seen + {path}).symbols);
          }
      }
    }
  }

  lemma AcyclicBelow(g: Graph, path: string, t: string, seen: set<string>)
    requires AcyclicAndResolved(g, path, seen) && Edge(g, path, t)
    ensures AcyclicAndResolved(g, t, seen + {path})
  {
    forall walk | Path(g, walk, t)
      ensures NoRepeats(walk) && LocallyResolved(g, walk[|walk| - 1]) && forall p :: p in walk ==> p !in seen + {path}
    {
      var longer := [path] + walk;
      assert forall i :: 0 < i < |longer| ==> longer[i] == walk[i - 1];
      assert Path(g, longer, path);
      assert forall p :: p in walk ==> p in longer;
      assert longer[|longer| - 1] == walk[|walk| - 1];
      forall i, j | 0 <= i < j < |walk| ensures walk[i] != walk[j] {
        assert longer[i + 1] == walk[i] && longer[j + 1] == walk[j];
      }
      forall p | p in walk ensures p != path {
        var i :| 0 <= i < |walk| && walk[i] == p;
        assert longer[i + 1] == p && longer[0] == path;
      }
    }
  }

  // Nothing is unresolved exactly when every walk from the entry point is free
  // of cycles and ends in a module all of whose exports resolve; then the
  // symbols are exactly the exported ones.
  lemma UnresolvedExactly(g: Graph, path: string)
    ensures Visit(g, path, {}).unresolved == 0 <==> AcyclicAndResolved(g, path, {})
    ensures Visit(g, path, {}).unresolved == 0 ==>
              forall s :: s in Visit(g, path, {}).symbols <==> Exported(g, path, s)
  {
    if Visit(g, path, {}).unresolved == 0 {
      forall walk | Path(g, walk, path)
        ensures NoRepeats(walk) && LocallyResolved(g, walk[|walk| - 1]) && forall p :: p in walk ==> p !in {}
      {
        CleanWalk(g, path, {}, walk);
      }
      forall s ensures s in Visit(g, path, {}).symbols <==> Exported(g, path, s) {
        if s in Visit(g, path, {}).symbols {
          VisitIsSound(g, path, {}, s);
        }
        if Exported(g, path, s) {
          var depth: nat :| Exports(g, path, s, depth);
          VisitIsComplete(g, path, {}, s, depth);
        }
      }
    }
    if AcyclicAndResolved(g, path, {}) {
      AcyclicIsClean(g, path, {});
    }
  }
}
