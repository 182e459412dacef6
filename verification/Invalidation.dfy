// The shared planner that decides which partitions a change list invalidates.
module Invalidation {
  import opened Outcomes
  import opened Sorting

  datatype Descriptor = Descriptor(partitionKey: string, ownedPaths: seq<string>, dependencyKeys: seq<string>)
  datatype PathChange = PathChange(path: string, previousPath: Option<string>)

  datatype Plan = Plan(
    changedPaths: seq<string>, directPartitionKeys: seq<string>, dependentPartitionKeys: seq<string>,
    invalidatedPartitionKeys: seq<string>, unmatchedPaths: seq<string>, complete: bool)

  predicate AcceptedPartitions(partitions: seq<Descriptor>) {
    && (forall p :: p in partitions ==>
          p.partitionKey != "" && NoDuplicates(p.ownedPaths) && NoDuplicates(p.dependencyKeys))
    && (forall i, j :: 0 <= i < j < |partitions| ==> partitions[i].partitionKey != partitions[j].partitionKey)
  }

  // Both ends of a change; an empty previous path counts as absent.
  function Touched(changes: seq<PathChange>): set<string> {
    (set c | c in changes :: c.path) +
    (set c | c in changes && c.previousPath.Some? && c.previousPath.value != "" :: c.previousPath.value)
  }

  function Owners(partitions: seq<Descriptor>, paths: set<string>): set<string> {
    set p, o | p in partitions && o in p.ownedPaths && o in paths :: p.partitionKey
  }

  predicate Owned(partitions: seq<Descriptor>, path: string) {
    exists p :: p in partitions && path in p.ownedPaths
  }

  function Unowned(partitions: seq<Descriptor>, changes: seq<PathChange>): set<string> {
    set p | p in Touched(changes) && !Owned(partitions, p)
  }

  // A partition depends on a set of keys.
  predicate DependsOn(p: Descriptor, keys: set<string>) {
    exists d :: d in p.dependencyKeys && d in keys
  }

  ghost predicate Closed(partitions: seq<Descriptor>, keys: set<string>) {
    forall p :: p in partitions && DependsOn(p, keys) ==> p.partitionKey in keys
  }

  // The least set that holds `direct` and is closed under dependents.
  ghost predicate LeastClosure(partitions: seq<Descriptor>, direct: set<string>, keys: set<string>) {
    && direct <= keys && Closed(partitions, keys)
    && forall other :: direct <= other && Closed(partitions, other) ==> keys <= other
  }

  lemma LeastClosureUnique(a: seq<Descriptor>, b: seq<Descriptor>, direct: set<string>, x: set<string>, y: set<string>)
    requires (forall p :: p in a <==> p in b) && LeastClosure(a, direct, x) && LeastClosure(b, direct, y)
    ensures x == y
  {
    assert Closed(a, y) && Closed(b, x);
  }

  // A key is reached from the direct ones along a chain of dependencies.
  ghost predicate Chain(partitions: seq<Descriptor>, direct: set<string>, chain: seq<string>) {
    && chain != [] && chain[0] in direct
    && forall i :: 0 < i < |chain| ==> Link(partitions, chain[i - 1], chain[i])
  }

  ghost predicate Link(partitions: seq<Descriptor>, dependency: string, dependent: string) {
    exists p :: p in partitions && p.partitionKey == dependent && dependency in p.dependencyKeys
  }

  ghost predicate Reached(partitions: seq<Descriptor>, direct: set<string>, key: string) {
    exists chain :: Chain(partitions, direct, chain) && chain[|chain| - 1] == key
  }

  lemma {:induction false} ChainStaysInside(partitions: seq<Descriptor>, direct: set<string>, chain: seq<string>,
      keys: set<string>)
    requires Chain(partitions, direct, chain) && direct <= keys && Closed(partitions, keys)
    ensures chain[|chain| - 1] in keys
  {
    if |chain| > 1 {
      var n := |chain| - 1;
      assert forall i :: 0 <= i < n ==> chain[..n][i] == chain[i];
      ChainStaysInside(partitions, direct, chain[..n], keys);
      assert Link(partitions, chain[n - 1], chain[n]);
    }
  }

  method SortedKeys(keys: set<string>, leq: (string, string) -> bool) returns (r: seq<string>)
    requires TotalOrder(leq)
    ensures SortedBy(r, leq) && NoDuplicates(r) && (set k | k in r) == keys
  {
    var listed: seq<string> := [];
    var todo := keys;
    while todo != {}
      invariant todo <= keys && NoDuplicates(listed)
      invariant forall k :: k in listed <==> k in keys && k !in todo
      decreases todo
    {
      var k :| k in todo;
      listed, todo := listed + [k], todo - {k};
    }
    r := Sort(listed, leq);
    SortSorts(listed, leq);
    SameElements(r, listed);
    RearrangedWithoutDuplicates(listed, r);
  }

  // The fixpoint loop: sweep until no partition depends on an invalidated one.
  method Invalidated(partitions: seq<Descriptor>, direct: set<string>) returns (keys: set<string>)
    ensures LeastClosure(partitions, direct, keys)
    ensures forall k :: k in keys ==> Reached(partitions, direct, k)
  {
    hide Reached, DependsOn;
    keys := direct;
    ghost var all := direct + set p | p in partitions :: p.partitionKey;
    var changed := true;
    DirectReached(partitions, direct);
    while changed
      invariant direct <= keys <= all
      invariant forall k :: k in keys ==> Reached(partitions, direct, k)
      invariant !changed ==> Closed(partitions, keys)
      decreases all - keys, changed
    {
      changed := false;
      ghost var before := keys;
      for i := 0 to |partitions|
        invariant before <= keys <= all
        invariant changed <==> keys != before
        invariant !changed ==> forall j :: 0 <= j < i && DependsOn(partitions[j], keys) ==>
                    partitions[j].partitionKey in keys
        invariant forall k :: k in keys ==> Reached(partitions, direct, k)
      {
        if partitions[i].partitionKey in keys {
          continue;
        }
        if DependsOn(partitions[i], keys) {
          ExtendChain(partitions, direct, keys, partitions[i]);
          keys := keys + {partitions[i].partitionKey};
          changed := true;
        }
      }
    }
    forall other | direct <= other && Closed(partitions, other) ensures keys <= other {
      ReachedStaysInside(partitions, direct, other);
    }
  }

  lemma DirectReached(partitions: seq<Descriptor>, direct: set<string>)
    ensures forall k :: k in direct ==> Reached(partitions, direct, k)
  {
    forall k | k in direct ensures Reached(partitions, direct, k) {
      assert Chain(partitions, direct, [k]);
    }
  }

  lemma ReachedStaysInside(partitions: seq<Descriptor>, direct: set<string>, other: set<string>)
    requires direct <= other && Closed(partitions, other)
    ensures forall k :: Reached(partitions, direct, k) ==> k in other
  {
    forall k | Reached(partitions, direct, k) ensures k in other {
      var chain :| Chain(partitions, direct, chain) && chain[|chain| - 1] == k;
      ChainStaysInside(partitions, direct, chain, other);
    }
  }

  lemma ExtendChain(partitions: seq<Descriptor>, direct: set<string>, keys: set<string>, p: Descriptor)
    requires p in partitions && DependsOn(p, keys)
    requires forall k :: k in keys ==> Reached(partitions, direct, k)
    ensures Reached(partitions, direct, p.partitionKey)
  {
    var d :| d in p.dependencyKeys && d in keys;
    var chain :| Chain(partitions, direct, chain) && chain[|chain| - 1] == d;
    var longer := chain + [p.partitionKey];
    assert Link(partitions, d, p.partitionKey);
    assert Chain(partitions, direct, longer) && longer[|longer| - 1] == p.partitionKey;
  }

  // What a plan for these partitions and changes must say.
  ghost predicate PlanFor(
      partitions: seq<Descriptor>, changes: seq<PathChange>, leq: (string, string) -> bool, plan: Plan)
  {
    var direct := Owners(partitions, Touched(changes));
    && SortedListing(plan.changedPaths, Touched(changes), leq)
    && SortedListing(plan.directPartitionKeys, direct, leq)
    && SortedListing(plan.unmatchedPaths, Unowned(partitions, changes), leq)
    && LeastClosure(partitions, direct, (set k | k in plan.invalidatedPartitionKeys))
    && SortedListing(plan.invalidatedPartitionKeys, (set k | k in plan.invalidatedPartitionKeys), leq)
    && SortedListing(plan.dependentPartitionKeys, (set k | k in plan.invalidatedPartitionKeys) - direct, leq)
    && (plan.complete <==> forall p :: p in Touched(changes) ==> Owned(partitions, p))
  }

  ghost predicate SortedListing(s: seq<string>, keys: set<string>, leq: (string, string) -> bool) {
    SortedBy(s, leq) && NoDuplicates(s) && (set k | k in s) == keys
  }

  lemma ListingUnique(a: seq<string>, b: seq<string>, keys: set<string>, leq: (string, string) -> bool)
    requires TotalOrder(leq) && SortedListing(a, keys, leq) && SortedListing(b, keys, leq)
    ensures a == b
  {
    assert forall x :: x in a <==> x in keys;
    assert forall x :: x in b <==> x in keys;
    ListingsAgree(a, b);
    SortedUnique(a, b, leq);
  }

  // The owner table of the partitions, one set of keys per owned path.
  method OwnerTable(partitions: seq<Descriptor>) returns (owners: map<string, set<string>>)
    ensures forall path :: path in owners <==> Owned(partitions, path)
    ensures forall path :: path in owners ==> owners[path] == Owners(partitions, {path})
  {
    hide Owned, Owners;
    owners := map[];
    NobodyOwns();
    for i := 0 to |partitions|
      invariant forall path :: path in owners <==> Owned(partitions[..i], path)
      invariant forall path :: path in owners ==> owners[path] == Owners(partitions[..i], {path})
    {
      ghost var before := owners;
      var p := partitions[i];
      for j := 0 to |p.ownedPaths|
        invariant forall path :: path in owners <==> path in before || path in p.ownedPaths[..j]
        invariant forall path :: path in owners ==>
                    owners[path] == (if path in before then before[path] else {}) +
                                    (if path in p.ownedPaths[..j] then {p.partitionKey} else {})
      {
        var path := p.ownedPaths[j];
        assert p.ownedPaths[..j + 1] == p.ownedPaths[..j] + [path];
        owners := owners[path := (if path in owners then owners[path] else {}) + {p.partitionKey}];
      }
      assert p.ownedPaths[..|p.ownedPaths|] == p.ownedPaths;
      assert partitions[..i + 1] == partitions[..i] + [p];
      forall path ensures Owners(partitions[..i + 1], {path}) ==
                          Owners(partitions[..i], {path}) + if path in p.ownedPaths then {p.partitionKey} else {}
                  ensures Owned(partitions[..i + 1], path) <==> Owned(partitions[..i], path) || path in p.ownedPaths
                  ensures !Owned(partitions[..i], path) ==> Owners(partitions[..i], {path}) == {}
      {
        OwnersOneMore(partitions[..i], p, path);
      }
    }
    assert partitions[..|partitions|] == partitions;
  }

  lemma NobodyOwns()
    ensures forall path :: !Owned([], path)
  {
  }

  lemma OwnersOneMore(partitions: seq<Descriptor>, p: Descriptor, path: string)
    ensures Owners(partitions + [p], {path}) ==
            Owners(partitions, {path}) + if path in p.ownedPaths then {p.partitionKey} else {}
    ensures Owned(partitions + [p], path) <==> Owned(partitions, path) || path in p.ownedPaths
    ensures !Owned(partitions, path) ==> Owners(partitions, {path}) == {}
  {
    assert forall q :: q in partitions + [p] <==> q in partitions || q == p;
    if path in p.ownedPaths {
      assert p in partitions + [p];
    }
  }

  function PathSet(paths: seq<string>): set<string> {
    set p | p in paths
  }

  lemma PathSetAppend(paths: seq<string>, path: string)
    ensures PathSet(paths + [path]) == PathSet(paths) + {path}
  {
    assert forall p :: p in paths + [path] <==> p in paths || p == path;
  }

  // The owners of the changed paths, and the paths nobody owns.
  method MatchPaths(partitions: seq<Descriptor>, paths: seq<string>, owners: map<string, set<string>>)
    returns (direct: set<string>, unmatched: set<string>)
    requires forall path :: path in owners <==> Owned(partitions, path)
    requires forall path :: path in owners ==> owners[path] == Owners(partitions, {path})
    ensures direct == Owners(partitions, PathSet(paths))
    ensures unmatched == set p | p in PathSet(paths) && !Owned(partitions, p)
  {
    hide Owned;
    direct, unmatched := {}, {};
    for i := 0 to |paths|
      invariant direct == Owners(partitions, PathSet(paths[..i]))
      invariant unmatched == set p | p in PathSet(paths[..i]) && !Owned(partitions, p)
    {
      var path := paths[i];
      assert paths[..i + 1] == paths[..i] + [path];
      OwnersOfMore(partitions, PathSet(paths[..i]), path);
      PathSetAppend(paths[..i], path);
      if path !in owners {
        unmatched := unmatched + {path};
      } else {
        direct := direct + owners[path];
      }
    }
    assert paths[..|paths|] == paths;
  }

  lemma OwnersOfMore(partitions: seq<Descriptor>, seen: set<string>, path: string)
    ensures Owners(partitions, seen + {path}) == Owners(partitions, seen) + Owners(partitions, {path})
    ensures !Owned(partitions, path) ==> Owners(partitions, {path}) == {}
  {
  }

  lemma CompleteWhenAllOwned(partitions: seq<Descriptor>, changes: seq<PathChange>, unmatched: seq<string>)
    requires (set p | p in unmatched) == Unowned(partitions, changes)
    ensures unmatched == [] <==> forall p :: p in Touched(changes) ==> Owned(partitions, p)
  {
    hide Owned, Touched;
    if unmatched != [] {
      assert unmatched[0] in Unowned(partitions, changes);
    }
    if p :| p in Touched(changes) && !Owned(partitions, p) {
      assert p in Unowned(partitions, changes);
      assert p in set q | q in unmatched;
    }
  }

  method PlanInvalidation(partitions: seq<Descriptor>, changes: seq<PathChange>, leq: (string, string) -> bool)
    returns (r: Result<Plan>)
    requires TotalOrder(leq)
    ensures r.Ok? <==>
              && (forall p :: p in partitions ==> p.partitionKey != "" && NoDuplicates(p.ownedPaths))
              && (forall p :: p in partitions ==> NoDuplicates(p.dependencyKeys))
              && (forall i, j :: 0 <= i < j < |partitions| ==>
                    partitions[i].partitionKey != partitions[j].partitionKey)
    ensures r.Ok? ==> PlanFor(partitions, changes, leq, r.value)
  {
    hide Owned, Touched, LeastClosure;
    if !AcceptedPartitions(partitions) {
      return Throws;
    }
    var owners := OwnerTable(partitions);
    var changedPaths := SortedKeys(Touched(changes), leq);
    var direct, unmatched := MatchPaths(partitions, changedPaths, owners);
    assert PathSet(changedPaths) == Touched(changes);
    var invalidated := Invalidated(partitions, direct);
    var directKeys := SortedKeys(direct, leq);
    var invalidatedKeys := SortedKeys(invalidated, leq);
    var dependentKeys := SortedKeys(invalidated - direct, leq);
    var unmatchedPaths := SortedKeys(unmatched, leq);
    CompleteWhenAllOwned(partitions, changes, unmatchedPaths);
    r := Ok(Plan(changedPaths, directKeys, dependentKeys, invalidatedKeys, unmatchedPaths, unmatchedPaths == []));
  }

  // Rearranging partitions or changes leaves the whole plan as it was.
  lemma PlanIgnoresOrder(
      a: seq<Descriptor>, b: seq<Descriptor>, c: seq<PathChange>, d: seq<PathChange>, leq: (string, string) -> bool,
      p: Plan, q: Plan)
    requires TotalOrder(leq) && (forall x :: x in a <==> x in b) && (forall x :: x in c <==> x in d)
    requires PlanFor(a, c, leq, p) && PlanFor(b, d, leq, q)
    ensures p == q
  {
    hide SortedListing, LeastClosure;
    assert Touched(c) == Touched(d);
    var touched := Touched(c);
    assert Owners(a, touched) == Owners(b, touched);
    assert Unowned(a, c) == Unowned(b, d);
    var direct := Owners(a, touched);
    var keys := set k | k in p.invalidatedPartitionKeys;
    LeastClosureUnique(a, b, direct, keys, set k | k in q.invalidatedPartitionKeys);
    ListingUnique(p.changedPaths, q.changedPaths, touched, leq);
    ListingUnique(p.directPartitionKeys, q.directPartitionKeys, direct, leq);
    ListingUnique(p.unmatchedPaths, q.unmatchedPaths, Unowned(a, c), leq);
    ListingUnique(p.invalidatedPartitionKeys, q.invalidatedPartitionKeys, keys, leq);
    ListingUnique(p.dependentPartitionKeys, q.dependentPartitionKeys, keys - direct, leq);
  }

  // --- the plan in terms of the change list ------------------------------------

  // Some change is at the path or moved away from it.
  ghost predicate IsTouched(changes: seq<PathChange>, path: string) {
    exists c :: c in changes && (c.path == path || (path != "" && c.previousPath == Some(path)))
  }

  ghost predicate OwnsTouched(p: Descriptor, changes: seq<PathChange>) {
    exists path :: path in p.ownedPaths && IsTouched(changes, path)
  }

  ghost predicate IsOwned(partitions: seq<Descriptor>, path: string) {
    exists p :: p in partitions && path in p.ownedPaths
  }

  ghost predicate OwnerTouched(partitions: seq<Descriptor>, changes: seq<PathChange>, key: string) {
    exists p :: p in partitions && p.partitionKey == key && OwnsTouched(p, changes)
  }

  // Both ends of every change are listed, and those that nobody owns apart. The
  // direct keys are those of the owners; a key is invalidated exactly when a
  // chain of dependencies leads to it from a direct one.
  lemma PlanIs(partitions: seq<Descriptor>, changes: seq<PathChange>, leq: (string, string) -> bool, plan: Plan)
    requires PlanFor(partitions, changes, leq, plan)
    ensures forall path :: path in plan.changedPaths <==> IsTouched(changes, path)
    ensures forall path :: path in plan.unmatchedPaths <==> IsTouched(changes, path) && !IsOwned(partitions, path)
    ensures forall key :: key in plan.directPartitionKeys <==> OwnerTouched(partitions, changes, key)
    ensures forall key :: key in plan.invalidatedPartitionKeys <==>
              Reached(partitions, (set k | k in plan.directPartitionKeys), key)
    ensures forall key :: key in plan.dependentPartitionKeys <==>
              key in plan.invalidatedPartitionKeys && key !in plan.directPartitionKeys
    ensures plan.complete <==> plan.unmatchedPaths == []
  {
    hide Reached, LeastClosure;
    TouchedIs(changes);
    DirectAre(partitions, changes);
    var touched := Touched(changes);
    var direct := Owners(partitions, touched);
    SetOf(plan.changedPaths, touched);
    SetOf(plan.unmatchedPaths, Unowned(partitions, changes));
    SetOf(plan.directPartitionKeys, direct);
    SetOf(plan.dependentPartitionKeys, (set k | k in plan.invalidatedPartitionKeys) - direct);
    InvalidatedAre(partitions, direct, set k | k in plan.invalidatedPartitionKeys);
    hide IsTouched, OwnerTouched, SortedListing;
    CompleteWhenAllOwned(partitions, changes, plan.unmatchedPaths);
  }

  lemma SetOf(s: seq<string>, keys: set<string>)
    requires (set k | k in s) == keys
    ensures forall k :: k in s <==> k in keys
  {
    forall k ensures k in s <==> k in keys {
      assert k in keys <==> k in set x | x in s;
    }
  }

  lemma TouchedIs(changes: seq<PathChange>)
    ensures forall path :: path in Touched(changes) <==> IsTouched(changes, path)
  {
  }

  lemma DirectAre(partitions: seq<Descriptor>, changes: seq<PathChange>)
    ensures forall key :: key in Owners(partitions, Touched(changes)) <==> OwnerTouched(partitions, changes, key)
  {
    TouchedIs(changes);
    hide Touched, IsTouched;
    forall key | OwnerTouched(partitions, changes, key) ensures key in Owners(partitions, Touched(changes)) {
      var p :| p in partitions && p.partitionKey == key && OwnsTouched(p, changes);
      var path :| path in p.ownedPaths && IsTouched(changes, path);
      assert path in Touched(changes);
    }
  }

  // The least closed set is what chains reach.
  lemma InvalidatedAre(partitions: seq<Descriptor>, direct: set<string>, keys: set<string>)
    requires LeastClosure(partitions, direct, keys)
    ensures forall key :: key in keys <==> Reached(partitions, direct, key)
  {
    hide Reached, DependsOn;
    ReachedStaysInside(partitions, direct, keys);
    var reached := set k | k in keys && Reached(partitions, direct, k);
    DirectReached(partitions, direct);
    forall p | p in partitions && DependsOn(p, reached) ensures p.partitionKey in reached {
      DependsOnMore(p, reached, keys);
      ExtendChain(partitions, direct, reached, p);
    }
    assert direct <= reached && Closed(partitions, reached);
  }

  lemma DependsOnMore(p: Descriptor, some: set<string>, more: set<string>)
    requires DependsOn(p, some) && some <= more
    ensures DependsOn(p, more)
  {
  }
}
