// The reader that bounds one run's provider reads: call counters, and blob
// bytes reserved before each awaited read and returned after it.
module SourceBudget {
  import opened Outcomes
  import opened Sums

  datatype Operation = ResolveRepository | ResolveCommit | ListTree | Compare

  datatype Limits = Limits(metadataCalls: nat, blobReads: nat, blobBytes: nat)
  datatype Usage = Usage(
    calls: map<Operation, nat>, metadataCalls: nat, blobReads: nat, blobBytes: nat, exhaustions: nat, reserved: int)

  const OPERATIONS: set<Operation> := {ResolveRepository, ResolveCommit, ListTree, Compare}
  const UNUSED := Usage(map o | o in OPERATIONS :: 0, 0, 0, 0, 0, 0)

  datatype Answer = Failed | Returned(bytes: nat)

  // The synchronous part of a metadata call.
  function Metadata(l: Limits, u: Usage, o: Operation): (Usage, bool)
    requires o in u.calls
  {
    if u.metadataCalls >= l.metadataCalls then (u.(exhaustions := u.exhaustions + 1), false)
    else (u.(metadataCalls := u.metadataCalls + 1, calls := u.calls[o := u.calls[o] + 1]), true)
  }

  // readBlob up to its provider call; the bound is not checked here.
  function Begin(l: Limits, u: Usage, maximumBytes: int): (Usage, Option<int>) {
    var remaining := l.blobBytes - u.blobBytes - u.reserved;
    if u.blobReads >= l.blobReads || remaining <= 0 then (u.(exhaustions := u.exhaustions + 1), None)
    else
      var bounded := if maximumBytes < remaining then maximumBytes else remaining;
      (u.(blobReads := u.blobReads + 1, reserved := u.reserved + bounded), Some(bounded))
  }

  // readBlob from its provider's answer on: what the caller receives.
  function End(u: Usage, bounded: int, answer: Answer): (Usage, Option<nat>) {
    match answer
    case Failed => (u.(reserved := u.reserved - bounded), None)
    case Returned(bytes) =>
      if bytes > bounded then
        (u.(blobBytes := u.blobBytes + bytes, exhaustions := u.exhaustions + 1, reserved := u.reserved - bounded), None)
      else
        (u.(blobBytes := u.blobBytes + bytes, reserved := u.reserved - bounded), Some(bytes))
  }

  class BudgetedReader {
    const limits: Limits
    var calls: map<Operation, nat>
    var metadataCalls: nat
    var blobReads: nat
    var blobBytes: nat
    var exhaustions: nat
    var reserved: int

    constructor (limits: Limits)
      ensures this.limits == limits && Value() == UNUSED
    {
      this.limits := limits;
      calls, metadataCalls, blobReads := UNUSED.calls, 0, 0;
      blobBytes, exhaustions, reserved := 0, 0, 0;
    }

    function Value(): Usage
      reads this
    {
      Usage(calls, metadataCalls, blobReads, blobBytes, exhaustions, reserved)
    }

    method ReserveMetadata(o: Operation) returns (granted: bool)
      requires o in calls
      modifies this
      ensures (Value(), granted) == Metadata(limits, old(Value()), o)
    {
      if metadataCalls >= limits.metadataCalls {
        exhaustions := exhaustions + 1;
        return false;
      }
      metadataCalls := metadataCalls + 1;
      calls := calls[o := calls[o] + 1];
      granted := true;
    }

    method BeginRead(maximumBytes: int) returns (bounded: Option<int>)
      modifies this
      ensures (Value(), bounded) == Begin(limits, old(Value()), maximumBytes)
    {
      if blobReads >= limits.blobReads {
        exhaustions := exhaustions + 1;
        return None;
      }
      var remaining := limits.blobBytes - blobBytes - reserved;
      if remaining <= 0 {
        exhaustions := exhaustions + 1;
        return None;
      }
      blobReads := blobReads + 1;
      var bound := if maximumBytes < remaining then maximumBytes else remaining;
      reserved := reserved + bound;
      bounded := Some(bound);
    }

    method EndRead(bounded: int, answer: Answer) returns (r: Option<nat>)
      modifies this
      ensures (Value(), r) == End(old(Value()), bounded, answer)
    {
      r := None;
      if answer.Returned? {
        blobBytes := blobBytes + answer.bytes;
        if answer.bytes > bounded {
          exhaustions := exhaustions + 1;
        } else {
          r := Some(answer.bytes);
        }
      }
      reserved := reserved - bounded;
    }
  }

  // --- what each half of a call does ------------------------------------------------

  // A call is granted while the total is below its limit, whatever the operation;
  // it then counts once in the total and once for its operation, and otherwise
  // one exhaustion is noted.
  lemma MetadataTable(l: Limits, u: Usage, o: Operation)
    requires o in u.calls
    ensures var (after, granted) := Metadata(l, u, o);
            && (granted <==> u.metadataCalls < l.metadataCalls)
            && after.calls.Keys == u.calls.Keys
            && (forall p :: p in u.calls ==> after.calls[p] == u.calls[p] + if granted && p == o then 1 else 0)
            && after.metadataCalls == u.metadataCalls + (if granted then 1 else 0)
            && after.exhaustions == u.exhaustions + (if granted then 0 else 1)
            && (after.blobReads, after.blobBytes, after.reserved) == (u.blobReads, u.blobBytes, u.reserved)
  {
  }

  // A read is begun while reads and bytes are left, for the smaller of its bound
  // and what is left; its bytes are then taken from what later reads may have.
  lemma BeginTable(l: Limits, u: Usage, maximumBytes: int)
    ensures var (after, bounded) := Begin(l, u, maximumBytes);
            && (bounded.Some? <==> u.blobReads < l.blobReads && u.blobBytes + u.reserved < l.blobBytes)
            && (bounded.Some? ==>
                  && bounded.value <= maximumBytes && u.blobBytes + u.reserved + bounded.value <= l.blobBytes
                  && (bounded.value == maximumBytes || u.blobBytes + u.reserved + bounded.value == l.blobBytes)
                  && after.reserved == u.reserved + bounded.value && after.blobReads == u.blobReads + 1
                  && after.exhaustions == u.exhaustions)
            && (bounded.None? ==>
                  && after.reserved == u.reserved && after.blobReads == u.blobReads
                  && after.exhaustions == u.exhaustions + 1)
            && (after.calls, after.metadataCalls, after.blobBytes) == (u.calls, u.metadataCalls, u.blobBytes)
  {
  }

  // An answer returns the reservation; its bytes count even when they are too
  // many, and reach the caller exactly when they are not.
  lemma EndTable(u: Usage, bounded: int, answer: Answer)
    ensures var (after, received) := End(u, bounded, answer);
            && (received.Some? <==> answer.Returned? && answer.bytes <= bounded)
            && (received.Some? ==> received.value == answer.bytes)
            && after.reserved == u.reserved - bounded
            && after.blobBytes == u.blobBytes + (if answer.Returned? then answer.bytes else 0)
            && after.exhaustions == u.exhaustions + (if answer.Returned? && answer.bytes > bounded then 1 else 0)
            && (after.calls, after.metadataCalls, after.blobReads) == (u.calls, u.metadataCalls, u.blobReads)
  {
  }

  // --- runs ----------------------------------------------------------------------

  // Usage, awaited bounds, bytes handed to callers, metadata calls made, and the
  // bounds that callers gave with the reads that were admitted.
  datatype World = World(usage: Usage, inFlight: seq<int>, delivered: nat, providerCalls: nat, admitted: seq<int>)

  datatype Step = Call(o: Operation) | Start(maximumBytes: int) | Finish(i: nat, answer: Answer)

  lemma AllOperations(o: Operation)
    ensures o in OPERATIONS
  {
  }

  function Next(l: Limits, w: World, step: Step): World
    requires w.usage.calls.Keys == OPERATIONS
  {
    match step
    case Call(o) =>
      assert o in OPERATIONS by { AllOperations(o); }
      var (u, granted) := Metadata(l, w.usage, o);
      w.(usage := u, providerCalls := w.providerCalls + if granted then 1 else 0)
    case Start(maximumBytes) =>
      var (u, bounded) := Begin(l, w.usage, maximumBytes);
      if bounded.None? then w.(usage := u)
      else w.(usage := u, inFlight := w.inFlight + [bounded.value], admitted := w.admitted + [maximumBytes])
    case Finish(i, answer) =>
      if i >= |w.inFlight| then w
      else
        var (u, received) := End(w.usage, w.inFlight[i], answer);
        w.(usage := u, inFlight := Without(w.inFlight, i),
           delivered := w.delivered + if received.Some? then received.value else 0)
  }

  // The bytes that negative bounds take off the reservations, and the bytes
  // that the other bounds ask for.
  function Lent(bounds: seq<int>): nat {
    if bounds == [] then 0
    else Lent(bounds[..|bounds| - 1]) + if bounds[|bounds| - 1] < 0 then -bounds[|bounds| - 1] else 0
  }

  function Wanted(bounds: seq<int>): nat {
    if bounds == [] then 0
    else Wanted(bounds[..|bounds| - 1]) + if bounds[|bounds| - 1] < 0 then 0 else bounds[|bounds| - 1]
  }

  // Counters never pass their limits and count exactly the provider's calls;
  // the reserved bytes are those of the awaited reads.
  ghost predicate Counted(l: Limits, w: World) {
    var u := w.usage;
    && u.calls.Keys == OPERATIONS
    && u.calls[ResolveRepository] + u.calls[ResolveCommit] + u.calls[ListTree] + u.calls[Compare] == u.metadataCalls
    && u.metadataCalls == w.providerCalls <= l.metadataCalls
    && u.blobReads == |w.admitted| <= l.blobReads && |w.inFlight| <= |w.admitted|
    && u.reserved == Sum(w.inFlight)
  }

  // Bytes received and still asked for pass the limit by no more than the
  // negative bounds lent, and are never more than the other bounds asked for.
  ghost predicate Bounded(l: Limits, w: World) {
    && w.delivered <= w.usage.blobBytes
    && w.delivered + Wanted(w.inFlight) <= l.blobBytes + Lent(w.admitted)
    && w.delivered + Wanted(w.inFlight) <= Wanted(w.admitted)
    && Lent(w.inFlight) <= Lent(w.admitted)
    && (l.blobBytes == 0 ==> w.admitted == [])
  }

  ghost predicate Accounted(l: Limits, w: World) {
    Counted(l, w) && Bounded(l, w)
  }

  lemma NextIsCounted(l: Limits, w: World, step: Step)
    requires Counted(l, w)
    ensures Counted(l, Next(l, w, step))
  {
    match step
    case Call(o) =>
      CallIsCounted(l, w, o);
    case Start(maximumBytes) =>
      var (u, bounded) := Begin(l, w.usage, maximumBytes);
      if bounded.Some? {
        SumAppend(w.inFlight, bounded.value);
      }
    case Finish(i, answer) =>
      if i < |w.inFlight| {
        SumWithout(w.inFlight, i);
      }
  }

  lemma CallIsCounted(l: Limits, w: World, o: Operation)
    requires Counted(l, w)
    ensures Counted(l, Next(l, w, Call(o)))
  {
    AllOperations(o);
    var calls := w.usage.calls;
    assert calls[o := calls[o] + 1].Keys == calls.Keys + {o};
    match o
    case ResolveRepository =>
    case ResolveCommit =>
    case ListTree =>
    case Compare =>
  }

  lemma PartsAppend(s: seq<int>, x: int)
    ensures Lent(s + [x]) == Lent(s) + if x < 0 then -x else 0
    ensures Wanted(s + [x]) == Wanted(s) + if x < 0 then 0 else x
  {
    assert (s + [x])[..|s|] == s;
  }

  lemma {:induction false} PartsAdd(s: seq<int>)
    ensures Sum(s) == Wanted(s) - Lent(s)
  {
    if s != [] {
      var n := |s| - 1;
      PartsAdd(s[..n]);
      SumAppend(s[..n], s[n]);
      assert s == s[..n] + [s[n]];
    }
  }

  lemma {:induction false} PartsWithout(s: seq<int>, i: nat)
    requires i < |s|
    ensures Lent(s) == Lent(Without(s, i)) + if s[i] < 0 then -s[i] else 0
    ensures Wanted(s) == Wanted(Without(s, i)) + if s[i] < 0 then 0 else s[i]
  {
    var n := |s| - 1;
    if i == n {
      assert Without(s, i) == s[..n];
    } else {
      PartsWithout(s[..n], i);
      assert Without(s, i) == Without(s[..n], i) + [s[n]];
      PartsAppend(Without(s[..n], i), s[n]);
    }
  }

  lemma StartIsBounded(l: Limits, w: World, maximumBytes: int)
    requires Accounted(l, w)
    ensures Bounded(l, Next(l, w, Start(maximumBytes)))
  {
    var (u, bounded) := Begin(l, w.usage, maximumBytes);
    PartsAdd(w.inFlight);
    if bounded.Some? {
      PartsAppend(w.inFlight, bounded.value);
      PartsAppend(w.admitted, maximumBytes);
    }
    hide Lent, Wanted, Sum;
  }

  lemma FinishIsBounded(l: Limits, w: World, i: nat, answer: Answer)
    requires Accounted(l, w) && i < |w.inFlight|
    ensures Bounded(l, Next(l, w, Finish(i, answer)))
  {
    hide Lent, Wanted, Sum, Counted;
    assert w.usage.calls.Keys == OPERATIONS by { CountedOperations(l, w); }
    PartsWithout(w.inFlight, i);
  }

  lemma CountedOperations(l: Limits, w: World)
    requires Counted(l, w)
    ensures w.usage.calls.Keys == OPERATIONS
  {
  }

  lemma AccountedOperations(l: Limits, w: World)
    requires Accounted(l, w)
    ensures w.usage.calls.Keys == OPERATIONS
  {
  }

  lemma NextIsBounded(l: Limits, w: World, step: Step)
    requires Accounted(l, w)
    ensures Bounded(l, Next(l, w, step))
  {
    match step
    case Call(o) => AllOperations(o);
    case Start(maximumBytes) => StartIsBounded(l, w, maximumBytes);
    case Finish(i, answer) =>
      if i < |w.inFlight| {
        FinishIsBounded(l, w, i, answer);
      }
  }

  lemma NextIsAccounted(l: Limits, w: World, step: Step)
    requires Accounted(l, w)
    ensures w.usage.calls.Keys == OPERATIONS && Accounted(l, Next(l, w, step))
  {
    hide Next;
    AccountedOperations(l, w);
    NextIsCounted(l, w, step);
    NextIsBounded(l, w, step);
  }

  const START := World(UNUSED, [], 0, 0, [])

  function Run(l: Limits, w: World, steps: seq<Step>): (r: World)
    requires Accounted(l, w)
    ensures Accounted(l, r)
    decreases |steps|
  {
    if steps == [] then w
    else
      NextIsAccounted(l, w, steps[0]);
      Run(l, Next(l, w, steps[0]), steps[1..])
  }

  // The bounds callers give, in the order of their calls.
  function Requested(steps: seq<Step>): seq<int> {
    if steps == [] then []
    else (if steps[0].Start? then [steps[0].maximumBytes] else []) + Requested(steps[1..])
  }

  // On every interleaving, calls and reads keep their limits, and bytes pass
  // theirs by no more than the negative bounds admitted so far have lent.
  lemma RunsKeepLimits(l: Limits, steps: seq<Step>)
    ensures Accounted(l, START)
    ensures var w := Run(l, START, steps);
            && w.providerCalls <= l.metadataCalls && |w.admitted| <= l.blobReads
            && w.usage.reserved == Sum(w.inFlight)
            && w.delivered + Sum(w.inFlight) <= l.blobBytes + Lent(w.admitted)
            && multiset(w.admitted) <= multiset(Requested(steps))
  {
    var w := Run(l, START, steps);
    PartsAdd(w.inFlight);
    AdmittedWereRequested(l, START, steps);
  }

  lemma {:induction false} AdmittedWereRequested(l: Limits, w: World, steps: seq<Step>)
    requires Accounted(l, w)
    ensures multiset(Run(l, w, steps).admitted) <= multiset(w.admitted) + multiset(Requested(steps))
    decreases |steps|
  {
    if steps != [] {
      NextIsAccounted(l, w, steps[0]);
      var next := Next(l, w, steps[0]);
      AdmittedWereRequested(l, next, steps[1..]);
      assert multiset(next.admitted) + multiset(Requested(steps[1..]))
          <= multiset(w.admitted) + multiset(Requested(steps));
    }
  }

  // --- exactly when some schedule passes the byte limit ---------------------

  // The most that at most `k` of the bounds that are not negative ask for.
  function Best(bounds: seq<int>, k: nat): nat {
    if bounds == [] || k == 0 then 0
    else
      var skip := Best(bounds[1..], k);
      if bounds[0] < 0 then skip
      else
        var take := bounds[0] + Best(bounds[1..], k - 1);
        if take > skip then take else skip
  }

  // Some read can run beside a negative bound, and those that may do so ask
  // for more than the limit.
  predicate CanPass(l: Limits, bounds: seq<int>) {
    && l.blobBytes > 0 && l.blobReads > 0
    && (exists b :: b in bounds && b < 0)
    && Best(bounds, l.blobReads - 1) > l.blobBytes
  }

  lemma {:induction false} BestIsLargest(bounds: seq<int>, k: nat, chosen: seq<int>)
    requires multiset(chosen) <= multiset(bounds) && |chosen| <= k && forall x :: x in chosen ==> x >= 0
    ensures Sum(chosen) <= Best(bounds, k)
  {
    if bounds == [] {
      assert |multiset(chosen)| <= |multiset(bounds)|;
      assert chosen == [];
    } else if chosen != [] {
      assert bounds == [bounds[0]] + bounds[1..];
      if bounds[0] in chosen {
        var i :| 0 <= i < |chosen| && chosen[i] == bounds[0];
        SumWithout(chosen, i);
        RestChosen(bounds, chosen, i);
        BestIsLargest(bounds[1..], k - 1, Without(chosen, i));
      } else {
        assert multiset(chosen) <= multiset(bounds[1..]);
        BestIsLargest(bounds[1..], k, chosen);
      }
    }
  }

  lemma RestChosen(bounds: seq<int>, chosen: seq<int>, i: nat)
    requires multiset(chosen) <= multiset(bounds) && bounds != [] && i < |chosen| && chosen[i] == bounds[0]
    ensures multiset(Without(chosen, i)) <= multiset(bounds[1..])
  {
    TakenOnce(chosen, i);
    TakenOnce(bounds, 0);
    assert Without(bounds, 0) == bounds[1..];
    SmallerWithout(multiset(Without(chosen, i)), multiset(bounds[1..]), bounds[0]);
  }

  lemma SmallerWithout(a: multiset<int>, b: multiset<int>, x: int)
    requires a + multiset{x} <= b + multiset{x}
    ensures a <= b
  {
    forall y | y in a
      ensures a[y] <= b[y]
    {
      assert (a + multiset{x})[y] <= (b + multiset{x})[y];
    }
  }

  lemma TakenOnce(s: seq<int>, i: nat)
    requires i < |s|
    ensures multiset(s) == multiset(Without(s, i)) + multiset{s[i]}
  {
    assert s == s[..i] + [s[i]] + s[i + 1..];
  }

  lemma {:induction false} BestIsReached(bounds: seq<int>, k: nat) returns (chosen: seq<int>)
    ensures multiset(chosen) <= multiset(bounds) && |chosen| <= k && forall x :: x in chosen ==> x >= 0
    ensures Sum(chosen) == Best(bounds, k)
  {
    chosen := [];
    if bounds != [] && k > 0 {
      assert bounds == [bounds[0]] + bounds[1..];
      chosen := BestIsReached(bounds[1..], k);
      if bounds[0] >= 0 && bounds[0] + Best(bounds[1..], k - 1) > Best(bounds[1..], k) {
        var rest := BestIsReached(bounds[1..], k - 1);
        chosen := [bounds[0]] + rest;
        assert multiset(chosen) == multiset{bounds[0]} + multiset(rest);
      }
    }
  }

  // The bounds that are not negative, in order.
  function NonNegative(s: seq<int>): (r: seq<int>)
    ensures forall x :: x in r ==> x >= 0
  {
    if s == [] then []
    else NonNegative(s[..|s| - 1]) + if s[|s| - 1] < 0 then [] else [s[|s| - 1]]
  }

  lemma {:induction false} NonNegativePart(s: seq<int>)
    ensures Sum(NonNegative(s)) == Wanted(s) && multiset(NonNegative(s)) <= multiset(s)
    ensures Lent(s) > 0 ==> |NonNegative(s)| < |s| && exists b :: b in s && b < 0
    ensures |NonNegative(s)| <= |s|
  {
    if s != [] {
      var n := |s| - 1;
      NonNegativePart(s[..n]);
      assert s == s[..n] + [s[n]];
      if s[n] >= 0 {
        SumAppend(NonNegative(s[..n]), s[n]);
        if Lent(s) > 0 {
          var b :| b in s[..n] && b < 0;
          assert b in s;
        }
      } else {
        assert NonNegative(s) == NonNegative(s[..n]);
        assert s[n] in s;
      }
    }
  }

  lemma PassingNeedsLending(l: Limits, steps: seq<Step>, bounds: seq<int>)
    requires multiset(Requested(steps)) <= multiset(bounds)
    requires Accounted(l, START) && Run(l, START, steps).delivered > l.blobBytes
    ensures CanPass(l, bounds)
  {
    hide Run, Requested, Next;
    var w := Run(l, START, steps);
    AdmittedWereRequested(l, START, steps);
    assert multiset(w.admitted) <= multiset(bounds);
    PassedWorld(l, w, bounds);
  }

  lemma PassedWorld(l: Limits, w: World, bounds: seq<int>)
    requires Accounted(l, w) && w.delivered > l.blobBytes && multiset(w.admitted) <= multiset(bounds)
    ensures CanPass(l, bounds)
  {
    hide Lent, Wanted, Sum, Best, NonNegative;
    NonNegativePart(w.admitted);
    assert Wanted(w.inFlight) >= 0 && Lent(w.admitted) > 0;
    assert w.admitted != [];
    var b :| b in w.admitted && b < 0;
    assert b in multiset(w.admitted) && b in multiset(bounds);
    assert b in bounds && b < 0;
    assert l.blobBytes > 0 && l.blobReads > 0;
    BestIsLargest(bounds, l.blobReads - 1, NonNegative(w.admitted));
  }

  // A schedule that passes: lend, start the chosen reads, let them deliver.
  function Starts(bounds: seq<int>): (steps: seq<Step>)
    ensures |steps| == |bounds|
  {
    if bounds == [] then [] else [Start(bounds[0])] + Starts(bounds[1..])
  }

  function Deliveries(awaited: seq<nat>): seq<Step> {
    if awaited == [] then [] else [Finish(1, Returned(awaited[0]))] + Deliveries(awaited[1..])
  }

  lemma {:induction false} RunConcat(l: Limits, w: World, a: seq<Step>, b: seq<Step>)
    requires Accounted(l, w)
    ensures Run(l, w, a + b) == Run(l, Run(l, w, a), b)
    decreases |a|
  {
    if a == [] {
      assert a + b == b;
    } else {
      NextIsAccounted(l, w, a[0]);
      assert (a + b)[1..] == a[1..] + b;
      RunConcat(l, Next(l, w, a[0]), a[1..], b);
    }
  }

  lemma {:induction false} RequestedConcat(a: seq<Step>, b: seq<Step>)
    ensures Requested(a + b) == Requested(a) + Requested(b)
  {
    if a == [] {
      assert a + b == b;
    } else {
      assert (a + b)[1..] == a[1..] + b;
      RequestedConcat(a[1..], b);
    }
  }

  lemma {:induction false} RequestedByStarts(bounds: seq<int>, awaited: seq<nat>)
    ensures Requested(Starts(bounds)) == bounds && Requested(Deliveries(awaited)) == []
    decreases |bounds| + |awaited|
  {
    if bounds != [] {
      RequestedByStarts(bounds[1..], awaited);
      assert bounds == [bounds[0]] + bounds[1..];
    } else if awaited != [] {
      RequestedByStarts(bounds, awaited[1..]);
    }
  }

  // Only the lending read and others that are not negative are awaited.
  ghost predicate Lending(w: World, lender: int, awaited: seq<nat>) {
    w.inFlight == [lender] + awaited && w.usage.reserved == lender + Sum(awaited)
  }

  function AtMost(x: int, most: int): int {
    if x < most then x else most
  }

  // One more read beside the lending one.
  lemma StartFills(l: Limits, w: World, lender: int, awaited: seq<nat>, bound: nat) returns (more: seq<nat>)
    requires Accounted(l, w) && Lending(w, lender, awaited) && lender < 0 && w.usage.blobBytes == 0
    requires w.usage.blobReads < l.blobReads && Sum(awaited) <= l.blobBytes - lender
    ensures var next := Next(l, w, Start(bound));
            && Accounted(l, next) && Lending(next, lender, more) && next.delivered == w.delivered
            && next.usage.blobBytes == 0 && next.usage.blobReads <= w.usage.blobReads + 1
            && Sum(more) == AtMost(Sum(awaited) + bound, l.blobBytes - lender)
  {
    hide Accounted;
    AccountedOperations(l, w);
    NextIsAccounted(l, w, Start(bound));
    var remaining := l.blobBytes - lender - Sum(awaited);
    if remaining == 0 {
      more := awaited;
    } else {
      var bounded: nat := AtMost(bound, remaining);
      SumAppend(awaited, bounded);
      more := awaited + [bounded];
      assert Next(l, w, Start(bound)).inFlight == [lender] + more;
    }
  }

  lemma {:induction false} StartsFill(l: Limits, w: World, lender: int, awaited: seq<nat>, chosen: seq<int>)
      returns (filled: seq<nat>)
    requires Accounted(l, w) && Lending(w, lender, awaited) && lender < 0 && w.usage.blobBytes == 0
    requires (forall x :: x in chosen ==> x >= 0) && w.usage.blobReads + |chosen| <= l.blobReads
    requires Sum(awaited) <= l.blobBytes - lender
    ensures var r := Run(l, w, Starts(chosen));
            && Lending(r, lender, filled) && r.delivered == w.delivered && r.usage.blobBytes == 0
            && Sum(filled) == AtMost(Sum(awaited) + Sum(chosen), l.blobBytes - lender)
    decreases |chosen|
  {
    hide Accounted, Lending, Next;
    if chosen == [] {
      filled := awaited;
    } else {
      var first := Start(chosen[0]);
      assert chosen[0] in chosen;
      AccountedOperations(l, w);
      var more := StartFills(l, w, lender, awaited, chosen[0]);
      var rest := chosen[1..];
      assert forall x :: x in rest ==> x in chosen;
      SumOfCounts(rest);
      filled := StartsFill(l, Next(l, w, first), lender, more, rest);
      assert Starts(chosen)[0] == first && Starts(chosen)[1..] == Starts(rest);
    }
  }

  lemma {:induction false} DeliveriesArrive(l: Limits, w: World, lender: int, awaited: seq<nat>)
    requires Accounted(l, w) && w.inFlight == [lender] + awaited
    ensures Run(l, w, Deliveries(awaited)).delivered == w.delivered + Sum(awaited)
    decreases |awaited|
  {
    if awaited != [] {
      var first := Finish(1, Returned(awaited[0]));
      NextIsAccounted(l, w, first);
      assert Without(w.inFlight, 1) == [lender] + awaited[1..];
      DeliveriesArrive(l, Next(l, w, first), lender, awaited[1..]);
    }
  }

  lemma LentWorld(l: Limits, lender: int)
    requires l.blobBytes > 0 && l.blobReads > 0 && lender < 0
    ensures Accounted(l, START)
    ensures var w := Next(l, START, Start(lender));
            && Accounted(l, w) && Lending(w, lender, []) && w.usage.blobBytes == 0 && w.usage.blobReads == 1
            && w.delivered == 0
  {
    NextIsAccounted(l, START, Start(lender));
    assert Next(l, START, Start(lender)).inFlight == [lender] + [];
  }

  lemma ScheduleDelivers(l: Limits, lender: int, chosen: seq<int>) returns (steps: seq<Step>)
    requires l.blobBytes > 0 && 1 + |chosen| <= l.blobReads && lender < 0
    requires (forall x :: x in chosen ==> x >= 0) && Sum(chosen) > l.blobBytes
    ensures Requested(steps) == [lender] + chosen
    ensures Accounted(l, START) && Run(l, START, steps).delivered > l.blobBytes
  {
    hide Accounted, Lending, Next, Requested, Starts, Deliveries;
    LentWorld(l, lender);
    var lent := Next(l, START, Start(lender));
    var filled := StartsFill(l, lent, lender, [], chosen);
    var full := Run(l, lent, Starts(chosen));
    LendingAwaits(full, lender, filled);
    DeliveriesArrive(l, full, lender, filled);
    RunConcat(l, lent, Starts(chosen), Deliveries(filled));
    steps := [Start(lender)] + (Starts(chosen) + Deliveries(filled));
    assert steps[1..] == Starts(chosen) + Deliveries(filled);
    RequestedConcat(Starts(chosen), Deliveries(filled));
    RequestedByStarts(chosen, filled);
    RequestedFirst(lender, steps);
  }

  lemma LendingAwaits(w: World, lender: int, awaited: seq<nat>)
    requires Lending(w, lender, awaited)
    ensures w.inFlight == [lender] + awaited
  {
  }

  lemma RequestedFirst(bound: int, steps: seq<Step>)
    requires steps != [] && steps[0] == Start(bound)
    ensures Requested(steps) == [bound] + Requested(steps[1..])
  {
  }

  lemma LendingPasses(l: Limits, bounds: seq<int>) returns (steps: seq<Step>)
    requires CanPass(l, bounds)
    ensures multiset(Requested(steps)) <= multiset(bounds)
    ensures Accounted(l, START) && Run(l, START, steps).delivered > l.blobBytes
  {
    hide Run, Requested, Accounted, Best, Sum;
    var lender :| lender in bounds && lender < 0;
    var chosen := BestIsReached(bounds, l.blobReads - 1);
    steps := ScheduleDelivers(l, lender, chosen);
    assert multiset([lender] + chosen) == multiset{lender} + multiset(chosen);
    assert lender !in chosen;
    forall y | y in multiset([lender] + chosen)
      ensures multiset([lender] + chosen)[y] <= multiset(bounds)[y]
    {
      assert y == lender ==> multiset(chosen)[y] == 0;
    }
  }

  // Some schedule of reads with these bounds delivers more than the limit if
  // and only if one bound is negative and, beside it, as many reads as the read
  // limit leaves ask for more than the byte limit.
  lemma PassesExactly(l: Limits, bounds: seq<int>)
    ensures Accounted(l, START)
    ensures CanPass(l, bounds) <==>
            exists steps ::
              multiset(Requested(steps)) <= multiset(bounds) && Run(l, START, steps).delivered > l.blobBytes
  {
    forall steps | multiset(Requested(steps)) <= multiset(bounds) && Run(l, START, steps).delivered > l.blobBytes
      ensures CanPass(l, bounds)
    {
      PassingNeedsLending(l, steps, bounds);
    }
    if CanPass(l, bounds) {
      var steps := LendingPasses(l, bounds);
    }
  }

  // The smallest such schedule: one negative bound, and one read beside it.
  lemma NegativeBoundsLendBytes(l: Limits, lender: int)
    requires l.blobBytes > 0 && l.blobReads >= 2 && lender < 0
    ensures Accounted(l, START)
    ensures var most: nat := l.blobBytes - lender;
            Run(l, START, [Start(lender), Start(most), Finish(1, Returned(most))]).delivered == most
  {
    hide Accounted, Lending;
    var most: nat := l.blobBytes - lender;
    LentWorld(l, lender);
    var lent := Next(l, START, Start(lender));
    var full := Next(l, lent, Start(most));
    SecondIsAdmitted(l, lender);
    DeliveriesArrive(l, full, lender, [most]);
    var steps := [Start(lender), Start(most), Finish(1, Returned(most))];
    assert steps[1..] == [Start(most), Finish(1, Returned(most))];
    assert steps[1..][1..] == Deliveries([most]);
    assert Run(l, lent, steps[1..]) == Run(l, full, Deliveries([most]));
    assert Sum([most]) == most;
  }

  lemma SecondIsAdmitted(l: Limits, lender: int)
    requires l.blobBytes > 0 && l.blobReads >= 2 && lender < 0
    requires Accounted(l, Next(l, START, Start(lender)))
    ensures var w := Next(l, Next(l, START, Start(lender)), Start(l.blobBytes - lender));
            Accounted(l, w) && w.inFlight == [lender] + [l.blobBytes - lender] && w.delivered == 0
  {
    var lent := Next(l, START, Start(lender));
    NextIsAccounted(l, lent, Start(l.blobBytes - lender));
  }
}
