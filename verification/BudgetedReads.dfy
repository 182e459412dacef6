// Blob reads under the execution budget. A read reserves before its provider
// call and settles afterwards, so a run interleaves starts and finishes.
module BudgetedReads {
  import opened Outcomes
  import opened ExecutionBudget
  import opened Sums

  datatype Started = Started(reserved: nat) | NotStarted(dimension: Dimension) | BadBound | BudgetBug

  // The provider fails, throws, or returns some number of bytes.
  datatype Answer = Failed | Threw | Returned(bytes: nat)
  datatype Finished = Delivered(bytes: nat) | NotDelivered | Oversized | Rethrown

  predicate GoodBound(maximumBytes: int) {
    0 <= maximumBytes <= MAX_SAFE_INTEGER
  }

  function Start(l: Ledger, maximumBytes: int, latency: nat): (Ledger, Started)
    requires WellFormed(l)
  {
    var remaining := Remaining(l, SourceBytes);
    if !GoodBound(maximumBytes) then (l, BadBound)
    else if maximumBytes > 0 && remaining == 0 then
      match Reserve(l, [(SourceBytes, 1)], latency)
      case (after, Refused(d)) => (after, NotStarted(d))
      case (after, _) => (after, BudgetBug)
    else
      var reserved := if maximumBytes < remaining then maximumBytes else remaining;
      match Reserve(l, [(ProviderRequests, 1), (SourceBytes, reserved)], latency)
      case (after, Reserved) => (after, Started(reserved))
      case (after, Refused(d)) => (after, NotStarted(d))
      case (after, RangeError) => (after, BudgetBug)
  }

  function Finish(l: Ledger, reserved: nat, answer: Answer, latency: nat): (Ledger, Finished)
    requires WellFormed(l)
  {
    match answer
    case Failed => (Release(l, [(SourceBytes, reserved)]).0, NotDelivered)
    case Threw => (Release(l, [(SourceBytes, reserved)]).0, Rethrown)
    case Returned(bytes) =>
      if bytes > reserved then
        var (after, reply) := Reserve(l, [(SourceBytes, Remaining(l, SourceBytes) + 1)], latency);
        if reply == RangeError then (Release(l, [(SourceBytes, reserved)]).0, Rethrown) else (after, Oversized)
      else
        (Release(l, [(SourceBytes, reserved - bytes)]).0, Delivered(bytes))
  }

  class Reader {
    const budget: Budget

    constructor (budget: Budget)
      ensures this.budget == budget
    {
      this.budget := budget;
    }

    // readBlob up to its provider call.
    method Begin(maximumBytes: int, latency: nat) returns (r: Started)
      requires WellFormed(budget.State())
      modifies budget
      ensures (budget.State(), r) == Start(old(budget.State()), maximumBytes, latency)
    {
      hide AmountOf, FirstOver, Entered, SafeAmounts;
      if !GoodBound(maximumBytes) {
        return BadBound;
      }
      var remaining := budget.limits[SourceBytes] - budget.usage[SourceBytes];
      if maximumBytes > 0 && remaining == 0 {
        var reply := budget.ReserveEntries([(SourceBytes, 1)], latency);
        return if reply.Refused? then NotStarted(reply.dimension) else BudgetBug;
      }
      var reserved := if maximumBytes < remaining then maximumBytes else remaining;
      var reply := budget.ReserveEntries([(ProviderRequests, 1), (SourceBytes, reserved)], latency);
      match reply
      case Reserved => r := Started(reserved);
      case Refused(d) => r := NotStarted(d);
      case RangeError => r := BudgetBug;
    }

    // readBlob from its provider's answer on.
    method End(reserved: nat, answer: Answer, latency: nat) returns (r: Finished)
      requires WellFormed(budget.State())
      modifies budget
      ensures (budget.State(), r) == Finish(old(budget.State()), reserved, answer, latency)
    {
      match answer
      case Failed =>
        var _ := budget.ReleaseEntries([(SourceBytes, reserved)]);
        r := NotDelivered;
      case Threw =>
        var _ := budget.ReleaseEntries([(SourceBytes, reserved)]);
        r := Rethrown;
      case Returned(bytes) =>
        if bytes > reserved {
          var force := budget.limits[SourceBytes] - budget.usage[SourceBytes] + 1;
          var reply := budget.ReserveEntries([(SourceBytes, force)], latency);
          if reply == RangeError {
            var _ := budget.ReleaseEntries([(SourceBytes, reserved)]);
            r := Rethrown;
          } else {
            r := Oversized;
          }
        } else {
          var _ := budget.ReleaseEntries([(SourceBytes, reserved - bytes)]);
          r := Delivered(bytes);
        }
    }
  }

  // --- runs ---------------------------------------------------------------

  // A read that was handed to its caller, under the bound the caller gave.
  datatype Read = Read(maximumBytes: int, bytes: nat)

  // The ledger, the reservations still awaiting an answer with the bounds their
  // callers gave, the bytes handed to callers and the reads they came in, the
  // reservations kept after oversize answers, and whether any was ever refused.
  datatype World = World(
    ledger: Ledger, inFlight: seq<nat>, bounds: seq<int>, delivered: nat, handed: seq<Read>, retained: nat,
        refused: bool)

  datatype Step =
    | StartRead(maximumBytes: int, latency: nat)
    | FinishRead(i: nat, answer: Answer, latency: nat)
    | OtherUse(entries: Entries, latency: nat)

  // Storage queries, artifacts and provider calls reserve no source bytes.
  predicate Allowed(step: Step) {
    step.OtherUse? ==> Entered(step.entries) && forall e :: e in step.entries ==> e.0 != SourceBytes
  }

  function Next(w: World, step: Step): World
    requires WellFormed(w.ledger) && Allowed(step)
  {
    match step
    case StartRead(maximumBytes, latency) =>
      var (ledger, r) := Start(w.ledger, maximumBytes, latency);
      w.(ledger := ledger, inFlight := if r.Started? then w.inFlight + [r.reserved] else w.inFlight,
         bounds := if r.Started? then w.bounds + [maximumBytes] else w.bounds,
         refused := w.refused || r.NotStarted?)
    case FinishRead(i, answer, latency) =>
      if i >= |w.inFlight| || i >= |w.bounds| then w
      else
        var (ledger, r) := Finish(w.ledger, w.inFlight[i], answer, latency);
        World(ledger, Without(w.inFlight, i), Without(w.bounds, i),
              w.delivered + (if r.Delivered? then r.bytes else 0),
              w.handed + (if r.Delivered? then [Read(w.bounds[i], r.bytes)] else []),
              w.retained + (if r.Oversized? then w.inFlight[i] else 0),
              w.refused || r.Oversized?)
    case OtherUse(entries, latency) =>
      var (ledger, r) := Reserve(w.ledger, entries, latency);
      w.(ledger := ledger, refused := w.refused || r.Refused?)
  }

  // Every byte of source budget in use is delivered, awaited or retained; no
  // limit is passed; a dimension is exhausted exactly if something was refused.
  ghost predicate Conserved(w: World) {
    && WellFormed(w.ledger)
    && w.ledger.usage[SourceBytes] == w.delivered + Sum(w.inFlight) + w.retained
    && (w.refused <==> w.ledger.exhausted != {})
  }

  function BytesOf(handed: seq<Read>): nat {
    if handed == [] then 0 else BytesOf(handed[..|handed| - 1]) + handed[|handed| - 1].bytes
  }

  // Every awaited and every delivered read is within its caller's bound.
  ghost predicate WithinBounds(w: World) {
    && |w.bounds| == |w.inFlight| && (forall i :: 0 <= i < |w.inFlight| ==> w.inFlight[i] <= w.bounds[i])
    && (forall x :: x in w.handed ==> x.bytes <= x.maximumBytes) && w.delivered == BytesOf(w.handed)
  }

  // --- what one read does ----------------------------------------------------

  function Smaller(a: int, b: int): int {
    if a < b then a else b
  }

  // When a read is started, for how much, and what it takes from the ledger; and
  // why it is not started otherwise.
  lemma StartTable(l: Ledger, maximumBytes: int, latency: nat)
    requires WellFormed(l)
    ensures var (after, r) := Start(l, maximumBytes, latency);
            var left := l.limits[SourceBytes] - l.usage[SourceBytes];
            && (r == BadBound <==> !(0 <= maximumBytes <= MAX_SAFE_INTEGER)) && r != BudgetBug
            && (r.Started? <==>
                  && r != BadBound && latency <= l.limits[LatencyMs]
                  && l.usage[ProviderRequests] < l.limits[ProviderRequests] && (maximumBytes == 0 || left > 0))
            && (r.Started? ==>
                  && r.reserved == Smaller(maximumBytes, left)
                  && after == l.(usage := l.usage[ProviderRequests := l.usage[ProviderRequests] + 1]
                                                 [SourceBytes := l.usage[SourceBytes] + r.reserved]))
            && (r == BadBound ==> after == l)
            && (r.NotStarted? ==>
                  && after == l.(exhausted := l.exhausted + {r.dimension})
                  && r.dimension == if latency > l.limits[LatencyMs] then LatencyMs
                                    else if maximumBytes > 0 && left == 0 then SourceBytes
                                    else ProviderRequests)
  {
    if GoodBound(maximumBytes) {
      var left := Remaining(l, SourceBytes);
      if maximumBytes > 0 && left == 0 {
        OneEntry(l, SourceBytes, 1, latency);
        assert SafeAmounts([(SourceBytes, 1)]);
      } else {
        ReserveForRead(l, Smaller(maximumBytes, left), latency);
      }
    }
  }

  lemma ReserveForRead(l: Ledger, reserved: nat, latency: nat)
    requires WellFormed(l) && reserved <= Remaining(l, SourceBytes)
    ensures var entries := [(ProviderRequests, 1), (SourceBytes, reserved)];
            && Entered(entries)
            && var (after, reply) := Reserve(l, entries, latency);
               && reply == (if latency > l.limits[LatencyMs] then Refused(LatencyMs)
                            else if l.usage[ProviderRequests] >= l.limits[ProviderRequests]
                            then Refused(ProviderRequests)
                            else Reserved)
               && (reply == Reserved ==>
                     after == l.(usage := l.usage[ProviderRequests := l.usage[ProviderRequests] + 1]
                                                 [SourceBytes := l.usage[SourceBytes] + reserved]))
               && (reply.Refused? ==> after == l.(exhausted := l.exhausted + {reply.dimension}))
  {
    var entries := [(ProviderRequests, 1), (SourceBytes, reserved)];
    assert entries[1..] == [(SourceBytes, reserved)];
    OneEntry(l, SourceBytes, reserved, latency);
    assert forall d :: AmountOf(entries, d) ==
                       if d == ProviderRequests then 1 else if d == SourceBytes then reserved else 0;
    var (after, reply) := Reserve(l, entries, latency);
    if reply == Reserved {
      assert after.usage == l.usage[ProviderRequests := l.usage[ProviderRequests] + 1]
                                   [SourceBytes := l.usage[SourceBytes] + reserved];
    }
  }

  lemma ReleaseBytes(l: Ledger, amount: nat)
    requires WellFormed(l) && amount <= l.usage[SourceBytes]
    ensures Entered([(SourceBytes, amount)])
    ensures Release(l, [(SourceBytes, amount)]) ==
            (l.(usage := l.usage[SourceBytes := l.usage[SourceBytes] - amount]), true)
  {
    OneEntry(l, SourceBytes, amount, 0);
    ReleaseFits(l, amount);
    var after := Release(l, [(SourceBytes, amount)]).0;
    assert after.usage == l.usage[SourceBytes := l.usage[SourceBytes] - amount];
  }

  // What an answer is turned into, and what it gives back to the ledger.
  lemma FinishTable(l: Ledger, reserved: nat, answer: Answer, latency: nat)
    requires WellFormed(l) && reserved <= l.usage[SourceBytes]
    ensures var (after, r) := Finish(l, reserved, answer, latency);
            var returned := l.(usage := l.usage[SourceBytes := l.usage[SourceBytes] - reserved]);
            match answer
            case Failed => r == NotDelivered && after == returned
            case Threw => r == Rethrown && after == returned
            case Returned(bytes) =>
              if bytes <= reserved then
                && r == Delivered(bytes)
                && after == l.(usage := l.usage[SourceBytes := l.usage[SourceBytes] - reserved + bytes])
              else if l.limits[SourceBytes] - l.usage[SourceBytes] + 1 > MAX_SAFE_INTEGER then
                r == Rethrown && after == returned
              else
                && r == Oversized
                && after == l.(exhausted := l.exhausted +
                                            {if latency > l.limits[LatencyMs] then LatencyMs else SourceBytes})
  {
    match answer
    case Failed => ReleaseBytes(l, reserved);
    case Threw => ReleaseBytes(l, reserved);
    case Returned(bytes) =>
      if bytes <= reserved {
        ReleaseBytes(l, reserved - bytes);
      } else {
        ReleaseBytes(l, reserved);
        OneEntry(l, SourceBytes, Remaining(l, SourceBytes) + 1, latency);
      }
  }

  lemma OneEntry(l: Ledger, d: Dimension, amount: nat, latency: nat)
    requires WellFormed(l) && d in RESERVABLE
    ensures Entered([(d, amount)])
    ensures forall x :: AmountOf([(d, amount)], x) == if x == d then amount else 0
    ensures FirstOver(l, [(d, amount)]) == if l.usage[d] + amount > l.limits[d] then Some(d) else None
  {
    assert [(d, amount)][1..] == [];
  }

  lemma BlobReservation(l: Ledger, reserved: nat, latency: nat)
    requires WellFormed(l) && reserved <= Remaining(l, SourceBytes)
    ensures var entries := [(ProviderRequests, 1), (SourceBytes, reserved)];
            && Entered(entries)
            && var (after, reply) := Reserve(l, entries, latency);
               && WellFormed(after) && reply != RangeError
               && (reply == Reserved ==> after.exhausted == l.exhausted &&
                                         after.usage[SourceBytes] == l.usage[SourceBytes] + reserved)
               && (reply.Refused? ==> after.exhausted != {} && after.usage == l.usage)
  {
    var entries := [(ProviderRequests, 1), (SourceBytes, reserved)];
    assert entries[1..] == [(SourceBytes, reserved)];
    OneEntry(l, SourceBytes, reserved, latency);
    AmountIsEntry(entries, 1);
    ReserveKeepsLimits(l, entries, latency);
  }

  lemma StartConserves(w: World, maximumBytes: int, latency: nat)
    requires Conserved(w)
    ensures Conserved(Next(w, StartRead(maximumBytes, latency)))
    ensures Start(w.ledger, maximumBytes, latency).1 != BudgetBug
  {
    hide Reserve, WellFormed;
    var l := w.ledger;
    var remaining := Remaining(l, SourceBytes);
    ForcedReserveIsRefused(l, latency);
    if GoodBound(maximumBytes) {
      var reserved := if maximumBytes < remaining then maximumBytes else remaining;
      BlobReservation(l, reserved, latency);
      SumAppend(w.inFlight, reserved);
      if maximumBytes > 0 && remaining == 0 {
        OneByteForce(l, latency);
      }
    }
  }

  lemma OneByteForce(l: Ledger, latency: nat)
    requires WellFormed(l) && Remaining(l, SourceBytes) == 0
    ensures Reserve(l, [(SourceBytes, 1)], latency).1 != RangeError
  {
  }

  // Settling an awaited read never asks to release more than is in use.
  lemma ReleaseFits(l: Ledger, amount: nat)
    requires WellFormed(l) && amount <= l.usage[SourceBytes]
    ensures var (after, ok) := Release(l, [(SourceBytes, amount)]);
            ok && WellFormed(after) && after.exhausted == l.exhausted &&
            after.usage[SourceBytes] == l.usage[SourceBytes] - amount
  {
    OneEntry(l, SourceBytes, amount, 0);
    ReleaseKeepsLimits(l, [(SourceBytes, amount)]);
  }

  lemma FinishConserves(w: World, i: nat, answer: Answer, latency: nat)
    requires Conserved(w)
    ensures Conserved(Next(w, FinishRead(i, answer, latency)))
  {
    hide Release, Reserve, WellFormed;
    if i < |w.inFlight| && i < |w.bounds| {
      var l, reserved := w.ledger, w.inFlight[i];
      SumWithout(w.inFlight, i);
      SumOfCounts(Without(w.inFlight, i));
      ReleaseFits(l, reserved);
      if answer.Returned? {
        if answer.bytes > reserved {
          ForcedReserveIsRefused(l, latency);
        } else {
          ReleaseFits(l, reserved - answer.bytes);
        }
      }
    }
  }

  // Reserving one byte more than remains always fails and leaves usage alone.
  lemma ForcedReserveIsRefused(l: Ledger, latency: nat)
    requires WellFormed(l)
    ensures var (after, reply) := Reserve(l, [(SourceBytes, Remaining(l, SourceBytes) + 1)], latency);
            && WellFormed(after) && after.usage == l.usage && reply != Reserved
            && (reply.Refused? ==> after.exhausted != {})
            && (reply == RangeError ==> l.usage[SourceBytes] == 0)
  {
    var force := Remaining(l, SourceBytes) + 1;
    OneEntry(l, SourceBytes, force, latency);
    ReserveKeepsLimits(l, [(SourceBytes, force)], latency);
    if force <= MAX_SAFE_INTEGER {
      assert SafeAmounts([(SourceBytes, force)]);
    }
  }

  lemma OtherUseConserves(w: World, entries: Entries, latency: nat)
    requires Conserved(w) && Allowed(OtherUse(entries, latency))
    ensures Conserved(Next(w, OtherUse(entries, latency)))
  {
    ReserveKeepsLimits(w.ledger, entries, latency);
    NoEntryNoAmount(entries, SourceBytes);
  }

  lemma NextConserves(w: World, step: Step)
    requires Conserved(w) && Allowed(step)
    ensures Conserved(Next(w, step)) && (w.refused ==> Next(w, step).refused)
  {
    hide Conserved, Start, Finish;
    match step
    case StartRead(maximumBytes, latency) => StartConserves(w, maximumBytes, latency);
    case FinishRead(i, answer, latency) => FinishConserves(w, i, answer, latency);
    case OtherUse(entries, latency) => OtherUseConserves(w, entries, latency);
  }

  lemma NextStaysWithin(w: World, step: Step)
    requires Conserved(w) && WithinBounds(w) && Allowed(step)
    ensures WithinBounds(Next(w, step))
  {
    hide Start, Finish, Reserve, Conserved;
    assert WellFormed(w.ledger) by { ConservedLedger(w); }
    match step
    case StartRead(maximumBytes, latency) =>
      StartTable(w.ledger, maximumBytes, latency);
    case FinishRead(i, answer, latency) =>
      if i < |w.inFlight| {
        AwaitedIsUsed(w, i);
        FinishTable(w.ledger, w.inFlight[i], answer, latency);
        var next := Next(w, step);
        forall j | 0 <= j < |next.inFlight| ensures next.inFlight[j] <= next.bounds[j] {
          var k := if j < i then j else j + 1;
          assert next.inFlight[j] == w.inFlight[k] && next.bounds[j] == w.bounds[k];
        }
        HandedOver(w.handed, w.bounds[i], Finish(w.ledger, w.inFlight[i], answer, latency).1);
      }
    case OtherUse(entries, latency) =>
  }

  lemma HandedOver(handed: seq<Read>, maximumBytes: int, r: Finished)
    requires (forall x :: x in handed ==> x.bytes <= x.maximumBytes) && (r.Delivered? ==> r.bytes <= maximumBytes)
    ensures var after := handed + (if r.Delivered? then [Read(maximumBytes, r.bytes)] else []);
            && (forall x :: x in after ==> x.bytes <= x.maximumBytes)
            && BytesOf(after) == BytesOf(handed) + if r.Delivered? then r.bytes else 0
  {
    if r.Delivered? {
      assert (handed + [Read(maximumBytes, r.bytes)])[..|handed|] == handed;
    } else {
      assert handed + [] == handed;
    }
  }

  lemma ConservedLedger(w: World)
    requires Conserved(w)
    ensures WellFormed(w.ledger)
  {
  }

  lemma AwaitedIsUsed(w: World, i: nat)
    requires Conserved(w) && i < |w.inFlight|
    ensures w.inFlight[i] <= w.ledger.usage[SourceBytes]
  {
    SumWithout(w.inFlight, i);
    SumOfCounts(Without(w.inFlight, i));
  }

  // Any interleaving of starts, answers and other uses, from the first step on.
  function Run(w: World, steps: seq<Step>): (r: World)
    requires Conserved(w) && forall s :: s in steps ==> Allowed(s)
    ensures Conserved(r) && (w.refused ==> r.refused) && (WithinBounds(w) ==> WithinBounds(r))
    decreases |steps|
  {
    if steps == [] then w
    else
      NextConserves(w, steps[0]);
      assert WithinBounds(w) ==> WithinBounds(Next(w, steps[0])) by {
        if WithinBounds(w) { NextStaysWithin(w, steps[0]); }
      }
      Run(Next(w, steps[0]), steps[1..])
  }

  function NewWorld(limits: map<Dimension, nat>): World {
    World(Ledger(limits, map d | d in RESERVABLE :: 0, {}), [], [], 0, [], 0, false)
  }

  lemma NewWorldIsConserved(limits: map<Dimension, nat>)
    requires limits.Keys == RESERVABLE + {LatencyMs} && forall d :: d in limits ==> limits[d] <= MAX_SAFE_INTEGER
    ensures Conserved(NewWorld(limits))
  {
  }

  // How a run is reported: its own result, and the exhausted dimensions.
  predicate ReportedComplete(resultPartial: bool, reported: set<Dimension>) {
    !resultPartial && reported == {}
  }

  // What every finished or unfinished run guarantees, and what its report means:
  // it is complete exactly when its result is, nothing was refused and time sufficed.
  lemma RunsStayWithinBudget(limits: map<Dimension, nat>, steps: seq<Step>, latency: nat, resultPartial: bool)
    requires limits.Keys == RESERVABLE + {LatencyMs} && forall d :: d in limits ==> limits[d] <= MAX_SAFE_INTEGER
    requires forall s :: s in steps ==> Allowed(s)
    ensures Conserved(NewWorld(limits))
    ensures var w := Run(NewWorld(limits), steps);
            && w.delivered + Sum(w.inFlight) + w.retained == w.ledger.usage[SourceBytes] <= limits[SourceBytes]
            && (forall d :: d in RESERVABLE ==> w.ledger.usage[d] <= limits[d])
            && var reported := w.ledger.exhausted + if latency > limits[LatencyMs] then {LatencyMs} else {};
               ReportedComplete(resultPartial, reported) <==>
                 !resultPartial && !w.refused && latency <= limits[LatencyMs]
  {
    NewWorldIsConserved(limits);
    LimitsStay(NewWorld(limits), steps);
  }

  // On every run each read that is awaited or was delivered is within the bound
  // its caller gave.
  lemma ReadsStayWithinBounds(limits: map<Dimension, nat>, steps: seq<Step>)
    requires limits.Keys == RESERVABLE + {LatencyMs} && forall d :: d in limits ==> limits[d] <= MAX_SAFE_INTEGER
    requires forall s :: s in steps ==> Allowed(s)
    ensures Conserved(NewWorld(limits)) && WithinBounds(Run(NewWorld(limits), steps))
  {
    NewWorldIsConserved(limits);
  }

  lemma NextKeepsLimits(w: World, step: Step)
    requires WellFormed(w.ledger) && Allowed(step)
    ensures Next(w, step).ledger.limits == w.ledger.limits
  {
    hide AmountOf, FirstOver;
  }

  lemma {:induction false} LimitsStay(w: World, steps: seq<Step>)
    requires Conserved(w) && forall s :: s in steps ==> Allowed(s)
    ensures Run(w, steps).ledger.limits == w.ledger.limits
    decreases |steps|
  {
    if steps != [] {
      NextConserves(w, steps[0]);
      NextKeepsLimits(w, steps[0]);
      assert forall s :: s in steps[1..] ==> s in steps;
      LimitsStay(Next(w, steps[0]), steps[1..]);
    }
  }
}
