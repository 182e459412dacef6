// The execution budget ledger, and the reader that reserves source bytes
// before an asynchronous read and settles them after it.
module ExecutionBudget {
  import opened Outcomes

  datatype Dimension = ProviderRequests | SourceBytes | StorageQueries | Artifacts | ModelTokens | LatencyMs

  const RESERVABLE := {ProviderRequests, SourceBytes, StorageQueries, Artifacts, ModelTokens}
  const MAX_SAFE_INTEGER: nat := 0x1F_FFFF_FFFF_FFFF

  // The entries of a delta object: known dimensions, each at most once.
  type Entries = seq<(Dimension, int)>

  predicate Entered(entries: Entries) {
    && (forall e :: e in entries ==> e.0 in RESERVABLE)
    && forall i, j :: 0 <= i < j < |entries| ==> entries[i].0 != entries[j].0
  }

  predicate SafeAmounts(entries: Entries) {
    forall e :: e in entries ==> 0 <= e.1 <= MAX_SAFE_INTEGER
  }

  datatype Ledger = Ledger(limits: map<Dimension, nat>, usage: map<Dimension, nat>, exhausted: set<Dimension>)

  predicate WellFormed(l: Ledger) {
    && l.limits.Keys == RESERVABLE + {LatencyMs} && l.usage.Keys == RESERVABLE
    && (forall d :: d in l.limits ==> l.limits[d] <= MAX_SAFE_INTEGER)
    && forall d :: d in l.usage ==> l.usage[d] <= l.limits[d]
  }

  datatype Reply = Reserved | Refused(dimension: Dimension) | RangeError

  // The first entry that does not fit, in entry order. A double-precision sum of
  // two safe integers is exact or beyond every limit, so integers decide alike.
  function FirstOver(l: Ledger, entries: Entries): Option<Dimension>
    requires l.usage.Keys == RESERVABLE && RESERVABLE <= l.limits.Keys && Entered(entries)
  {
    if entries == [] then None
    else if l.usage[entries[0].0] + entries[0].1 > l.limits[entries[0].0] then Some(entries[0].0)
    else FirstOver(l, entries[1..])
  }

  function AmountOf(entries: Entries, d: Dimension): int {
    if entries == [] then 0
    else if entries[0].0 == d then entries[0].1
    else AmountOf(entries[1..], d)
  }

  predicate Fits(l: Ledger, entries: Entries)
    requires WellFormed(l)
  {
    forall d :: d in RESERVABLE ==> l.usage[d] + AmountOf(entries, d) <= l.limits[d]
  }

  lemma {:induction false} AmountIsEntry(entries: Entries, i: nat)
    requires i < |entries| && Entered(entries)
    ensures AmountOf(entries, entries[i].0) == entries[i].1
  {
    if i > 0 {
      assert forall e :: e in entries[1..] ==> e in entries;
      AmountIsEntry(entries[1..], i - 1);
    }
  }

  lemma {:induction false} NoEntryNoAmount(entries: Entries, d: Dimension)
    requires forall e :: e in entries ==> e.0 != d
    ensures AmountOf(entries, d) == 0
  {
    if entries != [] {
      NoEntryNoAmount(entries[1..], d);
    }
  }

  lemma {:induction false} AmountsAreSafe(entries: Entries, d: Dimension)
    requires SafeAmounts(entries)
    ensures 0 <= AmountOf(entries, d) <= MAX_SAFE_INTEGER
  {
    if entries != [] {
      assert entries[0] in entries;
      AmountsAreSafe(entries[1..], d);
    }
  }

  // A reservation is refused exactly when some dimension would pass its limit.
  lemma {:induction false} FirstOverIsExact(l: Ledger, entries: Entries)
    requires WellFormed(l) && Entered(entries)
    ensures FirstOver(l, entries).None? <==> Fits(l, entries)
    ensures FirstOver(l, entries).Some? ==>
              var d := FirstOver(l, entries).value;
              d in RESERVABLE && l.usage[d] + AmountOf(entries, d) > l.limits[d]
  {
    if entries != [] {
      assert forall e :: e in entries[1..] ==> e in entries;
      FirstOverIsExact(l, entries[1..]);
      AmountIsEntry(entries, 0);
      NoEntryNoAmount(entries[1..], entries[0].0);
    }
  }

  function Shift(x: int, amount: int, back: bool): int {
    if back then x - amount else x + amount
  }

  // Every entry added to the usage, or taken back from it.
  function Add(l: Ledger, entries: Entries, back: bool): Ledger
    requires WellFormed(l)
    requires forall d :: d in RESERVABLE ==> 0 <= Shift(l.usage[d], AmountOf(entries, d), back)
  {
    l.(usage := map d | d in RESERVABLE :: Shift(l.usage[d], AmountOf(entries, d), back) as nat)
  }

  function Reserve(l: Ledger, entries: Entries, latency: nat): (Ledger, Reply)
    requires WellFormed(l) && Entered(entries)
  {
    if !SafeAmounts(entries) then (l, RangeError)
    else if latency > l.limits[LatencyMs] then (l.(exhausted := l.exhausted + {LatencyMs}), Refused(LatencyMs))
    else
      match FirstOver(l, entries)
      case Some(d) => (l.(exhausted := l.exhausted + {d}), Refused(d))
      case None =>
        assert forall d :: d in RESERVABLE ==> 0 <= Shift(l.usage[d], AmountOf(entries, d), false) by {
          forall d | d in RESERVABLE { AmountsAreSafe(entries, d); }
        }
        (Add(l, entries, false), Reserved)
  }

  // Releasing more than is used raises an error and changes nothing.
  function Release(l: Ledger, entries: Entries): (Ledger, bool)
    requires WellFormed(l) && Entered(entries)
  {
    if SafeAmounts(entries) && forall d :: d in RESERVABLE ==> AmountOf(entries, d) <= l.usage[d]
    then (Add(l, entries, true), true) else (l, false)
  }

  function Remaining(l: Ledger, d: Dimension): nat
    requires WellFormed(l) && d in RESERVABLE
  {
    l.limits[d] - l.usage[d]
  }

  lemma ReserveKeepsLimits(l: Ledger, entries: Entries, latency: nat)
    requires WellFormed(l) && Entered(entries)
    ensures var (after, reply) := Reserve(l, entries, latency);
            && WellFormed(after) && l.exhausted <= after.exhausted
            && (reply != Reserved ==> after.usage == l.usage)
            && (reply == Reserved ==> after.exhausted == l.exhausted)
            && (reply.Refused? ==> reply.dimension in after.exhausted)
  {
    FirstOverIsExact(l, entries);
  }

  lemma ReleaseKeepsLimits(l: Ledger, entries: Entries)
    requires WellFormed(l) && Entered(entries)
    ensures var (after, ok) := Release(l, entries);
            WellFormed(after) && after.exhausted == l.exhausted && (!ok ==> after == l)
  {
    if SafeAmounts(entries) {
      forall d | d in RESERVABLE {
        AmountsAreSafe(entries, d);
      }
    }
  }

  // Releasing what was just reserved restores the ledger.
  lemma ReleaseUndoesReserve(l: Ledger, entries: Entries, latency: nat)
    requires WellFormed(l) && Entered(entries) && Reserve(l, entries, latency).1 == Reserved
    ensures WellFormed(Reserve(l, entries, latency).0)
    ensures Release(Reserve(l, entries, latency).0, entries) == (l, true)
  {
    hide AmountOf, FirstOver;
    ReserveKeepsLimits(l, entries, latency);
    var after := Reserve(l, entries, latency).0;
    forall d | d in RESERVABLE ensures after.usage[d] == l.usage[d] + AmountOf(entries, d) {}
    TakingBackRestores(l, after, entries);
  }

  lemma TakingBackRestores(l: Ledger, after: Ledger, entries: Entries)
    requires WellFormed(l) && WellFormed(after) && Entered(entries) && SafeAmounts(entries)
    requires after.limits == l.limits && after.exhausted == l.exhausted
    requires forall d :: d in RESERVABLE ==> after.usage[d] == l.usage[d] + AmountOf(entries, d)
    ensures Release(after, entries) == (l, true)
  {
    hide AmountOf, SafeAmounts;
    var restored := Add(after, entries, true).usage;
    forall d | d in l.usage ensures restored[d] == l.usage[d] {}
    assert restored == l.usage;
  }

  // The loop that adds the entries to the usage, or takes them back.
  method ShiftAll(usage: map<Dimension, nat>, entries: Entries, back: bool) returns (after: map<Dimension, nat>)
    requires usage.Keys == RESERVABLE && Entered(entries)
    requires forall d :: d in usage ==> 0 <= Shift(usage[d], AmountOf(entries, d), back)
    ensures after.Keys == usage.Keys
    ensures forall d :: d in usage ==> after[d] == Shift(usage[d], AmountOf(entries, d), back)
  {
    hide AmountOf;
    after := usage;
    for i := 0 to |entries|
      invariant after.Keys == usage.Keys
      invariant forall j :: 0 <= j < i ==> after[entries[j].0] == Shift(usage[entries[j].0], entries[j].1, back)
      invariant forall d :: d in usage && (forall j :: 0 <= j < i ==> entries[j].0 != d) ==> after[d] == usage[d]
    {
      var (key, amount) := entries[i];
      AmountIsEntry(entries, i);
      after := after[key := Shift(after[key], amount, back)];
    }
    AllShifted(usage, after, entries, back);
  }

  class Budget {
    const limits: map<Dimension, nat>
    var usage: map<Dimension, nat>
    var exhausted: set<Dimension>

    ghost function State(): Ledger
      reads this
    {
      Ledger(limits, usage, exhausted)
    }

    constructor (limits: map<Dimension, nat>)
      requires limits.Keys == RESERVABLE + {LatencyMs} && forall d :: d in limits ==> limits[d] <= MAX_SAFE_INTEGER
      ensures WellFormed(State()) && State() == Ledger(limits, map d | d in RESERVABLE :: 0, {})
    {
      this.limits := limits;
      usage := map d | d in RESERVABLE :: 0;
      exhausted := {};
    }

    method ReserveEntries(entries: Entries, latency: nat) returns (reply: Reply)
      requires WellFormed(State()) && Entered(entries)
      modifies this
      ensures WellFormed(State()) && (State(), reply) == Reserve(old(State()), entries, latency)
    {
      ReserveKeepsLimits(State(), entries, latency);
      if !SafeAmounts(entries) {
        return RangeError;
      }
      if latency > limits[LatencyMs] {
        exhausted := exhausted + {LatencyMs};
        return Refused(LatencyMs);
      }
      for i := 0 to |entries|
        invariant unchanged(this)
        invariant FirstOver(State(), entries) == FirstOver(State(), entries[i..])
      {
        if usage[entries[i].0] + entries[i].1 > limits[entries[i].0] {
          exhausted := exhausted + {entries[i].0};
          return Refused(entries[i].0);
        }
      }
      AddUp(entries, false);
      reply := Reserved;
    }

    method ReleaseEntries(entries: Entries) returns (ok: bool)
      requires WellFormed(State()) && Entered(entries)
      modifies this
      ensures WellFormed(State()) && (State(), ok) == Release(old(State()), entries)
    {
      ReleaseKeepsLimits(State(), entries);
      if !SafeAmounts(entries) {
        return false;
      }
      for i := 0 to |entries|
        invariant forall j :: 0 <= j < i ==> entries[j].1 <= usage[entries[j].0]
      {
        if entries[i].1 > usage[entries[i].0] {
          AmountIsEntry(entries, i);
          return false;
        }
      }
      AmountsWithin(State(), entries);
      AddUp(entries, true);
      ok := true;
    }

    method AddUp(entries: Entries, back: bool)
      requires WellFormed(State()) && Entered(entries)
      requires forall d :: d in RESERVABLE ==> 0 <= Shift(usage[d], AmountOf(entries, d), back)
      modifies `usage
      ensures State() == Add(old(State()), entries, back)
    {
      usage := ShiftAll(usage, entries, back);
    }

    // The exhausted dimensions of the final report.
    method Complete(latency: nat) returns (reported: set<Dimension>)
      requires WellFormed(State())
      modifies `exhausted
      ensures WellFormed(State()) && reported == exhausted
      ensures exhausted == old(exhausted) + if latency > limits[LatencyMs] then {LatencyMs} else {}
    {
      if latency > limits[LatencyMs] {
        exhausted := exhausted + {LatencyMs};
      }
      reported := exhausted;
    }
  }

  lemma AllShifted(before: map<Dimension, nat>, after: map<Dimension, nat>, entries: Entries, back: bool)
    requires before.Keys == after.Keys == RESERVABLE && Entered(entries)
    requires forall j :: 0 <= j < |entries| ==> after[entries[j].0] == Shift(before[entries[j].0], entries[j].1, back)
    requires forall d :: d in before && (forall j :: 0 <= j < |entries| ==> entries[j].0 != d) ==> after[d] == before[d]
    ensures forall d :: d in before ==> after[d] == Shift(before[d], AmountOf(entries, d), back)
  {
    forall d | d in before ensures after[d] == Shift(before[d], AmountOf(entries, d), back) {
      if j :| 0 <= j < |entries| && entries[j].0 == d {
        AmountIsEntry(entries, j);
      } else {
        NoEntryNoAmount(entries, d);
      }
    }
  }

  lemma AmountsWithin(l: Ledger, entries: Entries)
    requires WellFormed(l) && Entered(entries)
    requires forall j :: 0 <= j < |entries| ==> entries[j].1 <= l.usage[entries[j].0]
    ensures forall d :: d in RESERVABLE ==> AmountOf(entries, d) <= l.usage[d]
  {
    forall d | d in RESERVABLE ensures AmountOf(entries, d) <= l.usage[d] {
      if e :| e in entries && e.0 == d {
        var j :| 0 <= j < |entries| && entries[j] == e;
        AmountIsEntry(entries, j);
      } else {
        NoEntryNoAmount(entries, d);
      }
    }
  }

  // --- what one call does ---------------------------------------------------------

  ghost predicate Overruns(l: Ledger, entries: Entries, i: nat)
    requires WellFormed(l) && Entered(entries) && i < |entries|
  {
    l.usage[entries[i].0] + entries[i].1 > l.limits[entries[i].0]
  }

  // Entry `i` is the first that does not fit.
  ghost predicate FirstOverrun(l: Ledger, entries: Entries, i: nat)
    requires WellFormed(l) && Entered(entries)
  {
    i < |entries| && Overruns(l, entries, i) && forall j: nat :: j < i ==> !Overruns(l, entries, j)
  }

  lemma {:induction false} FirstOverIsFirst(l: Ledger, entries: Entries)
    requires WellFormed(l) && Entered(entries)
    ensures FirstOver(l, entries).None? <==> forall i: nat :: i < |entries| ==> !Overruns(l, entries, i)
    ensures FirstOver(l, entries).Some? ==>
              exists i: nat :: FirstOverrun(l, entries, i) && entries[i].0 == FirstOver(l, entries).value
  {
    if entries != [] {
      var rest := entries[1..];
      assert forall e :: e in rest ==> e in entries;
      FirstOverIsFirst(l, rest);
      if Overruns(l, entries, 0) {
        assert FirstOverrun(l, entries, 0);
      } else {
        forall i: nat | i < |rest| ensures Overruns(l, rest, i) <==> Overruns(l, entries, i + 1) {
        }
        forall i: nat | 0 < i < |entries| ensures Overruns(l, entries, i) <==> Overruns(l, rest, i - 1) {
        }
        if FirstOver(l, rest).Some? {
          var i: nat :| FirstOverrun(l, rest, i) && rest[i].0 == FirstOver(l, rest).value;
          assert FirstOverrun(l, entries, i + 1) && entries[i + 1] == rest[i];
        }
      }
    }
  }

  // The usage with every entry's amount counted, and nothing else.
  ghost predicate Counts(before: map<Dimension, nat>, entries: Entries, after: map<Dimension, nat>) {
    && before.Keys == after.Keys
    && (forall i :: 0 <= i < |entries| && entries[i].0 in before ==>
          after[entries[i].0] == before[entries[i].0] + entries[i].1)
    && forall d :: d in before && (forall i :: 0 <= i < |entries| ==> entries[i].0 != d) ==> after[d] == before[d]
  }

  lemma AddedIsCounted(l: Ledger, entries: Entries)
    requires WellFormed(l) && Entered(entries) && SafeAmounts(entries)
    ensures forall d :: d in RESERVABLE ==> 0 <= Shift(l.usage[d], AmountOf(entries, d), false)
    ensures Counts(l.usage, entries, Add(l, entries, false).usage)
  {
    hide AmountOf;
    forall d | d in RESERVABLE ensures 0 <= Shift(l.usage[d], AmountOf(entries, d), false) {
      AmountsAreSafe(entries, d);
    }
    forall i | 0 <= i < |entries| ensures AmountOf(entries, entries[i].0) == entries[i].1 {
      AmountIsEntry(entries, i);
    }
    forall d | d in l.usage && (forall i :: 0 <= i < |entries| ==> entries[i].0 != d)
      ensures AmountOf(entries, d) == 0
    {
      NoEntryNoAmount(entries, d);
    }
  }

  // Unsafe amounts are an error; late calls are refused for their lateness; then
  // the first entry that does not fit is the reason, and noted as exhausted; and
  // otherwise every amount is counted.
  lemma ReserveTable(l: Ledger, entries: Entries, latency: nat)
    requires WellFormed(l) && Entered(entries)
    ensures var (after, reply) := Reserve(l, entries, latency);
            var safe := forall e :: e in entries ==> 0 <= e.1 <= 9007199254740991;
            && (reply == RangeError <==> !safe)
            && (reply == Refused(LatencyMs) <==> safe && latency > l.limits[LatencyMs])
            && (reply == Reserved <==>
                  && safe && latency <= l.limits[LatencyMs]
                  && forall i: nat :: i < |entries| ==> !Overruns(l, entries, i))
            && (reply.Refused? && reply.dimension != LatencyMs ==>
                  exists i: nat :: FirstOverrun(l, entries, i) && entries[i].0 == reply.dimension)
            && after.limits == l.limits
            && after.exhausted == l.exhausted + (if reply.Refused? then {reply.dimension} else {})
            && (reply != Reserved ==> after.usage == l.usage)
            && (reply == Reserved ==> Counts(l.usage, entries, after.usage))
  {
    hide FirstOver, FirstOverrun, Overruns, Counts, AmountOf;
    FirstOverIsFirst(l, entries);
    FirstOverIsExact(l, entries);
    if SafeAmounts(entries) {
      AddedIsCounted(l, entries);
    }
    assert SafeAmounts(entries) <==> forall e :: e in entries ==> 0 <= e.1 <= 9007199254740991;
  }

  // A release succeeds when no entry takes back more than is used, and is then
  // the inverse of counting.
  lemma ReleaseTable(l: Ledger, entries: Entries)
    requires WellFormed(l) && Entered(entries)
    ensures var (after, ok) := Release(l, entries);
            && (ok <==> forall i :: 0 <= i < |entries| ==>
                          0 <= entries[i].1 <= 9007199254740991 && entries[i].1 <= l.usage[entries[i].0])
            && (ok ==> Counts(after.usage, entries, l.usage)
                       && after.limits == l.limits && after.exhausted == l.exhausted)
            && (!ok ==> after == l)
  {
    hide AmountOf;
    forall i | 0 <= i < |entries| ensures AmountOf(entries, entries[i].0) == entries[i].1 {
      AmountIsEntry(entries, i);
    }
    forall d | d in RESERVABLE && (forall i :: 0 <= i < |entries| ==> entries[i].0 != d)
      ensures AmountOf(entries, d) == 0
    {
      NoEntryNoAmount(entries, d);
    }
    if forall i :: 0 <= i < |entries| ==> entries[i].1 <= l.usage[entries[i].0] {
      AmountsWithin(l, entries);
    }
    assert SafeAmounts(entries) <==> forall i :: 0 <= i < |entries| ==> 0 <= entries[i].1 <= 9007199254740991 by {
      if !SafeAmounts(entries) {
        var e :| e in entries && !(0 <= e.1 <= MAX_SAFE_INTEGER);
        var i :| 0 <= i < |entries| && entries[i] == e;
      }
      forall i | 0 <= i < |entries| ensures entries[i] in entries {}
    }
  }
}
