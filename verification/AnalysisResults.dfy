// The final analysis record, with and without the optional reasoning lane.
module AnalysisResults {
  import opened Outcomes
  import opened Sorting

  datatype LegacyState = LegacyComplete | LegacyPartial | LegacySuperseded | LegacyNotAnalysed
  datatype State = Complete | Partial | Superseded

  // A finding of the first schema, or of the newer adapter families.
  datatype Finding = Legacy(fingerprint: string, body: string) | Derived(fingerprint: string, body: string)

  datatype Lane = BootstrapIndex | IncrementalIndex | PullRequest | Reasoning
  datatype Budget = Budget(lane: Lane, exhausted: bool, body: string)

  // What reasoning never touches.
  datatype Base = Base(
    legacyState: LegacyState, legacyFindings: seq<Finding>, coveragePartial: bool, hasGaps: bool, provenance: string)

  datatype AnalysisResult = AnalysisResult(
    base: Base, state: State, budgets: seq<Budget>, findings: seq<Finding>, hypotheses: seq<string>, outputHash: string)

  // The checks on parts that are not modelled further, and the orders.
  datatype Tools = Tools(
    baseOk: Base -> bool, derivedOk: (Base, Finding) -> bool, budgetOk: Budget -> bool,
    hypothesis: string -> Result<string>, hash: AnalysisResult -> string,
    leq: (string, string) -> bool, laneLeq: (Lane, Lane) -> bool, hypothesisLeq: (string, string) -> bool)

  ghost predicate ToolsOk(t: Tools) {
    && TotalOrder(t.leq) && TotalOrder(t.laneLeq)
    && forall h :: t.hypothesis(h).Ok? ==> t.hypothesis(t.hypothesis(h).value) == t.hypothesis(h)
  }

  function ByFingerprint(t: Tools): (Finding, Finding) -> bool {
    (a: Finding, b: Finding) => t.leq(a.fingerprint, b.fingerprint)
  }

  function ByLane(t: Tools): (Budget, Budget) -> bool {
    (a: Budget, b: Budget) => t.laneLeq(a.lane, b.lane)
  }

  function IsLegacy(): Finding -> bool {
    (f: Finding) => f.Legacy?
  }

  predicate Incomplete(b: Base, budgets: seq<Budget>) {
    || (!b.legacyState.LegacyComplete? && !b.legacyState.LegacySuperseded?)
    || b.coveragePartial || b.hasGaps || exists x :: x in budgets && x.exhausted
  }

  predicate StateOk(r: AnalysisResult) {
    if r.base.legacyState.LegacySuperseded? then r.state.Superseded?
    else !r.state.Superseded? && (Incomplete(r.base, r.budgets) ==> r.state.Partial?)
  }

  predicate LanesDiffer(budgets: seq<Budget>) {
    forall i, j :: 0 <= i < j < |budgets| ==> budgets[i].lane != budgets[j].lane
  }

  function Hypotheses(t: Tools, hs: seq<string>): Result<seq<string>> {
    if hs == [] then Ok([])
    else
      match (t.hypothesis(hs[0]), Hypotheses(t, hs[1..]))
      case (Ok(h), Ok(rest)) => Ok([h] + rest)
      case _ => Throws
  }

  predicate Checks(t: Tools, r: AnalysisResult) {
    && t.baseOk(r.base)
    && Keep(r.findings, IsLegacy()) == r.base.legacyFindings
    && (forall f :: f in r.findings && f.Derived? ==> t.derivedOk(r.base, f))
    && StateOk(r)
    && (forall b :: b in r.budgets ==> t.budgetOk(b))
    && LanesDiffer(r.budgets)
    && Hypotheses(t, r.hypotheses).Ok?
  }

  function Canonical(t: Tools, r: AnalysisResult): AnalysisResult
    requires Hypotheses(t, r.hypotheses).Ok?
  {
    r.(findings := Sort(r.findings, ByFingerprint(t)),
       budgets := Sort(r.budgets, ByLane(t)),
       hypotheses := Sort(Hypotheses(t, r.hypotheses).value, t.hypothesisLeq),
       outputHash := "")
  }

  function Finalize(t: Tools, r: AnalysisResult): Result<AnalysisResult> {
    if !Checks(t, r) then Throws
    else var c := Canonical(t, r); Ok(c.(outputHash := t.hash(c)))
  }

  function NotReasoning(): Budget -> bool {
    (b: Budget) => b.lane != Reasoning
  }

  // The state the evidence alone supports.
  function EvidenceState(b: Base, budgets: seq<Budget>): State {
    if b.legacyState.LegacySuperseded? then Superseded
    else if Incomplete(b, budgets) then Partial
    else Complete
  }

  function RemoveReasoning(t: Tools, r: AnalysisResult): Result<AnalysisResult> {
    var budgets := Keep(r.budgets, NotReasoning());
    Finalize(t, r.(state := EvidenceState(r.base, budgets), budgets := budgets, hypotheses := [], outputHash := ""))
  }

  // --- the end of an analysis ----------------------------------------------------

  datatype RunState = RunComplete | RunPartial | RunFailed
  datatype Reasoned = Reasoned(runState: RunState, budget: Budget, hypotheses: seq<string>)

  // An outcome that passed the acceptance checks: its own lane, canonical parts.
  predicate AcceptedOutcome(t: Tools, o: Reasoned) {
    o.budget.lane == Reasoning && t.budgetOk(o.budget) && Hypotheses(t, o.hypotheses).Ok?
  }

  function BaseState(b: Base, report: Budget): State {
    if b.legacyState.LegacySuperseded? then Superseded
    else if b.legacyState.LegacyPartial? || b.hasGaps || b.coveragePartial || report.exhausted then Partial
    else Complete
  }

  function Assemble(t: Tools, b: Base, report: Budget, derived: seq<Finding>, outcome: Option<Reasoned>)
    : Result<AnalysisResult>
  {
    var state := BaseState(b, report);
    var final :=
      if state.Superseded? then state
      else if outcome.Some? && !outcome.value.runState.RunComplete? then Partial
      else state;
    Finalize(t, AnalysisResult(b, final,
                               if outcome.Some? then [report, outcome.value.budget] else [report],
                               b.legacyFindings + derived,
                               if outcome.Some? then outcome.value.hypotheses else [], ""))
  }

  // --- results -----------------------------------------------------------------

  ghost predicate AllLegacy(fs: seq<Finding>) {
    forall f :: f in fs ==> f.Legacy?
  }

  ghost predicate AllDerived(fs: seq<Finding>) {
    forall f :: f in fs ==> f.Derived?
  }

  lemma {:induction false} KeepAll<T(!new)>(s: seq<T>, p: T -> bool)
    requires forall x :: x in s ==> p(x)
    ensures Keep(s, p) == s
  {
    if s != [] {
      KeepAll(s[1..], p);
      assert s == [s[0]] + s[1..];
    }
  }

  lemma {:induction false} KeepNone<T(!new)>(s: seq<T>, p: T -> bool)
    requires forall x :: x in s ==> !p(x)
    ensures Keep(s, p) == []
  {
    if s != [] {
      KeepNone(s[1..], p);
    }
  }

  lemma LegacyPart(b: Base, derived: seq<Finding>)
    requires AllLegacy(b.legacyFindings) && AllDerived(derived)
    ensures Keep(b.legacyFindings + derived, IsLegacy()) == b.legacyFindings
  {
    hide Keep;
    KeepConcat(b.legacyFindings, derived, IsLegacy());
    KeepAll(b.legacyFindings, IsLegacy());
    KeepNone(derived, IsLegacy());
  }

  lemma OrdersArePreorders(t: Tools)
    requires ToolsOk(t)
    ensures TotalPreorder(ByFingerprint(t)) && TotalPreorder(ByLane(t))
  {
    PulledBack(t.leq, (f: Finding) => f.fingerprint, ByFingerprint(t));
    PulledBack(t.laneLeq, (b: Budget) => b.lane, ByLane(t));
  }

  // The legacy findings inside a finalized result are the legacy findings in
  // the order of their fingerprints.
  lemma LegacyPartOfSorted(t: Tools, b: Base, derived: seq<Finding>)
    requires ToolsOk(t) && AllLegacy(b.legacyFindings) && AllDerived(derived)
    ensures Keep(Sort(b.legacyFindings + derived, ByFingerprint(t)), IsLegacy()) ==
            Sort(b.legacyFindings, ByFingerprint(t))
  {
    hide Keep, Sort;
    OrdersArePreorders(t);
    KeepOfSort(b.legacyFindings + derived, ByFingerprint(t), IsLegacy());
    LegacyPart(b, derived);
  }

  lemma SortedIsFixed(t: Tools, fs: seq<Finding>)
    requires ToolsOk(t)
    ensures Sort(fs, ByFingerprint(t)) == fs <==> SortedBy(fs, ByFingerprint(t))
    ensures Sort(Sort(fs, ByFingerprint(t)), ByFingerprint(t)) == Sort(fs, ByFingerprint(t))
  {
    hide Sort, TotalPreorder, ToolsOk;
    OrdersArePreorders(t);
    SortSorts(fs, ByFingerprint(t));
    SortOfSorted(Sort(fs, ByFingerprint(t)), ByFingerprint(t));
    if SortedBy(fs, ByFingerprint(t)) {
      SortOfSorted(fs, ByFingerprint(t));
    }
  }

  lemma TwoBudgets(t: Tools, report: Budget, other: Budget)
    requires ToolsOk(t) && report.lane != Reasoning && other.lane == Reasoning
    ensures var sorted := Sort([report, other], ByLane(t));
            && (sorted == [report, other] || sorted == [other, report])
            && Keep(sorted, NotReasoning()) == [report]
    ensures Keep([report, other], NotReasoning()) == [report] && Sort([report], ByLane(t)) == [report]
    ensures Keep([report], NotReasoning()) == [report]
  {
    assert [report, other][1..] == [other] && [other][1..] == [] && [report][1..] == [];
    assert Sort([other], ByLane(t)) == [other];
    assert Sort([report, other], ByLane(t)) == Insert(report, [other], ByLane(t));
    assert Keep([other], NotReasoning()) == [];
    assert Keep([report], NotReasoning()) == [report];
    assert [other, report][1..] == [report];
  }

  // What the two ways of ending one analysis start from.
  ghost predicate Ready(t: Tools, b: Base, report: Budget, derived: seq<Finding>) {
    && ToolsOk(t) && AllLegacy(b.legacyFindings) && AllDerived(derived)
    && report.lane == PullRequest && t.budgetOk(report)
  }

  // Without reasoning, an analysis is refused only for its deterministic parts.
  lemma PlainEndsExactly(t: Tools, b: Base, report: Budget, derived: seq<Finding>)
    requires Ready(t, b, report, derived)
    ensures Assemble(t, b, report, derived, None).Ok?
            <==> t.baseOk(b) && (forall f :: f in derived ==> t.derivedOk(b, f))
                 && (b.legacyState.LegacyNotAnalysed? ==> BaseState(b, report).Partial?)
  {
    hide Sort, Keep;
    LegacyPart(b, derived);
    assert report in [report];
  }

  // With an accepted outcome it is refused for one more reason: a run that
  // calls itself complete although its own budget ran out.
  lemma ReasonedEndsExactly(t: Tools, b: Base, report: Budget, derived: seq<Finding>, o: Reasoned)
    requires Ready(t, b, report, derived) && AcceptedOutcome(t, o)
    requires Assemble(t, b, report, derived, None).Ok?
    ensures Assemble(t, b, report, derived, Some(o)).Ok?
            <==> !(o.budget.exhausted && o.runState.RunComplete? && BaseState(b, report).Complete?)
  {
    hide Sort, Keep, ToolsOk;
    assert report in [report, o.budget] && o.budget in [report, o.budget] && report in [report];
  }

  const EMPTY_ANALYSIS := Base(LegacyComplete, [], false, false, "")
  const UNUSED_REPORT := Budget(PullRequest, false, "")
  const EXHAUSTED_RUN := Reasoned(RunComplete, Budget(Reasoning, true, ""), [])

  // For example an analysis without findings, and a run that found nothing.
  lemma ExhaustedRunIsRefused(t: Tools)
    requires ToolsOk(t) && t.baseOk(EMPTY_ANALYSIS) && t.budgetOk(UNUSED_REPORT) && t.budgetOk(EXHAUSTED_RUN.budget)
    ensures AcceptedOutcome(t, EXHAUSTED_RUN)
    ensures Assemble(t, EMPTY_ANALYSIS, UNUSED_REPORT, [], None).Ok?
    ensures Assemble(t, EMPTY_ANALYSIS, UNUSED_REPORT, [], Some(EXHAUSTED_RUN)).Throws?
  {
    hide Assemble, ToolsOk;
    PlainEndsExactly(t, EMPTY_ANALYSIS, UNUSED_REPORT, []);
    ReasonedEndsExactly(t, EMPTY_ANALYSIS, UNUSED_REPORT, [], EXHAUSTED_RUN);
  }

  // Removing reasoning never fails when the legacy findings are listed by
  // fingerprint, and always fails when they are not.
  lemma RemovalFailsExactly(t: Tools, b: Base, report: Budget, derived: seq<Finding>, outcome: Option<Reasoned>)
    requires Ready(t, b, report, derived) && (outcome.Some? ==> AcceptedOutcome(t, outcome.value))
    requires Assemble(t, b, report, derived, outcome).Ok?
    ensures RemoveReasoning(t, Assemble(t, b, report, derived, outcome).value).Ok?
            <==> SortedBy(b.legacyFindings, ByFingerprint(t))
  {
    hide Sort, Keep, ToolsOk, SortedBy, Incomplete;
    var r := Assemble(t, b, report, derived, outcome).value;
    var all := b.legacyFindings + derived;
    LegacyPartOfSorted(t, b, derived);
    SortedIsFixed(t, b.legacyFindings);
    SameElements(Sort(all, ByFingerprint(t)), all);
    RemovedBudgets(t, report, outcome);
  }

  lemma RemovedBudgets(t: Tools, report: Budget, outcome: Option<Reasoned>)
    requires ToolsOk(t) && report.lane == PullRequest && (outcome.Some? ==> outcome.value.budget.lane == Reasoning)
    ensures var budgets := if outcome.Some? then [report, outcome.value.budget] else [report];
            Keep(Sort(budgets, ByLane(t)), NotReasoning()) == [report]
    ensures Sort([report], ByLane(t)) == [report]
  {
    hide Sort, Keep, ToolsOk;
    TwoBudgets(t, report, if outcome.Some? then outcome.value.budget else Budget(Reasoning, false, ""));
  }

  // Taking reasoning out of a result gives the result of the same analysis
  // without it.
  lemma ReasoningDoesNotInterfere(t: Tools, b: Base, report: Budget, derived: seq<Finding>, o: Reasoned)
    requires Ready(t, b, report, derived) && AcceptedOutcome(t, o)
    requires Assemble(t, b, report, derived, Some(o)).Ok? && Assemble(t, b, report, derived, None).Ok?
    requires SortedBy(b.legacyFindings, ByFingerprint(t))
    ensures RemoveReasoning(t, Assemble(t, b, report, derived, Some(o)).value) == Assemble(t, b, report, derived, None)
  {
    hide Sort, Keep, ToolsOk, SortedBy;
    RemovalFailsExactly(t, b, report, derived, Some(o));
    RemovedBudgets(t, report, Some(o));
    SortedIsFixed(t, b.legacyFindings + derived);
    assert report in [report];
  }

  // Removing twice is removing once.
  lemma RemovalIsIdempotent(t: Tools, b: Base, report: Budget, derived: seq<Finding>, outcome: Option<Reasoned>)
    requires Ready(t, b, report, derived) && (outcome.Some? ==> AcceptedOutcome(t, outcome.value))
    requires Assemble(t, b, report, derived, outcome).Ok? && SortedBy(b.legacyFindings, ByFingerprint(t))
    ensures var once := RemoveReasoning(t, Assemble(t, b, report, derived, outcome).value);
            once.Ok? && RemoveReasoning(t, once.value) == once
  {
    hide Sort, Keep, ToolsOk, SortedBy, Incomplete;
    RemovalFailsExactly(t, b, report, derived, outcome);
    RemovedBudgets(t, report, outcome);
    RemovedBudgets(t, report, None);
    SortedIsFixed(t, b.legacyFindings + derived);
  }

  // --- the final record, field by field ----------------------------------------

  // The evidence leaves something open.
  ghost predicate LeavesOpen(b: Base, budgets: seq<Budget>) {
    || b.legacyState in {LegacyPartial, LegacyNotAnalysed} || b.coveragePartial || b.hasGaps
    || exists x :: x in budgets && x.exhausted
  }

  ghost predicate GoodResult(t: Tools, r: AnalysisResult) {
    && t.baseOk(r.base)
    && Keep(r.findings, (f: Finding) => f.Legacy?) == r.base.legacyFindings
    && (forall f :: f in r.findings && f.Derived? ==> t.derivedOk(r.base, f))
    && (r.state == Superseded <==> r.base.legacyState == LegacySuperseded)
    && (r.state == Complete ==> !LeavesOpen(r.base, r.budgets))
    && (forall b :: b in r.budgets ==> t.budgetOk(b))
    && (forall i, j :: 0 <= i < j < |r.budgets| ==> r.budgets[i].lane != r.budgets[j].lane)
    && (forall h :: h in r.hypotheses ==> t.hypothesis(h).Ok?)
  }

  lemma {:induction false} HypothesesAre(t: Tools, hs: seq<string>)
    ensures Hypotheses(t, hs).Ok? <==> forall h :: h in hs ==> t.hypothesis(h).Ok?
    ensures Hypotheses(t, hs).Ok? ==>
              && |Hypotheses(t, hs).value| == |hs|
              && forall i :: 0 <= i < |hs| ==> t.hypothesis(hs[i]) == Ok(Hypotheses(t, hs).value[i])
  {
    if hs != [] {
      HypothesesAre(t, hs[1..]);
      assert hs == [hs[0]] + hs[1..];
    }
  }

  // A result is accepted exactly when it is good, and comes out with its lists
  // in order, its hypotheses in their canonical form and its own hash.
  lemma FinalizedExactly(t: Tools, r: AnalysisResult)
    requires ToolsOk(t)
    ensures Finalize(t, r).Ok? <==> GoodResult(t, r)
    ensures Finalize(t, r).Ok? ==>
              var f := Finalize(t, r).value;
              && f.base == r.base && f.state == r.state
              && multiset(f.findings) == multiset(r.findings) && multiset(f.budgets) == multiset(r.budgets)
              && multiset(f.hypotheses) == multiset(Hypotheses(t, r.hypotheses).value)
              && (forall i, j :: 0 <= i < j < |f.findings| ==>
                    t.leq(f.findings[i].fingerprint, f.findings[j].fingerprint))
              && (forall i, j :: 0 <= i < j < |f.budgets| ==> t.laneLeq(f.budgets[i].lane, f.budgets[j].lane))
              && (TotalPreorder(t.hypothesisLeq) ==>
                    forall i, j :: 0 <= i < j < |f.hypotheses| ==> t.hypothesisLeq(f.hypotheses[i], f.hypotheses[j]))
              && f.outputHash == t.hash(f.(outputHash := ""))
  {
    hide Sort, TotalPreorder, TotalOrder;
    HypothesesAre(t, r.hypotheses);
    SameLegacyPart(r.findings);
    hide Keep;
    OrdersArePreorders(t);
    SortSorts(r.findings, ByFingerprint(t));
    SortSorts(r.budgets, ByLane(t));
    if TotalPreorder(t.hypothesisLeq) && Finalize(t, r).Ok? {
      SortSorts(Hypotheses(t, r.hypotheses).value, t.hypothesisLeq);
    }
  }

  lemma {:induction false} SameLegacyPart(fs: seq<Finding>)
    ensures Keep(fs, IsLegacy()) == Keep(fs, (f: Finding) => f.Legacy?)
  {
    if fs != [] {
      SameLegacyPart(fs[1..]);
    }
  }

  // An analysis ends superseded when its first half was, and partial when that
  // was partial, something is missing, its budget ran out, or the reasoning run
  // did not complete; its record holds both halves' findings and both reports.
  lemma EndsAs(t: Tools, b: Base, report: Budget, derived: seq<Finding>, outcome: Option<Reasoned>)
    requires ToolsOk(t) && Assemble(t, b, report, derived, outcome).Ok?
    ensures var r := Assemble(t, b, report, derived, outcome).value;
            && r.base == b
            && (r.state == Superseded <==> b.legacyState == LegacySuperseded)
            && (r.state == Partial <==>
                  && b.legacyState != LegacySuperseded
                  && (|| b.legacyState == LegacyPartial || b.hasGaps || b.coveragePartial || report.exhausted
                      || (outcome.Some? && outcome.value.runState in {RunPartial, RunFailed})))
            && multiset(r.findings) == multiset(b.legacyFindings) + multiset(derived)
            && multiset(r.budgets)
               == multiset{report} + (if outcome.Some? then multiset{outcome.value.budget} else multiset{})
            && (outcome.None? ==> r.hypotheses == [])
            && (outcome.Some? ==>
                  && Hypotheses(t, outcome.value.hypotheses).Ok?
                  && multiset(r.hypotheses) == multiset(Hypotheses(t, outcome.value.hypotheses).value))
  {
    hide Finalize, GoodResult, Sort, LeavesOpen, ToolsOk;
    var budgets := if outcome.Some? then [report, outcome.value.budget] else [report];
    var hypotheses := if outcome.Some? then outcome.value.hypotheses else [];
    var state := if outcome.Some? && outcome.value.runState != RunComplete && BaseState(b, report) != Superseded
                 then Partial else BaseState(b, report);
    FinalizedExactly(t, AnalysisResult(b, state, budgets, b.legacyFindings + derived, hypotheses, ""));
    AcceptedHypotheses(t, AnalysisResult(b, state, budgets, b.legacyFindings + derived, hypotheses, ""));
  }

  lemma AcceptedHypotheses(t: Tools, r: AnalysisResult)
    requires Finalize(t, r).Ok?
    ensures Hypotheses(t, r.hypotheses).Ok?
    ensures r.hypotheses == [] ==> Hypotheses(t, r.hypotheses).value == []
  {
  }

  // Without reasoning a result keeps the other reports, has no hypothesis, and is
  // complete exactly when the evidence leaves nothing open.
  lemma RemovedIs(t: Tools, r: AnalysisResult)
    requires ToolsOk(t) && RemoveReasoning(t, r).Ok?
    ensures var f := RemoveReasoning(t, r).value;
            && f.base == r.base && multiset(f.findings) == multiset(r.findings) && f.hypotheses == []
            && (forall x :: x in f.budgets <==> x in r.budgets && x.lane != Reasoning)
            && (f.state == Superseded <==> r.base.legacyState == LegacySuperseded)
            && (f.state == Complete <==>
                  r.base.legacyState != LegacySuperseded
                  && !LeavesOpen(r.base, Keep(r.budgets, (x: Budget) => x.lane != Reasoning)))
  {
    hide Sort, Checks;
    SameBudgets(r.budgets);
    hide Keep;
    SameElements(Sort(Keep(r.budgets, NotReasoning()), ByLane(t)), Keep(r.budgets, NotReasoning()));
  }

  lemma {:induction false} SameBudgets(budgets: seq<Budget>)
    ensures Keep(budgets, NotReasoning()) == Keep(budgets, (b: Budget) => b.lane != Reasoning)
  {
    if budgets != [] {
      SameBudgets(budgets[1..]);
    }
  }
}
