// Coverage of an analysis: the validators of family, repository and analysis
// records, and the composition of one record per authorised repository from
// generation selections and an untrusted coverage source.
module AnalysisCoverage {
  import opened Outcomes
  import opened Sorting
  import opened TextOrder
  import Utf16
  import A = AnalysisScope

  datatype Family = Events | Database | ImplicitHttp | Configuration | Infrastructure

  // Values that reach the validators may lie outside their vocabulary.
  datatype FamilyState = Complete | Partial | Failed | Unsupported | NotAnalysed | UnknownState
  datatype LimitationSource = FromSource | FromAdapter | FromSelection | FromBudget | UnknownSource

  datatype Limitation = Limitation(code: string, source: LimitationSource, detailHash: Option<string>)
  datatype Adapter = Adapter(
    adapterId: string, adapterVersion: string, extractionVersion: string, identityVersion: int,
    partitioningVersion: int, compatibilityVersion: string, configRevision: string, outputHash: string)

  datatype FamilyCoverage = FamilyCoverage(
    family: Family, state: FamilyState, eligible: int, processed: int, skipped: int, failed: int,
    adapters: seq<Adapter>, limitations: seq<Limitation>, outputHash: string)

  datatype Role = ProducerConsumer | Consumer
  datatype SelectionState = Current | Stale | Unauthorized | UnsupportedSelection | FailedSelection | NotIndexed

  datatype RepositoryCoverage = RepositoryCoverage(
    workspaceId: string, revision: string, repositoryId: string, role: Role, selectionState: SelectionState,
    generationId: Option<string>, commitSha: Option<string>, selectedAt: Option<string>, freshnessAgeMs: Option<int>,
    selectionReason: Option<string>, families: seq<FamilyCoverage>, outputHash: string)

  datatype Coverage = Coverage(
    enabledFamilies: seq<Family>, repositories: seq<RepositoryCoverage>, gaps: seq<A.Gap>, complete: bool)

  // Hashing and the locale order are kept abstract.
  datatype Tools = Tools(
    familyHash: FamilyCoverage -> string, repositoryHash: RepositoryCoverage -> string, leq: (string, string) -> bool,
    familyLeq: (Family, Family) -> bool, gapLeq: (A.Gap, A.Gap) -> bool)

  ghost predicate ToolsOk(t: Tools) {
    TotalOrder(t.leq) && TotalOrder(t.familyLeq)
  }

  const MAX_SAFE := 9007199254740991

  predicate SafeCount(n: int) {
    0 <= n <= MAX_SAFE
  }

  predicate BoundedText(s: string, maximum: nat) {
    && s != "" && Utf16.Length(s) <= maximum
    && forall i :: 0 <= i < |s| ==> s[i] as int >= 0x20 && s[i] as int != 0x7f
  }

  // --- family records ------------------------------------------------------------

  function SourceName(s: LimitationSource): string {
    match s
    case FromSource => "source"
    case FromAdapter => "adapter"
    case FromSelection => "selection"
    case FromBudget => "budget"
    case UnknownSource => ""
  }

  function LimitationKey(l: Limitation): string {
    SourceName(l.source) + "\0" + l.code + "\0" + (if l.detailHash.Some? then l.detailHash.value else "")
  }

  function AdapterOrder(t: Tools): (Adapter, Adapter) -> bool {
    (a: Adapter, b: Adapter) => t.leq(a.adapterId, b.adapterId)
  }

  function LimitationOrder(t: Tools): (Limitation, Limitation) -> bool {
    (a: Limitation, b: Limitation) => t.leq(LimitationKey(a), LimitationKey(b))
  }

  predicate AdapterOk(a: Adapter) {
    && BoundedText(a.adapterVersion, 128) && BoundedText(a.extractionVersion, 128)
    && BoundedText(a.compatibilityVersion, 128)
    && 0 < a.identityVersion <= MAX_SAFE && 0 < a.partitioningVersion <= MAX_SAFE
  }

  predicate LimitationOk(l: Limitation) {
    BoundedText(l.code, 192) && !l.source.UnknownSource?
  }

  predicate FamilyChecks(c: FamilyCoverage, adapters: seq<Adapter>, limitations: seq<Limitation>) {
    && !c.state.UnknownState?
    && SafeCount(c.eligible) && SafeCount(c.processed) && SafeCount(c.skipped) && SafeCount(c.failed)
    && c.processed + c.skipped + c.failed <= c.eligible
    && (forall i :: 0 < i < |adapters| ==> adapters[i].adapterId != adapters[i - 1].adapterId)
    && (forall a :: a in adapters ==> AdapterOk(a))
    && (forall l :: l in limitations ==> LimitationOk(l))
    && (forall i :: 0 < i < |limitations| ==> LimitationKey(limitations[i]) != LimitationKey(limitations[i - 1]))
    && (if c.state.Complete? then
          c.failed == 0 && c.processed + c.skipped == c.eligible && limitations == []
        else limitations != [])
    && (if c.state.NotAnalysed? then
          c.eligible == 0 && c.processed == 0 && c.skipped == 0 && c.failed == 0 && adapters == []
        else adapters != [])
  }

  // The hash on the way in is ignored.
  function FinalizeFamily(t: Tools, c: FamilyCoverage): Result<FamilyCoverage> {
    var adapters, limitations := Sort(c.adapters, AdapterOrder(t)), Sort(c.limitations, LimitationOrder(t));
    if !FamilyChecks(c, adapters, limitations) then Throws
    else
      var canonical := c.(adapters := adapters, limitations := limitations, outputHash := "");
      Ok(canonical.(outputHash := t.familyHash(canonical)))
  }

  // --- repository records --------------------------------------------------------

  function FamilyOrder(t: Tools): (FamilyCoverage, FamilyCoverage) -> bool {
    (a: FamilyCoverage, b: FamilyCoverage) => t.familyLeq(a.family, b.family)
  }

  predicate Chosen(s: SelectionState) {
    s.Current? || s.Stale?
  }

  predicate RepositoryChecks(t: Tools, c: RepositoryCoverage, families: seq<FamilyCoverage>) {
    && (if Chosen(c.selectionState) then
          && c.generationId.Some? && c.commitSha.Some? && c.selectedAt.Some? && c.freshnessAgeMs.Some?
          && c.selectionReason.None? && SafeCount(c.freshnessAgeMs.value)
        else
          && c.selectionReason.Some? && BoundedText(c.selectionReason.value, 192)
          && (if c.selectionState.UnsupportedSelection? then c.generationId.Some? && c.commitSha.Some?
              else c.generationId.None? && c.commitSha.None? && c.selectedAt.None? && c.freshnessAgeMs.None?))
    && (forall i :: 0 < i < |families| ==> families[i].family != families[i - 1].family)
    && (forall f :: f in families ==> FinalizeFamily(t, f) == Ok(f))
  }

  function FinalizeRepository(t: Tools, c: RepositoryCoverage): Result<RepositoryCoverage> {
    var families := Sort(c.families, FamilyOrder(t));
    if !RepositoryChecks(t, c, families) then Throws
    else
      var canonical := c.(families := families, outputHash := "");
      Ok(canonical.(outputHash := t.repositoryHash(canonical)))
  }

  // --- analysis records ------------------------------------------------------------

  datatype Scope = Scope(
    workspaceId: string, revision: string, producerId: string, repositories: seq<string>, gaps: seq<A.Gap>)

  function ById(t: Tools): (RepositoryCoverage, RepositoryCoverage) -> bool {
    (a: RepositoryCoverage, b: RepositoryCoverage) => t.leq(a.repositoryId, b.repositoryId)
  }

  function Enabled(t: Tools, families: seq<Family>): (r: seq<Family>) {
    Sort(Distinct(families), t.familyLeq)
  }

  // One record for every enabled family, in their order.
  predicate CoversFamilies(c: RepositoryCoverage, enabled: seq<Family>) {
    |c.families| == |enabled| && forall i :: 0 <= i < |enabled| ==> c.families[i].family == enabled[i]
  }

  predicate AnalysisChecks(t: Tools, scope: Scope, enabled: seq<Family>, repositories: seq<RepositoryCoverage>) {
    var expected := Sort(scope.repositories, t.leq);
    && |repositories| == |expected|
    && (forall i :: 0 <= i < |expected| ==> repositories[i].repositoryId == expected[i])
    && (forall c :: c in repositories ==>
          && c.workspaceId == scope.workspaceId && c.revision == scope.revision && CoversFamilies(c, enabled)
          && FinalizeRepository(t, c) == Ok(c)
          && (c.role.ProducerConsumer? <==> c.repositoryId == scope.producerId))
    && (exists c :: c in repositories && c.repositoryId == scope.producerId)
  }

  predicate FullyCovered(c: RepositoryCoverage) {
    c.selectionState.Current? && forall f :: f in c.families ==> f.state.Complete?
  }

  function FinalizeAnalysis(t: Tools, scope: Scope, families: seq<Family>, repositories: seq<RepositoryCoverage>)
    : Result<Coverage>
  {
    var enabled, sorted := Enabled(t, families), Sort(repositories, ById(t));
    if !AnalysisChecks(t, scope, enabled, sorted) then Throws
    else
      var complete := scope.gaps == [] && forall c :: c in sorted ==> FullyCovered(c);
      Ok(Coverage(enabled, sorted, Sort(scope.gaps, t.gapLeq), complete))
  }

  // --- composition ---------------------------------------------------------------

  datatype Unavailability = NoAuthorization | SelectionFailed | NoIndex

  // The three shapes of a consumer generation selection.
  datatype Selection =
    | Selected(repositoryId: string, stale: bool, generationId: string, commitSha: string, selectedAt: string,
               freshnessAgeMs: int)
    | NotSupported(repositoryId: string, generationId: string, commitSha: string, optionalSelectedAt: Option<string>,
                   reason: string)
    | NotAvailable(repositoryId: string, why: Unavailability, reason: string)

  predicate SelectionOk(s: Selection) {
    if s.Selected? then SafeCount(s.freshnessAgeMs) else BoundedText(s.reason, 192)
  }

  function StateOf(s: Selection): SelectionState {
    match s
    case Selected(_, stale, _, _, _, _) => if stale then Stale else Current
    case NotSupported(_, _, _, _, _) => UnsupportedSelection
    case NotAvailable(_, why, _) =>
      if why.NoAuthorization? then Unauthorized else if why.SelectionFailed? then FailedSelection else NotIndexed
  }

  function StateName(s: SelectionState): string {
    match s
    case Current => "current"
    case Stale => "stale"
    case Unauthorized => "unauthorized"
    case UnsupportedSelection => "unsupported"
    case FailedSelection => "failed"
    case NotIndexed => "not_indexed"
  }

  function RoleOf(scope: Scope, id: string): Role {
    if id == scope.producerId then ProducerConsumer else Consumer
  }

  function Draft(scope: Scope, s: Selection, families: seq<FamilyCoverage>): RepositoryCoverage {
    var blank := RepositoryCoverage(scope.workspaceId, scope.revision, s.repositoryId, RoleOf(scope, s.repositoryId),
                                    StateOf(s), None, None, None, None, None, families, "");
    match s
    case Selected(_, _, g, sha, at, age) =>
      blank.(generationId := Some(g), commitSha := Some(sha), selectedAt := Some(at), freshnessAgeMs := Some(age))
    case NotSupported(_, g, sha, at, reason) =>
      blank.(generationId := Some(g), commitSha := Some(sha), selectedAt := at, selectionReason := Some(reason))
    case NotAvailable(_, _, reason) => blank.(selectionReason := Some(reason))
  }

  function Missing(family: Family, code: string): FamilyCoverage {
    FamilyCoverage(family, NotAnalysed, 0, 0, 0, 0, [], [Limitation(code, FromSelection, None)], "")
  }

  function MissingFamilies(t: Tools, enabled: seq<Family>, code: string): Result<seq<FamilyCoverage>> {
    if enabled == [] then Ok([])
    else
      var n := |enabled| - 1;
      match (MissingFamilies(t, enabled[..n], code), FinalizeFamily(t, Missing(enabled[n], code)))
      case (Ok(front), Ok(last)) => Ok(front + [last])
      case _ => Throws
  }

  function UnavailableEntry(t: Tools, scope: Scope, enabled: seq<Family>, s: Selection, code: string)
    : Result<RepositoryCoverage>
  {
    match MissingFamilies(t, enabled, code)
    case Throws => Throws
    case Ok(families) => FinalizeRepository(t, Draft(scope, s, families))
  }

  datatype Answer = Unreadable | Nothing | Found(coverage: RepositoryCoverage)

  // What the composition may read with, and what it reads from.
  datatype Access = Access(capability: A.Capability, source: Option<Selection -> Answer>)

  predicate MayRead(access: Access, scope: Scope, s: Selection) {
    access.capability.workspaceId == scope.workspaceId && s.repositoryId in access.capability.repositoryIds
  }

  // Accept a record only if it is what was asked for, and canonical.
  predicate MatchesQuery(t: Tools, scope: Scope, enabled: seq<Family>, s: Selection, c: RepositoryCoverage) {
    var draft := Draft(scope, s, []);
    && c.workspaceId == scope.workspaceId && c.revision == scope.revision && c.repositoryId == s.repositoryId
    && c.generationId == draft.generationId && c.commitSha == draft.commitSha
    && c.selectionState == StateOf(s) && c.selectedAt == draft.selectedAt && c.freshnessAgeMs == draft.freshnessAgeMs
    && c.role == RoleOf(scope, s.repositoryId)
    && CoversFamilies(c, enabled)
    && FinalizeRepository(t, c) == Ok(c)
  }

  predicate Asked(access: Access, enabled: seq<Family>, s: Selection) {
    enabled != [] && access.source.Some? && !s.NotAvailable?
  }

  predicate Accepted(t: Tools, scope: Scope, enabled: seq<Family>, s: Selection, answer: Answer) {
    answer.Found? && MatchesQuery(t, scope, enabled, s, answer.coverage)
  }

  function EntryFor(t: Tools, scope: Scope, enabled: seq<Family>, access: Access, s: Selection)
    : Result<RepositoryCoverage>
  {
    if !Asked(access, enabled, s) then UnavailableEntry(t, scope, enabled, s, "repository_" + StateName(StateOf(s)))
    else if !MayRead(access, scope, s) then Throws
    else if Accepted(t, scope, enabled, s, access.source.value(s)) then Ok(access.source.value(s).coverage)
    else UnavailableEntry(t, scope, enabled, s, "family_coverage_unavailable")
  }

  function Entries(t: Tools, scope: Scope, enabled: seq<Family>, access: Access,
                   selections: map<string, Selection>, ids: seq<string>): Result<seq<RepositoryCoverage>>
  {
    if ids == [] then Ok([])
    else
      var id := ids[|ids| - 1];
      match Entries(t, scope, enabled, access, selections, ids[..|ids| - 1])
      case Throws => Throws
      case Ok(front) =>
        if id !in selections then Throws
        else
          match EntryFor(t, scope, enabled, access, selections[id])
          case Throws => Throws
          case Ok(c) => Ok(front + [c])
  }

  lemma {:induction false} EntriesThrow(t: Tools, scope: Scope, enabled: seq<Family>, access: Access,
      selections: map<string, Selection>, ids: seq<string>, n: nat)
    requires n <= |ids| && Entries(t, scope, enabled, access, selections, ids[..n]).Throws?
    ensures Entries(t, scope, enabled, access, selections, ids).Throws?
    decreases |ids|
  {
    hide EntryFor;
    if n < |ids| {
      assert ids[..|ids| - 1][..n] == ids[..n];
      EntriesThrow(t, scope, enabled, access, selections, ids[..|ids| - 1], n);
    } else {
      assert ids[..n] == ids;
    }
  }

  // The composition loop.
  method Compose(t: Tools, scope: Scope, families: seq<Family>, access: Access,
                 selections: map<string, Selection>) returns (r: Result<Coverage>)
    ensures r == match Entries(t, scope, Enabled(t, families), access, selections, scope.repositories)
                 case Throws => Throws
                 case Ok(entries) => FinalizeAnalysis(t, scope, Enabled(t, families), entries)
  {
    hide UnavailableEntry, MatchesQuery, Enabled, FinalizeAnalysis;
    var enabled := Enabled(t, families);
    var repositories: seq<RepositoryCoverage> := [];
    var ids := scope.repositories;
    for i := 0 to |ids|
      invariant Entries(t, scope, enabled, access, selections, ids[..i]) == Ok(repositories)
    {
      assert ids[..i + 1][..i] == ids[..i];
      if ids[i] !in selections {
        EntriesThrow(t, scope, enabled, access, selections, ids, i + 1);
        return Throws;
      }
      var s := selections[ids[i]];
      var entry: Result<RepositoryCoverage>;
      if !Asked(access, enabled, s) {
        entry := UnavailableEntry(t, scope, enabled, s, "repository_" + StateName(StateOf(s)));
      } else if !MayRead(access, scope, s) {
        entry := Throws;
      } else {
        var answer := access.source.value(s);
        entry := if Accepted(t, scope, enabled, s, answer) then Ok(answer.coverage)
                 else UnavailableEntry(t, scope, enabled, s, "family_coverage_unavailable");
      }
      if entry.Throws? {
        EntriesThrow(t, scope, enabled, access, selections, ids, i + 1);
        return Throws;
      }
      repositories := repositories + [entry.value];
    }
    assert ids[..|ids|] == ids;
    r := FinalizeAnalysis(t, scope, enabled, repositories);
  }

  // --- the validators are stable -------------------------------------------------

  lemma OrdersArePreorders(t: Tools)
    requires ToolsOk(t)
    ensures TotalPreorder(AdapterOrder(t)) && TotalPreorder(LimitationOrder(t)) && TotalPreorder(FamilyOrder(t))
  {
    hide LimitationKey;
    PulledBack(t.leq, (a: Adapter) => a.adapterId, AdapterOrder(t));
    PulledBack(t.leq, (l: Limitation) => LimitationKey(l), LimitationOrder(t));
    PulledBack(t.familyLeq, (f: FamilyCoverage) => f.family, FamilyOrder(t));
  }

  // What a validator returns, it accepts unchanged.
  lemma FamilyIsStable(t: Tools, c: FamilyCoverage)
    requires ToolsOk(t) && FinalizeFamily(t, c).Ok?
    ensures FinalizeFamily(t, FinalizeFamily(t, c).value) == FinalizeFamily(t, c)
  {
    hide Sort, TotalPreorder, ToolsOk, AdapterOk, LimitationOk, LimitationKey, AdapterOrder, LimitationOrder;
    OrdersArePreorders(t);
    SortSorts(c.adapters, AdapterOrder(t));
    SortSorts(c.limitations, LimitationOrder(t));
    SortOfSorted(Sort(c.adapters, AdapterOrder(t)), AdapterOrder(t));
    SortOfSorted(Sort(c.limitations, LimitationOrder(t)), LimitationOrder(t));
  }

  lemma RepositoryIsStable(t: Tools, c: RepositoryCoverage)
    requires ToolsOk(t) && FinalizeRepository(t, c).Ok?
    ensures FinalizeRepository(t, FinalizeRepository(t, c).value) == FinalizeRepository(t, c)
  {
    hide Sort, TotalPreorder, ToolsOk, FinalizeFamily, FamilyOrder;
    OrdersArePreorders(t);
    SortSorts(c.families, FamilyOrder(t));
    SortOfSorted(Sort(c.families, FamilyOrder(t)), FamilyOrder(t));
  }

  lemma EnabledIsStable(t: Tools, families: seq<Family>)
    requires ToolsOk(t)
    ensures var e := Enabled(t, families); Enabled(t, e) == e && NoDuplicates(e) && SortedBy(e, t.familyLeq)
  {
    hide Sort, Distinct;
    var e := Enabled(t, families);
    RearrangedWithoutDuplicates(Distinct(families), e);
    SortSorts(families, t.familyLeq);
    SortSorts(Distinct(families), t.familyLeq);
    DistinctOfDistinct(e);
    SortOfSorted(e, t.familyLeq);
  }

  lemma {:induction false} DistinctOfDistinct<T(!new)>(s: seq<T>)
    requires NoDuplicates(s)
    ensures Distinct(s) == s
  {
    if s != [] {
      var n := |s| - 1;
      DistinctOfDistinct(s[..n]);
      assert s == s[..n] + [s[n]];
      assert s[n] !in s[..n];
    }
  }

  // --- entries ---------------------------------------------------------------------

  lemma MissingFamilyIsAccepted(t: Tools, f: Family, code: string)
    requires BoundedText(code, 192)
    ensures FinalizeFamily(t, Missing(f, code)).Ok?
    ensures var c := FinalizeFamily(t, Missing(f, code)).value; c.family == f && c.state.NotAnalysed?
  {
    hide BoundedText;
    var l := Limitation(code, FromSelection, None);
    assert Sort([l], LimitationOrder(t)) == [l];
    assert Sort<Adapter>([], AdapterOrder(t)) == [];
    assert LimitationOk(l);
  }

  lemma {:induction false} MissingFamiliesAre(t: Tools, enabled: seq<Family>, code: string)
    requires ToolsOk(t) && BoundedText(code, 192)
    ensures var r := MissingFamilies(t, enabled, code);
            && r.Ok? && |r.value| == |enabled|
            && forall i :: 0 <= i < |enabled| ==>
                 && r.value[i].family == enabled[i] && r.value[i].state.NotAnalysed?
                 && FinalizeFamily(t, r.value[i]) == Ok(r.value[i])
  {
    hide FinalizeFamily, ToolsOk, BoundedText;
    if enabled != [] {
      var n := |enabled| - 1;
      MissingFamiliesAre(t, enabled[..n], code);
      MissingFamilyIsAccepted(t, enabled[n], code);
      FamilyIsStable(t, Missing(enabled[n], code));
    }
  }

  // A record the composition may push for a selection.
  ghost predicate EntryOk(t: Tools, scope: Scope, enabled: seq<Family>, id: string, c: RepositoryCoverage) {
    && c.workspaceId == scope.workspaceId && c.revision == scope.revision && c.repositoryId == id
    && CoversFamilies(c, enabled) && FinalizeRepository(t, c) == Ok(c) && c.role == RoleOf(scope, id)
  }

  lemma SortedFamilies(t: Tools, enabled: seq<Family>, families: seq<FamilyCoverage>)
    requires SortedBy(enabled, t.familyLeq) && NoDuplicates(enabled) && |families| == |enabled|
    requires forall i :: 0 <= i < |enabled| ==> families[i].family == enabled[i]
    ensures Sort(families, FamilyOrder(t)) == families
    ensures forall i :: 0 < i < |families| ==> families[i].family != families[i - 1].family
  {
    hide Sort;
    SortOfSorted(families, FamilyOrder(t));
    forall i | 0 < i < |families| ensures families[i].family != families[i - 1].family {
      assert enabled[i - 1] != enabled[i];
    }
  }

  lemma DraftIsAccepted(t: Tools, scope: Scope, enabled: seq<Family>, s: Selection, families: seq<FamilyCoverage>)
    requires ToolsOk(t) && SelectionOk(s) && SortedBy(enabled, t.familyLeq) && NoDuplicates(enabled)
    requires |families| == |enabled|
    requires forall i :: 0 <= i < |enabled| ==>
               families[i].family == enabled[i] && FinalizeFamily(t, families[i]) == Ok(families[i])
    ensures var r := FinalizeRepository(t, Draft(scope, s, families));
            r.Ok? && r.value.families == families && EntryOk(t, scope, enabled, s.repositoryId, r.value)
            && r.value.selectionState == StateOf(s)
  {
    hide Sort, FinalizeFamily, BoundedText, SortedBy, NoDuplicates, ToolsOk;
    SortedFamilies(t, enabled, families);
    RepositoryAccepted(t, Draft(scope, s, families));
    RepositoryIsStable(t, Draft(scope, s, families));
  }

  lemma RepositoryAccepted(t: Tools, c: RepositoryCoverage)
    requires Sort(c.families, FamilyOrder(t)) == c.families && RepositoryChecks(t, c, c.families)
    ensures FinalizeRepository(t, c).Ok? && FinalizeRepository(t, c).value.families == c.families
    ensures FinalizeRepository(t, c).value == c.(outputHash := FinalizeRepository(t, c).value.outputHash)
  {
    hide RepositoryChecks, Sort;
  }

  lemma ShortCode(code: string)
    requires 0 < |code| <= 64 && forall i :: 0 <= i < |code| ==> 0x20 <= code[i] as int < 0x7f
    ensures BoundedText(code, 192)
  {
    hide Utf16.Length;
    Utf16.LengthBounds(code);
  }

  lemma CodesAreBounded(s: SelectionState)
    ensures BoundedText("repository_" + StateName(s), 192) && BoundedText("family_coverage_unavailable", 192)
  {
    hide BoundedText;
    ShortCode("repository_" + StateName(s));
    ShortCode("family_coverage_unavailable");
  }

  // Every family of an unavailable repository counts as not analysed.
  lemma UnavailableIsAccepted(t: Tools, scope: Scope, enabled: seq<Family>, s: Selection, code: string)
    requires ToolsOk(t) && SelectionOk(s) && SortedBy(enabled, t.familyLeq) && NoDuplicates(enabled)
    requires BoundedText(code, 192)
    ensures var r := UnavailableEntry(t, scope, enabled, s, code);
            && r.Ok? && EntryOk(t, scope, enabled, s.repositoryId, r.value)
            && (FullyCovered(r.value) <==> StateOf(s).Current? && enabled == [])
  {
    hide FinalizeFamily, FinalizeRepository, Draft, EntryOk, ToolsOk, BoundedText, SortedBy, NoDuplicates, SelectionOk;
    MissingFamiliesAre(t, enabled, code);
    var families := MissingFamilies(t, enabled, code).value;
    DraftIsAccepted(t, scope, enabled, s, families);
    if enabled != [] {
      assert families[0] in families && !families[0].state.Complete?;
    }
  }

  // The record the source gave, when it may be used.
  ghost predicate CoveredBySource(t: Tools, scope: Scope, enabled: seq<Family>, access: Access, s: Selection) {
    && Asked(access, enabled, s) && Accepted(t, scope, enabled, s, access.source.value(s))
    && FullyCovered(access.source.value(s).coverage)
  }

  ghost predicate Served(t: Tools, scope: Scope, enabled: seq<Family>, access: Access, s: Selection) {
    StateOf(s).Current? && (enabled == [] || CoveredBySource(t, scope, enabled, access, s))
  }

  // The source is asked about a repository only inside the capability.
  ghost predicate Readable(access: Access, scope: Scope, enabled: seq<Family>, s: Selection) {
    Asked(access, enabled, s) ==> MayRead(access, scope, s)
  }

  lemma EntryIsAccepted(t: Tools, scope: Scope, enabled: seq<Family>, access: Access, s: Selection)
    requires ToolsOk(t) && SelectionOk(s) && SortedBy(enabled, t.familyLeq) && NoDuplicates(enabled)
    ensures var r := EntryFor(t, scope, enabled, access, s);
            && (r.Ok? <==> Readable(access, scope, enabled, s))
            && (r.Ok? ==> EntryOk(t, scope, enabled, s.repositoryId, r.value))
            && (r.Ok? ==> (FullyCovered(r.value) <==> Served(t, scope, enabled, access, s)))
  {
    hide FinalizeRepository, UnavailableEntry, ToolsOk, BoundedText, SortedBy, NoDuplicates, SelectionOk, Draft;
    CodesAreBounded(StateOf(s));
    UnavailableIsAccepted(t, scope, enabled, s, "repository_" + StateName(StateOf(s)));
    UnavailableIsAccepted(t, scope, enabled, s, "family_coverage_unavailable");
    if Asked(access, enabled, s) && Accepted(t, scope, enabled, s, access.source.value(s)) {
      assert access.source.value(s).coverage.selectionState == StateOf(s);
    }
  }

  // --- the composition never trips a validator -----------------------------------

  // Every authorised repository has a well-formed selection of its own.
  ghost predicate SelectionsOk(selections: map<string, Selection>, ids: seq<string>) {
    forall id :: id in ids ==> id in selections && selections[id].repositoryId == id && SelectionOk(selections[id])
  }

  ghost predicate AllReadable(
      access: Access, scope: Scope, enabled: seq<Family>, selections: map<string, Selection>, ids: seq<string>)
    requires SelectionsOk(selections, ids)
  {
    forall id :: id in ids ==> Readable(access, scope, enabled, selections[id])
  }

  lemma {:induction false} EntriesAreAccepted(t: Tools, scope: Scope, enabled: seq<Family>, access: Access,
      selections: map<string, Selection>, ids: seq<string>)
    requires ToolsOk(t) && SortedBy(enabled, t.familyLeq) && NoDuplicates(enabled) && SelectionsOk(selections, ids)
    ensures var r := Entries(t, scope, enabled, access, selections, ids);
            && (r.Ok? <==> AllReadable(access, scope, enabled, selections, ids))
            && (r.Ok? ==> |r.value| == |ids|)
            && forall i :: r.Ok? && 0 <= i < |ids| ==>
                 && EntryOk(t, scope, enabled, ids[i], r.value[i])
                 && (FullyCovered(r.value[i]) <==> Served(t, scope, enabled, access, selections[ids[i]]))
  {
    hide EntryFor, EntryOk, ToolsOk, SortedBy, NoDuplicates, SelectionOk, FullyCovered, Served, Readable;
    if ids != [] {
      var n := |ids| - 1;
      assert forall id :: id in ids[..n] ==> id in ids;
      EntriesAreAccepted(t, scope, enabled, access, selections, ids[..n]);
      assert ids[n] in ids;
      EntryIsAccepted(t, scope, enabled, access, selections[ids[n]]);
    }
  }

  function IdOf(): RepositoryCoverage -> string {
    (c: RepositoryCoverage) => c.repositoryId
  }

  lemma SortedIds(t: Tools, repositories: seq<RepositoryCoverage>, ids: seq<string>)
    requires |repositories| == |ids| && forall i :: 0 <= i < |ids| ==> repositories[i].repositoryId == ids[i]
    ensures var sorted := Sort(repositories, ById(t));
            && |sorted| == |Sort(ids, t.leq)|
            && forall i :: 0 <= i < |sorted| ==> sorted[i].repositoryId == Sort(ids, t.leq)[i]
  {
    hide Sort;
    assert Map(IdOf(), repositories) == ids;
    SortCommutes(IdOf(), repositories, ById(t), t.leq);
    var sorted := Sort(repositories, ById(t));
    assert Map(IdOf(), sorted) == Sort(ids, t.leq);
    forall i | 0 <= i < |sorted| ensures sorted[i].repositoryId == Sort(ids, t.leq)[i] {
      assert Map(IdOf(), sorted)[i] == IdOf()(sorted[i]);
    }
  }

  // With a well-formed selection for every authorised repository, composition
  // succeeds whatever the source answers, as long as it is asked only inside the
  // capability. It is complete exactly when there are no gaps and every repository
  // is current and served a full record.
  lemma CompositionSucceeds(t: Tools, scope: Scope, families: seq<Family>, access: Access,
                            selections: map<string, Selection>)
    requires ToolsOk(t) && SelectionsOk(selections, scope.repositories) && scope.producerId in scope.repositories
    ensures var enabled := Enabled(t, families);
            var entries := Entries(t, scope, enabled, access, selections, scope.repositories);
            && (entries.Ok? <==> AllReadable(access, scope, enabled, selections, scope.repositories))
            && (entries.Ok? ==> FinalizeAnalysis(t, scope, enabled, entries.value).Ok?)
            && (entries.Ok? ==> var c := FinalizeAnalysis(t, scope, enabled, entries.value).value;
               && c.enabledFamilies == enabled && multiset(c.repositories) == multiset(entries.value)
               && (c.complete <==> scope.gaps == [] && forall id :: id in scope.repositories ==>
                                     Served(t, scope, enabled, access, selections[id])))
  {
    hide Sort, FinalizeRepository, Entries, ToolsOk, Enabled, SelectionsOk, FullyCovered, Served, AnalysisChecks,
         EntryOk;
    var enabled := Enabled(t, families);
    EnabledIsStable(t, families);
    EntriesAreAccepted(t, scope, enabled, access, selections, scope.repositories);
    if Entries(t, scope, enabled, access, selections, scope.repositories).Ok? {
      var entries := Entries(t, scope, enabled, access, selections, scope.repositories).value;
      EntriesPass(t, scope, enabled, entries);
      CompleteExactly(t, scope, enabled, access, selections, entries);
      var sorted := Sort(entries, ById(t));
      SameElements(sorted, entries);
      assert (forall c :: c in sorted ==> FullyCovered(c)) <==> forall c :: c in entries ==> FullyCovered(c);
    }
  }

  lemma EntriesPass(t: Tools, scope: Scope, enabled: seq<Family>, entries: seq<RepositoryCoverage>)
    requires |entries| == |scope.repositories| && scope.producerId in scope.repositories
    requires forall i :: 0 <= i < |entries| ==> EntryOk(t, scope, enabled, scope.repositories[i], entries[i])
    ensures AnalysisChecks(t, scope, enabled, Sort(entries, ById(t)))
  {
    hide Sort, FinalizeRepository, CoversFamilies, EntryOk, AnalysisChecks;
    var sorted := Sort(entries, ById(t));
    forall i | 0 <= i < |entries| ensures entries[i].repositoryId == scope.repositories[i] {
      EntryHasId(t, scope, enabled, scope.repositories[i], entries[i]);
    }
    SortedIds(t, entries, scope.repositories);
    SameElements(sorted, entries);
    forall c | c in sorted ensures EntryOk(t, scope, enabled, c.repositoryId, c) {
      var i :| 0 <= i < |entries| && entries[i] == c;
      EntryHasId(t, scope, enabled, scope.repositories[i], c);
    }
    var p :| 0 <= p < |scope.repositories| && scope.repositories[p] == scope.producerId;
    EntryHasId(t, scope, enabled, scope.repositories[p], entries[p]);
    ChecksHold(t, scope, enabled, sorted, entries[p]);
  }

  lemma ChecksHold(t: Tools, scope: Scope, enabled: seq<Family>, sorted: seq<RepositoryCoverage>, p: RepositoryCoverage)
    requires |sorted| == |Sort(scope.repositories, t.leq)|
    requires forall i :: 0 <= i < |sorted| ==> sorted[i].repositoryId == Sort(scope.repositories, t.leq)[i]
    requires forall c :: c in sorted ==> EntryOk(t, scope, enabled, c.repositoryId, c)
    requires p in sorted && p.repositoryId == scope.producerId
    ensures AnalysisChecks(t, scope, enabled, sorted)
  {
    hide Sort, FinalizeRepository, CoversFamilies;
  }

  lemma EntryHasId(t: Tools, scope: Scope, enabled: seq<Family>, id: string, c: RepositoryCoverage)
    requires EntryOk(t, scope, enabled, id, c)
    ensures c.repositoryId == id && c.workspaceId == scope.workspaceId && c.revision == scope.revision
    ensures CoversFamilies(c, enabled) && FinalizeRepository(t, c) == Ok(c)
    ensures c.role.ProducerConsumer? <==> id == scope.producerId
  {
  }

  lemma CompleteExactly(t: Tools, scope: Scope, enabled: seq<Family>, access: Access,
                        selections: map<string, Selection>, entries: seq<RepositoryCoverage>)
    requires |entries| == |scope.repositories| && SelectionsOk(selections, scope.repositories)
    requires forall i :: 0 <= i < |entries| ==>
               (FullyCovered(entries[i]) <==> Served(t, scope, enabled, access, selections[scope.repositories[i]]))
    ensures (forall c :: c in entries ==> FullyCovered(c))
            <==> forall id :: id in scope.repositories ==> Served(t, scope, enabled, access, selections[id])
  {
    hide FullyCovered, Served;
    if forall c :: c in entries ==> FullyCovered(c) {
      forall id | id in scope.repositories ensures Served(t, scope, enabled, access, selections[id]) {
        var i :| 0 <= i < |entries| && scope.repositories[i] == id;
        assert entries[i] in entries;
      }
    }
    if forall id :: id in scope.repositories ==> Served(t, scope, enabled, access, selections[id]) {
      forall c | c in entries ensures FullyCovered(c) {
        var i :| 0 <= i < |entries| && entries[i] == c;
        assert scope.repositories[i] in scope.repositories;
      }
    }
  }

  // A resolved scope comes with a capability inside which every authorised
  // repository may be read, so its composition never meets the refusal.
  lemma ResolvedScopeIsReadable(
      q: A.Query, leq: (string, string) -> bool, gapLeq: (A.Gap, A.Gap) -> bool, source: Option<Selection -> Answer>,
      enabled: seq<Family>, selections: map<string, Selection>)
    requires A.Resolved(q, leq, gapLeq).Ok?
    requires SelectionsOk(selections, A.Resolved(q, leq, gapLeq).value.capability.repositoryIds)
    ensures var s := A.Resolved(q, leq, gapLeq).value;
            var ids := s.capability.repositoryIds;
            var scope := Scope(q.registry.workspaceId, q.registry.revision, q.producerId, ids, s.gaps);
            && (forall id :: id in ids <==> A.Granted(s.repositories, id))
            && AllReadable(Access(s.capability, source), scope, enabled, selections, ids)
  {
    hide A.Candidates, A.BarredGaps, A.Allowed, A.RefusedGaps, A.Considered, A.Granted;
    A.ScopeIsPartition(q, leq, gapLeq);
  }
}
