// What the coverage validators accept and what the composition writes down, field
// by field and independent of the order in which lists arrive.
module CoverageRecords {
  import opened Outcomes
  import opened Sorting
  import opened StringKeys
  import opened AnalysisCoverage
  import TextOrder
  import A = AnalysisScope
  import Utf16

  // --- neighbours and pairs ---------------------------------------------------------

  ghost predicate PairsDiffer<T, U>(s: seq<T>, key: T -> U) {
    forall i, j :: 0 <= i < j < |s| ==> key(s[i]) != key(s[j])
  }

  ghost predicate NeighboursDiffer<T, U>(s: seq<T>, key: T -> U) {
    forall i :: 0 < i < |s| ==> key(s[i]) != key(s[i - 1])
  }

  lemma NeighboursOfSorted<U(!new)>(keys: seq<U>, leq: (U, U) -> bool)
    requires TotalOrder(leq) && SortedBy(keys, leq)
    ensures NoDuplicates(keys) <==> forall i :: 0 < i < |keys| ==> keys[i] != keys[i - 1]
  {
    if forall i :: 0 < i < |keys| ==> keys[i] != keys[i - 1] {
      forall i, j | 0 <= i < j < |keys| ensures keys[i] != keys[j] {
        assert i == j - 1 || leq(keys[i], keys[j - 1]);
        assert leq(keys[j - 1], keys[j]);
      }
    }
  }

  // After sorting by a key it is enough to compare neighbours.
  lemma NeighboursSuffice<T(!new), U(!new)>(s: seq<T>, leq: (U, U) -> bool, key: T -> U, order: (T, T) -> bool)
    requires TotalOrder(leq) && forall a, b :: order(a, b) <==> leq(key(a), key(b))
    ensures NeighboursDiffer(Sort(s, order), key) <==> PairsDiffer(s, key)
  {
    hide Sort, TotalOrder, Map;
    var sorted, keys := Sort(s, order), Map(key, s);
    SortCommutes(key, s, order, leq);
    assert TotalPreorder(leq) by { OrderIsPreorder(leq); }
    SortSorts(keys, leq);
    NeighboursOfSorted(Sort(keys, leq), leq);
    if NoDuplicates(keys) {
      RearrangedWithoutDuplicates(keys, Sort(keys, leq));
    }
    if NoDuplicates(Sort(keys, leq)) {
      RearrangedWithoutDuplicates(Sort(keys, leq), keys);
    }
    assert PairsDiffer(s, key) <==> NoDuplicates(keys) by {
      forall i | 0 <= i < |s| ensures keys[i] == key(s[i]) {}
    }
    assert forall i :: 0 <= i < |sorted| ==> Sort(keys, leq)[i] == key(sorted[i]);
  }

  lemma OrderIsPreorder<U(!new)>(leq: (U, U) -> bool)
    requires TotalOrder(leq)
    ensures TotalPreorder(leq)
  {
  }

  // --- family records ------------------------------------------------------------------

  ghost predicate IsText(s: string, maximum: nat) {
    s != "" && Utf16.Length(s) <= maximum && forall c :: c in s ==> ' ' <= c && c != '\U{7F}'
  }

  ghost predicate IsCount(n: int) {
    0 <= n < 0x20_0000_0000_0000
  }

  ghost predicate GoodAdapter(a: Adapter) {
    && IsText(a.adapterVersion, 128) && IsText(a.extractionVersion, 128) && IsText(a.compatibilityVersion, 128)
    && IsCount(a.identityVersion) && a.identityVersion != 0
    && IsCount(a.partitioningVersion) && a.partitioningVersion != 0
  }

  ghost predicate GoodLimitation(l: Limitation) {
    IsText(l.code, 192) && l.source in {FromSource, FromAdapter, FromSelection, FromBudget}
  }

  // An absent detail counts as an empty one.
  ghost predicate SameLimitation(k: Limitation, l: Limitation) {
    && k.source == l.source && k.code == l.code
    && (k.detailHash == l.detailHash || (k.detailHash in {None, Some("")} && l.detailHash in {None, Some("")}))
  }

  // Every file is accounted for once; a complete record has no limitation and
  // nothing failed or left over, and only a record of nothing names no adapter.
  ghost predicate GoodFamily(c: FamilyCoverage) {
    && c.state != UnknownState
    && IsCount(c.eligible) && IsCount(c.processed) && IsCount(c.skipped) && IsCount(c.failed)
    && c.processed + c.skipped + c.failed <= c.eligible
    && (forall a :: a in c.adapters ==> GoodAdapter(a))
    && (forall i, j :: 0 <= i < j < |c.adapters| ==> c.adapters[i].adapterId != c.adapters[j].adapterId)
    && (forall l :: l in c.limitations ==> GoodLimitation(l))
    && (forall i, j :: 0 <= i < j < |c.limitations| ==> !SameLimitation(c.limitations[i], c.limitations[j]))
    && (c.limitations == [] <==> c.state == Complete)
    && (c.state == Complete ==> c.processed + c.skipped == c.eligible && c.failed == 0)
    && (c.adapters == [] <==> c.state == NotAnalysed)
    && (c.state == NotAnalysed ==> c.eligible == 0)
  }

  lemma TextIs(s: string, maximum: nat)
    ensures BoundedText(s, maximum) <==> IsText(s, maximum)
  {
    hide Utf16.Length;
    if BoundedText(s, maximum) {
      forall c | c in s ensures ' ' <= c && c != '\U{7F}' {
        var i :| 0 <= i < |s| && s[i] == c;
      }
    }
    if IsText(s, maximum) {
      forall i | 0 <= i < |s| ensures s[i] as int >= 0x20 && s[i] as int != 0x7f {
        assert s[i] in s;
      }
    }
  }

  lemma AdapterIs(a: Adapter)
    ensures AdapterOk(a) <==> GoodAdapter(a)
  {
    hide BoundedText, IsText;
    TextIs(a.adapterVersion, 128);
    TextIs(a.extractionVersion, 128);
    TextIs(a.compatibilityVersion, 128);
  }

  lemma LimitationIs(l: Limitation)
    ensures LimitationOk(l) <==> GoodLimitation(l)
    ensures GoodLimitation(l) ==> NulFree(l.code)
  {
    hide BoundedText;
    TextIs(l.code, 192);
  }

  lemma LimitationKeysDiffer(k: Limitation, l: Limitation)
    requires GoodLimitation(k) && GoodLimitation(l)
    ensures LimitationKey(k) == LimitationKey(l) <==> SameLimitation(k, l)
  {
    hide LimitationKey, GoodLimitation;
    LimitationIs(k);
    LimitationIs(l);
    KeyIsGlued(k);
    KeyIsGlued(l);
    SourcesDiffer(k, l);
    if LimitationKey(k) == LimitationKey(l) {
      GluedTwice(SourceName(k.source), k.code, DetailOf(k), SourceName(l.source), l.code, DetailOf(l));
    }
  }

  lemma KeyIsGlued(l: Limitation)
    requires GoodLimitation(l)
    ensures LimitationKey(l) == SourceName(l.source) + NUL + (l.code + NUL + DetailOf(l))
    ensures NulFree(SourceName(l.source))
  {
    hide IsText;
    assert LimitationKey(l) == SourceName(l.source) + NUL + l.code + NUL + DetailOf(l);
  }

  lemma SourcesDiffer(k: Limitation, l: Limitation)
    requires GoodLimitation(k) && GoodLimitation(l)
    ensures SourceName(k.source) == SourceName(l.source) <==> k.source == l.source
  {
    hide IsText;
    assert |"source"| == 6 && |"adapter"| == 7 && |"selection"| == 9 && |"budget"| == 6 && "source"[0] != "budget"[0];
  }

  lemma GluedTwice(a: string, b: string, c: string, x: string, y: string, z: string)
    requires NulFree(a) && NulFree(b) && NulFree(x) && NulFree(y)
    requires a + NUL + (b + NUL + c) == x + NUL + (y + NUL + z)
    ensures a == x && b == y && c == z
  {
    GluedPrefix(a, b + NUL + c, x, y + NUL + z);
    GluedPrefix(x, y + NUL + z, a, b + NUL + c);
    GluedPrefix(b, c, y, z);
    GluedPrefix(y, z, b, c);
  }

  function DetailOf(l: Limitation): string {
    if l.detailHash.Some? then l.detailHash.value else ""
  }

  lemma LimitationsDiffer(limitations: seq<Limitation>)
    requires forall l :: l in limitations ==> GoodLimitation(l)
    ensures PairsDiffer(limitations, LimitationKey)
            <==> forall i, j :: 0 <= i < j < |limitations| ==> !SameLimitation(limitations[i], limitations[j])
  {
    hide SameLimitation, LimitationKey, GoodLimitation;
    forall i, j | 0 <= i < j < |limitations|
      ensures LimitationKey(limitations[i]) == LimitationKey(limitations[j])
              <==> SameLimitation(limitations[i], limitations[j])
    {
      LimitationKeysDiffer(limitations[i], limitations[j]);
    }
  }

  // What limitations are ordered by.
  function WrittenKey(l: Limitation): string {
    (match l.source
     case FromSource => "source"
     case FromAdapter => "adapter"
     case FromSelection => "selection"
     case FromBudget => "budget"
     case UnknownSource => "")
    + "\0" + l.code + "\0" + DetailOf(l)
  }

  lemma WrittenKeyIs()
    ensures forall l :: WrittenKey(l) == LimitationKey(l)
  {
  }

  // A family record is accepted exactly when it is good, whatever the order of
  // its lists; it comes out with them sorted and with its own hash.
  lemma FamilyAcceptedExactly(t: Tools, c: FamilyCoverage)
    requires ToolsOk(t)
    ensures FinalizeFamily(t, c).Ok? <==> GoodFamily(c)
    ensures FinalizeFamily(t, c).Ok? ==>
              var r := FinalizeFamily(t, c).value;
              && r.family == c.family && r.state == c.state && r.eligible == c.eligible && r.processed == c.processed
              && r.skipped == c.skipped && r.failed == c.failed
              && multiset(r.adapters) == multiset(c.adapters) && multiset(r.limitations) == multiset(c.limitations)
              && (forall i, j :: 0 <= i < j < |r.adapters| ==> t.leq(r.adapters[i].adapterId, r.adapters[j].adapterId))
              && (forall i, j :: 0 <= i < j < |r.limitations| ==>
                    t.leq(WrittenKey(r.limitations[i]), WrittenKey(r.limitations[j])))
              && r.outputHash == t.familyHash(r.(outputHash := ""))
  {
    hide Sort, AdapterOk, LimitationOk, LimitationKey, GoodAdapter, GoodLimitation, SameLimitation, TotalOrder,
         TotalPreorder;
    var adapters, limitations := Sort(c.adapters, AdapterOrder(t)), Sort(c.limitations, LimitationOrder(t));
    OrderIsPreorder(t.leq);
    WrittenKeyIs();
    hide WrittenKey;
    SortsByKey(c.adapters, t.leq, (a: Adapter) => a.adapterId, AdapterOrder(t));
    SortsByKey(c.limitations, t.leq, LimitationKey, LimitationOrder(t));
    ChecksAreGood(t, c);
  }

  lemma ChecksAreGood(t: Tools, c: FamilyCoverage)
    requires ToolsOk(t)
    ensures FamilyChecks(c, Sort(c.adapters, AdapterOrder(t)), Sort(c.limitations, LimitationOrder(t)))
            <==> GoodFamily(c)
  {
    hide Sort, AdapterOk, LimitationOk, LimitationKey, GoodAdapter, GoodLimitation, SameLimitation, TotalOrder;
    AdaptersAreGood(t, c.adapters);
    LimitationsAreGood(t, c.limitations);
  }

  lemma AdaptersAreGood(t: Tools, adapters: seq<Adapter>)
    requires ToolsOk(t)
    ensures var sorted := Sort(adapters, AdapterOrder(t));
            && |sorted| == |adapters|
            && ((forall a :: a in sorted ==> AdapterOk(a)) <==> forall a :: a in adapters ==> GoodAdapter(a))
            && ((forall i :: 0 < i < |sorted| ==> sorted[i].adapterId != sorted[i - 1].adapterId)
                <==> forall i, j :: 0 <= i < j < |adapters| ==> adapters[i].adapterId != adapters[j].adapterId)
  {
    hide Sort, AdapterOk, GoodAdapter, TotalOrder;
    var sorted := Sort(adapters, AdapterOrder(t));
    SameElements(sorted, adapters);
    forall a ensures AdapterOk(a) <==> GoodAdapter(a) {
      AdapterIs(a);
    }
    var key := (a: Adapter) => a.adapterId;
    NeighboursSuffice(adapters, t.leq, key, AdapterOrder(t));
    assert PairsDiffer(adapters, key)
        <==> forall i, j :: 0 <= i < j < |adapters| ==> adapters[i].adapterId != adapters[j].adapterId;
    assert NeighboursDiffer(sorted, key)
        <==> forall i :: 0 < i < |sorted| ==> sorted[i].adapterId != sorted[i - 1].adapterId;
  }

  lemma LimitationsAreGood(t: Tools, limitations: seq<Limitation>)
    requires ToolsOk(t)
    ensures var sorted := Sort(limitations, LimitationOrder(t));
            && |sorted| == |limitations|
            && ((forall l :: l in sorted ==> LimitationOk(l)) <==> forall l :: l in limitations ==> GoodLimitation(l))
            && ((forall l :: l in limitations ==> GoodLimitation(l)) ==>
                  ((forall i :: 0 < i < |sorted| ==> LimitationKey(sorted[i]) != LimitationKey(sorted[i - 1]))
                   <==> forall i, j :: 0 <= i < j < |limitations| ==> !SameLimitation(limitations[i], limitations[j])))
  {
    hide Sort, LimitationOk, GoodLimitation, SameLimitation, LimitationKey, TotalOrder;
    var sorted := Sort(limitations, LimitationOrder(t));
    SameElements(sorted, limitations);
    forall l ensures LimitationOk(l) <==> GoodLimitation(l) {
      LimitationIs(l);
    }
    NeighboursSuffice(limitations, t.leq, LimitationKey, LimitationOrder(t));
    if forall l :: l in limitations ==> GoodLimitation(l) {
      LimitationsDiffer(limitations);
    }
  }

  // --- repository records ----------------------------------------------------------------

  // A good record with its lists in order and with its own hash.
  ghost predicate Canonical(t: Tools, f: FamilyCoverage) {
    && GoodFamily(f)
    && (forall i, j :: 0 <= i < j < |f.adapters| ==> t.leq(f.adapters[i].adapterId, f.adapters[j].adapterId))
    && (forall i, j :: 0 <= i < j < |f.limitations| ==>
          t.leq(WrittenKey(f.limitations[i]), WrittenKey(f.limitations[j])))
    && f.outputHash == t.familyHash(f.(outputHash := ""))
  }

  lemma CanonicalIsFixed(t: Tools, f: FamilyCoverage)
    requires ToolsOk(t)
    ensures FinalizeFamily(t, f) == Ok(f) <==> Canonical(t, f)
  {
    hide Sort, GoodFamily, LimitationKey, FamilyChecks, TotalOrder;
    FamilyAcceptedExactly(t, f);
    WrittenKeyIs();
    hide WrittenKey;
    if Canonical(t, f) {
      SortOfSorted(f.adapters, AdapterOrder(t));
      SortOfSorted(f.limitations, LimitationOrder(t));
      ChecksAreGood(t, f);
    }
  }

  // The selection is told in full when there is one, and its failure otherwise.
  ghost predicate TellsSelection(c: RepositoryCoverage) {
    if c.selectionState in {Current, Stale} then
      && c.generationId.Some? && c.commitSha.Some? && c.selectedAt.Some?
      && c.freshnessAgeMs.Some? && IsCount(c.freshnessAgeMs.value) && c.selectionReason.None?
    else
      && c.selectionReason.Some? && IsText(c.selectionReason.value, 192)
      && if c.selectionState == UnsupportedSelection then c.generationId.Some? && c.commitSha.Some?
         else c.generationId.None? && c.commitSha.None? && c.selectedAt.None? && c.freshnessAgeMs.None?
  }

  ghost predicate GoodRepository(t: Tools, c: RepositoryCoverage) {
    && TellsSelection(c)
    && (forall i, j :: 0 <= i < j < |c.families| ==> c.families[i].family != c.families[j].family)
    && (forall f :: f in c.families ==> Canonical(t, f))
  }

  // A repository record is accepted exactly when it is good, and comes out with
  // its families in order and with its own hash.
  lemma RepositoryAcceptedExactly(t: Tools, c: RepositoryCoverage)
    requires ToolsOk(t)
    ensures FinalizeRepository(t, c).Ok? <==> GoodRepository(t, c)
    ensures FinalizeRepository(t, c).Ok? ==>
              var r := FinalizeRepository(t, c).value;
              && r == c.(families := r.families, outputHash := r.outputHash)
              && multiset(r.families) == multiset(c.families)
              && (forall i, j :: 0 <= i < j < |r.families| ==> t.familyLeq(r.families[i].family, r.families[j].family))
              && r.outputHash == t.repositoryHash(r.(outputHash := ""))
  {
    hide Sort, TellsSelection, Canonical, TotalOrder, TotalPreorder, FinalizeFamily, RepositoryChecks;
    OrderIsPreorder(t.familyLeq);
    SortsByKey(c.families, t.familyLeq, (f: FamilyCoverage) => f.family, FamilyOrder(t));
    RepositoryChecksAreGood(t, c);
  }

  lemma RepositoryChecksAreGood(t: Tools, c: RepositoryCoverage)
    requires ToolsOk(t)
    ensures RepositoryChecks(t, c, Sort(c.families, FamilyOrder(t))) <==> GoodRepository(t, c)
  {
    hide Sort, Canonical, TotalOrder, FinalizeFamily, BoundedText, IsText;
    var sorted := Sort(c.families, FamilyOrder(t));
    SameElements(sorted, c.families);
    forall f ensures FinalizeFamily(t, f) == Ok(f) <==> Canonical(t, f) {
      CanonicalIsFixed(t, f);
    }
    var key := (f: FamilyCoverage) => f.family;
    NeighboursSuffice(c.families, t.familyLeq, key, FamilyOrder(t));
    assert PairsDiffer(c.families, key)
        <==> forall i, j :: 0 <= i < j < |c.families| ==> c.families[i].family != c.families[j].family;
    assert NeighboursDiffer(sorted, key)
        <==> forall i :: 0 < i < |sorted| ==> sorted[i].family != sorted[i - 1].family;
    if c.selectionReason.Some? {
      TextIs(c.selectionReason.value, 192);
    }
  }

  // --- what the composition writes -----------------------------------------------------------

  // The record tells the selection as it was made.
  ghost predicate TellsAs(s: Selection, c: RepositoryCoverage) {
    match s
    case Selected(_, stale, generationId, commitSha, selectedAt, age) =>
      && c.selectionState == (if stale then Stale else Current)
      && c.generationId == Some(generationId) && c.commitSha == Some(commitSha)
      && c.selectedAt == Some(selectedAt) && c.freshnessAgeMs == Some(age)
    case NotSupported(_, generationId, commitSha, selectedAt, _) =>
      && c.selectionState == UnsupportedSelection
      && c.generationId == Some(generationId) && c.commitSha == Some(commitSha)
      && c.selectedAt == selectedAt && c.freshnessAgeMs == None
    case NotAvailable(_, why, _) =>
      && (c.selectionState == Unauthorized <==> why == NoAuthorization)
      && (c.selectionState == FailedSelection <==> why == SelectionFailed)
      && (c.selectionState == NotIndexed <==> why == NoIndex)
      && c.generationId == None && c.commitSha == None && c.selectedAt == None && c.freshnessAgeMs == None
  }

  // The record is of the selected repository, in this analysis, for its families.
  ghost predicate IsFor(scope: Scope, enabled: seq<Family>, s: Selection, c: RepositoryCoverage) {
    && c.workspaceId == scope.workspaceId && c.revision == scope.revision && c.repositoryId == s.repositoryId
    && (c.role == ProducerConsumer <==> s.repositoryId == scope.producerId)
    && TellsAs(s, c)
    && |c.families| == |enabled| && forall i :: 0 <= i < |enabled| ==> c.families[i].family == enabled[i]
  }

  // The answer of the source may be used as it stands.
  ghost predicate Usable(t: Tools, scope: Scope, enabled: seq<Family>, s: Selection, answer: Answer) {
    && answer.Found? && IsFor(scope, enabled, s, answer.coverage)
    && GoodRepository(t, answer.coverage)
    && answer.coverage.outputHash == t.repositoryHash(answer.coverage.(outputHash := ""))
  }

  ghost predicate SourceAsked(access: Access, enabled: seq<Family>, s: Selection) {
    enabled != [] && access.source.Some? && (s.Selected? || s.NotSupported?)
  }

  // What is noted for every family of a repository without a usable answer.
  ghost function CodeFor(asked: bool, s: Selection): string {
    if asked then "family_coverage_unavailable"
    else
      "repository_" +
      match s
      case Selected(_, stale, _, _, _, _) => if stale then "stale" else "current"
      case NotSupported(_, _, _, _, _) => "unsupported"
      case NotAvailable(_, why, _) =>
        match why
        case NoAuthorization => "unauthorized"
        case SelectionFailed => "failed"
        case NoIndex => "not_indexed"
  }

  ghost predicate NotAnalysedFor(f: FamilyCoverage, code: string) {
    && f.state == NotAnalysed && f.eligible == 0 && f.processed == 0 && f.skipped == 0 && f.failed == 0
    && f.adapters == [] && f.limitations == [Limitation(code, FromSelection, None)]
  }

  lemma DraftIs(t: Tools, scope: Scope, enabled: seq<Family>, s: Selection, c: RepositoryCoverage)
    requires ToolsOk(t)
    ensures MatchesQuery(t, scope, enabled, s, c)
            <==> IsFor(scope, enabled, s, c) && FinalizeRepository(t, c) == Ok(c)
  {
    hide FinalizeRepository;
  }

  lemma UsableIsAccepted(t: Tools, scope: Scope, enabled: seq<Family>, s: Selection, answer: Answer)
    requires ToolsOk(t) && SortedBy(enabled, t.familyLeq) && NoDuplicates(enabled)
    ensures Accepted(t, scope, enabled, s, answer) <==> Usable(t, scope, enabled, s, answer)
  {
    hide FinalizeRepository, GoodRepository, TellsAs, MatchesQuery, Sort, SortedBy, NoDuplicates;
    if answer.Found? {
      var c := answer.coverage;
      DraftIs(t, scope, enabled, s, c);
      RepositoryAcceptedExactly(t, c);
      if Usable(t, scope, enabled, s, answer) {
        SortedFamilies(t, enabled, c.families);
        FinalizedInOrder(t, c);
      }
    }
  }

  lemma FinalizedInOrder(t: Tools, c: RepositoryCoverage)
    requires FinalizeRepository(t, c).Ok? && Sort(c.families, FamilyOrder(t)) == c.families
    ensures FinalizeRepository(t, c).value == c.(outputHash := t.repositoryHash(c.(outputHash := "")))
  {
    hide RepositoryChecks, Sort;
  }

  lemma {:induction false} MissingFamiliesAreNoted(t: Tools, enabled: seq<Family>, code: string)
    requires MissingFamilies(t, enabled, code).Ok?
    ensures var fs := MissingFamilies(t, enabled, code).value;
            && |fs| == |enabled|
            && forall i :: 0 <= i < |enabled| ==> fs[i].family == enabled[i] && NotAnalysedFor(fs[i], code)
  {
    hide FamilyChecks;
    if enabled != [] {
      var n := |enabled| - 1;
      MissingFamiliesAreNoted(t, enabled[..n], code);
      var l := Limitation(code, FromSelection, None);
      assert Sort([l], LimitationOrder(t)) == [l] && Sort<Adapter>([], AdapterOrder(t)) == [];
    }
  }

  // The record of a selection is the usable answer of the source, and otherwise
  // tells the selection and why none of its families was analysed. The only
  // failure is to ask about a repository that may not be read.
  lemma EntryIs(t: Tools, scope: Scope, enabled: seq<Family>, access: Access, s: Selection)
    requires ToolsOk(t) && SelectionOk(s) && SortedBy(enabled, t.familyLeq) && NoDuplicates(enabled)
    ensures var r, asked := EntryFor(t, scope, enabled, access, s), SourceAsked(access, enabled, s);
            && (r.Ok? <==> asked ==>
                  access.capability.workspaceId == scope.workspaceId
                  && s.repositoryId in access.capability.repositoryIds)
            && (r.Ok? ==> IsFor(scope, enabled, s, r.value)
                          && r.value.outputHash == t.repositoryHash(r.value.(outputHash := "")))
            && (r.Ok? && asked && Usable(t, scope, enabled, s, access.source.value(s)) ==>
                  r.value == access.source.value(s).coverage)
            && (r.Ok? && !(asked && Usable(t, scope, enabled, s, access.source.value(s))) ==>
                  && r.value.selectionReason == (if s.Selected? then None else Some(s.reason))
                  && forall f :: f in r.value.families ==> NotAnalysedFor(f, CodeFor(asked, s)))
  {
    hide EntryFor, SourceAsked, Usable, IsFor, NotAnalysedFor, CodeFor, SortedBy, NoDuplicates, ToolsOk, SelectionOk;
    EntryCases(t, scope, enabled, access, s);
    var asked := SourceAsked(access, enabled, s);
    NotedEntry(t, scope, enabled, s, asked);
    if asked && Usable(t, scope, enabled, s, access.source.value(s)) {
      UsedAsItIs(t, scope, enabled, s, access.source.value(s));
    }
  }

  // Which of the three ways an entry goes.
  lemma EntryCases(t: Tools, scope: Scope, enabled: seq<Family>, access: Access, s: Selection)
    requires ToolsOk(t) && SortedBy(enabled, t.familyLeq) && NoDuplicates(enabled)
    ensures SourceAsked(access, enabled, s) ==> access.source.Some?
    ensures EntryFor(t, scope, enabled, access, s)
            == if !SourceAsked(access, enabled, s) then UnavailableEntry(t, scope, enabled, s, CodeFor(false, s))
               else if !(access.capability.workspaceId == scope.workspaceId
                         && s.repositoryId in access.capability.repositoryIds) then Throws
               else if Usable(t, scope, enabled, s, access.source.value(s)) then
                 Ok(access.source.value(s).coverage)
               else UnavailableEntry(t, scope, enabled, s, CodeFor(true, s))
    ensures SourceAsked(access, enabled, s) && Usable(t, scope, enabled, s, access.source.value(s)) ==>
              access.source.value(s).Found?
  {
    hide FinalizeRepository, UnavailableEntry, SortedBy, NoDuplicates, ToolsOk, IsFor, GoodRepository, MatchesQuery,
         CodeFor, StateName, StateOf;
    CodeIs(SourceAsked(access, enabled, s), s);
    if SourceAsked(access, enabled, s) {
      UsableIsAccepted(t, scope, enabled, s, access.source.value(s));
    }
  }

  lemma NotedEntry(t: Tools, scope: Scope, enabled: seq<Family>, s: Selection, asked: bool)
    requires ToolsOk(t) && SelectionOk(s) && SortedBy(enabled, t.familyLeq) && NoDuplicates(enabled)
    ensures var r := UnavailableEntry(t, scope, enabled, s, CodeFor(asked, s));
            && r.Ok? && IsFor(scope, enabled, s, r.value)
            && r.value.selectionReason == (if s.Selected? then None else Some(s.reason))
            && (forall f :: f in r.value.families ==> NotAnalysedFor(f, CodeFor(asked, s)))
            && r.value.outputHash == t.repositoryHash(r.value.(outputHash := ""))
  {
    hide UnavailableEntry, IsFor, NotAnalysedFor, CodeFor, SortedBy, NoDuplicates, ToolsOk, SelectionOk, BoundedText;
    CodesAreBounded(StateOf(s));
    CodeIs(asked, s);
    UnavailableIs(t, scope, enabled, s, CodeFor(asked, s));
  }

  lemma UsedAsItIs(t: Tools, scope: Scope, enabled: seq<Family>, s: Selection, answer: Answer)
    requires Usable(t, scope, enabled, s, answer)
    ensures answer.Found? && IsFor(scope, enabled, s, answer.coverage)
    ensures answer.coverage.outputHash == t.repositoryHash(answer.coverage.(outputHash := ""))
  {
    hide IsFor, GoodRepository;
  }

  lemma CodeIs(asked: bool, s: Selection)
    ensures CodeFor(asked, s) == if asked then "family_coverage_unavailable" else "repository_" + StateName(StateOf(s))
  {
  }

  lemma UnavailableIs(t: Tools, scope: Scope, enabled: seq<Family>, s: Selection, code: string)
    requires ToolsOk(t) && SelectionOk(s) && SortedBy(enabled, t.familyLeq) && NoDuplicates(enabled)
    requires BoundedText(code, 192)
    ensures var r := UnavailableEntry(t, scope, enabled, s, code);
            && r.Ok? && IsFor(scope, enabled, s, r.value)
            && r.value.selectionReason == (if s.Selected? then None else Some(s.reason))
            && (forall f :: f in r.value.families ==> NotAnalysedFor(f, code))
            && r.value.outputHash == t.repositoryHash(r.value.(outputHash := ""))
  {
    hide FinalizeFamily, FinalizeRepository, Sort, ToolsOk, BoundedText, SortedBy, NoDuplicates, NotAnalysedFor,
         SelectionOk, EntryOk;
    MissingFamiliesAre(t, enabled, code);
    MissingFamiliesAreNoted(t, enabled, code);
    var families := MissingFamilies(t, enabled, code).value;
    var draft := Draft(scope, s, families);
    DraftIsAccepted(t, scope, enabled, s, families);
    SortedFamilies(t, enabled, families);
    FinalizedInOrder(t, draft);
  }

  // --- the analysis record ----------------------------------------------------------------------

  ghost predicate GoodAnalysis(t: Tools, scope: Scope, enabled: seq<Family>, repositories: seq<RepositoryCoverage>) {
    && multiset(Map(IdOf(), repositories)) == multiset(scope.repositories)
    && scope.producerId in scope.repositories
    && forall c :: c in repositories ==> GoodRecord(t, scope, enabled, c)
  }

  ghost predicate GoodRecord(t: Tools, scope: Scope, enabled: seq<Family>, c: RepositoryCoverage) {
    && c.workspaceId == scope.workspaceId && c.revision == scope.revision
    && (c.role == ProducerConsumer <==> c.repositoryId == scope.producerId)
    && |c.families| == |enabled| && (forall i :: 0 <= i < |enabled| ==> c.families[i].family == enabled[i])
    && FinalizeRepository(t, c) == Ok(c)
  }

  // One canonical record for each authorised repository, the producer's among
  // them, makes an analysis record; it is complete when nothing is missing.
  lemma AnalysisAcceptedExactly(t: Tools, scope: Scope, families: seq<Family>, repositories: seq<RepositoryCoverage>)
    requires ToolsOk(t)
    ensures var enabled := Enabled(t, families);
            var r := FinalizeAnalysis(t, scope, families, repositories);
            && (r.Ok? <==> GoodAnalysis(t, scope, enabled, repositories))
            && (r.Ok? ==>
                  && r.value.enabledFamilies == enabled
                  && multiset(r.value.repositories) == multiset(repositories)
                  && (forall i, j :: 0 <= i < j < |repositories| ==>
                        t.leq(r.value.repositories[i].repositoryId, r.value.repositories[j].repositoryId))
                  && r.value.gaps == Sort(scope.gaps, t.gapLeq)
                  && (r.value.complete <==>
                        scope.gaps == [] && forall c :: c in repositories ==>
                          c.selectionState == Current && forall f :: f in c.families ==> f.state == Complete))
  {
    hide Sort, Enabled, GoodAnalysis, AnalysisChecks, TotalOrder, TotalPreorder;
    var sorted := Sort(repositories, ById(t));
    SameElements(sorted, repositories);
    OrderIsPreorder(t.leq);
    SortsByKey(repositories, t.leq, IdOf(), ById(t));
    AnalysisChecksAreGood(t, scope, Enabled(t, families), repositories);
  }

  lemma AnalysisChecksAreGood(t: Tools, scope: Scope, enabled: seq<Family>, repositories: seq<RepositoryCoverage>)
    requires ToolsOk(t)
    ensures AnalysisChecks(t, scope, enabled, Sort(repositories, ById(t)))
            <==> GoodAnalysis(t, scope, enabled, repositories)
  {
    hide Sort, FinalizeRepository, TotalOrder, TotalPreorder, Map, CoversFamilies;
    var sorted, ids := Sort(repositories, ById(t)), Map(IdOf(), repositories);
    SameElements(sorted, repositories);
    SortedIds(t, repositories, ids);
    SameIds(t, ids, scope.repositories);
    ProducerIsListed(repositories, ids, scope.producerId);
    if multiset(ids) == multiset(scope.repositories) {
      SameElements(ids, scope.repositories);
    }
    assert (forall c :: c in sorted ==> GoodRecord(t, scope, enabled, c))
        <==> forall c :: c in repositories ==> GoodRecord(t, scope, enabled, c);
    hide GoodRecord;
    RecordsAreGood(t, scope, enabled, sorted);
  }

  lemma RecordsAreGood(t: Tools, scope: Scope, enabled: seq<Family>, sorted: seq<RepositoryCoverage>)
    ensures AnalysisChecks(t, scope, enabled, sorted)
            <==> && |sorted| == |scope.repositories|
                 && (forall i :: 0 <= i < |sorted| ==> sorted[i].repositoryId == Sort(scope.repositories, t.leq)[i])
                 && (forall c :: c in sorted ==> GoodRecord(t, scope, enabled, c))
                 && exists c :: c in sorted && c.repositoryId == scope.producerId
  {
    hide Sort, FinalizeRepository;
  }

  lemma ProducerIsListed(repositories: seq<RepositoryCoverage>, ids: seq<string>, producerId: string)
    requires ids == Map(IdOf(), repositories)
    ensures (exists c :: c in repositories && c.repositoryId == producerId) <==> producerId in ids
  {
    hide Map;
    if producerId in ids {
      var i :| 0 <= i < |ids| && ids[i] == producerId;
      assert repositories[i] in repositories;
    }
    if c :| c in repositories && c.repositoryId == producerId {
      var i :| 0 <= i < |repositories| && repositories[i] == c;
      assert ids[i] == producerId;
    }
  }

  lemma SameIds(t: Tools, a: seq<string>, b: seq<string>)
    requires ToolsOk(t)
    ensures multiset(a) == multiset(b)
            <==> |Sort(a, t.leq)| == |Sort(b, t.leq)| && forall i :: 0 <= i < |Sort(b, t.leq)| ==>
                   Sort(a, t.leq)[i] == Sort(b, t.leq)[i]
  {
    hide Sort, TotalOrder, TotalPreorder;
    if multiset(a) == multiset(b) {
      OrderIsPreorder(t.leq);
      OrderIsAntisymmetric(t.leq, a);
      SortIgnoresOrder(a, b, t.leq);
    } else {
      assert Sort(a, t.leq) != Sort(b, t.leq);
    }
  }

  lemma OrderIsAntisymmetric(leq: (string, string) -> bool, s: seq<string>)
    requires TotalOrder(leq)
    ensures AntisymmetricOn(s, leq)
  {
  }

  // The enabled families are those asked for, each once and in their order.
  lemma EnabledAre(t: Tools, families: seq<Family>)
    requires ToolsOk(t)
    ensures var e := Enabled(t, families);
            && (forall f :: f in e <==> f in families)
            && (forall i, j :: 0 <= i < j < |e| ==> e[i] != e[j] && t.familyLeq(e[i], e[j]))
  {
    hide Sort;
    EnabledIsStable(t, families);
    SameElements(Enabled(t, families), TextOrder.Distinct(families));
  }
}
