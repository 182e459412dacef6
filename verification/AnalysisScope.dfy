// Which repositories an analysis may read: membership, selection and consent
// first, authorisation afterwards, a gap with a reason for everything else.
module AnalysisScope {
  import opened Outcomes
  import opened Sorting
  import opened TextOrder
  import opened KeyedLists

  datatype Membership = Membership(repositoryId: string, selected: bool, consentRevision: string)
  datatype Consent = Consent(repositoryId: string, action: string, grantee: string, deny: bool)
  datatype Registry = Registry(
    schemaVersion: string, workspaceId: string, revision: string, repositories: seq<Membership>, consents: seq<Consent>)

  datatype GapReason =
    UnknownRepository | NotSelected | ConsentDenied | AuthorizationDenied | AuthorizationUnavailable
  datatype Gap = Gap(repositoryId: string, reason: GapReason)

  datatype Candidate = Candidate(membership: Membership, producer: bool, requested: bool)
  datatype Prepared = Prepared(
    workspaceId: string, revision: string, producerId: string, candidates: seq<Candidate>, gaps: seq<Gap>)

  datatype Decision = Unavailable | Decided(allowed: bool, revision: string)
  datatype Authorized = Authorized(repositoryId: string, producer: bool, requested: bool, revision: string)

  datatype Capability = Capability(workspaceId: string, revision: string, repositoryIds: seq<string>)
  datatype Scope = Scope(repositories: seq<Authorized>, gaps: seq<Gap>, capability: Capability)

  // The subject, what it asks about, and the answers of the authorisation port.
  datatype Query = Query(
    registry: Registry, producerId: string, allowlist: Option<seq<string>>, grantee: string, decide: string -> Decision)

  function IdOf(): Membership -> string {
    (m: Membership) => m.repositoryId
  }

  function NormalizedIds(ids: seq<string>, leq: (string, string) -> bool): (r: seq<string>)
    ensures NoDuplicates(r) && forall id :: id in r <==> id in ids
  {
    RearrangedWithoutDuplicates(Distinct(ids), Sort(Distinct(ids), leq));
    SameElements(Sort(Distinct(ids), leq), Distinct(ids));
    Sort(Distinct(ids), leq)
  }

  function SelectedIds(ms: seq<Membership>): seq<string> {
    if ms == [] then []
    else (if ms[0].selected then [ms[0].repositoryId] else []) + SelectedIds(ms[1..])
  }

  function Considered(q: Query, leq: (string, string) -> bool): seq<string> {
    var named := if q.allowlist.Some? then q.allowlist.value else SelectedIds(q.registry.repositories);
    NormalizedIds(named + [q.producerId], leq)
  }

  predicate ConsentDenies(q: Query, id: string) {
    exists c :: c in q.registry.consents && c.repositoryId == id && c.action == "evidence.consume"
                && (c.grantee == q.grantee || c.grantee == "*") && c.deny
  }

  // Why a repository cannot even be a candidate.
  function Barred(q: Query, id: string): Option<GapReason> {
    var members := ByKey(q.registry.repositories, IdOf());
    if id !in members then Some(UnknownRepository)
    else if !members[id].selected then Some(NotSelected)
    else if ConsentDenies(q, id) then Some(ConsentDenied)
    else None
  }

  function Refused(q: Query, id: string): Option<GapReason> {
    match q.decide(id)
    case Unavailable => Some(AuthorizationUnavailable)
    case Decided(allowed, revision) =>
      if !allowed || revision != q.registry.revision then Some(AuthorizationDenied) else None
  }

  function CandidateOf(q: Query, id: string): Candidate
    requires Barred(q, id).None?
  {
    var requested := q.allowlist.Some? && id in q.allowlist.value;
    Candidate(ByKey(q.registry.repositories, IdOf())[id], id == q.producerId, requested)
  }

  function Candidates(q: Query, ids: seq<string>): seq<Candidate> {
    if ids == [] then []
    else Candidates(q, ids[..|ids| - 1])
         + if Barred(q, ids[|ids| - 1]).None? then [CandidateOf(q, ids[|ids| - 1])] else []
  }

  function BarredGaps(q: Query, ids: seq<string>): seq<Gap> {
    if ids == [] then []
    else BarredGaps(q, ids[..|ids| - 1])
         + if Barred(q, ids[|ids| - 1]).Some? then [Gap(ids[|ids| - 1], Barred(q, ids[|ids| - 1]).value)] else []
  }

  function AuthorizedOf(q: Query, c: Candidate): Authorized {
    Authorized(c.membership.repositoryId, c.producer, c.requested, q.registry.revision)
  }

  function Allowed(q: Query, cs: seq<Candidate>): seq<Authorized> {
    if cs == [] then []
    else Allowed(q, cs[..|cs| - 1])
         + if Refused(q, cs[|cs| - 1].membership.repositoryId).None? then [AuthorizedOf(q, cs[|cs| - 1])] else []
  }

  function RefusedGaps(q: Query, cs: seq<Candidate>): seq<Gap> {
    if cs == [] then []
    else
      var id := cs[|cs| - 1].membership.repositoryId;
      RefusedGaps(q, cs[..|cs| - 1]) + if Refused(q, id).Some? then [Gap(id, Refused(q, id).value)] else []
  }

  // --- the loops ---------------------------------------------------------------

  method Prepare(q: Query, leq: (string, string) -> bool) returns (r: Result<Prepared>)
    ensures r.Ok? <==> var members := ByKey(q.registry.repositories, IdOf());
                       q.producerId in members && members[q.producerId].selected
    ensures r.Ok? ==>
              r.value == Prepared(q.registry.workspaceId, q.registry.revision, q.producerId,
                                  Candidates(q, Considered(q, leq)), BarredGaps(q, Considered(q, leq)))
  {
    hide ByKey, ConsentDenies, NormalizedIds, Considered;
    var members := IndexByKey(q.registry.repositories, IdOf());
    if q.producerId !in members || !members[q.producerId].selected {
      return Throws;
    }
    var considered := Considered(q, leq);
    var candidates: seq<Candidate> := [];
    var gaps: seq<Gap> := [];
    for i := 0 to |considered|
      invariant candidates == Candidates(q, considered[..i]) && gaps == BarredGaps(q, considered[..i])
    {
      var id := considered[i];
      assert considered[..i + 1][..i] == considered[..i];
      assert candidates + [] == candidates && gaps + [] == gaps;
      if id !in members {
        gaps := gaps + [Gap(id, UnknownRepository)];
        continue;
      }
      if !members[id].selected {
        gaps := gaps + [Gap(id, NotSelected)];
        continue;
      }
      if ConsentDenies(q, id) {
        gaps := gaps + [Gap(id, ConsentDenied)];
        continue;
      }
      candidates := candidates
                    + [Candidate(members[id], id == q.producerId, q.allowlist.Some? && id in q.allowlist.value)];
    }
    assert considered[..|considered|] == considered;
    r := Ok(Prepared(q.registry.workspaceId, q.registry.revision, q.producerId, candidates, gaps));
  }

  method Authorize(q: Query, candidates: seq<Candidate>) returns (repositories: seq<Authorized>, gaps: seq<Gap>)
    ensures repositories == Allowed(q, candidates) && gaps == RefusedGaps(q, candidates)
  {
    repositories, gaps := [], [];
    for i := 0 to |candidates|
      invariant repositories == Allowed(q, candidates[..i]) && gaps == RefusedGaps(q, candidates[..i])
    {
      var id := candidates[i].membership.repositoryId;
      assert candidates[..i + 1][..i] == candidates[..i];
      assert repositories + [] == repositories && gaps + [] == gaps;
      var decision := q.decide(id);
      if decision.Unavailable? {
        gaps := gaps + [Gap(id, AuthorizationUnavailable)];
        continue;
      }
      if !decision.allowed || decision.revision != q.registry.revision {
        gaps := gaps + [Gap(id, AuthorizationDenied)];
        continue;
      }
      repositories := repositories +
                      [Authorized(id, candidates[i].producer, candidates[i].requested, decision.revision)];
    }
    assert candidates[..|candidates|] == candidates;
  }

  function ByRepository(leq: (string, string) -> bool): (Authorized, Authorized) -> bool {
    (a: Authorized, b: Authorized) => leq(a.repositoryId, b.repositoryId)
  }

  // The checks on the assembled scope, and its capability.
  function Finalize(p: Prepared, repositories: seq<Authorized>, gaps: seq<Gap>, leq: (string, string) -> bool,
                    gapLeq: (Gap, Gap) -> bool): Result<Scope>
  {
    var sorted := Sort(repositories, ByRepository(leq));
    if !(exists a :: a in sorted && a.repositoryId == p.producerId && a.producer) then Throws
    else if exists i :: 0 < i < |sorted| && sorted[i].repositoryId == sorted[i - 1].repositoryId then Throws
    else if exists a :: a in sorted && forall c :: c in p.candidates ==> c.membership.repositoryId != a.repositoryId
    then Throws
    else if !(forall a :: a in sorted ==> a.revision == p.revision) then Throws
    else
      Ok(Scope(sorted, Sort(p.gaps + gaps, gapLeq),
               Capability(p.workspaceId, p.revision,
                          seq(|sorted|, i requires 0 <= i < |sorted| => sorted[i].repositoryId))))
  }

  function Resolved(q: Query, leq: (string, string) -> bool, gapLeq: (Gap, Gap) -> bool): Result<Scope> {
    var members := ByKey(q.registry.repositories, IdOf());
    if q.producerId !in members || !members[q.producerId].selected then Throws
    else
      var candidates := Candidates(q, Considered(q, leq));
      Finalize(Prepared(q.registry.workspaceId, q.registry.revision, q.producerId, candidates,
                        BarredGaps(q, Considered(q, leq))),
               Allowed(q, candidates), RefusedGaps(q, candidates), leq, gapLeq)
  }

  // A registry of another workspace or of an unknown version is refused.
  method ResolveScope(workspaceId: string, q: Query, leq: (string, string) -> bool, gapLeq: (Gap, Gap) -> bool)
    returns (r: Result<Scope>)
    ensures r == if q.registry.workspaceId == workspaceId && q.registry.schemaVersion == "1.0"
                 then Resolved(q, leq, gapLeq) else Throws
    ensures r.Ok? ==> r.value.capability.workspaceId == workspaceId
  {
    if q.registry.workspaceId != workspaceId || q.registry.schemaVersion != "1.0" {
      return Throws;
    }
    hide Finalize, Candidates, Considered, BarredGaps, Allowed, RefusedGaps, ByKey;
    var prepared := Prepare(q, leq);
    if prepared.Throws? {
      return Throws;
    }
    var repositories, gaps := Authorize(q, prepared.value.candidates);
    r := Finalize(prepared.value, repositories, gaps, leq, gapLeq);
  }

  // --- what a scope is ---------------------------------------------------------

  // The reason a repository is not readable, if there is one.
  function Obstacle(q: Query, id: string): Option<GapReason> {
    if Barred(q, id).Some? then Barred(q, id) else Refused(q, id)
  }

  lemma {:induction false} CandidatesAre(q: Query, ids: seq<string>)
    requires NoDuplicates(ids)
    ensures forall c :: c in Candidates(q, ids) ==>
              var id := c.membership.repositoryId; id in ids && Barred(q, id).None? && c == CandidateOf(q, id)
    ensures forall id :: id in ids && Barred(q, id).None? ==>
              exists c :: c in Candidates(q, ids) && c.membership.repositoryId == id
    ensures forall i, j :: 0 <= i < j < |Candidates(q, ids)| ==>
              Candidates(q, ids)[i].membership.repositoryId != Candidates(q, ids)[j].membership.repositoryId
    ensures forall g :: g in BarredGaps(q, ids) <==>
              g.repositoryId in ids && Barred(q, g.repositoryId) == Some(g.reason)
    ensures forall i, j :: 0 <= i < j < |BarredGaps(q, ids)| ==>
              BarredGaps(q, ids)[i].repositoryId != BarredGaps(q, ids)[j].repositoryId
  {
    hide Barred;
    if ids != [] {
      var n, id := |ids| - 1, ids[|ids| - 1];
      assert ids == ids[..n] + [id];
      assert id !in ids[..n];
      CandidatesAre(q, ids[..n]);
      if Barred(q, id).None? {
        CandidateHasItsId(q, id);
        assert CandidateOf(q, id) in Candidates(q, ids);
        forall x | x in ids && Barred(q, x).None?
          ensures exists c :: c in Candidates(q, ids) && c.membership.repositoryId == x
        {
          if x in ids[..n] {
            var c :| c in Candidates(q, ids[..n]) && c.membership.repositoryId == x;
            assert c in Candidates(q, ids);
          }
        }
      }
    }
  }

  lemma CandidateHasItsId(q: Query, id: string)
    requires Barred(q, id).None?
    ensures CandidateOf(q, id).membership.repositoryId == id
  {
    var m := ByKey(q.registry.repositories, IdOf());
    assert IdOf()(m[id]) == id;
  }

  ghost predicate DistinctCandidates(cs: seq<Candidate>) {
    forall i, j :: 0 <= i < j < |cs| ==> cs[i].membership.repositoryId != cs[j].membership.repositoryId
  }

  ghost predicate DistinctRepositories(rs: seq<Authorized>) {
    forall i, j :: 0 <= i < j < |rs| ==> rs[i].repositoryId != rs[j].repositoryId
  }

  ghost predicate DistinctGaps(gs: seq<Gap>) {
    forall i, j :: 0 <= i < j < |gs| ==> gs[i].repositoryId != gs[j].repositoryId
  }

  ghost predicate Listed(cs: seq<Candidate>, id: string) {
    exists c :: c in cs && c.membership.repositoryId == id
  }

  ghost predicate Granted(rs: seq<Authorized>, id: string) {
    exists a :: a in rs && a.repositoryId == id
  }

  lemma {:induction false} AllowedAre(q: Query, cs: seq<Candidate>)
    requires DistinctCandidates(cs)
    ensures forall a :: a in Allowed(q, cs) ==>
              exists c :: c in cs && a == AuthorizedOf(q, c) && Refused(q, a.repositoryId).None?
    ensures forall id :: Granted(Allowed(q, cs), id) <==> Listed(cs, id) && Refused(q, id).None?
    ensures DistinctRepositories(Allowed(q, cs))
    ensures forall g :: g in RefusedGaps(q, cs) <==>
              Listed(cs, g.repositoryId) && Refused(q, g.repositoryId) == Some(g.reason)
    ensures DistinctGaps(RefusedGaps(q, cs))
  {
    hide Refused;
    if cs != [] {
      var n, c := |cs| - 1, cs[|cs| - 1];
      var front, id := cs[..n], c.membership.repositoryId;
      assert cs == front + [c];
      AllowedAre(q, front);
      assert !Listed(front, id);
      forall x ensures Listed(cs, x) <==> Listed(front, x) || x == id {
        ListedAppend(front, c, x);
      }
      var before, after := Allowed(q, front), Allowed(q, cs);
      forall x ensures Granted(after, x) <==> Granted(before, x) || (x == id && Refused(q, id).None?) {
        GrantedAppend(before, AuthorizedOf(q, c), x);
      }
      forall a | a in before ensures a.repositoryId != id {
        assert Granted(before, a.repositoryId);
      }
    }
  }

  lemma ListedAppend(cs: seq<Candidate>, c: Candidate, id: string)
    ensures Listed(cs + [c], id) <==> Listed(cs, id) || id == c.membership.repositoryId
  {
    if Listed(cs, id) {
      var d :| d in cs && d.membership.repositoryId == id;
      assert d in cs + [c];
    }
    assert c in cs + [c];
  }

  lemma GrantedAppend(rs: seq<Authorized>, a: Authorized, id: string)
    ensures Granted(rs + [a], id) <==> Granted(rs, id) || id == a.repositoryId
  {
    if Granted(rs, id) {
      var d :| d in rs && d.repositoryId == id;
      assert d in rs + [a];
    }
    assert a in rs + [a];
  }

  lemma SortedRepositories(rs: seq<Authorized>, leq: (string, string) -> bool)
    requires DistinctRepositories(rs)
    ensures DistinctRepositories(Sort(rs, ByRepository(leq)))
    ensures forall a :: a in Sort(rs, ByRepository(leq)) <==> a in rs
  {
    hide Sort;
    var s := Sort(rs, ByRepository(leq));
    SameElements(s, rs);
    RearrangedWithoutDuplicates(rs, s);
    forall i, j | 0 <= i < j < |s| ensures s[i].repositoryId != s[j].repositoryId {
      assert s[i] in rs && s[j] in rs;
      var a :| 0 <= a < |rs| && rs[a] == s[i];
      var b :| 0 <= b < |rs| && rs[b] == s[j];
      assert a < b || b < a;
    }
  }

  lemma SortedGaps(gs: seq<Gap>, gapLeq: (Gap, Gap) -> bool)
    requires DistinctGaps(gs)
    ensures DistinctGaps(Sort(gs, gapLeq)) && forall g :: g in Sort(gs, gapLeq) <==> g in gs
  {
    hide Sort;
    var s := Sort(gs, gapLeq);
    SameElements(s, gs);
    RearrangedWithoutDuplicates(gs, s);
    forall i, j | 0 <= i < j < |s| ensures s[i].repositoryId != s[j].repositoryId {
      assert s[i] in gs && s[j] in gs;
      var a :| 0 <= a < |gs| && gs[a] == s[i];
      var b :| 0 <= b < |gs| && gs[b] == s[j];
      assert a < b || b < a;
    }
  }

  // What the loops hand over passes every check but the one on the producer.
  lemma FinalizeFailsOnlyWithoutProducer(q: Query, p: Prepared, rs: seq<Authorized>, gs: seq<Gap>,
      leq: (string, string) -> bool, gapLeq: (Gap, Gap) -> bool)
    requires DistinctCandidates(p.candidates) && rs == Allowed(q, p.candidates) && p.revision == q.registry.revision
    requires p.producerId == q.producerId
    requires forall c :: c in p.candidates ==> (c.producer <==> c.membership.repositoryId == p.producerId)
    ensures Finalize(p, rs, gs, leq, gapLeq).Ok? <==> Granted(rs, p.producerId)
    ensures Finalize(p, rs, gs, leq, gapLeq).Ok? ==>
              var s := Finalize(p, rs, gs, leq, gapLeq).value;
              && s.repositories == Sort(rs, ByRepository(leq)) && s.gaps == Sort(p.gaps + gs, gapLeq)
              && |s.capability.repositoryIds| == |s.repositories|
              && forall i :: 0 <= i < |s.repositories| ==>
                   s.capability.repositoryIds[i] == s.repositories[i].repositoryId
  {
    hide Sort, Refused, Allowed;
    AllowedPass(q, p, rs, Sort(rs, ByRepository(leq)), leq);
  }

  // The sorted list of what was allowed passes the checks on single records.
  lemma AllowedPass(q: Query, p: Prepared, rs: seq<Authorized>, sorted: seq<Authorized>, leq: (string, string) -> bool)
    requires DistinctCandidates(p.candidates) && rs == Allowed(q, p.candidates) && p.revision == q.registry.revision
    requires sorted == Sort(rs, ByRepository(leq))
    requires forall c :: c in p.candidates ==> (c.producer <==> c.membership.repositoryId == p.producerId)
    ensures Granted(rs, p.producerId) <==> exists a :: a in sorted && a.repositoryId == p.producerId && a.producer
    ensures forall i :: 0 < i < |sorted| ==> sorted[i].repositoryId != sorted[i - 1].repositoryId
    ensures forall a :: a in sorted ==>
              a.revision == p.revision && exists c :: c in p.candidates && c.membership.repositoryId == a.repositoryId
  {
    hide Sort, Refused, Allowed;
    AllowedAre(q, p.candidates);
    SortedRepositories(rs, leq);
    forall a | a in sorted
      ensures a.revision == p.revision && (a.producer <==> a.repositoryId == p.producerId)
      ensures exists c :: c in p.candidates && c.membership.repositoryId == a.repositoryId
    {
      var c :| c in p.candidates && a == AuthorizedOf(q, c);
    }
  }

  // Analysis has a scope exactly when the producer itself may be read. Then
  // every considered repository is either authorised, once, or has a gap, once,
  // with its first obstacle as the reason; and the capability names the
  // authorised ones and no others.
  lemma ScopeIsPartition(q: Query, leq: (string, string) -> bool, gapLeq: (Gap, Gap) -> bool)
    ensures Resolved(q, leq, gapLeq).Ok? <==> Obstacle(q, q.producerId).None?
    ensures Resolved(q, leq, gapLeq).Ok? ==>
              var s := Resolved(q, leq, gapLeq).value;
              && (forall id :: Granted(s.repositories, id) <==> id in Considered(q, leq) && Obstacle(q, id).None?)
              && (forall g :: g in s.gaps <==>
                    g.repositoryId in Considered(q, leq) && Obstacle(q, g.repositoryId) == Some(g.reason))
              && DistinctRepositories(s.repositories) && DistinctGaps(s.gaps)
              && (forall id :: id in s.capability.repositoryIds <==> Granted(s.repositories, id))
  {
    hide Sort, Barred, Refused, Allowed, Candidates, BarredGaps, RefusedGaps, Finalize, NormalizedIds;
    var considered := Considered(q, leq);
    assert q.producerId in considered;
    var candidates := Candidates(q, considered);
    CandidatesAre(q, considered);
    AllowedAre(q, candidates);
    forall id ensures Listed(candidates, id) <==> id in considered && Barred(q, id).None? {}
    var p := Prepared(q.registry.workspaceId, q.registry.revision, q.producerId, candidates, BarredGaps(q, considered));
    var rs, gs := Allowed(q, candidates), RefusedGaps(q, candidates);
    CandidatesKnowTheProducer(q, considered);
    FinalizeFailsOnlyWithoutProducer(q, p, rs, gs, leq, gapLeq);
    BarredProducer(q);
    if Resolved(q, leq, gapLeq).Ok? {
      var s := Resolved(q, leq, gapLeq).value;
      SortedRepositories(rs, leq);
      GapsTogether(p.gaps, gs);
      SortedGaps(p.gaps + gs, gapLeq);
      assert forall id :: Granted(s.repositories, id) <==> Granted(rs, id);
      CapabilityIsGranted(s);
    }
  }

  lemma CandidatesKnowTheProducer(q: Query, ids: seq<string>)
    requires NoDuplicates(ids)
    ensures forall c :: c in Candidates(q, ids) ==> (c.producer <==> c.membership.repositoryId == q.producerId)
  {
    hide Candidates, Barred;
    CandidatesAre(q, ids);
    forall c | c in Candidates(q, ids) ensures c.producer <==> c.membership.repositoryId == q.producerId {
      CandidateHasItsId(q, c.membership.repositoryId);
    }
  }

  lemma BarredProducer(q: Query)
    ensures Barred(q, q.producerId).None? ==>
              var members := ByKey(q.registry.repositories, IdOf());
              q.producerId in members && members[q.producerId].selected
  {
  }

  lemma GapsTogether(a: seq<Gap>, b: seq<Gap>)
    requires DistinctGaps(a) && DistinctGaps(b)
    requires forall g, h :: g in a && h in b ==> g.repositoryId != h.repositoryId
    ensures DistinctGaps(a + b)
  {
  }

  lemma CapabilityIsGranted(s: Scope)
    requires |s.capability.repositoryIds| == |s.repositories|
    requires forall i :: 0 <= i < |s.repositories| ==> s.capability.repositoryIds[i] == s.repositories[i].repositoryId
    ensures forall id :: id in s.capability.repositoryIds <==> Granted(s.repositories, id)
  {
    forall id ensures id in s.capability.repositoryIds <==> Granted(s.repositories, id) {
      if id in s.capability.repositoryIds {
        var i :| 0 <= i < |s.repositories| && s.capability.repositoryIds[i] == id;
        assert s.repositories[i] in s.repositories;
      }
      if Granted(s.repositories, id) {
        var a :| a in s.repositories && a.repositoryId == id;
        var i :| 0 <= i < |s.repositories| && s.repositories[i] == a;
        assert s.capability.repositoryIds[i] == id;
      }
    }
  }

  // --- the same in terms of the registry ---------------------------------------

  // The registry's last word on a repository.
  ghost predicate LastWord(q: Query, id: string, m: Membership) {
    exists i :: 0 <= i < |q.registry.repositories| && q.registry.repositories[i] == m && m.repositoryId == id
                && forall j :: i < j < |q.registry.repositories| ==> q.registry.repositories[j].repositoryId != id
  }

  ghost predicate IsSelected(q: Query, id: string) {
    exists m :: LastWord(q, id, m) && m.selected
  }

  ghost predicate IsWithheld(q: Query, id: string) {
    exists c :: c in q.registry.consents && c.deny && c.repositoryId == id && c.action == "evidence.consume"
                && c.grantee in {q.grantee, "*"}
  }

  // The producer, and what the caller lists or else what the registry selects.
  ghost predicate InQuestion(q: Query, id: string) {
    || id == q.producerId
    || (q.allowlist.Some? && id in q.allowlist.value)
    || (q.allowlist.None? && exists m :: m in q.registry.repositories && m.selected && m.repositoryId == id)
  }

  // The reason why a repository may not be read: the registry's before the
  // authorisation port's.
  ghost predicate StoppedBy(q: Query, id: string, reason: GapReason) {
    match reason
    case UnknownRepository => forall m :: m in q.registry.repositories ==> m.repositoryId != id
    case NotSelected => exists m :: LastWord(q, id, m) && !m.selected
    case ConsentDenied => IsSelected(q, id) && IsWithheld(q, id)
    case AuthorizationUnavailable => IsSelected(q, id) && !IsWithheld(q, id) && q.decide(id) == Unavailable
    case AuthorizationDenied =>
      && IsSelected(q, id) && !IsWithheld(q, id)
      && q.decide(id) !in {Unavailable, Decided(true, q.registry.revision)}
  }

  ghost predicate MayBeRead(q: Query, id: string) {
    IsSelected(q, id) && !IsWithheld(q, id) && q.decide(id) == Decided(true, q.registry.revision)
  }

  lemma MembershipIs(q: Query, id: string)
    ensures var members := ByKey(q.registry.repositories, IdOf());
            && (id in members <==> exists m :: m in q.registry.repositories && m.repositoryId == id)
            && (id in members ==> LastWord(q, id, members[id]))
            && forall m :: LastWord(q, id, m) ==> id in members && m == members[id]
  {
    hide ByKey, LastWord;
    var members := ByKey(q.registry.repositories, IdOf());
    forall m | m in q.registry.repositories && m.repositoryId == id ensures id in members {
      assert IdOf()(m) == id;
    }
    if id in members {
      var i := LastWins(q.registry.repositories, IdOf(), id);
      LastIsLastWord(q, id, i);
    }
    forall m | LastWord(q, id, m) ensures id in members && m == members[id] {
      LastWordIsOne(q, id, m, members);
    }
  }

  lemma LastIsLastWord(q: Query, id: string, i: nat)
    requires i < |q.registry.repositories| && IdOf()(q.registry.repositories[i]) == id
    requires forall j :: i < j < |q.registry.repositories| ==> IdOf()(q.registry.repositories[j]) != id
    ensures LastWord(q, id, q.registry.repositories[i])
  {
    var all := q.registry.repositories;
    assert forall j :: 0 <= j < |all| ==> IdOf()(all[j]) == all[j].repositoryId;
  }

  lemma LastWordIsOne(q: Query, id: string, m: Membership, members: map<string, Membership>)
    requires LastWord(q, id, m)
    requires forall n :: n in q.registry.repositories ==> IdOf()(n) in members
    requires id in members ==> LastWord(q, id, members[id])
    ensures id in members && m == members[id]
  {
    assert IdOf()(m) == id;
  }

  lemma ObstacleIs(q: Query, id: string, reason: GapReason)
    ensures Obstacle(q, id) == Some(reason) <==> StoppedBy(q, id, reason)
    ensures Obstacle(q, id).None? <==> MayBeRead(q, id)
  {
    hide ByKey, LastWord;
    MembershipIs(q, id);
    assert ConsentDenies(q, id) <==> IsWithheld(q, id);
    hide ConsentDenies, IsWithheld;
  }

  lemma {:induction false} SelectedIdsAre(ms: seq<Membership>, id: string)
    ensures id in SelectedIds(ms) <==> exists m :: m in ms && m.selected && m.repositoryId == id
  {
    if ms != [] {
      SelectedIdsAre(ms[1..], id);
      assert ms == [ms[0]] + ms[1..];
    }
  }

  lemma ConsideredIs(q: Query, leq: (string, string) -> bool, id: string)
    ensures id in Considered(q, leq) <==> InQuestion(q, id)
  {
    SelectedIdsAre(q.registry.repositories, id);
  }

  // There is a scope exactly when the producer may be read. It lists the
  // repositories in question that may be read, by id, each with its part in the
  // analysis and the registry's revision; it gives every other one's reason.
  lemma ScopeIs(q: Query, leq: (string, string) -> bool, gapLeq: (Gap, Gap) -> bool)
    ensures Resolved(q, leq, gapLeq).Ok? <==> MayBeRead(q, q.producerId)
    ensures Resolved(q, leq, gapLeq).Ok? ==>
              var s := Resolved(q, leq, gapLeq).value;
              && (forall id :: Granted(s.repositories, id) <==> InQuestion(q, id) && MayBeRead(q, id))
              && (forall a :: a in s.repositories ==> DescribedBy(q, a))
              && (forall g :: g in s.gaps <==>
                    InQuestion(q, g.repositoryId) && StoppedBy(q, g.repositoryId, g.reason))
              && s.capability.workspaceId == q.registry.workspaceId
              && s.capability.revision == q.registry.revision
              && (TotalPreorder(leq) ==>
                    forall i, j :: 0 <= i < j < |s.repositories| ==>
                      leq(s.repositories[i].repositoryId, s.repositories[j].repositoryId))
  {
    hide Resolved, Considered, Obstacle, MayBeRead, StoppedBy, InQuestion, DescribedBy, TotalPreorder;
    ScopeIsPartition(q, leq, gapLeq);
    ObstacleIs(q, q.producerId, UnknownRepository);
    if Resolved(q, leq, gapLeq).Ok? {
      var s := Resolved(q, leq, gapLeq).value;
      forall id
        ensures id in Considered(q, leq) <==> InQuestion(q, id)
        ensures Obstacle(q, id).None? <==> MayBeRead(q, id)
      {
        ConsideredIs(q, leq, id);
        ObstacleIs(q, id, UnknownRepository);
      }
      forall g: Gap ensures Obstacle(q, g.repositoryId) == Some(g.reason) <==> StoppedBy(q, g.repositoryId, g.reason) {
        ObstacleIs(q, g.repositoryId, g.reason);
      }
      RecordsAre(q, leq, gapLeq);
    }
  }

  ghost predicate DescribedBy(q: Query, a: Authorized) {
    && (a.producer <==> a.repositoryId == q.producerId)
    && (a.requested <==> q.allowlist.Some? && a.repositoryId in q.allowlist.value)
    && a.revision == q.registry.revision
  }

  lemma RecordsAre(q: Query, leq: (string, string) -> bool, gapLeq: (Gap, Gap) -> bool)
    requires Resolved(q, leq, gapLeq).Ok?
    ensures var s := Resolved(q, leq, gapLeq).value;
            && (forall a :: a in s.repositories ==> DescribedBy(q, a))
            && s.capability.workspaceId == q.registry.workspaceId
            && s.capability.revision == q.registry.revision
            && (TotalPreorder(leq) ==>
                  forall i, j :: 0 <= i < j < |s.repositories| ==>
                    leq(s.repositories[i].repositoryId, s.repositories[j].repositoryId))
  {
    hide Sort, Barred, Refused, Allowed, Candidates, BarredGaps, RefusedGaps, NormalizedIds, TotalPreorder;
    var considered := Considered(q, leq);
    var candidates := Candidates(q, considered);
    var s := Resolved(q, leq, gapLeq).value;
    var rs := Allowed(q, candidates);
    CandidatesAre(q, considered);
    AllowedAre(q, candidates);
    SortedRepositories(rs, leq);
    forall a | a in s.repositories ensures DescribedBy(q, a) {
      var c :| c in candidates && a == AuthorizedOf(q, c);
      CandidateHasItsId(q, c.membership.repositoryId);
    }
    if TotalPreorder(leq) {
      RepositoriesInOrder(rs, s.repositories, leq);
    }
  }

  lemma RepositoriesInOrder(rs: seq<Authorized>, sorted: seq<Authorized>, leq: (string, string) -> bool)
    requires TotalPreorder(leq) && sorted == Sort(rs, ByRepository(leq))
    ensures forall i, j :: 0 <= i < j < |sorted| ==> leq(sorted[i].repositoryId, sorted[j].repositoryId)
  {
    hide Sort, TotalPreorder;
    SortsByKey(rs, leq, (a: Authorized) => a.repositoryId, ByRepository(leq));
  }
}
