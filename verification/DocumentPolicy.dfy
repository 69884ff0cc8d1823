/** Which document speaks for an entity: admission, order-independent selection, and the audit gate before. */
module DocumentPolicy {
  import opened Collation
  import opened Sequences
  import opened Text
  import opened Wrappers

  datatype Role = ProductSummary | ProductFull | IndexMethodology | OfficialUpdate | PolicyBase

  datatype Publisher =
    | RegulatorDisclosure | AssetManager | Issuer | IndexProvider
    | PolicyAuthority | PolicyOperator | Exchange | IndustryAssociation

  datatype DocumentType =
    | SummaryProspectus | FullProspectus | Methodology | Update | PolicyText
    | OtherType(name: string)

  datatype BindingRole = SubjectProduct | SubjectIndex | SubjectPolicy | OtherBinding(name: string)

  datatype ClaimType =
    | InvestmentStrategy | RiskFactor | IndexRules | SelectionRules | Rebalancing | UpdateClaim | LegalStructure
    | OtherClaim(name: string)

  /** An instant as UTC microseconds since the epoch, or a clock reading without a time zone. */
  datatype Timestamp = Aware(utc: int) | Naive

  /** Dates are days since the epoch. */
  datatype Candidate = Candidate(
    documentId: string, documentType: DocumentType, version: Option<string>, publisher: Publisher,
    publishedAt: Option<Timestamp>, availableAt: Option<Timestamp>, effectiveFrom: Option<int>,
    effectiveTo: Option<int>,
    boundEntities: seq<string>, bindingRole: BindingRole, claimTypes: set<ClaimType>, exactText: bool)

  datatype Status =
    | Indexed | DocumentNotFound | AmbiguousEntityBinding | AfterCutoffOnly | VersionUnknown | UnreadableDocument
    | PublisherNotApproved | SectionMissing

  // ----- the policy's tables -----

  function TypesFor(role: Role): set<DocumentType> {
    match role
    case ProductSummary => {SummaryProspectus, FullProspectus}
    case ProductFull => {FullProspectus}
    case IndexMethodology => {Methodology}
    case OfficialUpdate => {Update}
    case PolicyBase => {PolicyText}
  }

  const BINDING_ROLES := {SubjectProduct, SubjectIndex, SubjectPolicy}

  function BindingRolesFor(role: Role): set<BindingRole> {
    match role
    case ProductSummary => {SubjectProduct}
    case ProductFull => {SubjectProduct}
    case IndexMethodology => {SubjectIndex}
    case OfficialUpdate => BINDING_ROLES
    case PolicyBase => {SubjectPolicy}
  }

  function PublishersFor(role: Role, binding: BindingRole): set<Publisher>
    requires binding in BindingRolesFor(role)
  {
    match role
    case ProductSummary => {RegulatorDisclosure}
    case ProductFull => {RegulatorDisclosure}
    case IndexMethodology => {IndexProvider}
    case PolicyBase => {PolicyAuthority, PolicyOperator}
    case OfficialUpdate =>
      match binding
      case SubjectProduct => {RegulatorDisclosure, Exchange, IndustryAssociation}
      case SubjectIndex => {IndexProvider}
      case _ => {PolicyAuthority, PolicyOperator}
  }

  function RequiredClaims(role: Role): set<ClaimType> {
    match role
    case ProductSummary => {InvestmentStrategy, RiskFactor}
    case ProductFull => {InvestmentStrategy, RiskFactor}
    case IndexMethodology => {IndexRules, SelectionRules, Rebalancing}
    case OfficialUpdate => {UpdateClaim}
    case PolicyBase => {LegalStructure, InvestmentStrategy}
  }

  // ----- admission -----

  const HOUR := 3_600_000_000
  const DAY := 24 * HOUR

  /** The calendar day of an instant in Seoul, nine hours ahead of UTC. */
  function SeoulDay(utc: int): int {
    (utc + 9 * HOUR) / DAY
  }

  function BindingReason(c: Candidate, role: Role): Option<string> {
    if |c.boundEntities| != 1 then Some("exact_entity_binding_required")
    else if c.bindingRole !in BINDING_ROLES then Some("binding_role_not_approved")
    else if c.bindingRole !in BindingRolesFor(role) then Some("binding_role_incompatible_with_document_role")
    else None
  }

  predicate IsAware(t: Option<Timestamp>) {
    t.Some? && t.value.Aware?
  }

  predicate VersionVerified(c: Candidate, cutoff: int) {
    && c.version.Some? && !Blank(c.version.value)
    && c.effectiveFrom.Some? && c.effectiveFrom.value <= cutoff
    && (c.effectiveTo.Some? ==> c.effectiveFrom.value <= c.effectiveTo.value && cutoff <= c.effectiveTo.value)
  }

  /** The status and reason that refuse a candidate for a role, or nothing if it is admitted. */
  function Refusal(c: Candidate, cutoff: int, role: Role): Option<(Status, string)> {
    if BindingReason(c, role).Some? then Some((AmbiguousEntityBinding, BindingReason(c, role).value))
    else if c.publisher !in PublishersFor(role, c.bindingRole)
    then Some((PublisherNotApproved, "publisher_role_not_approved"))
    else if !IsAware(c.publishedAt) || !IsAware(c.availableAt) then Some((VersionUnknown, "cutoff_timing_not_verified"))
    else if SeoulDay(c.publishedAt.value.utc) > cutoff || SeoulDay(c.availableAt.value.utc) > cutoff
    then Some((AfterCutoffOnly, "after_cutoff_only"))
    else if !VersionVerified(c, cutoff) then Some((VersionUnknown, "effective_version_not_verified"))
    else if !c.exactText then Some((UnreadableDocument, "round_trippable_text_required"))
    else None
  }

  predicate Admitted(c: Candidate, cutoff: int, role: Role) {
    Refusal(c, cutoff, role).None?
  }

  predicate Covers(c: Candidate, role: Role) {
    RequiredClaims(role) <= c.claimTypes
  }

  // ----- selection -----

  datatype Key = Key(summaryRank: int, effective: int, published: int, id: string)

  predicate KeyLeq(a: Key, b: Key) {
    || a.summaryRank < b.summaryRank
    || (a.summaryRank == b.summaryRank && (
          || a.effective < b.effective
          || (a.effective == b.effective && (
                || a.published < b.published
                || (a.published == b.published && TextLeq(a.id, b.id))))))
  }

  /** Summaries before full texts where a summary is asked for; then the latest in effect, the latest
      published, and the least id. */
  function SelectionKey(c: Candidate, role: Role): Key
    requires c.effectiveFrom.Some? && IsAware(c.publishedAt)
  {
    Key(if role == ProductSummary && c.documentType != SummaryProspectus then 1 else 0,
        -c.effectiveFrom.value, -c.publishedAt.value.utc, c.documentId)
  }

  /** The first element with the least key. */
  function Least(s: seq<Candidate>, role: Role): (least: Candidate)
    requires s != [] && forall c | c in s :: c.effectiveFrom.Some? && IsAware(c.publishedAt)
    ensures least in s
  {
    if |s| == 1 then s[0]
    else
      var best := Least(s[..|s| - 1], role);
      if KeyLeq(SelectionKey(best, role), SelectionKey(s[|s| - 1], role)) then best else s[|s| - 1]
  }

  /** Pairs of reason and document id in tuple order; the least one's reason is reported. */
  predicate PairLeq(a: (string, string), b: (string, string)) {
    if a.0 == b.0 then TextLeq(a.1, b.1) else TextLeq(a.0, b.0)
  }

  function LeastPair(s: seq<(string, string)>): (p: (string, string))
    requires s != []
    ensures p in s
  {
    if |s| == 1 then s[0]
    else
      var best := LeastPair(s[..|s| - 1]);
      if PairLeq(best, s[|s| - 1]) then best else s[|s| - 1]
  }

  /** The selected document, the status and reason, and the other documents' ids. */
  datatype Selection = Selection(documentId: Option<string>, status: Status, reason: Option<string>,
                                 rejected: set<string>)

  function RejectedIds(s: seq<Candidate>, selected: Option<string>): set<string> {
    set c | c in s && Some(c.documentId) != selected :: c.documentId
  }

  function BindingFailures(s: seq<Candidate>, role: Role): seq<(string, string)> {
    if s == [] then []
    else
      var last := s[|s| - 1];
      BindingFailures(s[..|s| - 1], role)
      + if BindingReason(last, role).Some? then [(BindingReason(last, role).value, last.documentId)] else []
  }

  function BindingSelection(s: seq<Candidate>, role: Role): Option<Selection> {
    var failures := BindingFailures(s, role);
    if failures != [] then Some(Selection(None, AmbiguousEntityBinding, Some(LeastPair(failures).0),
                                          RejectedIds(s, None)))
    else if |set c | c in s && |c.boundEntities| > 0 :: c.boundEntities[0]| != 1 then
      Some(Selection(None, AmbiguousEntityBinding, Some("candidate_entities_mismatch"), RejectedIds(s, None)))
    else None
  }

  /** The refusals with one status, as pairs of reason and document id. */
  function Failures(s: seq<Candidate>, cutoff: int, role: Role, status: Status): seq<(string, string)> {
    if s == [] then []
    else
      var last := s[|s| - 1];
      var refusal := Refusal(last, cutoff, role);
      Failures(s[..|s| - 1], cutoff, role, status)
      + if refusal.Some? && refusal.value.0 == status then [(refusal.value.1, last.documentId)] else []
  }

  /** The least reason among the refusals with one status. */
  function FailureReason(s: seq<Candidate>, cutoff: int, role: Role, status: Status): Option<string> {
    var failures := Failures(s, cutoff, role, status);
    if failures == [] then None else Some(LeastPair(failures).0)
  }

  const FAILURE_PRIORITY := [AmbiguousEntityBinding, PublisherNotApproved, VersionUnknown, AfterCutoffOnly,
                             UnreadableDocument]

  /** The first status of the priority list, from position i on, that some candidate was refused with. */
  function FailureSelection(s: seq<Candidate>, cutoff: int, role: Role, i: nat): Selection
    requires i <= |FAILURE_PRIORITY|
    decreases |FAILURE_PRIORITY| - i
  {
    if i == |FAILURE_PRIORITY|
    then Selection(None, DocumentNotFound, Some("no_candidate_for_required_role"), RejectedIds(s, None))
    else
      var reason := FailureReason(s, cutoff, role, FAILURE_PRIORITY[i]);
      if reason.Some? then Selection(None, FAILURE_PRIORITY[i], reason, RejectedIds(s, None))
      else FailureSelection(s, cutoff, role, i + 1)
  }

  function Relevant(candidates: seq<Candidate>, role: Role): seq<Candidate> {
    Filter(candidates, (c: Candidate) => c.documentType in TypesFor(role))
  }

  function AdmittedOf(s: seq<Candidate>, cutoff: int, role: Role): seq<Candidate> {
    Filter(s, (c: Candidate) => Admitted(c, cutoff, role))
  }

  function CoveringOf(s: seq<Candidate>, role: Role): seq<Candidate> {
    Filter(s, (c: Candidate) => Covers(c, role))
  }

  function SelectCanonical(candidates: seq<Candidate>, role: Role, cutoff: int): Selection {
    var relevant := Relevant(candidates, role);
    if relevant == [] then Selection(None, DocumentNotFound, Some("no_candidate_for_required_role"), {})
    else if BindingSelection(relevant, role).Some? then BindingSelection(relevant, role).value
    else
      var admitted := AdmittedOf(relevant, cutoff, role);
      var covering := CoveringOf(admitted, role);
      if covering != [] then
        CoveringHaveKeys(candidates, cutoff, role);
        var selected := Least(covering, role);
        Selection(Some(selected.documentId), Indexed, None, RejectedIds(relevant, Some(selected.documentId)))
      else if admitted != [] then Selection(None, SectionMissing, Some("required_claim_coverage_missing"),
                                            RejectedIds(relevant, None))
      else FailureSelection(relevant, cutoff, role, 0)
  }

  lemma {:induction false} RelevantAre(candidates: seq<Candidate>, role: Role)
    ensures forall c :: c in Relevant(candidates, role) <==> c in candidates && c.documentType in TypesFor(role)
  {
    FilterMembers(candidates, (c: Candidate) => c.documentType in TypesFor(role));
  }

  lemma {:induction false} AdmittedAre(s: seq<Candidate>, cutoff: int, role: Role)
    ensures forall c :: c in AdmittedOf(s, cutoff, role) <==> c in s && Admitted(c, cutoff, role)
  {
    FilterMembers(s, (c: Candidate) => Admitted(c, cutoff, role));
  }

  lemma {:induction false} CoveringAre(s: seq<Candidate>, role: Role)
    ensures forall c :: c in CoveringOf(s, role) <==> c in s && Covers(c, role)
  {
    FilterMembers(s, (c: Candidate) => Covers(c, role));
  }

  lemma {:induction false} CoveringHaveKeys(candidates: seq<Candidate>, cutoff: int, role: Role)
    ensures forall c | c in CoveringOf(AdmittedOf(Relevant(candidates, role), cutoff, role), role) ::
              c.effectiveFrom.Some? && IsAware(c.publishedAt)
  {
    AdmittedAre(Relevant(candidates, role), cutoff, role);
    CoveringAre(AdmittedOf(Relevant(candidates, role), cutoff, role), role);
  }

  // ----- order plays no part -----

  ghost predicate SameCandidates(a: seq<Candidate>, b: seq<Candidate>) {
    forall c :: c in a <==> c in b
  }

  lemma {:induction false} KeyOrder(a: Key, b: Key, c: Key)
    ensures KeyLeq(a, b) || KeyLeq(b, a)
    ensures KeyLeq(a, b) && KeyLeq(b, a) ==> a == b
    ensures KeyLeq(a, b) && KeyLeq(b, c) ==> KeyLeq(a, c)
  {
    Total(a.id, b.id);
    if TextLeq(a.id, b.id) && TextLeq(b.id, c.id) {
      Transitive(a.id, b.id, c.id);
    }
  }

  lemma {:induction false} PairOrder(a: (string, string), b: (string, string), c: (string, string))
    ensures PairLeq(a, b) || PairLeq(b, a)
    ensures PairLeq(a, b) && PairLeq(b, a) ==> a == b
    ensures PairLeq(a, b) && PairLeq(b, c) ==> PairLeq(a, c)
  {
    Total(a.0, b.0);
    Total(a.1, b.1);
    Total(b.0, c.0);
    if TextLeq(a.0, b.0) && TextLeq(b.0, c.0) {
      Transitive(a.0, b.0, c.0);
      Total(a.0, c.0);
    }
    if TextLeq(a.1, b.1) && TextLeq(b.1, c.1) {
      Transitive(a.1, b.1, c.1);
    }
  }

  lemma {:induction false} LeastIsLeast(s: seq<Candidate>, role: Role, c: Candidate)
    requires s != [] && forall c | c in s :: c.effectiveFrom.Some? && IsAware(c.publishedAt)
    requires c in s
    ensures Least(s, role) in s && KeyLeq(SelectionKey(Least(s, role), role), SelectionKey(c, role))
  {
    if |s| == 1 {
      KeyOrder(SelectionKey(c, role), SelectionKey(c, role), SelectionKey(c, role));
    } else {
      var front, last := s[..|s| - 1], s[|s| - 1];
      var best := Least(front, role);
      KeyOrder(SelectionKey(best, role), SelectionKey(last, role), SelectionKey(last, role));
      KeyOrder(SelectionKey(last, role), SelectionKey(last, role), SelectionKey(last, role));
      if c in front {
        LeastIsLeast(front, role, c);
        KeyOrder(SelectionKey(last, role), SelectionKey(best, role), SelectionKey(c, role));
      } else {
        assert c == last by { assert s == front + [last]; }
      }
    }
  }

  lemma {:induction false} LeastPairIsLeast(s: seq<(string, string)>, p: (string, string))
    requires p in s
    ensures LeastPair(s) in s && PairLeq(LeastPair(s), p)
  {
    if |s| == 1 {
      PairOrder(p, p, p);
    } else {
      var front, last := s[..|s| - 1], s[|s| - 1];
      var best := LeastPair(front);
      PairOrder(best, last, last);
      PairOrder(last, last, last);
      if p in front {
        LeastPairIsLeast(front, p);
        PairOrder(last, best, p);
      } else {
        assert p == last by { assert s == front + [last]; }
      }
    }
  }

  lemma {:induction false} SameLeast(a: seq<Candidate>, b: seq<Candidate>, role: Role)
    requires SameCandidates(a, b) && a != [] && b != [] && forall c | c in a ::
               c.effectiveFrom.Some? && IsAware(c.publishedAt)
    ensures Least(a, role).documentId == Least(b, role).documentId
  {
    LeastIsLeast(a, role, Least(b, role));
    LeastIsLeast(b, role, Least(a, role));
    KeyOrder(SelectionKey(Least(a, role), role), SelectionKey(Least(b, role), role),
             SelectionKey(Least(a, role), role));
  }

  lemma {:induction false} SameLeastPair(a: seq<(string, string)>, b: seq<(string, string)>)
    requires a != [] && b != [] && forall p :: p in a <==> p in b
    ensures LeastPair(a) == LeastPair(b)
  {
    LeastPairIsLeast(a, LeastPair(b));
    LeastPairIsLeast(b, LeastPair(a));
    PairOrder(LeastPair(a), LeastPair(b), LeastPair(a));
  }

  lemma {:induction false} BindingFailuresAre(s: seq<Candidate>, role: Role, p: (string, string))
    ensures p in BindingFailures(s, role) <==>
              exists c :: c in s && BindingReason(c, role) == Some(p.0) && c.documentId == p.1
  {
    if s != [] {
      BindingFailuresAre(s[..|s| - 1], role, p);
      assert s == s[..|s| - 1] + [s[|s| - 1]];
    }
  }

  lemma {:induction false} FailuresAre(s: seq<Candidate>, cutoff: int, role: Role, status: Status, p: (string, string))
    ensures p in Failures(s, cutoff, role, status) <==>
              exists c :: c in s && Refusal(c, cutoff, role) == Some((status, p.0)) && c.documentId == p.1
  {
    if s != [] {
      hide Refusal;
      var front, last := s[..|s| - 1], s[|s| - 1];
      FailuresAre(front, cutoff, role, status, p);
      assert forall c :: c in s <==> c in front || c == last by {
        assert s == front + [last];
      }
    }
  }

  lemma {:induction false} SameBindingSelection(a: seq<Candidate>, b: seq<Candidate>, role: Role)
    requires SameCandidates(a, b)
    ensures BindingSelection(a, role) == BindingSelection(b, role)
  {
    var fa, fb := BindingFailures(a, role), BindingFailures(b, role);
    forall p ensures p in fa <==> p in fb {
      BindingFailuresAre(a, role, p);
      BindingFailuresAre(b, role, p);
    }
    hide BindingFailures, BindingReason;
    assert fa != [] ==> fa[0] in fb;
    assert fb != [] ==> fb[0] in fa;
    if fa != [] {
      SameLeastPair(fa, fb);
    }
    assert RejectedIds(a, None) == RejectedIds(b, None);
    assert (set c | c in a && |c.boundEntities| > 0 :: c.boundEntities[0]) ==
             (set c | c in b && |c.boundEntities| > 0 :: c.boundEntities[0]);
  }

  lemma {:induction false} SameFailureSelection(a: seq<Candidate>, b: seq<Candidate>, cutoff: int, role: Role, i: nat)
    requires SameCandidates(a, b) && i <= |FAILURE_PRIORITY|
    ensures FailureSelection(a, cutoff, role, i) == FailureSelection(b, cutoff, role, i)
    decreases |FAILURE_PRIORITY| - i
  {
    hide FailureReason;
    assert RejectedIds(a, None) == RejectedIds(b, None);
    if i < |FAILURE_PRIORITY| {
      SameFailureSelection(a, b, cutoff, role, i + 1);
      SameFailures(a, b, cutoff, role, FAILURE_PRIORITY[i]);
    }
  }

  lemma {:induction false} SameFailures(a: seq<Candidate>, b: seq<Candidate>, cutoff: int, role: Role, status: Status)
    requires SameCandidates(a, b)
    ensures FailureReason(a, cutoff, role, status) == FailureReason(b, cutoff, role, status)
  {
    var fa, fb := Failures(a, cutoff, role, status), Failures(b, cutoff, role, status);
    forall p ensures p in fa <==> p in fb {
      FailuresAre(a, cutoff, role, status, p);
      FailuresAre(b, cutoff, role, status, p);
    }
    hide Failures, Refusal;
    assert fa != [] ==> fa[0] in fb;
    assert fb != [] ==> fb[0] in fa;
    if fa != [] {
      SameLeastPair(fa, fb);
    }
  }

  lemma {:induction false} SameEmptiness(a: seq<Candidate>, b: seq<Candidate>)
    requires SameCandidates(a, b)
    ensures a == [] <==> b == []
  {
    assert a != [] ==> a[0] in b;
    assert b != [] ==> b[0] in a;
  }

  /** The same candidates are relevant, admitted and covering, whatever their order. */
  lemma {:induction false} SameLists(a: seq<Candidate>, b: seq<Candidate>, role: Role, cutoff: int)
    requires SameCandidates(a, b)
    ensures var ra, rb := Relevant(a, role), Relevant(b, role);
      var aa, ab := AdmittedOf(ra, cutoff, role), AdmittedOf(rb, cutoff, role);
      SameCandidates(ra, rb) && SameCandidates(aa, ab) && SameCandidates(CoveringOf(aa, role), CoveringOf(ab, role))
  {
    var ra, rb := Relevant(a, role), Relevant(b, role);
    var aa, ab := AdmittedOf(ra, cutoff, role), AdmittedOf(rb, cutoff, role);
    RelevantAre(a, role);
    RelevantAre(b, role);
    AdmittedAre(ra, cutoff, role);
    AdmittedAre(rb, cutoff, role);
    CoveringAre(aa, role);
    CoveringAre(ab, role);
    hide Relevant, AdmittedOf, CoveringOf, Admitted, Covers, TypesFor;
  }

  lemma {:induction false} SameRejected(a: seq<Candidate>, b: seq<Candidate>, id: Option<string>)
    requires SameCandidates(a, b)
    ensures RejectedIds(a, id) == RejectedIds(b, id)
  {}

  /** The selection depends only on which candidates there are, not on their order or repetition. */
  lemma {:induction false} SelectionIgnoresOrder(a: seq<Candidate>, b: seq<Candidate>, role: Role, cutoff: int)
    requires SameCandidates(a, b)
    ensures SelectCanonical(a, role, cutoff) == SelectCanonical(b, role, cutoff)
  {
    SameLists(a, b, role, cutoff);
    CoveringHaveKeys(a, cutoff, role);
    CoveringHaveKeys(b, cutoff, role);
    var ra, rb := Relevant(a, role), Relevant(b, role);
    var aa, ab := AdmittedOf(ra, cutoff, role), AdmittedOf(rb, cutoff, role);
    var ca, cb := CoveringOf(aa, role), CoveringOf(ab, role);
    hide Relevant, AdmittedOf, CoveringOf, BindingSelection, SameCandidates, RejectedIds, IsAware;
    SameEmptiness(ra, rb);
    SameEmptiness(aa, ab);
    SameEmptiness(ca, cb);
    SameBindingSelection(ra, rb, role);
    SameFailureSelection(ra, rb, cutoff, role, 0);
    SameRejected(ra, rb, None);
    if ca != [] {
      SameLeast(ca, cb, role);
      SameRejected(ra, rb, Some(Least(ca, role).documentId));
    }
  }

  /** In particular every permutation of the candidates selects the same. */
  lemma {:induction false} SelectionIgnoresPermutation(a: seq<Candidate>, b: seq<Candidate>, role: Role, cutoff: int)
    requires multiset(a) == multiset(b)
    ensures SelectCanonical(a, role, cutoff) == SelectCanonical(b, role, cutoff)
  {
    SameMembers(a, b);
    SelectionIgnoresOrder(a, b, role, cutoff);
  }

  // ----- what is selected -----

  /** A candidate of a type that the role asks for. */
  predicate IsRelevant(candidates: seq<Candidate>, c: Candidate, role: Role) {
    c in candidates && c.documentType in TypesFor(role)
  }

  /** Bound to one entity, in a binding role that fits. */
  predicate IsBound(c: Candidate, role: Role) {
    |c.boundEntities| == 1 && c.bindingRole in BindingRolesFor(role)
  }

  predicate HasApprovedPublisher(c: Candidate, role: Role) {
    c.bindingRole in BindingRolesFor(role) && c.publisher in PublishersFor(role, c.bindingRole)
  }

  /** The first instant, in UTC, after a day in Seoul. */
  function DayEnd(day: int): int {
    (day + 1) * DAY - 9 * HOUR
  }

  predicate IsBefore(t: Option<Timestamp>, utc: int) {
    t.Some? && t.value.Aware? && t.value.utc < utc
  }

  /** In effect on the cutoff day, under a version that is not blank. */
  predicate InEffect(c: Candidate, cutoff: int) {
    && c.version.Some? && !Blank(c.version.value)
    && c.effectiveFrom.Some? && c.effectiveFrom.value <= cutoff
    && (c.effectiveTo.Some? ==> cutoff <= c.effectiveTo.value)
  }

  /** Bound to one entity, from an approved publisher, published and available before the cutoff day ends in
      Seoul, in effect on that day under a nonblank version, and with its exact text at hand. */
  predicate IsAdmissible(c: Candidate, cutoff: int, role: Role) {
    && IsBound(c, role) && HasApprovedPublisher(c, role)
    && IsBefore(c.publishedAt, DayEnd(cutoff)) && IsBefore(c.availableAt, DayEnd(cutoff))
    && InEffect(c, cutoff)
    && c.exactText
  }

  /** Admissible, covering, and of the type that the role asks for. */
  predicate Qualifies(candidates: seq<Candidate>, c: Candidate, role: Role, cutoff: int) {
    IsRelevant(candidates, c, role) && IsAdmissible(c, cutoff, role) && Covers(c, role)
  }

  /** Every relevant candidate is bound to one and the same entity, in a role that fits. */
  predicate BoundAlike(candidates: seq<Candidate>, role: Role) {
    && (forall c | c in candidates && c.documentType in TypesFor(role) :: IsBound(c, role))
    && (forall c, d | c in candidates && d in candidates && c.documentType in TypesFor(role)
                      && d.documentType in TypesFor(role) :: c.boundEntities == d.boundEntities)
  }

  /** What a refusal with this status and reason says of the candidate. */
  predicate Shows(c: Candidate, cutoff: int, role: Role, status: Status, reason: string) {
    match status
    case AmbiguousEntityBinding =>
      !IsBound(c, role)
      && reason == (if |c.boundEntities| != 1 then "exact_entity_binding_required"
                    else if c.bindingRole.OtherBinding? then "binding_role_not_approved"
                    else "binding_role_incompatible_with_document_role")
    case PublisherNotApproved =>
      IsBound(c, role) && !HasApprovedPublisher(c, role) && reason == "publisher_role_not_approved"
    case VersionUnknown =>
      && IsBound(c, role) && HasApprovedPublisher(c, role)
      && (if IsAware(c.publishedAt) && IsAware(c.availableAt) then
            && IsBefore(c.publishedAt, DayEnd(cutoff)) && IsBefore(c.availableAt, DayEnd(cutoff))
            && !InEffect(c, cutoff) && reason == "effective_version_not_verified"
          else reason == "cutoff_timing_not_verified")
    case AfterCutoffOnly =>
      && IsBound(c, role) && HasApprovedPublisher(c, role) && IsAware(c.publishedAt) && IsAware(c.availableAt)
      && !(IsBefore(c.publishedAt, DayEnd(cutoff)) && IsBefore(c.availableAt, DayEnd(cutoff)))
      && reason == "after_cutoff_only"
    case UnreadableDocument =>
      && IsAdmissible(c.(exactText := true), cutoff, role) && !c.exactText
      && reason == "round_trippable_text_required"
    case _ => false
  }

  lemma {:induction false} AdmittedExactly(c: Candidate, cutoff: int, role: Role)
    ensures Admitted(c, cutoff, role) <==> IsAdmissible(c, cutoff, role)
  {
    hide Blank;
  }

  lemma {:induction false} BeforeExactly(t: Option<Timestamp>, cutoff: int)
    ensures IsAware(t) ==> (SeoulDay(t.value.utc) <= cutoff <==> IsBefore(t, DayEnd(cutoff)))
    ensures IsBefore(t, DayEnd(cutoff)) ==> IsAware(t)
  {}

  lemma {:induction false} VersionExactly(c: Candidate, cutoff: int)
    ensures VersionVerified(c, cutoff) <==> InEffect(c, cutoff)
  {
    hide Blank;
  }

  lemma {:induction false} RefusedExactly(c: Candidate, cutoff: int, role: Role, status: Status, reason: string)
    ensures Refusal(c, cutoff, role) == Some((status, reason)) <==> Shows(c, cutoff, role, status, reason)
  {
    BeforeExactly(c.publishedAt, cutoff);
    BeforeExactly(c.availableAt, cutoff);
    VersionExactly(c, cutoff);
    VersionExactly(c.(exactText := true), cutoff);
    BoundExactly(c, role);
    BindingShows(c, cutoff, role, reason);
    SameButText(c, cutoff);
    hide SeoulDay, IsBefore, DayEnd, VersionVerified, InEffect, BindingReason, PublishersFor, IsAware, BindingRolesFor;
  }

  /** Only the text differs. */
  lemma {:induction false} SameButText(c: Candidate, cutoff: int)
    ensures var d := c.(exactText := true); InEffect(d, cutoff) == InEffect(c, cutoff)
    ensures forall role :: IsBound(c.(exactText := true), role) == IsBound(c, role)
  {}

  lemma {:induction false} BoundExactly(c: Candidate, role: Role)
    ensures BindingReason(c, role).None? <==> IsBound(c, role)
  {}

  lemma {:induction false} NoBindingFailures(s: seq<Candidate>, role: Role)
    requires forall c | c in s :: BindingReason(c, role).None?
    ensures BindingFailures(s, role) == []
  {
    if s != [] {
      NoBindingFailures(s[..|s| - 1], role);
    }
  }

  lemma {:induction false} BindingAccepts(s: seq<Candidate>, role: Role)
    requires s != []
    ensures BindingSelection(s, role).None? <==>
              && (forall c | c in s :: BindingReason(c, role).None?)
              && (forall c, d | c in s && d in s && BindingReason(c, role).None? && BindingReason(d, role).None? ::
                  c.boundEntities == d.boundEntities)
  {
    var failures := BindingFailures(s, role);
    forall p ensures p in failures <==>
        exists c :: c in s && BindingReason(c, role) == Some(p.0) && c.documentId == p.1 {
      BindingFailuresAre(s, role, p);
    }
    if c :| c in s && BindingReason(c, role).Some? {
      assert (BindingReason(c, role).value, c.documentId) in failures;
    } else {
      NoBindingFailures(s, role);
      SameEntities(s, role);
    }
  }

  lemma {:induction false} SameEntities(s: seq<Candidate>, role: Role)
    requires s != [] && forall c | c in s :: BindingReason(c, role).None?
    ensures |set c | c in s && |c.boundEntities| > 0 :: c.boundEntities[0]| == 1 <==>
              forall c, d | c in s && d in s && BindingReason(c, role).None? && BindingReason(d, role).None? ::
                  c.boundEntities == d.boundEntities
  {
    var ids := set c | c in s && |c.boundEntities| > 0 :: c.boundEntities[0];
    assert s[0] in s && BindingReason(s[0], role).None?;
    var first := s[0].boundEntities[0];
    assert first in ids;
    if |ids| == 1 {
      assert ids == {first} by {
        assert |ids - {first}| == 0;
        assert ids == (ids - {first}) + {first};
      }
      forall c | c in s ensures c.boundEntities == [first] {
        assert c.boundEntities[0] in ids;
      }
    }
    if forall c, d | c in s && d in s && BindingReason(c, role).None? && BindingReason(d, role).None? ::
        c.boundEntities == d.boundEntities {
      assert ids == {first};
    }
  }

  lemma {:induction false} BindingRefuses(s: seq<Candidate>, role: Role)
    ensures BindingSelection(s, role).Some? ==>
              BindingSelection(s, role).value.status == AmbiguousEntityBinding
                  && BindingSelection(s, role).value.documentId.None?
  {}

  /** The branches of the selection, by the lists that they look at. */
  lemma {:induction false} SelectionBranches(candidates: seq<Candidate>, role: Role, cutoff: int)
    ensures var relevant := Relevant(candidates, role);
      var admitted := AdmittedOf(relevant, cutoff, role);
      var covering := CoveringOf(admitted, role);
      var r := SelectCanonical(candidates, role, cutoff);
      var bound := relevant != [] && BindingSelection(relevant, role).None?;
      && (r.status == Indexed <==> bound && covering != [])
      && (r.status == SectionMissing <==> bound && admitted != [] && covering == [])
      && (r.documentId.Some? <==> r.status == Indexed)
      && (r.status == Indexed ==>
            && (forall c | c in covering :: c.effectiveFrom.Some? && IsAware(c.publishedAt))
            && r.documentId == Some(Least(covering, role).documentId))
  {
    CoveringHaveKeys(candidates, cutoff, role);
    NeverIndexedByFailure(Relevant(candidates, role), cutoff, role, 0);
    BindingRefuses(Relevant(candidates, role), role);
    hide Relevant, AdmittedOf, CoveringOf, BindingSelection, Least, FailureSelection, RejectedIds, IsAware;
  }

  lemma {:induction false} CoveringQualify(candidates: seq<Candidate>, role: Role, cutoff: int)
    ensures forall c ::
              c in CoveringOf(AdmittedOf(Relevant(candidates, role), cutoff, role), role) <==>
              Qualifies(candidates, c, role, cutoff)
  {
    RelevantAre(candidates, role);
    AdmittedAre(Relevant(candidates, role), cutoff, role);
    CoveringAre(AdmittedOf(Relevant(candidates, role), cutoff, role), role);
    forall c ensures Admitted(c, cutoff, role) <==> IsAdmissible(c, cutoff, role) {
      AdmittedExactly(c, cutoff, role);
    }
    hide Relevant, AdmittedOf, CoveringOf, Admitted, Covers, TypesFor, IsAdmissible;
  }

  lemma {:induction false} BoundAlikeExactly(candidates: seq<Candidate>, role: Role)
    requires Relevant(candidates, role) != []
    ensures BindingSelection(Relevant(candidates, role), role).None? <==> BoundAlike(candidates, role)
  {
    BindingAccepts(Relevant(candidates, role), role);
    RelevantAre(candidates, role);
    forall c ensures BindingReason(c, role).None? <==> IsBound(c, role) {
      BoundExactly(c, role);
    }
    hide Relevant, BindingSelection, BindingReason, TypesFor, IsBound;
  }

  /** A document is selected exactly when the relevant candidates are bound alike and one of them qualifies;
      what is selected then qualifies and is preferred to all that do. */
  lemma {:induction false} IndexedExactly(candidates: seq<Candidate>, role: Role, cutoff: int)
    ensures var r := SelectCanonical(candidates, role, cutoff);
      && (r.status == Indexed <==> BoundAlike(candidates, role) && exists c :: Qualifies(candidates, c, role, cutoff))
      && (r.status == Indexed ==> IsBestQualified(candidates, r.documentId, role, cutoff))
      && (r.documentId.Some? <==> r.status == Indexed)
  {
    SelectionBranches(candidates, role, cutoff);
    CoveringQualify(candidates, role, cutoff);
    RelevantAre(candidates, role);
    var relevant := Relevant(candidates, role);
    var covering := CoveringOf(AdmittedOf(relevant, cutoff, role), role);
    assert relevant == [] ==> forall c :: !Qualifies(candidates, c, role, cutoff) by {
      assert forall c | Qualifies(candidates, c, role, cutoff) :: c in relevant;
    }
    assert covering != [] ==> Qualifies(candidates, covering[0], role, cutoff) by {
      assert covering != [] ==> covering[0] in covering;
    }
    hide SelectCanonical, Relevant, AdmittedOf, CoveringOf, BindingSelection, BoundAlike, Qualifies, IsBestQualified;
    if relevant != [] {
      BoundAlikeExactly(candidates, role);
    }
    if SelectCanonical(candidates, role, cutoff).status == Indexed {
      LeastQualified(candidates, covering, role, cutoff);
    }
  }

  lemma {:induction false} NeverIndexedByFailure(s: seq<Candidate>, cutoff: int, role: Role, i: nat)
    requires i <= |FAILURE_PRIORITY|
    ensures FailureSelection(s, cutoff, role, i).status != Indexed
            && FailureSelection(s, cutoff, role, i).status != SectionMissing
    ensures FailureSelection(s, cutoff, role, i).documentId.None?
    decreases |FAILURE_PRIORITY| - i
  {
    hide FailureReason, RejectedIds;
    if i < |FAILURE_PRIORITY| {
      NeverIndexedByFailure(s, cutoff, role, i + 1);
    }
  }

  /** `c` goes before `d` or ties with it: where a summary is asked for, a summary before a full text; then the
      one that took effect later, the one published later, and the one with the lesser id. */
  predicate Preferred(c: Candidate, d: Candidate, role: Role)
    requires c.effectiveFrom.Some? && d.effectiveFrom.Some? && IsAware(c.publishedAt) && IsAware(d.publishedAt)
  {
    var summary := (x: Candidate) => x.documentType == SummaryProspectus;
    if role == ProductSummary && summary(c) != summary(d) then summary(c)
    else if c.effectiveFrom != d.effectiveFrom then c.effectiveFrom.value > d.effectiveFrom.value
    else if c.publishedAt != d.publishedAt then c.publishedAt.value.utc > d.publishedAt.value.utc
    else TextLeq(c.documentId, d.documentId)
  }

  lemma {:induction false} KeysPrefer(c: Candidate, d: Candidate, role: Role)
    requires c.effectiveFrom.Some? && d.effectiveFrom.Some? && IsAware(c.publishedAt) && IsAware(d.publishedAt)
    ensures KeyLeq(SelectionKey(c, role), SelectionKey(d, role)) <==> Preferred(c, d, role)
  {}

  /** The id of a candidate that qualifies and is preferred to every other one that does. */
  ghost predicate IsBestQualified(candidates: seq<Candidate>, id: Option<string>, role: Role, cutoff: int) {
    exists c :: Qualifies(candidates, c, role, cutoff) && id == Some(c.documentId)
      && forall d | Qualifies(candidates, d, role, cutoff) :: Preferred(c, d, role)
  }

  lemma {:induction false} LeastQualified(candidates: seq<Candidate>, covering: seq<Candidate>, role: Role, cutoff: int)
    requires covering != [] && forall c :: c in covering <==> Qualifies(candidates, c, role, cutoff)
    requires forall c | c in covering :: c.effectiveFrom.Some? && IsAware(c.publishedAt)
    ensures IsBestQualified(candidates, Some(Least(covering, role).documentId), role, cutoff)
  {
    hide Covers, InEffect, KeyLeq, TextLeq, HasApprovedPublisher, TypesFor;
    var c := Least(covering, role);
    forall d | Qualifies(candidates, d, role, cutoff) ensures Preferred(c, d, role) {
      LeastIsLeast(covering, role, d);
      KeysPrefer(c, d, role);
    }
  }

  // ----- what is reported when nothing is selected -----

  /** Some relevant candidate shows the status, for whatever reason. */
  ghost predicate SomeShows(candidates: seq<Candidate>, cutoff: int, role: Role, status: Status) {
    exists c, reason :: IsRelevant(candidates, c, role) && Shows(c, cutoff, role, status, reason)
  }

  /** The least reason for which a relevant candidate shows the status. */
  ghost predicate IsLeastReason(candidates: seq<Candidate>, cutoff: int, role: Role, status: Status,
                                reason: Option<string>)
  {
    && reason.Some?
    && (exists c :: IsRelevant(candidates, c, role) && Shows(c, cutoff, role, status, reason.value))
    && forall c, other | IsRelevant(candidates, c, role) && Shows(c, cutoff, role, status, other) ::
         TextLeq(reason.value, other)
  }

  lemma {:induction false} LeastOfFailures(candidates: seq<Candidate>, failures: seq<(string, string)>, cutoff: int,
                                           role: Role, status: Status)
    requires forall p :: p in failures <==>
               exists c :: IsRelevant(candidates, c, role) && Shows(c, cutoff, role, status, p.0) && c.documentId == p.1
    ensures failures != [] <==> SomeShows(candidates, cutoff, role, status)
    ensures failures != [] ==>
              IsLeastReason(candidates, cutoff, role, status, Some(LeastPair(failures).0))
  {
    hide Shows, IsRelevant, LeastPair, TextLeq;
    if failures != [] {
      assert failures[0] in failures;
      forall c, other | IsRelevant(candidates, c, role) && Shows(c, cutoff, role, status, other)
        ensures TextLeq(LeastPair(failures).0, other)
      {
        LeastPairIsLeast(failures, (other, c.documentId));
        Total(other, other);
      }
    }
    if SomeShows(candidates, cutoff, role, status) {
      var c, reason :| IsRelevant(candidates, c, role) && Shows(c, cutoff, role, status, reason);
      assert (reason, c.documentId) in failures;
    }
  }

  lemma {:induction false} FailureReasonExactly(candidates: seq<Candidate>, cutoff: int, role: Role, status: Status)
    ensures var reason := FailureReason(Relevant(candidates, role), cutoff, role, status);
      && (reason.Some? <==> SomeShows(candidates, cutoff, role, status))
      && (reason.Some? ==> IsLeastReason(candidates, cutoff, role, status, reason))
  {
    hide Shows, Refusal, Relevant, LeastPair, SomeShows, IsLeastReason;
    var relevant := Relevant(candidates, role);
    var failures := Failures(relevant, cutoff, role, status);
    RelevantAre(candidates, role);
    forall p
      ensures p in failures <==>
        exists c :: IsRelevant(candidates, c, role) && Shows(c, cutoff, role, status, p.0) && c.documentId == p.1
    {
      FailuresAre(relevant, cutoff, role, status, p);
      forall c ensures Refusal(c, cutoff, role) == Some((status, p.0)) <==> Shows(c, cutoff, role, status, p.0) {
        RefusedExactly(c, cutoff, role, status, p.0);
      }
    }
    LeastOfFailures(candidates, failures, cutoff, role, status);
  }

  /** The status is the first of the priority list, from position `i` on, that a relevant candidate shows. */
  ghost predicate IsFirstShown(candidates: seq<Candidate>, cutoff: int, role: Role, i: nat, r: Selection) {
    if r.status == DocumentNotFound then
      forall k | i <= k < |FAILURE_PRIORITY| :: !SomeShows(candidates, cutoff, role, FAILURE_PRIORITY[k])
    else
      exists k: nat :: i <= k < |FAILURE_PRIORITY| && IsFirstAt(candidates, cutoff, role, i, k, r)
  }

  ghost predicate IsFirstAt(candidates: seq<Candidate>, cutoff: int, role: Role, i: nat, k: nat, r: Selection)
    requires k < |FAILURE_PRIORITY|
  {
    && r.status == FAILURE_PRIORITY[k] && IsLeastReason(candidates, cutoff, role, r.status, r.reason)
    && forall j | i <= j < k :: !SomeShows(candidates, cutoff, role, FAILURE_PRIORITY[j])
  }

  lemma {:induction false} FirstFailure(candidates: seq<Candidate>, cutoff: int, role: Role, i: nat)
    requires i <= |FAILURE_PRIORITY|
    ensures IsFirstShown(candidates, cutoff, role, i, FailureSelection(Relevant(candidates, role), cutoff, role, i))
    decreases |FAILURE_PRIORITY| - i
  {
    hide FailureReason, Relevant, SomeShows, IsLeastReason, RejectedIds;
    var relevant := Relevant(candidates, role);
    if i < |FAILURE_PRIORITY| {
      var r := FailureSelection(relevant, cutoff, role, i);
      FailureReasonExactly(candidates, cutoff, role, FAILURE_PRIORITY[i]);
      if FailureReason(relevant, cutoff, role, FAILURE_PRIORITY[i]).Some? {
        assert IsFirstAt(candidates, cutoff, role, i, i, r);
      } else {
        FirstFailure(candidates, cutoff, role, i + 1);
        if r.status != DocumentNotFound {
          var k: nat :| i + 1 <= k < |FAILURE_PRIORITY| && IsFirstAt(candidates, cutoff, role, i + 1, k, r);
          assert IsFirstAt(candidates, cutoff, role, i, k, r);
        }
      }
    }
  }

  lemma {:induction false} UnboundReason(candidates: seq<Candidate>, cutoff: int, role: Role)
    requires Relevant(candidates, role) != []
    ensures var r := BindingSelection(Relevant(candidates, role), role);
      r.Some? ==>
        if SomeShows(candidates, cutoff, role, AmbiguousEntityBinding)
        then IsLeastReason(candidates, cutoff, role, AmbiguousEntityBinding, r.value.reason)
        else r.value.reason == Some("candidate_entities_mismatch")
  {
    hide Relevant, LeastPair, SomeShows, IsLeastReason, PublishersFor, RejectedIds;
    var relevant := Relevant(candidates, role);
    var failures := BindingFailures(relevant, role);
    RelevantAre(candidates, role);
    forall p
      ensures p in failures <==>
        exists c :: IsRelevant(candidates, c, role) && Shows(c, cutoff, role, AmbiguousEntityBinding, p.0)
                    && c.documentId == p.1
    {
      BindingFailuresAre(relevant, role, p);
      forall c ensures BindingReason(c, role) == Some(p.0) <==> Shows(c, cutoff, role, AmbiguousEntityBinding, p.0) {
        BindingShows(c, cutoff, role, p.0);
      }
    }
    LeastOfFailures(candidates, failures, cutoff, role, AmbiguousEntityBinding);
  }

  lemma {:induction false} BindingShows(c: Candidate, cutoff: int, role: Role, reason: string)
    ensures BindingReason(c, role) == Some(reason) <==> Shows(c, cutoff, role, AmbiguousEntityBinding, reason)
  {}

  ghost predicate SomeAdmissible(candidates: seq<Candidate>, cutoff: int, role: Role) {
    exists c :: IsRelevant(candidates, c, role) && IsAdmissible(c, cutoff, role)
  }

  lemma {:induction false} AdmittedExist(candidates: seq<Candidate>, role: Role, cutoff: int)
    ensures AdmittedOf(Relevant(candidates, role), cutoff, role) != [] <==> SomeAdmissible(candidates, cutoff, role)
  {
    var admitted := AdmittedOf(Relevant(candidates, role), cutoff, role);
    RelevantAre(candidates, role);
    AdmittedAre(Relevant(candidates, role), cutoff, role);
    forall c ensures Admitted(c, cutoff, role) <==> IsAdmissible(c, cutoff, role) {
      AdmittedExactly(c, cutoff, role);
    }
    hide Relevant, AdmittedOf, Admitted, IsAdmissible, TypesFor;
    assert admitted != [] ==> admitted[0] in admitted;
  }

  /** What is reported when no document is selected. No relevant candidate: nothing was found. Candidates not
      bound alike: the binding is ambiguous, for the least reason a candidate shows, or because the entities
      differ. An admissible candidate: sections are missing. Otherwise the first status of the priority list
      that a relevant candidate shows, for the least reason, and no earlier one is shown by any of them. */
  lemma {:induction false} FailureIsExact(candidates: seq<Candidate>, role: Role, cutoff: int)
    ensures var r := SelectCanonical(candidates, role, cutoff);
      r.status != Indexed ==>
        if forall c :: !IsRelevant(candidates, c, role)
        then r.status == DocumentNotFound && r.reason == Some("no_candidate_for_required_role")
        else if !BoundAlike(candidates, role) then
          && r.status == AmbiguousEntityBinding
          && (if SomeShows(candidates, cutoff, role, AmbiguousEntityBinding)
              then IsLeastReason(candidates, cutoff, role, AmbiguousEntityBinding, r.reason)
              else r.reason == Some("candidate_entities_mismatch"))
        else if SomeAdmissible(candidates, cutoff, role)
        then r.status == SectionMissing && r.reason == Some("required_claim_coverage_missing")
        else r.status != DocumentNotFound && IsFirstShown(candidates, cutoff, role, 0, r)
  {
    var relevant := Relevant(candidates, role);
    NoneRelevant(candidates, role);
    FailureBranches(candidates, role, cutoff);
    hide SelectCanonical, AdmittedOf, BindingSelection, BoundAlike, SomeShows, IsLeastReason, SomeAdmissible,
         FailureSelection, RejectedIds, IsAware, IsAdmissible, TypesFor;
    if relevant != [] {
      BoundAlikeExactly(candidates, role);
      UnboundReason(candidates, cutoff, role);
      BindingRefuses(relevant, role);
      AdmittedExist(candidates, role, cutoff);
      FirstFailure(candidates, cutoff, role, 0);
      if !SomeAdmissible(candidates, cutoff, role) {
        NotAdmissible(candidates, relevant[0], cutoff, role);
        SomethingShown(candidates, relevant[0], cutoff, role);
        hide Relevant, IsFirstAt;
      }
    }
  }

  lemma {:induction false} NoneRelevant(candidates: seq<Candidate>, role: Role)
    ensures var relevant := Relevant(candidates, role);
      if relevant == [] then forall c :: !IsRelevant(candidates, c, role) else IsRelevant(candidates, relevant[0], role)
  {
    RelevantAre(candidates, role);
    hide Relevant, TypesFor;
    var relevant := Relevant(candidates, role);
    assert relevant != [] ==> relevant[0] in relevant;
  }

  lemma {:induction false} NotAdmissible(candidates: seq<Candidate>, c: Candidate, cutoff: int, role: Role)
    requires IsRelevant(candidates, c, role) && !SomeAdmissible(candidates, cutoff, role)
    ensures !IsAdmissible(c, cutoff, role)
  {
    hide IsAdmissible, IsRelevant;
  }

  lemma {:induction false} FailureBranches(candidates: seq<Candidate>, role: Role, cutoff: int)
    ensures var relevant := Relevant(candidates, role);
      var admitted := AdmittedOf(relevant, cutoff, role);
      var r := SelectCanonical(candidates, role, cutoff);
      r.status != Indexed ==>
        if relevant == [] then r.status == DocumentNotFound && r.reason == Some("no_candidate_for_required_role")
        else if BindingSelection(relevant, role).Some? then r == BindingSelection(relevant, role).value
        else if admitted != [] then r.status == SectionMissing && r.reason == Some("required_claim_coverage_missing")
        else r == FailureSelection(relevant, cutoff, role, 0)
  {
    CoveringAre(AdmittedOf(Relevant(candidates, role), cutoff, role), role);
    hide Relevant, AdmittedOf, CoveringOf, BindingSelection, FailureSelection, RejectedIds, IsAware, Covers;
    var admitted := AdmittedOf(Relevant(candidates, role), cutoff, role);
    assert admitted == [] ==> CoveringOf(admitted, role) == [] by {
      assert CoveringOf(admitted, role) != [] ==> CoveringOf(admitted, role)[0] in admitted;
    }
  }

  /** A candidate that is not admissible shows one of the statuses of the priority list. */
  lemma {:induction false} SomethingShown(candidates: seq<Candidate>, c: Candidate, cutoff: int, role: Role)
    requires IsRelevant(candidates, c, role) && !IsAdmissible(c, cutoff, role)
    ensures exists k: nat :: k < |FAILURE_PRIORITY| && SomeShows(candidates, cutoff, role, FAILURE_PRIORITY[k])
  {
    AdmittedExactly(c, cutoff, role);
    var (status, reason) := Refusal(c, cutoff, role).value;
    RefusedExactly(c, cutoff, role, status, reason);
    hide Shows, IsRelevant, Blank, PublishersFor;
    assert SomeShows(candidates, cutoff, role, status);
    assert status in FAILURE_PRIORITY;
  }

  /** The rejected documents are all the relevant ones but the one selected. */
  lemma {:induction false} RejectedExactly(candidates: seq<Candidate>, role: Role, cutoff: int, id: string)
    ensures var r := SelectCanonical(candidates, role, cutoff);
      id in r.rejected <==>
        Some(id) != r.documentId && exists c :: IsRelevant(candidates, c, role) && c.documentId == id
  {
    RejectsOthers(candidates, role, cutoff);
    RelevantAre(candidates, role);
    hide SelectCanonical, Relevant, TypesFor;
  }

  lemma {:induction false} RejectsOthers(candidates: seq<Candidate>, role: Role, cutoff: int)
    ensures var r := SelectCanonical(candidates, role, cutoff);
      r.rejected == RejectedIds(Relevant(candidates, role), r.documentId)
  {
    RejectsRelevant(Relevant(candidates, role), cutoff, role, 0);
    BindingRejects(Relevant(candidates, role), role);
    NoneRejected();
    hide Relevant, AdmittedOf, CoveringOf, FailureSelection, BindingSelection, Least, RejectedIds, IsAware;
  }

  lemma {:induction false} NoneRejected()
    ensures RejectedIds([], None) == {}
  {}

  lemma {:induction false} BindingRejects(s: seq<Candidate>, role: Role)
    ensures var r := BindingSelection(s, role);
      r.Some? ==> r.value.documentId.None? && r.value.rejected == RejectedIds(s, None)
  {
    hide BindingFailures, RejectedIds, LeastPair;
  }

  lemma {:induction false} RejectsRelevant(s: seq<Candidate>, cutoff: int, role: Role, i: nat)
    requires i <= |FAILURE_PRIORITY|
    ensures var r := FailureSelection(s, cutoff, role, i);
      r.documentId.None? && r.rejected == RejectedIds(s, None)
    decreases |FAILURE_PRIORITY| - i
  {
    hide FailureReason, RejectedIds;
    if i < |FAILURE_PRIORITY| {
      RejectsRelevant(s, cutoff, role, i + 1);
    }
  }

  // ----- the audit gate -----

  datatype Tier = Regulatory | ClaimOwner | ExchangeAssociation

  datatype Target = Target(entityId: string, requiredRole: Role, bindingRole: BindingRole)

  /** What a source audit knows of a document before it is read. */
  datatype SourceCandidate = SourceCandidate(
    documentId: string, tier: Tier, publisher: Publisher, documentType: DocumentType, version: Option<string>,
    publishedAt: Option<Timestamp>, availableAt: Option<Timestamp>, effectiveFrom: Option<int>,
    effectiveTo: Option<int>)

  datatype AuditError =
    | CandidateInvalid | CandidateMissing | BindingIncompatible | TypeIncompatible | PublisherNotApprovedForRole
    | TierMismatch | TimingMissing | AfterCutoff | VersionNotVerified

  /** The metadata checks that every source candidate passes: texts are not blank, timestamps carry a zone,
      and a validity period does not end before it begins. */
  predicate IsSourceCandidate(c: SourceCandidate) {
    && !Blank(c.documentId) && (c.version.Some? ==> !Blank(c.version.value))
    && (c.publishedAt.Some? ==> c.publishedAt.value.Aware?) && (c.availableAt.Some? ==> c.availableAt.value.Aware?)
    && (c.effectiveFrom.Some? && c.effectiveTo.Some? ==> c.effectiveFrom.value <= c.effectiveTo.value)
  }

  predicate TierMatches(c: SourceCandidate) {
    match c.tier
    case Regulatory => c.publisher == RegulatorDisclosure
    case ClaimOwner => c.publisher in {IndexProvider, PolicyAuthority, PolicyOperator}
    case ExchangeAssociation => c.publisher in {Exchange, IndustryAssociation}
  }

  predicate AfterCutoffDay(t: Timestamp, cutoff: int) {
    t.Aware? && SeoulDay(t.utc) > cutoff
  }

  /** The first reason why a candidate may not be recorded as eligible for a target. */
  function AuditProblem(target: Target, candidate: Option<SourceCandidate>, cutoff: int): Option<AuditError> {
    if candidate.None? then Some(CandidateMissing)
    else
      var c := candidate.value;
      if !IsSourceCandidate(c) then Some(CandidateInvalid)
      else if target.bindingRole !in BindingRolesFor(target.requiredRole) then Some(BindingIncompatible)
      else if c.documentType !in TypesFor(target.requiredRole) then Some(TypeIncompatible)
      else if c.publisher !in PublishersFor(target.requiredRole, target.bindingRole)
      then Some(PublisherNotApprovedForRole)
      else if !TierMatches(c) then Some(TierMismatch)
      else if c.publishedAt.None? || c.availableAt.None? then Some(TimingMissing)
      else if AfterCutoffDay(c.publishedAt.value, cutoff) || AfterCutoffDay(c.availableAt.value, cutoff)
      then Some(AfterCutoff)
      else if c.version.None? || c.effectiveFrom.None? || c.effectiveFrom.value > cutoff
              || (c.effectiveTo.Some? && c.effectiveTo.value < cutoff) then Some(VersionNotVerified)
      else None
  }

  /** A document candidate that carries an audited candidate's metadata, bound to the audit's target, and
      whose exact text is at hand. */
  predicate Realises(d: Candidate, target: Target, c: SourceCandidate) {
    && d.documentId == c.documentId && d.documentType == c.documentType && d.version == c.version
       && d.publisher == c.publisher
    && d.publishedAt == c.publishedAt && d.availableAt == c.availableAt
    && d.effectiveFrom == c.effectiveFrom && d.effectiveTo == c.effectiveTo
    && d.boundEntities == [target.entityId] && d.bindingRole == target.bindingRole && d.exactText
  }

  predicate IsAudited(d: Candidate, target: Target, c: SourceCandidate, cutoff: int) {
    AuditProblem(target, Some(c), cutoff).None? && Realises(d, target, c)
  }

  /** What the audit calls eligible, the admission admits. */
  lemma {:induction false} AuditedIsAdmitted(d: Candidate, target: Target, c: SourceCandidate, cutoff: int)
    requires IsAudited(d, target, c, cutoff)
    ensures Admitted(d, cutoff, target.requiredRole) && d.documentType in TypesFor(target.requiredRole)
  {
    hide Blank;
    assert target.bindingRole in BINDING_ROLES;
  }

  /** For a document that carries a source candidate's metadata the two gates agree: the audit finds no problem
      exactly when the metadata are valid, the tier matches, the type is one of the role's and the document is
      admissible. */
  lemma {:induction false} AuditAgreesWithAdmission(d: Candidate, target: Target, c: SourceCandidate, cutoff: int)
    requires Realises(d, target, c)
    ensures AuditProblem(target, Some(c), cutoff).None?
       <==> && IsSourceCandidate(c) && TierMatches(c) && d.documentType in TypesFor(target.requiredRole)
            && IsAdmissible(d, cutoff, target.requiredRole)
  {
    hide Blank;
  }

  ghost predicate AllAudited(candidates: seq<Candidate>, target: Target, cutoff: int) {
    forall d | d in candidates :: exists c :: IsAudited(d, target, c, cutoff)
  }

  /** A nonempty family of audited candidates of one target yields a document if one of them covers the
      claims that its role requires, and otherwise only misses sections. */
  lemma {:induction false} AuditedFamilySelects(candidates: seq<Candidate>, target: Target, cutoff: int)
    requires candidates != [] && AllAudited(candidates, target, cutoff)
    ensures SelectCanonical(candidates, target.requiredRole, cutoff).status ==
              if exists d :: d in candidates && Covers(d, target.requiredRole) then Indexed else SectionMissing
  {
    var role := target.requiredRole;
    hide SelectCanonical, Covers, AuditProblem, Admitted, TypesFor;
    forall d | d in candidates
      ensures Admitted(d, cutoff, role) && d.documentType in TypesFor(role) && BindingReason(d, role).None?
              && d.boundEntities == [target.entityId]
    {
      var c :| IsAudited(d, target, c, cutoff);
      AuditedIsAdmitted(d, target, c, cutoff);
      AdmittedIsBound(d, cutoff, role);
    }
    hide BindingReason;
    IndexedExactly(candidates, role, cutoff);
    SelectionBranches(candidates, role, cutoff);
    RelevantAre(candidates, role);
    var relevant := Relevant(candidates, role);
    AdmittedAre(relevant, cutoff, role);
    var admitted := AdmittedOf(relevant, cutoff, role);
    CoveringAre(admitted, role);
    assert candidates[0] in relevant && candidates[0] in admitted;
    BoundAlikeExactly(candidates, role);
    assert BoundAlike(candidates, role);
    var covering := CoveringOf(admitted, role);
    assert forall c :: c in covering <==> c in candidates && Covers(c, role);
    assert covering != [] ==> covering[0] in covering;
  }

  lemma {:induction false} AdmittedIsBound(d: Candidate, cutoff: int, role: Role)
    requires Admitted(d, cutoff, role)
    ensures BindingReason(d, role).None?
  {}
}
