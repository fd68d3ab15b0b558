/** The resolver layer of the GraphQL controller: filter assembly, sort conversion, by-id
    lookups, batched child loading and the create mutations. The database is a value
    (`Database`); a query is `Select` over one of its tables. The current date and the
    freshly generated UUID are parameters. */
module BaseController {
  import opened Wrappers
  import opened Entities
  import opened Text
  import opened Rows
  import opened Criteria
  import opened Sorting

  // ---------------------------------------------------------------------------
  // Running a query against a table

  function ScholarshipMatcher(c: Criteria): Scholarship -> bool {
    s => MatchesScholarship(c, s)
  }

  function OrganisationMatcher(c: Criteria): Organisation -> bool {
    o => MatchesOrganisation(c, o)
  }

  function RequirementMatcher(c: Criteria): Requirement -> bool {
    r => MatchesRequirement(c, r)
  }

  /** `entityOperations.select(Scholarship.class).matching(Query.query(c))`, in table order. */
  function SelectScholarships(table: seq<Scholarship>, c: Criteria): seq<Scholarship> {
    Select(table, ScholarshipMatcher(c))
  }

  function SelectOrganisations(table: seq<Organisation>, c: Criteria): seq<Organisation> {
    Select(table, OrganisationMatcher(c))
  }

  function SelectRequirements(table: seq<Requirement>, c: Criteria): seq<Requirement> {
    Select(table, RequirementMatcher(c))
  }

  /** A query result before the database applies its sort specification. */
  datatype Listing<T> = Listing(rows: seq<T>, sort: Sort)

  // ---------------------------------------------------------------------------
  // scholarships(scholarshipInput)

  /** The rows a scholarship filter asks for, stated without criteria: every guard that
      lets a filter field take effect, and what that field then demands of the row. */
  predicate WantedScholarship(input: ScholarshipInput, today: Date, s: Scholarship) {
    && (IsNotBlank(input.title) ==>
          s.title.Some? && ContainsIgnoreCase(s.title.value, input.title.value))
    && (input.total.Some? && input.total.value >= 0 ==>
          s.total.Some? && s.total.value <= input.total.value)
    && (input.lastDate.Some? && input.lastDate.value > today ==>
          s.lastDate.Some? && s.lastDate.value <= input.lastDate.value)
    && (input.daysLeft.Some? && input.daysLeft.value >= 0 ==>
          s.daysLeft.Some? && s.daysLeft.value <= input.daysLeft.value)
  }

  /** The criteria `scholarships` assembles for a non-null input: one optional clause per
      filter field, conjoined in the order title, total, last date, days left. */
  function ScholarshipCriteria(input: ScholarshipInput, today: Date): Criteria {
    TitleClause(input) + TotalClause(input) + LastDateClause(input, today) + DaysLeftClause(input)
  }

  function TitleClause(input: ScholarshipInput): Criteria {
    if IsNotBlank(input.title) then [TitleContainsCI(Lower(input.title.value))] else []
  }

  function TotalClause(input: ScholarshipInput): Criteria {
    if input.total.Some? && input.total.value >= 0 then [TotalLe(input.total.value)] else []
  }

  function LastDateClause(input: ScholarshipInput, today: Date): Criteria {
    if input.lastDate.Some? && input.lastDate.value > today then [LastDateLe(input.lastDate.value)] else []
  }

  function DaysLeftClause(input: ScholarshipInput): Criteria {
    if input.daysLeft.Some? && input.daysLeft.value >= 0 then [DaysLeftLe(input.daysLeft.value)] else []
  }

  /** The assembled criteria select exactly the wanted rows. */
  lemma ScholarshipCriteriaMeaning(input: ScholarshipInput, today: Date, s: Scholarship)
    ensures MatchesScholarship(ScholarshipCriteria(input, today), s) <==> WantedScholarship(input, today, s)
  {
    var a, b, c, d := TitleClause(input), TotalClause(input), LastDateClause(input, today), DaysLeftClause(input);
    MatchesScholarshipAppend(a + b + c, d, s);
    MatchesScholarshipAppend(a + b, c, s);
    MatchesScholarshipAppend(a, b, s);
    if a != [] {
      assert MatchesScholarship(a, s) <==> HoldsOnScholarship(a[0], s);
      if s.title.Some? {
        LikeIgnoreCaseOfLowered(s.title.value, input.title.value);
      }
    }
    if b != [] {
      assert MatchesScholarship(b, s) <==> HoldsOnScholarship(b[0], s);
    }
    if c != [] {
      assert MatchesScholarship(c, s) <==> HoldsOnScholarship(c[0], s);
    }
    if d != [] {
      assert MatchesScholarship(d, s) <==> HoldsOnScholarship(d[0], s);
    }
  }

  /** Lines 43-58: start from `Criteria.empty()` and conjoin one predicate per filter field
      whose guard passes. */
  method BuildScholarshipCriteria(input: ScholarshipInput, today: Date) returns (criteria: Criteria)
    ensures criteria == ScholarshipCriteria(input, today)
    ensures forall p :: p in criteria ==> OnScholarships(p)
    ensures forall s :: MatchesScholarship(criteria, s) <==> WantedScholarship(input, today, s)
  {
    criteria := [];
    if IsNotBlank(input.title) {
      criteria := criteria + [TitleContainsCI(Lower(input.title.value))];
    }
    if input.total.Some? && input.total.value >= 0 {
      criteria := criteria + [TotalLe(input.total.value)];
    }
    if input.lastDate.Some? && input.lastDate.value > today {
      criteria := criteria + [LastDateLe(input.lastDate.value)];
    }
    if input.daysLeft.Some? && input.daysLeft.value >= 0 {
      criteria := criteria + [DaysLeftLe(input.daysLeft.value)];
    }
    assert criteria == ScholarshipCriteria(input, today);
    forall s ensures MatchesScholarship(criteria, s) <==> WantedScholarship(input, today, s) {
      ScholarshipCriteriaMeaning(input, today, s);
    }
  }

  /** Whether a row belongs in the answer to `scholarships(scholarshipInput)`. */
  predicate ScholarshipSelected(scholarshipInput: Option<ScholarshipInput>, today: Date, s: Scholarship) {
    scholarshipInput.Some? ==> WantedScholarship(scholarshipInput.value, today, s)
  }

  /** The `scholarships` query: with no input every row, unsorted; otherwise the sort is
      converted first (and may fail), then the rows the filter wants, in table order, with
      the sort the database is asked to apply. */
  method Scholarships(db: Database, scholarshipInput: Option<ScholarshipInput>, today: Date)
    returns (r: Result<Listing<Scholarship>, SortError>)
    ensures scholarshipInput.None? ==> r == Ok(Listing(db.scholarships, Unsorted))
    ensures scholarshipInput.Some? ==>
      && (r.Ok? <==> CreateSortFromSortInput(scholarshipInput.value.sorts).Ok?)
      && (r.Ok? ==> r.value.sort == CreateSortFromSortInput(scholarshipInput.value.sorts).value)
      && (r.Ok? ==> r.value.rows == SelectScholarships(db.scholarships, ScholarshipCriteria(scholarshipInput.value, today)))
    ensures r.Ok? ==> forall s ::
      multiset(r.value.rows)[s] == (if ScholarshipSelected(scholarshipInput, today, s) then multiset(db.scholarships)[s] else 0)
  {
    var criteria: Criteria := [];
    var sort := Unsorted;
    if scholarshipInput.Some? {
      var converted := CreateSortFromSortInput(scholarshipInput.value.sorts);
      if converted.Err? {
        return Err(converted.error);
      }
      sort := converted.value;
      criteria := BuildScholarshipCriteria(scholarshipInput.value, today);
    } else {
      SelectAll(db.scholarships, ScholarshipMatcher(criteria));
    }
    r := Ok(Listing(SelectScholarships(db.scholarships, criteria), sort));
  }

  /** A blank or missing title adds no predicate: the result is as if no title were given. */
  lemma BlankTitleIgnored(table: seq<Scholarship>, input: ScholarshipInput, today: Date)
    requires !IsNotBlank(input.title)
    ensures SelectScholarships(table, ScholarshipCriteria(input, today))
         == SelectScholarships(table, ScholarshipCriteria(input.(title := None), today))
  {
  }

  /** A negative total ceiling is ignored: the result is as if no ceiling were given. */
  lemma NegativeTotalIgnored(table: seq<Scholarship>, input: ScholarshipInput, today: Date)
    requires input.total.Some? && input.total.value < 0
    ensures SelectScholarships(table, ScholarshipCriteria(input, today))
         == SelectScholarships(table, ScholarshipCriteria(input.(total := None), today))
  {
  }

  /** A negative days-left ceiling is ignored likewise. */
  lemma NegativeDaysLeftIgnored(table: seq<Scholarship>, input: ScholarshipInput, today: Date)
    requires input.daysLeft.Some? && input.daysLeft.value < 0
    ensures SelectScholarships(table, ScholarshipCriteria(input, today))
         == SelectScholarships(table, ScholarshipCriteria(input.(daysLeft := None), today))
  {
  }

  /** A last-date cutoff of today or earlier is ignored (yesterday's cutoff gives the same
      rows as none). */
  lemma PastCutoffIgnored(table: seq<Scholarship>, input: ScholarshipInput, today: Date)
    requires input.lastDate.Some? && input.lastDate.value <= today
    ensures SelectScholarships(table, ScholarshipCriteria(input, today))
         == SelectScholarships(table, ScholarshipCriteria(input.(lastDate := None), today))
  {
  }

  /** A cutoff after today keeps only rows whose last date is known and not later than it,
      and removes nothing else: a row wanted without the cutoff and within it is kept. */
  lemma FutureCutoffApplies(table: seq<Scholarship>, input: ScholarshipInput, today: Date, s: Scholarship)
    requires input.lastDate.Some? && input.lastDate.value > today
    ensures s in SelectScholarships(table, ScholarshipCriteria(input, today)) <==>
      && s in SelectScholarships(table, ScholarshipCriteria(input.(lastDate := None), today))
      && s.lastDate.Some? && s.lastDate.value <= input.lastDate.value
  {
    ScholarshipCriteriaMeaning(input, today, s);
    ScholarshipCriteriaMeaning(input.(lastDate := None), today, s);
  }

  // ---------------------------------------------------------------------------
  // organisations(organisationInput)

  /** The organisations a filter asks for: name and origin country are case-insensitive
      substring tests applied when not blank; founded is a ceiling applied whenever given,
      whatever its sign. */
  predicate WantedOrganisation(input: OrganisationInput, o: Organisation) {
    && (IsNotBlank(input.orgName) ==>
          o.orgName.Some? && ContainsIgnoreCase(o.orgName.value, input.orgName.value))
    && (IsNotBlank(input.originCountry) ==>
          o.originCountry.Some? && ContainsIgnoreCase(o.originCountry.value, input.originCountry.value))
    && (input.founded.Some? ==> o.founded.Some? && o.founded.value <= input.founded.value)
  }

  function OrganisationCriteria(input: OrganisationInput): Criteria {
    OrgNameClause(input) + OriginCountryClause(input) + FoundedClause(input)
  }

  function OrgNameClause(input: OrganisationInput): Criteria {
    if IsNotBlank(input.orgName) then [OrgNameContainsCI(Lower(input.orgName.value))] else []
  }

  function OriginCountryClause(input: OrganisationInput): Criteria {
    if IsNotBlank(input.originCountry) then [OriginCountryContainsCI(Lower(input.originCountry.value))] else []
  }

  function FoundedClause(input: OrganisationInput): Criteria {
    if input.founded.Some? then [FoundedLe(input.founded.value)] else []
  }

  lemma OrganisationCriteriaMeaning(input: OrganisationInput, o: Organisation)
    ensures MatchesOrganisation(OrganisationCriteria(input), o) <==> WantedOrganisation(input, o)
  {
    var a, b, c := OrgNameClause(input), OriginCountryClause(input), FoundedClause(input);
    MatchesOrganisationAppend(a + b, c, o);
    MatchesOrganisationAppend(a, b, o);
    if a != [] {
      assert MatchesOrganisation(a, o) <==> HoldsOnOrganisation(a[0], o);
      if o.orgName.Some? {
        LikeIgnoreCaseOfLowered(o.orgName.value, input.orgName.value);
      }
    }
    if b != [] {
      assert MatchesOrganisation(b, o) <==> HoldsOnOrganisation(b[0], o);
      if o.originCountry.Some? {
        LikeIgnoreCaseOfLowered(o.originCountry.value, input.originCountry.value);
      }
    }
    if c != [] {
      assert MatchesOrganisation(c, o) <==> HoldsOnOrganisation(c[0], o);
    }
  }

  /** Lines 161-170: guarded conjunction, as for scholarships. */
  method BuildOrganisationCriteria(input: OrganisationInput) returns (criteria: Criteria)
    ensures criteria == OrganisationCriteria(input)
    ensures forall p :: p in criteria ==> OnOrganisations(p)
    ensures forall o :: MatchesOrganisation(criteria, o) <==> WantedOrganisation(input, o)
  {
    criteria := [];
    if IsNotBlank(input.orgName) {
      criteria := criteria + [OrgNameContainsCI(Lower(input.orgName.value))];
    }
    if IsNotBlank(input.originCountry) {
      criteria := criteria + [OriginCountryContainsCI(Lower(input.originCountry.value))];
    }
    if input.founded.Some? {
      criteria := criteria + [FoundedLe(input.founded.value)];
    }
    assert criteria == OrganisationCriteria(input);
    forall o ensures MatchesOrganisation(criteria, o) <==> WantedOrganisation(input, o) {
      OrganisationCriteriaMeaning(input, o);
    }
  }

  predicate OrganisationSelected(organisationInput: Option<OrganisationInput>, o: Organisation) {
    organisationInput.Some? ==> WantedOrganisation(organisationInput.value, o)
  }

  /** The `organisations` query (never sorted). */
  method Organisations(db: Database, organisationInput: Option<OrganisationInput>)
    returns (rows: seq<Organisation>)
    ensures organisationInput.None? ==> rows == db.organisations
    ensures organisationInput.Some? ==>
      rows == SelectOrganisations(db.organisations, OrganisationCriteria(organisationInput.value))
    ensures forall o ::
      multiset(rows)[o] == (if OrganisationSelected(organisationInput, o) then multiset(db.organisations)[o] else 0)
  {
    var criteria: Criteria := [];
    if organisationInput.Some? {
      criteria := BuildOrganisationCriteria(organisationInput.value);
    } else {
      SelectAll(db.organisations, OrganisationMatcher(criteria));
    }
    rows := SelectOrganisations(db.organisations, criteria);
  }

  /** Unlike total and days left, founded has no sign guard: a negative year still filters,
      keeping only organisations founded in or before it. */
  lemma FoundedHasNoSignGuard(table: seq<Organisation>, input: OrganisationInput, o: Organisation)
    requires input.founded.Some? && input.founded.value < 0
    ensures OrganisationCriteria(input) != OrganisationCriteria(input.(founded := None))
    ensures o in SelectOrganisations(table, OrganisationCriteria(input)) ==>
      o.founded.Some? && o.founded.value <= input.founded.value
  {
    OrganisationCriteriaMeaning(input, o);
    var c := OrganisationCriteria(input);
    assert c[|c| - 1] == FoundedLe(input.founded.value);
  }

  /** Blank name and country filters add no predicate. */
  lemma BlankOrganisationTextIgnored(table: seq<Organisation>, input: OrganisationInput)
    requires !IsNotBlank(input.orgName) && !IsNotBlank(input.originCountry)
    ensures SelectOrganisations(table, OrganisationCriteria(input))
         == SelectOrganisations(table, OrganisationCriteria(input.(orgName := None, originCountry := None)))
  {
  }

  /** `orgName = "uni"` matches an organisation named "University of X". */
  lemma UniMatchesUniversity(o: Organisation)
    requires o.orgName == Some("University of X")
    ensures WantedOrganisation(OrganisationInput(Some("uni"), None, None), o)
  {
    assert !IsWhitespace('u');
    assert OccursAt(Lower("University of X"), Lower("uni"), 0);
  }

  // ---------------------------------------------------------------------------
  // requirements(requirementInput)

  /** Lines 151-153: a raw `like` on the title with no `%` added and no case folding; for
      an input without SQL wildcards that is an exact match. */
  function RequirementCriteria(requirementInput: Option<RequirementInput>): (c: Criteria)
    ensures forall p :: p in c ==> OnRequirements(p)
  {
    if requirementInput.Some? && IsNotBlank(requirementInput.value.title)
    then [TitleLikeRaw(requirementInput.value.title.value)]
    else []
  }

  predicate RequirementSelected(requirementInput: Option<RequirementInput>, r: Requirement) {
    requirementInput.Some? && IsNotBlank(requirementInput.value.title) ==>
      r.title == requirementInput.value.title
  }

  /** The `requirements` query. */
  function Requirements(db: Database, requirementInput: Option<RequirementInput>): (rows: seq<Requirement>)
    ensures forall r ::
      multiset(rows)[r] == (if RequirementSelected(requirementInput, r) then multiset(db.requirements)[r] else 0)
    ensures !(requirementInput.Some? && IsNotBlank(requirementInput.value.title)) ==> rows == db.requirements
  {
    var c := RequirementCriteria(requirementInput);
    assert forall r :: MatchesRequirement(c, r) <==> RequirementSelected(requirementInput, r) by {
      forall r ensures MatchesRequirement(c, r) <==> RequirementSelected(requirementInput, r) {
        if c != [] {
          assert MatchesRequirement(c, r) <==> HoldsOnRequirement(c[0], r);
        }
      }
    }
    if c == [] then
      SelectAll(db.requirements, RequirementMatcher(c));
      SelectRequirements(db.requirements, c)
    else
      SelectRequirements(db.requirements, c)
  }

  /** The requirements title filter is case-sensitive: "gpa" does not find a requirement
      titled "GPA". */
  lemma RequirementTitleIsCaseSensitive(r: Requirement)
    requires r.title == Some("GPA")
    ensures r !in Requirements(Database([], [], [r]), Some(RequirementInput(Some("gpa"), None)))
  {
    assert !IsWhitespace('g');
    assert "GPA"[0] != "gpa"[0];
  }

  // ---------------------------------------------------------------------------
  // scholarshipById, organisationById, requirementById

  /** Lines 84-87: the first row with the given id; with no id, the first row of the table. */
  function ScholarshipById(db: Database, id: Option<Uuid>): (r: Option<Scholarship>)
    ensures r.Some? ==> r.value in db.scholarships
    ensures id.Some? ==> (r.Some? <==> exists s :: s in db.scholarships && s.id == id.value)
    ensures id.Some? && r.Some? ==> r.value.id == id.value
    ensures id.None? ==> (r.Some? <==> db.scholarships != [])
  {
    First(SelectScholarships(db.scholarships, IdCriteria(id)))
  }

  function OrganisationById(db: Database, id: Option<Uuid>): (r: Option<Organisation>)
    ensures r.Some? ==> r.value in db.organisations
    ensures id.Some? ==> (r.Some? <==> exists o :: o in db.organisations && o.id == id.value)
    ensures id.Some? && r.Some? ==> r.value.id == id.value
    ensures id.None? ==> (r.Some? <==> db.organisations != [])
  {
    First(SelectOrganisations(db.organisations, IdCriteria(id)))
  }

  function RequirementById(db: Database, id: Option<Uuid>): (r: Option<Requirement>)
    ensures r.Some? ==> r.value in db.requirements
    ensures id.Some? ==> (r.Some? <==> exists q :: q in db.requirements && q.id == id.value)
    ensures id.Some? && r.Some? ==> r.value.id == id.value
    ensures id.None? ==> (r.Some? <==> db.requirements != [])
  {
    First(SelectRequirements(db.requirements, IdCriteria(id)))
  }

  // ---------------------------------------------------------------------------
  // Batched relationship loading: requirementsLoader, scholarshipsBatch

  /** A child belongs to the parent with id `key` when its foreign key is that id. */
  function KeyIs<C>(parentOf: C -> Option<Uuid>, key: Uuid): C -> bool {
    c => parentOf(c) == Some(key)
  }

  /** `Criteria.where(foreignKey).in(keys)`: a NULL foreign key is in no list. */
  function KeyIn<C>(parentOf: C -> Option<Uuid>, keys: seq<Uuid>): C -> bool {
    c => parentOf(c).Some? && parentOf(c).value in keys
  }

  /** The children of the parent with id `key`, in the order of `children`. */
  function ChildrenOf<C(!new)>(children: seq<C>, parentOf: C -> Option<Uuid>, key: Uuid): seq<C> {
    Select(children, KeyIs(parentOf, key))
  }

  /** The `stream().map(…::getId)` step: the ids of the parents, in order. */
  function Ids<P>(parents: seq<P>, idOf: P -> Uuid): seq<Uuid> {
    seq(|parents|, i requires 0 <= i < |parents| => idOf(parents[i]))
  }

  /** Partition one fetched list of children onto every parent: the `forEach`/`put` loop
      over a fresh HashMap. A parent value listed twice is one key. */
  method GroupByParent<P(==), C(!new)>(
    parents: seq<P>, fetched: seq<C>, idOf: P -> Uuid, parentOf: C -> Option<Uuid>)
    returns (res: map<P, seq<C>>)
    // the `getXxxId().equals(…)` call on a child with a NULL foreign key would throw
    requires forall c :: c in fetched ==> parentOf(c).Some?
    ensures res.Keys == set p | p in parents
    ensures forall p :: p in res ==> res[p] == ChildrenOf(fetched, parentOf, idOf(p))
  {
    res := map[];
    for i := 0 to |parents|
      invariant res.Keys == set p | p in parents[..i]
      invariant forall p :: p in res ==> res[p] == ChildrenOf(fetched, parentOf, idOf(p))
    {
      res := res[parents[i] := ChildrenOf(fetched, parentOf, idOf(parents[i]))];
    }
  }

  /** The N+1 avoidance is sound: the children of one parent found in the batched fetch are
      exactly those a query for that parent alone would return, in the same order. */
  lemma BatchedEqualsPerParent<C(!new)>(rows: seq<C>, parentOf: C -> Option<Uuid>, keys: seq<Uuid>, key: Uuid)
    requires key in keys
    ensures ChildrenOf(Select(rows, KeyIn(parentOf, keys)), parentOf, key) == ChildrenOf(rows, parentOf, key)
  {
    SelectNarrow(rows, KeyIn(parentOf, keys), KeyIs(parentOf, key));
  }

  /** How many of the parents have id `key`. */
  function Hits<P>(parents: seq<P>, idOf: P -> Uuid, key: Uuid): nat {
    if parents == [] then 0
    else (if idOf(parents[0]) == key then 1 else 0) + Hits(parents[1..], idOf, key)
  }

  /** The total length of all the parents' child lists. */
  function Assigned<P, C(!new)>(parents: seq<P>, children: seq<C>, idOf: P -> Uuid, parentOf: C -> Option<Uuid>): nat {
    if parents == [] then 0
    else |ChildrenOf(children, parentOf, idOf(parents[0]))| + Assigned(parents[1..], children, idOf, parentOf)
  }

  predicate DistinctIds<P>(parents: seq<P>, idOf: P -> Uuid) {
    forall i, j :: 0 <= i < j < |parents| ==> idOf(parents[i]) != idOf(parents[j])
  }

  lemma {:induction false} HitsOfDistinct<P>(parents: seq<P>, idOf: P -> Uuid, key: Uuid)
    requires DistinctIds(parents, idOf)
    ensures Hits(parents, idOf, key) == if key in Ids(parents, idOf) then 1 else 0
  {
    if parents != [] {
      HitsOfDistinct(parents[1..], idOf, key);
      assert Ids(parents, idOf) == [idOf(parents[0])] + Ids(parents[1..], idOf);
      if idOf(parents[0]) == key {
        forall j | 0 <= j < |parents[1..]| ensures idOf(parents[1..][j]) != key {
          assert parents[1..][j] == parents[j + 1];
        }
      }
    }
  }

  lemma {:induction false} AssignedCons<P, C(!new)>(
    parents: seq<P>, c: C, rest: seq<C>, idOf: P -> Uuid, parentOf: C -> Option<Uuid>)
    requires parentOf(c).Some?
    ensures Assigned(parents, [c] + rest, idOf, parentOf)
         == Assigned(parents, rest, idOf, parentOf) + Hits(parents, idOf, parentOf(c).value)
  {
    assert ([c] + rest)[1..] == rest;
    if parents != [] {
      AssignedCons(parents[1..], c, rest, idOf, parentOf);
    }
  }

  /** The grouping is a partition: when the parents have distinct ids and every fetched
      child's foreign key is one of them (as the `in` query guarantees), each fetched child
      is listed under exactly one parent, so the lists together hold every fetched child
      once. */
  lemma {:induction false} GroupingIsPartition<P, C(!new)>(
    parents: seq<P>, fetched: seq<C>, idOf: P -> Uuid, parentOf: C -> Option<Uuid>)
    requires DistinctIds(parents, idOf)
    requires forall c :: c in fetched ==> KeyIn(parentOf, Ids(parents, idOf))(c)
    ensures Assigned(parents, fetched, idOf, parentOf) == |fetched|
  {
    if fetched == [] {
      ZeroAssigned(parents, fetched, idOf, parentOf);
    } else {
      var c, rest := fetched[0], fetched[1..];
      assert fetched == [c] + rest;
      assert KeyIn(parentOf, Ids(parents, idOf))(c);
      GroupingIsPartition(parents, rest, idOf, parentOf);
      AssignedCons(parents, c, rest, idOf, parentOf);
      HitsOfDistinct(parents, idOf, parentOf(c).value);
    }
  }

  lemma {:induction false} ZeroAssigned<P, C(!new)>(
    parents: seq<P>, fetched: seq<C>, idOf: P -> Uuid, parentOf: C -> Option<Uuid>)
    requires fetched == []
    ensures Assigned(parents, fetched, idOf, parentOf) == 0
  {
    if parents != [] {
      ZeroAssigned(parents[1..], fetched, idOf, parentOf);
    }
  }

  function ScholarshipId(s: Scholarship): Uuid { s.id }

  function OrganisationId(o: Organisation): Uuid { o.id }

  function RequirementId(r: Requirement): Uuid { r.id }

  function RequirementParent(r: Requirement): Option<Uuid> { r.scholarshipsId }

  function ScholarshipParent(s: Scholarship): Option<Uuid> { s.organisationsId }

  /** `Scholarship.requirements`, batched: one query for the requirements of all the given
      scholarships, partitioned back onto each of them. */
  method RequirementsLoader(db: Database, scholarships: seq<Scholarship>)
    returns (res: map<Scholarship, seq<Requirement>>)
    ensures res.Keys == set s | s in scholarships
    ensures forall s :: s in res ==> res[s] == ChildrenOf(db.requirements, RequirementParent, s.id)
    ensures forall s, r :: s in res && r in res[s] ==> r in db.requirements && r.scholarshipsId == Some(s.id)
    ensures forall s, r :: s in res && r in db.requirements && r.scholarshipsId == Some(s.id) ==> r in res[s]
    ensures forall s, r :: s in res ==>
      multiset(res[s])[r] == (if r.scholarshipsId == Some(s.id) then multiset(db.requirements)[r] else 0)
  {
    var ids := Ids(scholarships, ScholarshipId);
    var fetched := Select(db.requirements, KeyIn(RequirementParent, ids));
    res := GroupByParent(scholarships, fetched, ScholarshipId, RequirementParent);
    forall s | s in res
      ensures res[s] == ChildrenOf(db.requirements, RequirementParent, s.id)
    {
      var i :| 0 <= i < |scholarships| && scholarships[i] == s;
      assert ids[i] == s.id;
      BatchedEqualsPerParent(db.requirements, RequirementParent, ids, s.id);
    }
  }

  /** `Organisation.scholarships`, batched in the same way. */
  method ScholarshipsBatch(db: Database, organisations: seq<Organisation>)
    returns (res: map<Organisation, seq<Scholarship>>)
    ensures res.Keys == set o | o in organisations
    ensures forall o :: o in res ==> res[o] == ChildrenOf(db.scholarships, ScholarshipParent, o.id)
    ensures forall o, s :: o in res && s in res[o] ==> s in db.scholarships && s.organisationsId == Some(o.id)
    ensures forall o, s :: o in res && s in db.scholarships && s.organisationsId == Some(o.id) ==> s in res[o]
    ensures forall o, s :: o in res ==>
      multiset(res[o])[s] == (if s.organisationsId == Some(o.id) then multiset(db.scholarships)[s] else 0)
  {
    var ids := Ids(organisations, OrganisationId);
    var fetched := Select(db.scholarships, KeyIn(ScholarshipParent, ids));
    res := GroupByParent(organisations, fetched, OrganisationId, ScholarshipParent);
    forall o | o in res
      ensures res[o] == ChildrenOf(db.scholarships, ScholarshipParent, o.id)
    {
      var i :| 0 <= i < |organisations| && organisations[i] == o;
      assert ids[i] == o.id;
      BatchedEqualsPerParent(db.scholarships, ScholarshipParent, ids, o.id);
    }
  }

  /** Scholarships S1 and S2 with requirements R1 and R2 of S1 and R3 of S2: S1 gets
      [R1, R2] and S2 gets [R3]; with no requirements both get []. */
  lemma BatchExample(s1: Scholarship, s2: Scholarship, r1: Requirement, r2: Requirement, r3: Requirement)
    requires s1.id != s2.id
    requires r1.scholarshipsId == Some(s1.id) && r2.scholarshipsId == Some(s1.id)
    requires r3.scholarshipsId == Some(s2.id)
    ensures ChildrenOf([r1, r2, r3], RequirementParent, s1.id) == [r1, r2]
    ensures ChildrenOf([r1, r2, r3], RequirementParent, s2.id) == [r3]
    ensures ChildrenOf([], RequirementParent, s1.id) == []
  {
    var one, two := KeyIs(RequirementParent, s1.id), KeyIs(RequirementParent, s2.id);
    assert RequirementParent(r1) == RequirementParent(r2) == Some(s1.id);
    assert RequirementParent(r3) == Some(s2.id);
    assert one(r1) && one(r2) && !one(r3);
    assert !two(r1) && !two(r2) && two(r3);
    assert [r1, r2, r3][1..] == [r2, r3];
    assert [r2, r3][1..] == [r3];
    assert [r3][1..] == [];
    assert Select([r3], one) == [];
    assert Select([r2, r3], one) == [r2];
    assert Select([r3], two) == [r3];
    assert Select([r2, r3], two) == [r3];
  }

  // ---------------------------------------------------------------------------
  // createScholarship, createOrganisation, createRequirement

  /** What the database's insert can report; the generated UUID never collides in
      practice, so this is the model's only failure of a create mutation. */
  datatype InsertError = DuplicateKey

  /** The database after an insert, and the inserted row. */
  datatype Inserted<T> = Inserted(db: Database, row: T)

  /** `entityOperations.insert(row)` on one table: the primary key must be new. */
  function Insert<T>(table: seq<T>, row: T, idOf: T -> Uuid): (r: Result<seq<T>, InsertError>)
    ensures r.Err? <==> exists i :: 0 <= i < |table| && idOf(table[i]) == idOf(row)
    ensures r.Ok? ==> |r.value| == |table| + 1 && r.value[..|table|] == table && r.value[|table|] == row
  {
    if exists i :: 0 <= i < |table| && idOf(table[i]) == idOf(row) then Err(DuplicateKey)
    else Ok(table + [row])
  }

  /** Lines 113-122: the builder, with the current date as `lastDate`. */
  function NewScholarship(input: CreateScholarshipInput, id: Uuid, today: Date): Scholarship {
    Scholarship(id, input.title, input.description, input.purpose, Some(today),
                input.daysLeft, input.total, input.organisationsId)
  }

  function NewOrganisation(input: CreateOrganisationInput, id: Uuid): Organisation {
    Organisation(id, input.orgName, input.description, input.founded, input.originCountry)
  }

  function NewRequirement(input: CreateRequirementInput, id: Uuid): Requirement {
    Requirement(id, input.title, input.description, input.scholarshipsId)
  }

  /** `createScholarship`: the new row carries the fresh id, today's date as last date
      whatever the input says, and the input's other fields unchanged; it is appended to
      the table and nothing else in the database changes. */
  function CreateScholarship(db: Database, input: CreateScholarshipInput, freshId: Uuid, today: Date)
    : (r: Result<Inserted<Scholarship>, InsertError>)
    ensures r.Err? <==> exists s :: s in db.scholarships && s.id == freshId
    ensures r.Ok? ==>
      && r.value.row.id == freshId
      && r.value.row.lastDate == Some(today)
      && r.value.row.title == input.title
      && r.value.row.description == input.description
      && r.value.row.purpose == input.purpose
      && r.value.row.daysLeft == input.daysLeft
      && r.value.row.total == input.total
      && r.value.row.organisationsId == input.organisationsId
    ensures r.Ok? ==> r.value.db == db.(scholarships := db.scholarships + [r.value.row])
  {
    var row := NewScholarship(input, freshId, today);
    match Insert(db.scholarships, row, ScholarshipId)
    case Err(e) => Err(e)
    case Ok(table) => Ok(Inserted(db.(scholarships := table), row))
  }

  function CreateOrganisation(db: Database, input: CreateOrganisationInput, freshId: Uuid)
    : (r: Result<Inserted<Organisation>, InsertError>)
    ensures r.Err? <==> exists o :: o in db.organisations && o.id == freshId
    ensures r.Ok? ==>
      && r.value.row.id == freshId
      && r.value.row.orgName == input.orgName
      && r.value.row.description == input.description
      && r.value.row.founded == input.founded
      && r.value.row.originCountry == input.originCountry
    ensures r.Ok? ==> r.value.db == db.(organisations := db.organisations + [r.value.row])
  {
    var row := NewOrganisation(input, freshId);
    match Insert(db.organisations, row, OrganisationId)
    case Err(e) => Err(e)
    case Ok(table) => Ok(Inserted(db.(organisations := table), row))
  }

  function CreateRequirement(db: Database, input: CreateRequirementInput, freshId: Uuid)
    : (r: Result<Inserted<Requirement>, InsertError>)
    ensures r.Err? <==> exists q :: q in db.requirements && q.id == freshId
    ensures r.Ok? ==>
      && r.value.row.id == freshId
      && r.value.row.title == input.title
      && r.value.row.description == input.description
      && r.value.row.scholarshipsId == input.scholarshipsId
    ensures r.Ok? ==> r.value.db == db.(requirements := db.requirements + [r.value.row])
  {
    var row := NewRequirement(input, freshId);
    match Insert(db.requirements, row, RequirementId)
    case Err(e) => Err(e)
    case Ok(table) => Ok(Inserted(db.(requirements := table), row))
  }

  /** The input's `lastDate` has no effect on what createScholarship stores. */
  lemma CreateScholarshipIgnoresLastDate(db: Database, a: CreateScholarshipInput, b: CreateScholarshipInput, freshId: Uuid, today: Date)
    requires a.(lastDate := None) == b.(lastDate := None)
    ensures CreateScholarship(db, a, freshId, today) == CreateScholarship(db, b, freshId, today)
  {
  }

  /** Round trip: after creating a scholarship under a fresh id, looking that id up finds
      the created row. */
  lemma {:induction false} CreatedScholarshipIsFound(db: Database, input: CreateScholarshipInput, freshId: Uuid, today: Date)
    requires forall s :: s in db.scholarships ==> s.id != freshId
    ensures CreateScholarship(db, input, freshId, today).Ok?
    ensures var r := CreateScholarship(db, input, freshId, today).value;
      ScholarshipById(r.db, Some(freshId)) == Some(r.row)
  {
    var row := NewScholarship(input, freshId, today);
    var m := ScholarshipMatcher(IdCriteria(Some(freshId)));
    assert CreateScholarship(db, input, freshId, today) == Ok(Inserted(db.(scholarships := db.scholarships + [row]), row));
    forall s | s in db.scholarships ensures !m(s) {
    }
    NoneSelected(db.scholarships, m);
    assert m(row);
    assert Select([row], m) == [row];
    SelectAppend(db.scholarships, [row], m);
  }

  lemma {:induction false} CreatedOrganisationIsFound(db: Database, input: CreateOrganisationInput, freshId: Uuid)
    requires forall o :: o in db.organisations ==> o.id != freshId
    ensures CreateOrganisation(db, input, freshId).Ok?
    ensures var r := CreateOrganisation(db, input, freshId).value;
      OrganisationById(r.db, Some(freshId)) == Some(r.row)
  {
    var row := NewOrganisation(input, freshId);
    var m := OrganisationMatcher(IdCriteria(Some(freshId)));
    assert CreateOrganisation(db, input, freshId) == Ok(Inserted(db.(organisations := db.organisations + [row]), row));
    forall o | o in db.organisations ensures !m(o) {
    }
    NoneSelected(db.organisations, m);
    assert m(row);
    assert Select([row], m) == [row];
    SelectAppend(db.organisations, [row], m);
  }

  lemma {:induction false} CreatedRequirementIsFound(db: Database, input: CreateRequirementInput, freshId: Uuid)
    requires forall q :: q in db.requirements ==> q.id != freshId
    ensures CreateRequirement(db, input, freshId).Ok?
    ensures var r := CreateRequirement(db, input, freshId).value;
      RequirementById(r.db, Some(freshId)) == Some(r.row)
  {
    var row := NewRequirement(input, freshId);
    var m := RequirementMatcher(IdCriteria(Some(freshId)));
    assert CreateRequirement(db, input, freshId) == Ok(Inserted(db.(requirements := db.requirements + [row]), row));
    forall q | q in db.requirements ensures !m(q) {
    }
    NoneSelected(db.requirements, m);
    assert m(row);
    assert Select([row], m) == [row];
    SelectAppend(db.requirements, [row], m);
  }
}
