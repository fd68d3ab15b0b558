/** Spring Data's query `Criteria`, restricted to the predicates the controller builds: a
    conjunction, kept as the list of its predicates in the order they were added. */
module Criteria {
  import opened Wrappers
  import opened Entities
  import opened Text

  /** One `Criteria.where(column)…` predicate, as the controller builds it: the title filter
      is case-insensitive containment on scholarships and a raw `like` on requirements. */
  datatype Predicate =
    | TitleContainsCI(needle: string)            // scholarships: where("title").like("%needle%").ignoreCase(true)
    | TotalLe(ceiling: Int32)                    // where("total").lessThanOrEquals(ceiling)
    | LastDateLe(cutoff: Date)                   // where("last_date").lessThanOrEquals(cutoff)
    | DaysLeftLe(ceiling: Int32)                 // where("days_left").lessThanOrEquals(ceiling)
    | OrgNameContainsCI(needle: string)          // where("org_name").like("%needle%").ignoreCase(true)
    | OriginCountryContainsCI(needle: string)    // where("origin_country").like("%needle%").ignoreCase(true)
    | FoundedLe(ceiling: Int32)                  // where("founded").lessThanOrEquals(ceiling)
    | TitleLikeRaw(pattern: string)              // requirements: where("title").like(pattern)
    | IdIs(id: Uuid)                             // where("id").is(id)

  /** `Criteria.empty()` is [], `criteria.and(p)` is criteria + [p]. */
  type Criteria = seq<Predicate>

  /** A comparison with a NULL column is not true in SQL, so it never selects the row. A
      predicate on a column the table does not have selects nothing. */
  predicate HoldsOnScholarship(p: Predicate, s: Scholarship) {
    match p
    case TitleContainsCI(needle) => s.title.Some? && LikeIgnoreCase(s.title.value, needle)
    case TotalLe(ceiling) => s.total.Some? && s.total.value <= ceiling
    case LastDateLe(cutoff) => s.lastDate.Some? && s.lastDate.value <= cutoff
    case DaysLeftLe(ceiling) => s.daysLeft.Some? && s.daysLeft.value <= ceiling
    case IdIs(id) => s.id == id
    case _ => false
  }

  predicate HoldsOnOrganisation(p: Predicate, o: Organisation) {
    match p
    case OrgNameContainsCI(needle) => o.orgName.Some? && LikeIgnoreCase(o.orgName.value, needle)
    case OriginCountryContainsCI(needle) =>
      o.originCountry.Some? && LikeIgnoreCase(o.originCountry.value, needle)
    case FoundedLe(ceiling) => o.founded.Some? && o.founded.value <= ceiling
    case IdIs(id) => o.id == id
    case _ => false
  }

  predicate HoldsOnRequirement(p: Predicate, r: Requirement) {
    match p
    case TitleLikeRaw(pattern) => r.title == Some(pattern)
    case IdIs(id) => r.id == id
    case _ => false
  }

  /** Whether the predicate is about a column of the named table. */
  predicate OnScholarships(p: Predicate) {
    p.TitleContainsCI? || p.TotalLe? || p.LastDateLe? || p.DaysLeftLe? || p.IdIs?
  }

  predicate OnOrganisations(p: Predicate) {
    p.OrgNameContainsCI? || p.OriginCountryContainsCI? || p.FoundedLe? || p.IdIs?
  }

  predicate OnRequirements(p: Predicate) {
    p.TitleLikeRaw? || p.IdIs?
  }

  predicate MatchesScholarship(c: Criteria, s: Scholarship) {
    forall i :: 0 <= i < |c| ==> HoldsOnScholarship(c[i], s)
  }

  predicate MatchesOrganisation(c: Criteria, o: Organisation) {
    forall i :: 0 <= i < |c| ==> HoldsOnOrganisation(c[i], o)
  }

  predicate MatchesRequirement(c: Criteria, r: Requirement) {
    forall i :: 0 <= i < |c| ==> HoldsOnRequirement(c[i], r)
  }

  /** A conjunction of two criteria holds exactly when both do. */
  lemma MatchesScholarshipAppend(c1: Criteria, c2: Criteria, s: Scholarship)
    ensures MatchesScholarship(c1 + c2, s) <==> MatchesScholarship(c1, s) && MatchesScholarship(c2, s)
  {
    if MatchesScholarship(c1, s) && MatchesScholarship(c2, s) {
      forall i | 0 <= i < |c1 + c2| ensures HoldsOnScholarship((c1 + c2)[i], s) {
        if i >= |c1| {
          assert (c1 + c2)[i] == c2[i - |c1|];
        }
      }
    }
    if MatchesScholarship(c1 + c2, s) {
      forall i | 0 <= i < |c1| ensures HoldsOnScholarship(c1[i], s) {
        assert (c1 + c2)[i] == c1[i];
      }
      forall i | 0 <= i < |c2| ensures HoldsOnScholarship(c2[i], s) {
        assert (c1 + c2)[|c1| + i] == c2[i];
      }
    }
  }

  lemma MatchesOrganisationAppend(c1: Criteria, c2: Criteria, o: Organisation)
    ensures MatchesOrganisation(c1 + c2, o) <==> MatchesOrganisation(c1, o) && MatchesOrganisation(c2, o)
  {
    if MatchesOrganisation(c1, o) && MatchesOrganisation(c2, o) {
      forall i | 0 <= i < |c1 + c2| ensures HoldsOnOrganisation((c1 + c2)[i], o) {
        if i >= |c1| {
          assert (c1 + c2)[i] == c2[i - |c1|];
        }
      }
    }
    if MatchesOrganisation(c1 + c2, o) {
      forall i | 0 <= i < |c1| ensures HoldsOnOrganisation(c1[i], o) {
        assert (c1 + c2)[i] == c1[i];
      }
      forall i | 0 <= i < |c2| ensures HoldsOnOrganisation(c2[i], o) {
        assert (c1 + c2)[|c1| + i] == c2[i];
      }
    }
  }

  /** `Criteria.where("id").is(id)` when an id is given, `Criteria.empty()` otherwise: the
      shape shared by the three `…ById` resolvers. */
  function IdCriteria(id: Option<Uuid>): (c: Criteria)
    ensures forall s :: MatchesScholarship(c, s) <==> (id.Some? ==> s.id == id.value)
    ensures forall o :: MatchesOrganisation(c, o) <==> (id.Some? ==> o.id == id.value)
    ensures forall r :: MatchesRequirement(c, r) <==> (id.Some? ==> r.id == id.value)
  {
    if id.Some? then
      var c := [IdIs(id.value)];
      assert forall s :: MatchesScholarship(c, s) <==> HoldsOnScholarship(c[0], s);
      assert forall o :: MatchesOrganisation(c, o) <==> HoldsOnOrganisation(c[0], o);
      assert forall r :: MatchesRequirement(c, r) <==> HoldsOnRequirement(c[0], r);
      c
    else []
  }
}
