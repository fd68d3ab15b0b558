/** Rows of the three tables and the GraphQL input shapes the controller reads.
    Every Java reference-typed field may be null and is an Option here; the primary
    key of a stored row is always present, so `id` is not optional. */
module Entities {
  import opened Wrappers

  /** A java.util.UUID, as its 128-bit value. */
  newtype Uuid = x: int | 0 <= x < 0x1_0000_0000_0000_0000_0000_0000_0000_0000

  /** A java.lang.Integer value. */
  newtype Int32 = x: int | -0x8000_0000 <= x < 0x8000_0000

  /** A java.time.LocalDate, as a day number: a later day is a larger number. */
  type Date = int

  /** A row of table `organisations`. */
  datatype Organisation = Organisation(
    id: Uuid,
    orgName: Option<string>,        // column org_name
    description: Option<string>,
    founded: Option<Int32>,
    originCountry: Option<string>)  // column origin_country

  /** A row of table `scholarships`. */
  datatype Scholarship = Scholarship(
    id: Uuid,
    title: Option<string>,
    description: Option<string>,
    purpose: Option<string>,
    lastDate: Option<Date>,           // column last_date
    daysLeft: Option<Int32>,          // column days_left
    total: Option<Int32>,
    organisationsId: Option<Uuid>)    // column organisations_id, the owning organisation

  /** A row of table `requirements`. */
  datatype Requirement = Requirement(
    id: Uuid,
    title: Option<string>,
    description: Option<string>,
    scholarshipsId: Option<Uuid>)     // column scholarships_id, the owning scholarship

  /** The GraphQL sort direction enum. */
  datatype SortDirection = Ascending | Descending

  datatype SortInput = SortInput(field: Option<string>, direction: Option<SortDirection>)

  /** Filter of the `scholarships` query; description and purpose are never read. */
  datatype ScholarshipInput = ScholarshipInput(
    title: Option<string>,
    description: Option<string>,
    purpose: Option<string>,
    lastDate: Option<Date>,
    daysLeft: Option<Int32>,
    total: Option<Int32>,
    sorts: Option<seq<SortInput>>)

  /** Filter of the `organisations` query. */
  datatype OrganisationInput = OrganisationInput(
    orgName: Option<string>,
    originCountry: Option<string>,
    founded: Option<Int32>)

  /** Filter of the `requirements` query; description is never read. */
  datatype RequirementInput = RequirementInput(title: Option<string>, description: Option<string>)

  datatype CreateScholarshipInput = CreateScholarshipInput(
    title: Option<string>,
    description: Option<string>,
    purpose: Option<string>,
    lastDate: Option<Date>,
    daysLeft: Option<Int32>,
    total: Option<Int32>,
    organisationsId: Option<Uuid>)

  datatype CreateOrganisationInput = CreateOrganisationInput(
    orgName: Option<string>,
    description: Option<string>,
    originCountry: Option<string>,
    founded: Option<Int32>)

  datatype CreateRequirementInput = CreateRequirementInput(
    title: Option<string>,
    description: Option<string>,
    scholarshipsId: Option<Uuid>)

  /** The three tables, each in the order the database returns an unsorted scan. */
  datatype Database = Database(
    organisations: seq<Organisation>,
    scholarships: seq<Scholarship>,
    requirements: seq<Requirement>)
}
