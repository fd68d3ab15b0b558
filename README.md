# groundhog resolver layer, modelled in Dafny

This project models the query-building and batch-loading core of the groundhog GraphQL API.
The API serves three tables: `organisations`, `scholarships` and `requirements`. A scholarship
belongs to an organisation through `organisations_id`. A requirement belongs to a scholarship
through `scholarships_id`.

The controller `BaseController` does four things, and each is modelled here:

- **Filter assembly.** `scholarships` and `organisations` start from `Criteria.empty()`. They
  then add one predicate for each filter field whose guard passes. A blank text is ignored, a
  negative total or days-left ceiling is ignored, and a last-date cutoff that is not strictly
  after today is ignored. `requirements` uses a raw title `like`. The `…ById` resolvers filter
  on the id only when one is given.
- **Sort conversion.** `createSortFromSortInput` turns `(field, direction)` inputs into sort
  orders, one per input and in input order. An order is DESC only for `DESCENDING`. A null or
  empty list means unsorted.
- **Batched loading.** `requirementsLoader` and `scholarshipsBatch` run one `in` query for the
  children of all the given parents. They then partition that list onto every parent by
  foreign key.
- **Create mutations.** Each `create…` builds a row from its input and a freshly generated
  UUID, then inserts it. `createScholarship` sets the last date to today.

The model's files:

- `entities.dfy`: rows and inputs as datatypes. A nullable Java field is an `Option`. The
  primary key `id` of a stored row is always present.
- `text.dfy`: the blank test (Apache Commons `isNotBlank`, which uses
  `Character.isWhitespace`), case folding and substring containment.
- `rows.dfy`: a query is `Select`, which keeps the rows that satisfy a condition, in table
  order. `.first()` is `First`.
- `criteria.dfy`: `Criteria` is a list of predicate constructors. It has an evaluation
  function for each table that follows SQL NULL semantics: a comparison with a NULL column
  never selects the row.
- `sorting.dfy`: `Sort`, `Order` and the sort conversion.
- `controller.dfy`: the resolvers and the lemmas about them.

The database is a value (`Database`). A query filters one of its tables. The current date
(`LocalDate.now()`) and the generated UUID (`UUID.randomUUID()`) are parameters.

Unlike the other text filters, the requirements title filter (`BaseController.java:152-153`)
is a raw `like` with no `%` added and no case folding. The model treats it as exact,
case-sensitive equality (`Requirements`, `RequirementTitleIsCaseSensitive`).

Some behaviour comes from Spring and is modelled as well:

- `ignoreCase(true)` is rendered as `UPPER(column) LIKE UPPER(pattern)`. The controller has
  already lower-cased the input. `Text.LikeIgnoreCaseOfLowered` proves that this combination
  is exactly a case-insensitive substring search for the input.
- `new Sort.Order(direction, field)` throws `IllegalArgumentException` when the field is null
  or has no text. The model returns `Err(PropertyMustNotBeEmpty)` in that case, and
  `scholarships` then fails as a whole.
- An insert whose primary key is already present fails (`Err(DuplicateKey)`). The round-trip
  lemmas therefore assume a fresh id instead of requiring one of every caller.

## Model

| member | source | states |
|---|---|---|
| `Text.LikeIgnoreCaseOfLowered` | src/main/java/com/zubayear/groundhog/controller/BaseController.java:51 | `UPPER(col) LIKE UPPER('%' + lower(input) + '%')` holds exactly when the lower-cased column contains the lower-cased input |
| `Rows.Select` | src/main/java/com/zubayear/groundhog/controller/BaseController.java:61-63 | a query returns exactly the table rows that match, each as many times as it occurs in the table, and never more rows than the table has |
| `Rows.SelectAll` | src/main/java/com/zubayear/groundhog/controller/BaseController.java:43-46 | a condition that every row meets (the empty criteria) returns the whole table, in order |
| `Rows.SelectNarrow` | src/main/java/com/zubayear/groundhog/controller/BaseController.java:99-106 | filtering by a wider condition and then by a narrower one equals filtering by the narrower one alone |
| `Rows.SelectAppend` | src/main/java/com/zubayear/groundhog/controller/BaseController.java:123 | querying a table with an appended row gives the old result followed by the selection of the new row |
| `Rows.First` | src/main/java/com/zubayear/groundhog/controller/BaseController.java:87 | `.first()` is empty exactly when the query result is empty; otherwise it is some row of that result |
| `Criteria.MatchesScholarshipAppend` | src/main/java/com/zubayear/groundhog/controller/BaseController.java:50-58 | `criteria.and(…)` is conjunction: the joined criteria hold exactly when both parts hold |
| `Criteria.MatchesOrganisationAppend` | src/main/java/com/zubayear/groundhog/controller/BaseController.java:163-170 | the same for organisation criteria |
| `Criteria.IdCriteria` | src/main/java/com/zubayear/groundhog/controller/BaseController.java:84-85 | with an id, a row of any table matches exactly when its id equals it; with no id, every row matches |
| `Sorting.ToDirection` | src/main/java/com/zubayear/groundhog/controller/BaseController.java:70-73 | the direction is DESC if and only if the input direction is DESCENDING; ASCENDING and null both give ASC |
| `Sorting.ToOrders` | src/main/java/com/zubayear/groundhog/controller/BaseController.java:68-76 | the conversion succeeds exactly when every field has text; then there is one order per input, in input order, with that input's field and DESC exactly for DESCENDING |
| `Sorting.CreateSortFromSortInput` | src/main/java/com/zubayear/groundhog/controller/BaseController.java:66-80 | a null or empty list gives unsorted; a non-empty list gives a sort that is not unsorted, with as many orders as inputs, fields in input order, and order i DESC exactly when input i is DESCENDING |
| `BaseController.ScholarshipCriteriaMeaning` | src/main/java/com/zubayear/groundhog/controller/BaseController.java:50-58 | the assembled criteria select a row exactly when every active guard's condition holds: title contained ignoring case, total and days left within non-negative ceilings, and last date within a cutoff that is after today |
| `BaseController.BuildScholarshipCriteria` | src/main/java/com/zubayear/groundhog/controller/BaseController.java:43-58 | the guarded accumulation yields the four optional clauses in source order; every predicate is about a scholarships column; the criteria match exactly the wanted rows |
| `BaseController.Scholarships` | src/main/java/com/zubayear/groundhog/controller/BaseController.java:41-64 | a null input returns every row, unsorted; otherwise the sort conversion decides success, and the result is the wanted rows in table order, with each row's multiplicity kept and the converted sort |
| `BaseController.BlankTitleIgnored` | src/main/java/com/zubayear/groundhog/controller/BaseController.java:50-51 | a null or blank title gives the same rows as no title |
| `BaseController.NegativeTotalIgnored` | src/main/java/com/zubayear/groundhog/controller/BaseController.java:53-54 | a negative total ceiling gives the same rows as no ceiling |
| `BaseController.NegativeDaysLeftIgnored` | src/main/java/com/zubayear/groundhog/controller/BaseController.java:57-58 | a negative days-left ceiling gives the same rows as no ceiling |
| `BaseController.PastCutoffIgnored` | src/main/java/com/zubayear/groundhog/controller/BaseController.java:55-56 | a last-date cutoff of today or earlier gives the same rows as no cutoff |
| `BaseController.FutureCutoffApplies` | src/main/java/com/zubayear/groundhog/controller/BaseController.java:55-56 | a cutoff after today keeps a row exactly when the row would be kept without the cutoff and has a last date no later than the cutoff |
| `BaseController.OrganisationCriteriaMeaning` | src/main/java/com/zubayear/groundhog/controller/BaseController.java:162-171 | the organisation criteria select a row exactly when name and origin country contain their non-blank filters ignoring case and founded is within any given ceiling |
| `BaseController.BuildOrganisationCriteria` | src/main/java/com/zubayear/groundhog/controller/BaseController.java:161-171 | the guarded accumulation yields the three optional clauses in source order; every predicate is about an organisations column; the criteria match exactly the wanted rows |
| `BaseController.Organisations` | src/main/java/com/zubayear/groundhog/controller/BaseController.java:159-176 | a null input returns every row; otherwise the wanted rows in table order, with each row's multiplicity kept |
| `BaseController.FoundedHasNoSignGuard` | src/main/java/com/zubayear/groundhog/controller/BaseController.java:169-170 | a negative founded year still adds a predicate, and every returned organisation was founded in or before it |
| `BaseController.BlankOrganisationTextIgnored` | src/main/java/com/zubayear/groundhog/controller/BaseController.java:163-168 | blank name and origin-country filters give the same rows as absent ones |
| `BaseController.UniMatchesUniversity` | src/main/java/com/zubayear/groundhog/controller/BaseController.java:164 | the filter `orgName = "uni"` accepts an organisation named "University of X" |
| `BaseController.Requirements` | src/main/java/com/zubayear/groundhog/controller/BaseController.java:149-157 | with a non-blank title, exactly the requirements whose title equals it, each with its multiplicity; otherwise every requirement |
| `BaseController.RequirementTitleIsCaseSensitive` | src/main/java/com/zubayear/groundhog/controller/BaseController.java:152-153 | the filter "gpa" does not return a requirement titled "GPA" |
| `BaseController.ScholarshipById` | src/main/java/com/zubayear/groundhog/controller/BaseController.java:82-88 | with an id: found exactly when some row has it, and the row found has it; with no id: found exactly when the table is non-empty; a found row is always a table row |
| `BaseController.OrganisationById` | src/main/java/com/zubayear/groundhog/controller/BaseController.java:178-184 | the same for organisations |
| `BaseController.RequirementById` | src/main/java/com/zubayear/groundhog/controller/BaseController.java:186-192 | the same for requirements |
| `BaseController.GroupByParent` | src/main/java/com/zubayear/groundhog/controller/BaseController.java:105-106 | the map's keys are exactly the given parents, those without children included; each parent's list is the fetched children whose foreign key is its id, in fetched order |
| `BaseController.BatchedEqualsPerParent` | src/main/java/com/zubayear/groundhog/controller/BaseController.java:99-106 | a parent's children picked out of the single `in` query equal what a query for that parent alone returns, in the same order |
| `BaseController.GroupingIsPartition` | src/main/java/com/zubayear/groundhog/controller/BaseController.java:209-210 | with distinct parent ids, and with every fetched child's foreign key among them, the lists together hold each fetched child exactly once |
| `BaseController.RequirementsLoader` | src/main/java/com/zubayear/groundhog/controller/BaseController.java:90-109 | keys are the input scholarships; each list is that scholarship's requirements in table order, equal to a per-scholarship query; a requirement appears under a scholarship exactly when its foreign key is that scholarship's id, with its multiplicity |
| `BaseController.ScholarshipsBatch` | src/main/java/com/zubayear/groundhog/controller/BaseController.java:194-213 | the same for organisations and their scholarships |
| `BaseController.BatchExample` | src/main/java/com/zubayear/groundhog/controller/BaseController.java:106 | with R1 and R2 under S1 and R3 under S2, S1 gets [R1, R2] and S2 gets [R3]; with no requirements a scholarship gets [] |
| `BaseController.Insert` | src/main/java/com/zubayear/groundhog/controller/BaseController.java:123 | an insert fails exactly when the primary key is taken; otherwise the table is the old table followed by the new row |
| `BaseController.CreateScholarship` | src/main/java/com/zubayear/groundhog/controller/BaseController.java:111-124 | the stored row has the fresh id and today as last date, and the input's title, description, purpose, days left, total and organisation unchanged; only the scholarships table changes, by that one row |
| `BaseController.CreateOrganisation` | src/main/java/com/zubayear/groundhog/controller/BaseController.java:126-136 | the stored row has the fresh id and the input's fields unchanged; only the organisations table changes, by that one row |
| `BaseController.CreateRequirement` | src/main/java/com/zubayear/groundhog/controller/BaseController.java:138-147 | the stored row has the fresh id and the input's fields unchanged; only the requirements table changes, by that one row |
| `BaseController.CreateScholarshipIgnoresLastDate` | src/main/java/com/zubayear/groundhog/controller/BaseController.java:120 | two inputs that differ only in `lastDate` create the same row and database |
| `BaseController.CreatedScholarshipIsFound` | src/main/java/com/zubayear/groundhog/controller/BaseController.java:111-124 | with an unused id, the create succeeds and `scholarshipById` of that id then returns the created row |
| `BaseController.CreatedOrganisationIsFound` | src/main/java/com/zubayear/groundhog/controller/BaseController.java:126-136 | with an unused id, the create succeeds and `organisationById` of that id then returns the created row |
| `BaseController.CreatedRequirementIsFound` | src/main/java/com/zubayear/groundhog/controller/BaseController.java:138-147 | with an unused id, the create succeeds and `requirementById` of that id then returns the created row |

## Left out

- Reactive plumbing (`Flux`, `Mono`, `collectList`) and the R2DBC calls. A table is a sequence, a query filters it, and an insert appends to it. Data-access failures other than a duplicate key are not modelled.
- Applying the sort. The database does that, so the model produces only the `Sort` specification and returns the rows in table order.
- SQL `LIKE` wildcards. A `%` or `_` in user input is treated as a literal character, so the wrapped, `ignoreCase` form is plain case-insensitive containment and the raw form at line 153 is equality. Database collation (trailing blanks, accent folding) is not modelled either.
- Case folding covers the letters A-Z only. Java's locale-dependent `toLowerCase` and the database's `UPPER` act on all of Unicode.
- The `id` argument of the `…ById` resolvers is a `String`, and the driver converts it to a UUID. The model takes the UUID directly, so a malformed string (a database error) is not modelled.
- Rows.First: promises only membership in the query result, because which row `.first()` returns without a sort is up to the database. Its body picks the first element only as an arbitrary representative; no lemma or caller relies on which row it is.
- A null element inside the `sorts` list makes the source throw a `NullPointerException` at `sortInput.getDirection()` (line 71). A null `input` to a create mutation throws one at its first getter (lines 115, 130 and 142). The model's datatypes cannot express a null list element or a null input, so these exceptions are not modelled. An empty parent list is modelled: the batch loaders then return the empty map.
- Unsorted queries are assumed to return rows in one fixed order, the order of the `Database` sequences. A real database may order an unsorted scan differently from one query to the next, so `BatchedEqualsPerParent` and the "table order" promises of the listing and loader members hold only under that assumption.
- Foreign-key constraints on insert are not modelled. No code in the controller checks them.
- The Spring GraphQL annotations and dispatch, Lombok builders and `log.info` are framework calls.
- `GroundhogApplication.java` is bootstrap only and is not part of this model.
- `model/Scholarship.java` and `model/ginput/ScholarshipInput.java` are a duplicate representation with `Long` ids. The controller does not use them.
- `SortDirection.java` is not part of this model. Its two values, ASCENDING and DESCENDING, are those of the GraphQL enum.
- The result maps of the batch loaders are Dafny maps keyed by entity value. Java `HashMap` hashing of `@Data` entities is replaced by value equality, so equal parents are one key.
- `Integer` fields are bounded to 32 bits (`Int32`), but the controller only compares them, so no wrap-around arises.
