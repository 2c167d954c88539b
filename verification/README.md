# EMPI candidate search, link entity and EID extraction — a Dafny model

This project models three pieces of the HAPI FHIR Enterprise Master Patient Index (EMPI):

- **Candidate search** (`EmpiCandidateSearchSvc`, module `CandidateSearch`). The EMPI rules hold
  filter rules and resource search-parameter rules. A rule applies to a resource type when its
  type is that type (case-sensitive) or the all-types sentinel (any case). The applicable filter
  rules become fixed criteria `param<modifier>=value`. Each applicable search-parameter rule for
  which the target has values becomes one query `Type?filter1&...&param=v1,v2`. Every query is run
  against the store. The results are put into a map keyed by store pid, with later puts
  overwriting earlier ones. At the end the target's own pid is removed when the target has an
  id part.
- **Link entity** (`EmpiLink`, module `EmpiLinks`). This is the record of a match decision
  between a person and a target. It has a tri-state match result and a two-state link source,
  classification predicates, and fluent setters. Each setter touches only its own field, except
  `setPerson`/`setTarget`, which also copy the resource id into the pid. The `MPI_LINK` table is
  a sequence of rows that obeys the NOT NULL columns and the unique (PERSON_PID, TARGET_PID)
  constraint.
- **EID extraction and creation** (module `EidHelper`). This part starts from what
  `EIDHelperR4Test` asserts and extends it to every patient. `getHapiEid` and `getExternalEid`
  keep the identifiers of one system as canonical EIDs. The value and system are kept, and the
  identifier's `use` becomes its lower-case code. `createHapiEid` makes an EID in the HAPI system
  with a 36-character UUID value and no `use`. The test checks only the first EID of a
  one-identifier patient and the length of a created value. The model goes further in four ways:
  - every identifier is filtered, not only the first;
  - the identifiers' order is kept (`EidsWithSystemAppend`);
  - a UUID value is rendered as 8-4-4-4-12 lower-case hex, and distinct random bytes give
    distinct values;
  - the external test's patient has no HAPI EID (`ExtractionOfExternalEid`).

The store search, the pid lookup (`getPidOrNull`), the id-part test and the value extraction
(`getValueFromResourceForSearchParam`) are fields of `CandidateSearch.Env`, passed in as
functions. A Java `null` is `Option.None`. The candidate map's key is an `Option<int>`, because
the Java `HashMap` accepts the null that `getPidOrNull` may return. `findCandidates` removes
`getPidOrNull(target)` even when it is null.

`findCandidates` removes the target's entry only when the target's id element has an id part.
It then removes whatever key `getPidOrNull` returns, null included
(EmpiCandidateSearchSvc.java:95-96).

`EmpiConstants` is not part of this model either. The all-types sentinel is taken to be `"*"`
and the HAPI enterprise identifier system to be
`http://hapifhir.io/fhir/NamingSystem/empi-person-enterprise-id`. The scoping lemmas do not depend
on the sentinel's value, with one exception: `ExactScopeIsCaseSensitive` shows that a rule for
`"*"` applies to `"Patient"`, which holds only because `"*"` is the sentinel. The EID lemmas use
only the fact that the HAPI system differs from the system the test configures.

Files: `wrappers.dfy` (Option, Result), `strings.dfy` (join/split/count/case folding and their
round trips), `candidate_search.dfy`, `empi_link.dfy`, `eid_helper.dfy`.

## Model

| member | source | states |
|---|---|---|
| CandidateSearch.ScopeAgreement | hapi-fhir-jpaserver-empi/src/main/java/ca/uhn/fhir/jpa/empi/svc/EmpiCandidateSearchSvc.java:101-104 | the string scope test holds exactly when the rule's scope, read as {AnyType, Exact(name)}, covers the requested type |
| CandidateSearch.ScopeOfRule | hapi-fhir-jpaserver-empi/src/main/java/ca/uhn/fhir/jpa/empi/svc/EmpiCandidateSearchSvc.java:167-169 | a sentinel in any case matches every type; any other rule type matches exactly the identical type name |
| CandidateSearch.ExactScopeIsCaseSensitive | hapi-fhir-jpaserver-empi/src/main/java/ca/uhn/fhir/jpa/empi/svc/EmpiCandidateSearchSvc.java:101-104 | a rule for "patient" does not apply to "Patient"; a "*" rule does |
| CandidateSearch.FilterCriterionRoundTrip | hapi-fhir-jpaserver-empi/src/main/java/ca/uhn/fhir/jpa/empi/svc/EmpiCandidateSearchSvc.java:171-174 | a filter criterion cut at its first '=' gives back parameter-plus-modifier and the fixed value |
| CandidateSearch.BuildFilterQuery | hapi-fhir-jpaserver-empi/src/main/java/ca/uhn/fhir/jpa/empi/svc/EmpiCandidateSearchSvc.java:160-165 | every filter on the correct type gives its criterion; every criterion comes from a filter on the correct type; no more criteria than filters |
| CandidateSearch.BuildFilterQueryKeepsOrder | hapi-fhir-jpaserver-empi/src/main/java/ca/uhn/fhir/jpa/empi/svc/EmpiCandidateSearchSvc.java:160-165 | criteria of a concatenation of filter lists are the concatenated criteria, so the rules' order is kept |
| CandidateSearch.BuildFilterQuerySingle | hapi-fhir-jpaserver-empi/src/main/java/ca/uhn/fhir/jpa/empi/svc/EmpiCandidateSearchSvc.java:160-169 | a single filter gives its criterion if and only if it is on the correct type |
| CandidateSearch.MatchClauseShape | hapi-fhir-jpaserver-empi/src/main/java/ca/uhn/fhir/jpa/empi/svc/EmpiCandidateSearchSvc.java:156-158 | the match clause has exactly one '=' more than the parameter name when the values carry none |
| CandidateSearch.MatchClauseRoundTrip | hapi-fhir-jpaserver-empi/src/main/java/ca/uhn/fhir/jpa/empi/svc/EmpiCandidateSearchSvc.java:156-158 | the match clause parses back into the name and the comma-joined values, and those split back into the value list |
| CandidateSearch.QueryStringWithoutFilters | hapi-fhir-jpaserver-empi/src/main/java/ca/uhn/fhir/jpa/empi/svc/EmpiCandidateSearchSvc.java:149-154 | with no filter criteria the query is `Type?` followed by the match clause |
| CandidateSearch.QueryStringMatchClauseLast | hapi-fhir-jpaserver-empi/src/main/java/ca/uhn/fhir/jpa/empi/svc/EmpiCandidateSearchSvc.java:149-154 | with filter criteria the query is `Type?`, the '&'-joined criteria, '&', then the match clause last |
| CandidateSearch.QueryStringRoundTrip | hapi-fhir-jpaserver-empi/src/main/java/ca/uhn/fhir/jpa/empi/svc/EmpiCandidateSearchSvc.java:149-154 | a query cut at '?' gives the type, and the rest split on '&' gives the filter criteria followed by the match clause |
| CandidateSearch.UnescapedCommaSplitsValue | hapi-fhir-jpaserver-empi/src/main/java/ca/uhn/fhir/jpa/empi/svc/EmpiCandidateSearchSvc.java:156-158 | values are joined without escaping: the single value "Gary,Grant" gives the same match clause as the two values Gary and Grant |
| CandidateSearch.UnescapedAmpersandAddsCriterion | hapi-fhir-jpaserver-empi/src/main/java/ca/uhn/fhir/jpa/empi/svc/EmpiCandidateSearchSvc.java:149-158 | a value "x&active=false" gives the query for the value "x" followed by an extra `&active=false` criterion |
| CandidateSearch.DocumentedQueryExample | hapi-fhir-jpaserver-empi/src/main/java/ca/uhn/fhir/jpa/empi/svc/EmpiCandidateSearchSvc.java:142-174 | the documented example, built from an `active=true` filter rule through `buildFilterQuery` and a `name.given` rule with values Gary and Grant, renders as `Patient?active=true&name.given=Gary,Grant` |
| CandidateSearch.PutAllKeys | hapi-fhir-jpaserver-empi/src/main/java/ca/uhn/fhir/jpa/empi/svc/EmpiCandidateSearchSvc.java:130-135 | after the puts the keys are the old keys plus the results' pids; entries for other pids are untouched; every put entry sits under its own pid |
| CandidateSearch.PutAllIsUnion | hapi-fhir-jpaserver-empi/src/main/java/ca/uhn/fhir/jpa/empi/svc/EmpiCandidateSearchSvc.java:133 | accumulating into a map is the keyed union of that map with the results, results winning |
| CandidateSearch.PutAllIdempotent | hapi-fhir-jpaserver-empi/src/main/java/ca/uhn/fhir/jpa/empi/svc/EmpiCandidateSearchSvc.java:133 | putting the same results twice gives the map after once; the map never loses a key |
| CandidateSearch.PutAllAppend | hapi-fhir-jpaserver-empi/src/main/java/ca/uhn/fhir/jpa/empi/svc/EmpiCandidateSearchSvc.java:78-91 | putting two result lists one after the other is putting their concatenation |
| CandidateSearch.PutAllLastWins | hapi-fhir-jpaserver-empi/src/main/java/ca/uhn/fhir/jpa/empi/svc/EmpiCandidateSearchSvc.java:133 | the entry for a pid is the last result carrying that pid |
| CandidateSearch.SearchForIdsAndAddToMap | hapi-fhir-jpaserver-empi/src/main/java/ca/uhn/fhir/jpa/empi/svc/EmpiCandidateSearchSvc.java:114-140 | one search adds exactly the pids its query returns; old entries not returned again keep their value; new entries sit under their own pid |
| CandidateSearch.IssuedQueries | hapi-fhir-jpaserver-empi/src/main/java/ca/uhn/fhir/jpa/empi/svc/EmpiCandidateSearchSvc.java:78-91 | a query is issued exactly for each rule that is on the requested type and has target values, and it is that rule's query; no other query is issued and there are no more queries than rules |
| CandidateSearch.IssuedQueriesSingle | hapi-fhir-jpaserver-empi/src/main/java/ca/uhn/fhir/jpa/empi/svc/EmpiCandidateSearchSvc.java:78-91 | one rule issues its own query if it is on the type and has values, and nothing otherwise |
| CandidateSearch.IssuedQueriesAppend | hapi-fhir-jpaserver-empi/src/main/java/ca/uhn/fhir/jpa/empi/svc/EmpiCandidateSearchSvc.java:78-91 | the queries of a concatenation of rule lists are the concatenated queries, in rule order |
| CandidateSearch.Gather | hapi-fhir-jpaserver-empi/src/main/java/ca/uhn/fhir/jpa/empi/svc/EmpiCandidateSearchSvc.java:78-91 | the loop never drops a key, and every key it adds holds a resource with that pid |
| CandidateSearch.GatherAppend | hapi-fhir-jpaserver-empi/src/main/java/ca/uhn/fhir/jpa/empi/svc/EmpiCandidateSearchSvc.java:78-91 | running the loop over two rule lists in turn is running it over their concatenation |
| CandidateSearch.GatherKeys | hapi-fhir-jpaserver-empi/src/main/java/ca/uhn/fhir/jpa/empi/svc/EmpiCandidateSearchSvc.java:78-91 | a pid is accumulated if and only if some issued query returned it |
| CandidateSearch.SkippedRuleIsInert | hapi-fhir-jpaserver-empi/src/main/java/ca/uhn/fhir/jpa/empi/svc/EmpiCandidateSearchSvc.java:78-91 | a rule of another type, or one with no values, issues no query and changes no result, wherever it stands |
| CandidateSearch.FindCandidates | hapi-fhir-jpaserver-empi/src/main/java/ca/uhn/fhir/jpa/empi/svc/EmpiCandidateSearchSvc.java:71-99 | the result holds exactly the pids returned by the issued queries, minus the target's pid when the target has an id part; without an id part it is the whole union; each entry is stored under its own pid |
| EmpiLinks.SetId | hapi-fhir-jpaserver-base/src/main/java/ca/uhn/fhir/jpa/entity/EmpiLink.java:96-99 | sets the id and changes no other field |
| EmpiLinks.SetPerson | hapi-fhir-jpaserver-base/src/main/java/ca/uhn/fhir/jpa/entity/EmpiLink.java:105-109 | sets the person reference and the person pid to the resource's id, nothing else |
| EmpiLinks.SetPersonPid | hapi-fhir-jpaserver-base/src/main/java/ca/uhn/fhir/jpa/entity/EmpiLink.java:115-118 | sets the person pid only; the person reference is untouched |
| EmpiLinks.SetTarget | hapi-fhir-jpaserver-base/src/main/java/ca/uhn/fhir/jpa/entity/EmpiLink.java:124-128 | sets the target reference and the target pid to the resource's id, nothing else |
| EmpiLinks.SetTargetPid | hapi-fhir-jpaserver-base/src/main/java/ca/uhn/fhir/jpa/entity/EmpiLink.java:134-137 | sets the target pid only; the target reference is untouched |
| EmpiLinks.SetMatchResult | hapi-fhir-jpaserver-base/src/main/java/ca/uhn/fhir/jpa/entity/EmpiLink.java:143-146 | sets the match result and changes no other field |
| EmpiLinks.SetLinkSource | hapi-fhir-jpaserver-base/src/main/java/ca/uhn/fhir/jpa/entity/EmpiLink.java:164-167 | sets the link source and changes no other field |
| EmpiLinks.SetCreated | hapi-fhir-jpaserver-base/src/main/java/ca/uhn/fhir/jpa/entity/EmpiLink.java:192-195 | sets the creation time and changes no other field |
| EmpiLinks.SetUpdated | hapi-fhir-jpaserver-base/src/main/java/ca/uhn/fhir/jpa/entity/EmpiLink.java:201-204 | sets the update time and changes no other field |
| EmpiLinks.SettersAreUndone | hapi-fhir-jpaserver-base/src/main/java/ca/uhn/fhir/jpa/entity/EmpiLink.java:96-204 | every single-field setter is undone by setting the previous value back |
| EmpiLinks.ReferenceAndPidAgreement | hapi-fhir-jpaserver-base/src/main/java/ca/uhn/fhir/jpa/entity/EmpiLink.java:105-137 | setPerson/setTarget leave reference and pid in agreement; a later setPersonPid/setTargetPid with another pid breaks it |
| EmpiLinks.ApplyChangesOnlyTouched | hapi-fhir-jpaserver-base/src/main/java/ca/uhn/fhir/jpa/entity/EmpiLink.java:96-204 | each of the nine setters leaves every field it does not write unchanged |
| EmpiLinks.SettersOverwriteAndCommute | hapi-fhir-jpaserver-base/src/main/java/ca/uhn/fhir/jpa/entity/EmpiLink.java:96-204 | any two setter calls that write disjoint fields commute; a setter that writes every field an earlier one wrote erases the earlier call |
| EmpiLinks.MatchClassificationExclusive | hapi-fhir-jpaserver-base/src/main/java/ca/uhn/fhir/jpa/entity/EmpiLink.java:148-158 | with a match result set exactly one of isMatch, isPossibleMatch, isNoMatch holds; with none set none holds |
| EmpiLinks.SetMatchResultClassifies | hapi-fhir-jpaserver-base/src/main/java/ca/uhn/fhir/jpa/entity/EmpiLink.java:143-158 | after setMatchResult each classification holds if and only if the value is its enum constant; isAuto and isManual are unchanged |
| EmpiLinks.LinkSourceClassificationExclusive | hapi-fhir-jpaserver-base/src/main/java/ca/uhn/fhir/jpa/entity/EmpiLink.java:169-175 | with a link source set exactly one of isAuto, isManual holds; with none set neither does |
| EmpiLinks.SetLinkSourceClassifies | hapi-fhir-jpaserver-base/src/main/java/ca/uhn/fhir/jpa/entity/EmpiLink.java:164-175 | after setLinkSource isAuto/isManual hold if and only if the value is AUTO/MANUAL; isMatch, isPossibleMatch and isNoMatch are unchanged |
| EmpiLinks.RowsWithPair | hapi-fhir-jpaserver-base/src/main/java/ca/uhn/fhir/jpa/entity/EmpiLink.java:49-51 | selects exactly the rows whose (PERSON_PID, TARGET_PID) is the given pair |
| EmpiLinks.Insert | hapi-fhir-jpaserver-base/src/main/java/ca/uhn/fhir/jpa/entity/EmpiLink.java:48-90 | an insert is refused if and only if a NOT NULL column is null or the pid pair already exists; otherwise the row is appended and the table stays valid |
| EmpiLinks.NewLinkIsUnclassifiedAndUnstorable | hapi-fhir-jpaserver-base/src/main/java/ca/uhn/fhir/jpa/entity/EmpiLink.java:52-90 | a link from the no-argument constructor has no match classification and no source classification, and inserting it fails on a NOT NULL column |
| EmpiLinks.AtMostOneLinkPerPair | hapi-fhir-jpaserver-base/src/main/java/ca/uhn/fhir/jpa/entity/EmpiLink.java:49-51 | a table obeying the unique constraint holds at most one link per (personPid, targetPid) |
| EidHelper.UseCodeIsLowerCaseName | hapi-fhir-server-empi/src/test/java/ca/uhn/fhir/empi/svc/EIDHelperR4Test.java:40-50 | a use's code is its enum name lower-cased (SECONDARY gives "secondary"), and codes are distinct |
| EidHelper.EidsWithSystem | hapi-fhir-server-empi/src/test/java/ca/uhn/fhir/empi/svc/EIDHelperR4Test.java:37-67 | extracted EIDs all carry the system; each identifier of the system gives its EID; each EID comes from such an identifier |
| EidHelper.EidsWithSystemAppend | hapi-fhir-server-empi/src/test/java/ca/uhn/fhir/empi/svc/EIDHelperR4Test.java:37-67 | extraction keeps the identifiers' order |
| EidHelper.EidsWithSystemEmpty | hapi-fhir-server-empi/src/test/java/ca/uhn/fhir/empi/svc/EIDHelperR4Test.java:47 | extraction is empty if and only if no identifier has the system |
| EidHelper.FirstEid | hapi-fhir-server-empi/src/test/java/ca/uhn/fhir/empi/svc/EIDHelperR4Test.java:45-49 | the first extracted EID is the first identifier of the system |
| EidHelper.HapiEidOfFirstIdentifier | hapi-fhir-server-empi/src/test/java/ca/uhn/fhir/empi/svc/EIDHelperR4Test.java:39-50 | a patient whose first identifier is in the HAPI system gets a non-empty HAPI EID list starting with that value, system and use code |
| EidHelper.ExtractionOfInternalEid | hapi-fhir-server-empi/src/test/java/ca/uhn/fhir/empi/svc/EIDHelperR4Test.java:37-51 | the test's patient yields a HAPI EID with value "simpletest", the HAPI system and use "secondary" |
| EidHelper.ExtractionOfExternalEid | hapi-fhir-server-empi/src/test/java/ca/uhn/fhir/empi/svc/EIDHelperR4Test.java:53-67 | an identifier of the configured system yields an external EID with its value and system; that system is not the HAPI one |
| EidHelper.UuidString | hapi-fhir-server-empi/src/test/java/ca/uhn/fhir/empi/svc/EIDHelperR4Test.java:75 | the UUID text has 36 characters with dashes at 8, 13, 18 and 23 |
| EidHelper.UuidStringInjective | hapi-fhir-server-empi/src/test/java/ca/uhn/fhir/empi/svc/EIDHelperR4Test.java:72-75 | different random bytes give different UUID strings |
| EidHelper.CreateHapiEid | hapi-fhir-server-empi/src/test/java/ca/uhn/fhir/empi/svc/EIDHelperR4Test.java:69-77 | a created EID has the HAPI system, a 36-character value and no use |
| EidHelper.CreateHapiEidDistinct | hapi-fhir-server-empi/src/test/java/ca/uhn/fhir/empi/svc/EIDHelperR4Test.java:72-75 | creations from different random bytes give different values |

## Left out

- Spring wiring (`@Autowired`, `@Service`) and the debug logging with its before/after sizes are plumbing.
- The DAO search is the opaque `Env.search` from a query string to its results, with all pages loaded. The model leaves out `mapFromCriteria`, `setLoadSynchronous`, `getResourceDao` and paging via `getResources(0, size)`, because those are foreign calls.
- `getValueFromResourceForSearchParam`, `getPidOrNull` and `getIdElement().getIdPart()` are the collaborators `Env.valuesOf`, `Env.pidOf` and `Env.hasIdPart`. Their own logic lives outside this core.
- `getTokenParamModifierAsString` is not part of this model. A filter rule carries its modifier already rendered as text.
- `findCandidates` returns `values()` of the map. The model returns the map itself; the collection is its value set.
- CandidateSearch.MatchClauseRoundTrip: holds only for values without ','; `CandidateSearch.QueryStringRoundTrip` likewise needs values and criteria without '&'. The service joins values and criteria without escaping them, so values that hold a separator make a query ambiguous. `UnescapedCommaSplitsValue` and `UnescapedAmpersandAddsCriterion` show this for the code as written.
- `equalsIgnoreCase` is modelled with ASCII case folding only. Non-ASCII case pairs are not modelled.
- The JPA/Hibernate mapping is left out: lazy `ResourceTable` associations, sequence-generated ids, ordinal enum storage, optimistic locking, and the `updatable=false`/`insertable=false` column flags. Only the NOT NULL columns and the (PERSON_PID, TARGET_PID) unique constraint are kept, as conditions of `EmpiLinks.Insert`.
- EmpiLinks.Insert: does not check the foreign keys `FK_EMPI_LINK_PERSON` and `FK_EMPI_LINK_TARGET` (EmpiLink.java:63, :70), which require both pids to name existing resource rows, nor the uniqueness of the generated `PID` primary key. Resource rows and id generation are outside the model. Its "refused if and only if" covers only the NOT NULL columns and IDX_EMPI_PERSON_TGT.
- `EmpiLink.toString` is not modelled.
- `Date` timestamps are plain integers.
- A null argument to `setPerson`/`setTarget` throws in Java. The model does not cover that case: its argument is always a resource row.
- A fluent setter returns the same object in Java. The model returns the updated value; object identity is not modelled.
- Link upsert, duplicate-insert retry and concurrent access have no code in this core.
- The `EIDHelper` implementation is not part of this model. Its behaviour is inferred from `EIDHelperR4Test`.
- The configuration-error path of EID extraction is not modelled: the test never exercises a missing enterprise EID system, and the implementation that would raise the error is not available.
- The identifier-use constant `NULL` is not covered.
- Identifiers without a value are not modelled: an identifier's value is always a string.
- EidHelper.CreateHapiEid: the randomness of `UUID.randomUUID` is an input of 16 bytes, rendered as-is in the 8-4-4-4-12 lower-case hex form. The version and variant bits that a random UUID fixes are not modelled.
