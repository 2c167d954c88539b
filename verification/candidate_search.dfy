/** Model of the EMPI candidate search (EmpiCandidateSearchSvc).

    Given a target resource and the EMPI rules, the search builds one query
    string per resource search-parameter rule that applies to the resource
    type and for which the target has values, runs each query against the
    resource store, gathers every returned resource into a map keyed by its
    store pid (later results overwrite earlier ones), and finally drops the
    target's own pid.

    The store search, the pid lookup, the id-part test and the value
    extraction are collaborators of the service; they are the fields of `Env`.
 */
module CandidateSearch {
  import opened Wrappers
  import opened Strings

  /** ALL_RESOURCE_SEARCH_PARAM_TYPE: a rule scoped to this type applies to every resource type. */
  const AllResourceType: string := "*"

  /** EmpiFilterSearchParamJson: a fixed blocking criterion `searchParam<modifier>=fixedValue`.
      `modifier` is the token-parameter modifier already rendered as text ("" when absent). */
  datatype FilterRule = FilterRule(resourceType: string, searchParam: string, modifier: string, fixedValue: string)

  /** EmpiResourceSearchParamJson: a search parameter whose values are read from the target. */
  datatype SearchParamRule = SearchParamRule(resourceType: string, searchParam: string)

  /** The two rule lists of the EMPI rules that the search reads. */
  datatype Rules = Rules(filterSearchParams: seq<FilterRule>, resourceSearchParams: seq<SearchParamRule>)

  /** A store key as returned by `getPidOrNull`: None stands for null. */
  type Pid = Option<int>

  /** The collaborators of the service.
      - search: the synchronous DAO search of a query string, all pages loaded
      - pidOf: IdHelperService.getPidOrNull
      - hasIdPart: whether the resource's id element has an id part
      - valuesOf: EmpiSearchParamSvc.getValueFromResourceForSearchParam */
  datatype Env<!R> = Env(
    search: string -> seq<R>,
    pidOf: R -> Pid,
    hasIdPart: R -> bool,
    valuesOf: (R, SearchParamRule) -> seq<string>)

  /** The candidate map: pid to resource. */
  type CandidateMap<R> = map<Pid, R>

  // ---------------------------------------------------------------------------
  // Rule scoping
  // ---------------------------------------------------------------------------

  /** Shared test of isSearchParamForResource and paramIsOnCorrectType: exact,
      case-sensitive type equality, or the sentinel in any case. */
  predicate RuleTypeMatches(ruleType: string, resourceType: string)
  {
    ruleType == resourceType || EqualsIgnoreCase(ruleType, AllResourceType)
  }

  predicate IsSearchParamForResource(resourceType: string, rule: SearchParamRule)
  {
    RuleTypeMatches(rule.resourceType, resourceType)
  }

  predicate ParamIsOnCorrectType(resourceType: string, filter: FilterRule)
  {
    RuleTypeMatches(filter.resourceType, resourceType)
  }

  /** A rule's scope read as a tagged variant instead of a magic string. */
  datatype Scope = AnyType | Exact(name: string)

  function ScopeOf(ruleType: string): Scope
  {
    if EqualsIgnoreCase(ruleType, AllResourceType) then AnyType else Exact(ruleType)
  }

  predicate Covers(scope: Scope, resourceType: string)
  {
    match scope
    case AnyType => true
    case Exact(name) => name == resourceType
  }

  /** The string test agrees with the tagged scope: a rule applies exactly when
      its scope is the wildcard or names the requested type. */
  lemma ScopeAgreement(ruleType: string, resourceType: string)
    ensures RuleTypeMatches(ruleType, resourceType) <==> Covers(ScopeOf(ruleType), resourceType)
  {
  }

  /** The wildcard is recognised whatever its case, and then matches every type;
      any other rule type matches only the identical type name. */
  lemma ScopeOfRule(ruleType: string, resourceType: string)
    ensures EqualsIgnoreCase(ruleType, AllResourceType) ==> RuleTypeMatches(ruleType, resourceType)
    ensures !EqualsIgnoreCase(ruleType, AllResourceType) ==> (RuleTypeMatches(ruleType, resourceType) <==> ruleType == resourceType)
  {
  }

  /** Exact matching is case-sensitive: a rule for "patient" does not apply to "Patient". */
  lemma ExactScopeIsCaseSensitive()
    ensures !IsSearchParamForResource("Patient", SearchParamRule("patient", "name"))
    ensures IsSearchParamForResource("Patient", SearchParamRule("*", "name"))
  {
  }

  // ---------------------------------------------------------------------------
  // Query strings
  // ---------------------------------------------------------------------------

  /** convertToQueryString: `searchParam + modifier + "=" + fixedValue`. */
  function ConvertToQueryString(filter: FilterRule): string
  {
    filter.searchParam + filter.modifier + "=" + filter.fixedValue
  }

  /** A filter criterion parses back into its parameter-with-modifier and its fixed value,
      as long as the parameter and modifier carry no '='. */
  lemma FilterCriterionRoundTrip(filter: FilterRule)
    requires '=' !in filter.searchParam + filter.modifier
    ensures SplitAtFirst(ConvertToQueryString(filter), '=') == Some((filter.searchParam + filter.modifier, filter.fixedValue))
  {
    SplitAtFirstOf(filter.searchParam + filter.modifier, '=', filter.fixedValue);
  }

  /** buildFilterQuery: the filter rules on the requested type, in order, rendered as criteria. */
  function BuildFilterQuery(filters: seq<FilterRule>, resourceType: string): (criteria: seq<string>)
    ensures |criteria| <= |filters|
    ensures forall i :: 0 <= i < |filters| && ParamIsOnCorrectType(resourceType, filters[i]) ==>
      ConvertToQueryString(filters[i]) in criteria
    ensures forall s :: s in criteria ==>
      exists f :: f in filters && ParamIsOnCorrectType(resourceType, f) && s == ConvertToQueryString(f)
  {
    if |filters| == 0 then []
    else
      var head := if ParamIsOnCorrectType(resourceType, filters[0]) then [ConvertToQueryString(filters[0])] else [];
      head + BuildFilterQuery(filters[1..], resourceType)
  }

  /** The criteria keep the order of the rules: building over a concatenation is
      the concatenation of the builds; a single rule gives its criterion exactly
      when it is on the requested type. */
  lemma {:induction false} BuildFilterQueryKeepsOrder(a: seq<FilterRule>, b: seq<FilterRule>, resourceType: string)
    ensures BuildFilterQuery(a + b, resourceType) == BuildFilterQuery(a, resourceType) + BuildFilterQuery(b, resourceType)
    decreases |a|
  {
    if |a| == 0 {
      assert a + b == b;
    } else {
      assert (a + b)[0] == a[0];
      assert (a + b)[1..] == a[1..] + b;
      BuildFilterQueryKeepsOrder(a[1..], b, resourceType);
    }
  }

  lemma BuildFilterQuerySingle(f: FilterRule, resourceType: string)
    ensures ParamIsOnCorrectType(resourceType, f) ==> BuildFilterQuery([f], resourceType) == [ConvertToQueryString(f)]
    ensures !ParamIsOnCorrectType(resourceType, f) ==> BuildFilterQuery([f], resourceType) == []
  {
  }

  /** buildResourceMatchQuery: `name=v1,v2,...`, an OR over the target's values. */
  function BuildResourceMatchQuery(searchParamName: string, values: seq<string>): string
  {
    searchParamName + "=" + Join(",", values)
  }

  /** The match clause has exactly one '=' more than the parameter name, when
      the values carry none; it parses back into the name and the values. */
  lemma MatchClauseShape(searchParamName: string, values: seq<string>)
    requires forall i :: 0 <= i < |values| ==> '=' !in values[i]
    ensures Count('=', BuildResourceMatchQuery(searchParamName, values)) == Count('=', searchParamName) + 1
  {
    CountJoinAbsent(",", values, '=');
    CountAppend('=', searchParamName + "=", Join(",", values));
    CountAppend('=', searchParamName, "=");
  }

  lemma MatchClauseRoundTrip(searchParamName: string, values: seq<string>)
    requires '=' !in searchParamName
    requires |values| > 0 && forall i :: 0 <= i < |values| ==> ',' !in values[i]
    ensures SplitAtFirst(BuildResourceMatchQuery(searchParamName, values), '=') == Some((searchParamName, Join(",", values)))
    ensures Split(Join(",", values), ',') == values
  {
    SplitAtFirstOf(searchParamName, '=', Join(",", values));
    SplitJoin(values, ',');
  }

  /** buildResourceQueryString: `Type?` followed by the filter criteria and then
      the match clause, all joined by '&'. */
  function BuildResourceQueryString(resourceType: string, filterCriteria: seq<string>, rule: SearchParamRule, values: seq<string>): string
  {
    resourceType + "?" + Join("&", filterCriteria + [BuildResourceMatchQuery(rule.searchParam, values)])
  }

  /** With no filter criteria the query is just `Type?clause`. */
  lemma QueryStringWithoutFilters(resourceType: string, rule: SearchParamRule, values: seq<string>)
    ensures BuildResourceQueryString(resourceType, [], rule, values)
            == resourceType + "?" + BuildResourceMatchQuery(rule.searchParam, values)
  {
  }

  /** The match clause always comes last, after the filter criteria and an '&'. */
  lemma QueryStringMatchClauseLast(resourceType: string, filterCriteria: seq<string>, rule: SearchParamRule, values: seq<string>)
    requires |filterCriteria| > 0
    ensures BuildResourceQueryString(resourceType, filterCriteria, rule, values)
            == resourceType + "?" + Join("&", filterCriteria) + "&" + BuildResourceMatchQuery(rule.searchParam, values)
  {
    var clause := BuildResourceMatchQuery(rule.searchParam, values);
    var j := Join("&", filterCriteria);
    calc {
      BuildResourceQueryString(resourceType, filterCriteria, rule, values);
      (resourceType + "?") + Join("&", filterCriteria + [clause]);
      { JoinSnoc("&", filterCriteria, clause); }
      (resourceType + "?") + ((j + "&") + clause);
      { ConcatRegroup(resourceType + "?", j, "&", clause); }
      resourceType + "?" + j + "&" + clause;
    }
  }

  /** A query string parses back into the resource type and the list of criteria,
      the match clause last, when the type has no '?' and no criterion has an '&'. */
  lemma QueryStringRoundTrip(resourceType: string, filterCriteria: seq<string>, rule: SearchParamRule, values: seq<string>)
    requires '?' !in resourceType
    requires forall i :: 0 <= i < |filterCriteria| ==> '&' !in filterCriteria[i]
    requires '&' !in rule.searchParam && forall i :: 0 <= i < |values| ==> '&' !in values[i]
    ensures var criteria := filterCriteria + [BuildResourceMatchQuery(rule.searchParam, values)];
      match SplitAtFirst(BuildResourceQueryString(resourceType, filterCriteria, rule, values), '?')
      case None => false
      case Some(parts) => parts.0 == resourceType && Split(parts.1, '&') == criteria
  {
    var clause := BuildResourceMatchQuery(rule.searchParam, values);
    var criteria := filterCriteria + [clause];
    SplitAtFirstOf(resourceType, '?', Join("&", criteria));
    CountJoinAbsent(",", values, '&');
    CountAppend('&', rule.searchParam + "=", Join(",", values));
    CountAppend('&', rule.searchParam, "=");
    assert '&' !in clause;
    SplitJoin(criteria, '&');
  }

  /** The values are joined without escaping, so a value holding ',' reads as
      several values: one given name "Gary,Grant" issues the same clause as the
      two names Gary and Grant. */
  lemma UnescapedCommaSplitsValue()
    ensures BuildResourceMatchQuery("name.given", ["Gary,Grant"]) == BuildResourceMatchQuery("name.given", ["Gary", "Grant"])
  {
    var values := ["Gary", "Grant"];
    assert values[1..] == ["Grant"];
    assert Join(",", values) == "Gary" + "," + "Grant";
    assert "Gary" + "," + "Grant" == "Gary,Grant";
  }

  /** Likewise a value holding '&' adds a criterion of its own to the query. */
  lemma UnescapedAmpersandAddsCriterion()
    ensures var rule := SearchParamRule("Patient", "name");
      BuildResourceQueryString("Patient", [], rule, ["x&active=false"])
        == BuildResourceQueryString("Patient", [], rule, ["x"]) + "&active=false"
  {
    var rule := SearchParamRule("Patient", "name");
    QueryStringWithoutFilters("Patient", rule, ["x&active=false"]);
    QueryStringWithoutFilters("Patient", rule, ["x"]);
    assert "name" + "=" + "x&active=false" == ("name" + "=" + "x") + "&active=false";
  }

  /** The worked example of the service's documentation, from an `active=true`
      filter rule and a `name.given` rule whose target values are Gary and Grant. */
  lemma DocumentedQueryExample()
    ensures var criteria := BuildFilterQuery([FilterRule("Patient", "active", "", "true")], "Patient");
      BuildResourceQueryString("Patient", criteria, SearchParamRule("Patient", "name.given"), ["Gary", "Grant"])
        == "Patient?active=true&name.given=Gary,Grant"
  {
    assert "Patient" + "?" + "active=true" + "&" + "name.given=Gary,Grant" == "Patient?active=true&name.given=Gary,Grant" by {
      var built := "Patient" + "?" + "active=true" + "&" + "name.given=Gary,Grant";
      var expected := "Patient?active=true&name.given=Gary,Grant";
      assert |built| == |expected|;
      assert forall i :: 0 <= i < |built| ==> built[i] == expected[i];
    }
    assert Join("&", ["active=true"]) == "active=true";
    var criteria := BuildFilterQuery([FilterRule("Patient", "active", "", "true")], "Patient");
    ExampleCriteria();
    ExampleMatchClause();
    QueryStringMatchClauseLast("Patient", criteria, SearchParamRule("Patient", "name.given"), ["Gary", "Grant"]);
  }

  lemma ExampleCriteria()
    ensures BuildFilterQuery([FilterRule("Patient", "active", "", "true")], "Patient") == ["active=true"]
  {
    var filter := FilterRule("Patient", "active", "", "true");
    BuildFilterQuerySingle(filter, "Patient");
    assert ConvertToQueryString(filter) == "active=true";
  }

  lemma ExampleMatchClause()
    ensures BuildResourceMatchQuery("name.given", ["Gary", "Grant"]) == "name.given=Gary,Grant"
  {
    var values := ["Gary", "Grant"];
    assert values[1..] == ["Grant"];
    assert Join(",", values) == "Gary" + "," + "Grant";
  }

  // ---------------------------------------------------------------------------
  // Accumulation
  // ---------------------------------------------------------------------------

  /** The pids of a list of resources. */
  function Pids<R>(resources: seq<R>, pidOf: R -> Pid): set<Pid>
  {
    set i | 0 <= i < |resources| :: pidOf(resources[i])
  }

  lemma PidsSnoc<R>(resources: seq<R>, pidOf: R -> Pid)
    requires |resources| > 0
    ensures Pids(resources, pidOf) == Pids(resources[..|resources| - 1], pidOf) + {pidOf(resources[|resources| - 1])}
  {
  }

  /** `resources.forEach(r -> map.put(getPidOrNull(r), r))`: each put, in order. */
  function PutAll<R>(m: CandidateMap<R>, resources: seq<R>, pidOf: R -> Pid): CandidateMap<R>
    decreases |resources|
  {
    if |resources| == 0 then m
    else
      var n := |resources| - 1;
      PutAll(m, resources[..n], pidOf)[pidOf(resources[n]) := resources[n]]
  }

  /** Accumulation only adds: the keys afterwards are the old keys plus the
      pids of the results, entries for other pids are untouched, and every
      entry put is stored under its own pid. */
  lemma {:induction false} PutAllKeys<R>(m: CandidateMap<R>, resources: seq<R>, pidOf: R -> Pid)
    ensures PutAll(m, resources, pidOf).Keys == m.Keys + Pids(resources, pidOf)
    ensures forall k :: k in m && k !in Pids(resources, pidOf) ==> PutAll(m, resources, pidOf)[k] == m[k]
    ensures forall k :: k in Pids(resources, pidOf) ==> pidOf(PutAll(m, resources, pidOf)[k]) == k
    decreases |resources|
  {
    if |resources| > 0 {
      var n := |resources| - 1;
      PidsSnoc(resources, pidOf);
      PutAllKeys(m, resources[..n], pidOf);
    }
  }

  /** Accumulation is a keyed union: later puts win, earlier entries are kept. */
  lemma {:induction false} PutAllIsUnion<R>(m: CandidateMap<R>, resources: seq<R>, pidOf: R -> Pid)
    ensures PutAll(m, resources, pidOf) == m + PutAll(map[], resources, pidOf)
    decreases |resources|
  {
    if |resources| > 0 {
      var n := |resources| - 1;
      PutAllIsUnion(m, resources[..n], pidOf);
    }
  }

  /** Putting the same results twice leaves the map as after once, and the map never shrinks. */
  lemma PutAllIdempotent<R>(m: CandidateMap<R>, resources: seq<R>, pidOf: R -> Pid)
    ensures PutAll(PutAll(m, resources, pidOf), resources, pidOf) == PutAll(m, resources, pidOf)
    ensures m.Keys <= PutAll(m, resources, pidOf).Keys
  {
    var once := PutAll(map[], resources, pidOf);
    PutAllIsUnion(m, resources, pidOf);
    PutAllIsUnion(m + once, resources, pidOf);
    assert (m + once) + once == m + once;
  }

  /** Putting two result lists in turn is putting their concatenation. */
  lemma {:induction false} PutAllAppend<R>(m: CandidateMap<R>, a: seq<R>, b: seq<R>, pidOf: R -> Pid)
    ensures PutAll(m, a + b, pidOf) == PutAll(PutAll(m, a, pidOf), b, pidOf)
    decreases |b|
  {
    if |b| == 0 {
      assert a + b == a;
    } else {
      var n := |b| - 1;
      var ab := a + b;
      assert ab[..|ab| - 1] == a + b[..n];
      assert ab[|ab| - 1] == b[n];
      PutAllAppend(m, a, b[..n], pidOf);
      var x := PutAll(m, a + b[..n], pidOf);
      assert PutAll(m, ab, pidOf) == x[pidOf(b[n]) := b[n]];
      assert PutAll(PutAll(m, a, pidOf), b, pidOf) == PutAll(PutAll(m, a, pidOf), b[..n], pidOf)[pidOf(b[n]) := b[n]];
    }
  }

  /** Later results overwrite earlier ones: the entry for a pid is the last
      resource in the list with that pid. */
  lemma {:induction false} PutAllLastWins<R>(m: CandidateMap<R>, resources: seq<R>, pidOf: R -> Pid, i: nat)
    requires i < |resources|
    requires forall j :: i < j < |resources| ==> pidOf(resources[j]) != pidOf(resources[i])
    ensures pidOf(resources[i]) in PutAll(m, resources, pidOf)
    ensures PutAll(m, resources, pidOf)[pidOf(resources[i])] == resources[i]
    decreases |resources|
  {
    var n := |resources| - 1;
    if i < n {
      var before := resources[..n];
      assert forall j :: i < j < |before| ==> before[j] == resources[j];
      PutAllLastWins(m, before, pidOf, i);
    }
  }

  // ---------------------------------------------------------------------------
  // The search loop
  // ---------------------------------------------------------------------------

  /** A resource search-parameter rule issues a search exactly when it is on the
      requested type and the target has values for it. */
  predicate IssuesSearch<R>(env: Env<R>, resourceType: string, target: R, rule: SearchParamRule)
  {
    IsSearchParamForResource(resourceType, rule) && |env.valuesOf(target, rule)| > 0
  }

  function QueryFor<R>(env: Env<R>, resourceType: string, target: R, filterCriteria: seq<string>, rule: SearchParamRule): string
  {
    BuildResourceQueryString(resourceType, filterCriteria, rule, env.valuesOf(target, rule))
  }

  /** searchForIdsAndAddToMap: run the query for one rule and put every result. */
  function SearchForIdsAndAddToMap<R>(env: Env<R>, resourceType: string, m: CandidateMap<R>, filterCriteria: seq<string>, rule: SearchParamRule, values: seq<string>): (r: CandidateMap<R>)
    ensures r.Keys == m.Keys + Pids(env.search(BuildResourceQueryString(resourceType, filterCriteria, rule, values)), env.pidOf)
    ensures forall k :: k in r ==> (k in m && r[k] == m[k]) || env.pidOf(r[k]) == k
    ensures forall k :: k in r && k !in Pids(env.search(BuildResourceQueryString(resourceType, filterCriteria, rule, values)), env.pidOf) ==> r[k] == m[k]
  {
    var results := env.search(BuildResourceQueryString(resourceType, filterCriteria, rule, values));
    PutAllKeys(m, results, env.pidOf);
    PutAll(m, results, env.pidOf)
  }

  /** The query strings issued for a list of rules, in rule order. */
  function IssuedQueries<R>(env: Env<R>, resourceType: string, target: R, filterCriteria: seq<string>, rules: seq<SearchParamRule>): (queries: seq<string>)
    ensures |queries| <= |rules|
    ensures forall q :: q in queries <==>
      exists i :: 0 <= i < |rules| && IssuesSearch(env, resourceType, target, rules[i]) && q == QueryFor(env, resourceType, target, filterCriteria, rules[i])
  {
    if |rules| == 0 then []
    else
      var n := |rules| - 1;
      IssuedQueries(env, resourceType, target, filterCriteria, rules[..n])
        + (if IssuesSearch(env, resourceType, target, rules[n]) then [QueryFor(env, resourceType, target, filterCriteria, rules[n])] else [])
  }

  /** A single rule issues exactly its own query when it is on the type and has values, and nothing otherwise. */
  lemma IssuedQueriesSingle<R>(env: Env<R>, resourceType: string, target: R, filterCriteria: seq<string>, rule: SearchParamRule)
    ensures IssuedQueries(env, resourceType, target, filterCriteria, [rule])
         == if IssuesSearch(env, resourceType, target, rule) then [QueryFor(env, resourceType, target, filterCriteria, rule)] else []
  {
  }

  /** The map after the loop body has run for each rule in turn, starting from `m`. */
  function Gather<R>(env: Env<R>, resourceType: string, target: R, filterCriteria: seq<string>, m: CandidateMap<R>, rules: seq<SearchParamRule>): (r: CandidateMap<R>)
    ensures m.Keys <= r.Keys
    ensures forall k :: k in r && k !in m ==> env.pidOf(r[k]) == k
  {
    if |rules| == 0 then m
    else
      var n := |rules| - 1;
      var before := Gather(env, resourceType, target, filterCriteria, m, rules[..n]);
      if IssuesSearch(env, resourceType, target, rules[n]) then
        SearchForIdsAndAddToMap(env, resourceType, before, filterCriteria, rules[n], env.valuesOf(target, rules[n]))
      else before
  }

  /** A pid was returned by one of the given queries. */
  ghost predicate Found<R>(env: Env<R>, queries: seq<string>, k: Pid)
  {
    exists j :: 0 <= j < |queries| && k in Pids(env.search(queries[j]), env.pidOf)
  }

  /** The accumulated keys are exactly the pids returned by the issued queries. */
  lemma {:induction false} GatherKeys<R>(env: Env<R>, resourceType: string, target: R, filterCriteria: seq<string>, rules: seq<SearchParamRule>)
    ensures forall k :: k in Gather(env, resourceType, target, filterCriteria, map[], rules) <==>
      Found(env, IssuedQueries(env, resourceType, target, filterCriteria, rules), k)
    decreases |rules|
  {
    if |rules| > 0 {
      var n := |rules| - 1;
      var qs := IssuedQueries(env, resourceType, target, filterCriteria, rules);
      var qsBefore := IssuedQueries(env, resourceType, target, filterCriteria, rules[..n]);
      GatherKeys(env, resourceType, target, filterCriteria, rules[..n]);
      forall k ensures Found(env, qsBefore, k) ==> Found(env, qs, k) {
        if Found(env, qsBefore, k) {
          var j :| 0 <= j < |qsBefore| && k in Pids(env.search(qsBefore[j]), env.pidOf);
          assert qs[j] == qsBefore[j];
        }
      }
      if IssuesSearch(env, resourceType, target, rules[n]) {
        var q := QueryFor(env, resourceType, target, filterCriteria, rules[n]);
        assert qs == qsBefore + [q];
        forall k ensures Found(env, qs, k) ==> Found(env, qsBefore, k) || k in Pids(env.search(q), env.pidOf) {
          if Found(env, qs, k) {
            var j :| 0 <= j < |qs| && k in Pids(env.search(qs[j]), env.pidOf);
            if j < |qsBefore| {
              assert qs[j] == qsBefore[j];
            }
          }
        }
        forall k | k in Pids(env.search(q), env.pidOf) ensures Found(env, qs, k) {
          assert qs[|qsBefore|] == q;
        }
      } else {
        assert qs == qsBefore;
      }
    }
  }

  /** Issued queries over a concatenation of rule lists are the concatenation of the issued queries. */
  lemma {:induction false} IssuedQueriesAppend<R>(env: Env<R>, resourceType: string, target: R, filterCriteria: seq<string>, a: seq<SearchParamRule>, b: seq<SearchParamRule>)
    ensures IssuedQueries(env, resourceType, target, filterCriteria, a + b)
         == IssuedQueries(env, resourceType, target, filterCriteria, a) + IssuedQueries(env, resourceType, target, filterCriteria, b)
    decreases |b|
  {
    if |b| == 0 {
      assert a + b == a;
    } else {
      var n := |b| - 1;
      assert (a + b)[..|a| + n] == a + b[..n];
      assert (a + b)[|a| + n] == b[n];
      IssuedQueriesAppend(env, resourceType, target, filterCriteria, a, b[..n]);
    }
  }

  /** Gathering over a concatenation is gathering over the second list from the result of the first. */
  lemma {:induction false} GatherAppend<R>(env: Env<R>, resourceType: string, target: R, filterCriteria: seq<string>, m: CandidateMap<R>, a: seq<SearchParamRule>, b: seq<SearchParamRule>)
    ensures Gather(env, resourceType, target, filterCriteria, m, a + b)
         == Gather(env, resourceType, target, filterCriteria, Gather(env, resourceType, target, filterCriteria, m, a), b)
    decreases |b|
  {
    if |b| == 0 {
      assert a + b == a;
    } else {
      var n := |b| - 1;
      assert (a + b)[..|a| + n] == a + b[..n];
      assert (a + b)[|a| + n] == b[n];
      GatherAppend(env, resourceType, target, filterCriteria, m, a, b[..n]);
    }
  }

  /** A rule of another type, or one for which the target has no values, issues
      no query and adds nothing, wherever it stands in the rule list. */
  lemma SkippedRuleIsInert<R>(env: Env<R>, resourceType: string, target: R, filterCriteria: seq<string>, a: seq<SearchParamRule>, rule: SearchParamRule, b: seq<SearchParamRule>)
    requires !IsSearchParamForResource(resourceType, rule) || |env.valuesOf(target, rule)| == 0
    ensures IssuedQueries(env, resourceType, target, filterCriteria, a + [rule] + b)
         == IssuedQueries(env, resourceType, target, filterCriteria, a + b)
    ensures Gather(env, resourceType, target, filterCriteria, map[], a + [rule] + b)
         == Gather(env, resourceType, target, filterCriteria, map[], a + b)
  {
    assert (a + [rule])[..|a|] == a;
    IssuedQueriesAppend(env, resourceType, target, filterCriteria, a + [rule], b);
    IssuedQueriesAppend(env, resourceType, target, filterCriteria, a, b);
    GatherAppend(env, resourceType, target, filterCriteria, map[], a + [rule], b);
    GatherAppend(env, resourceType, target, filterCriteria, map[], a, b);
  }

  /** findCandidates: gather the results of every issued query, then drop the
      target's own pid when the target has an id part. */
  method FindCandidates<R>(env: Env<R>, rules: Rules, resourceType: string, target: R) returns (candidates: CandidateMap<R>)
    ensures var filterCriteria := BuildFilterQuery(rules.filterSearchParams, resourceType);
      var gathered := Gather(env, resourceType, target, filterCriteria, map[], rules.resourceSearchParams);
      candidates == if env.hasIdPart(target) then gathered - {env.pidOf(target)} else gathered
    ensures env.hasIdPart(target) ==> env.pidOf(target) !in candidates
    ensures var queries := IssuedQueries(env, resourceType, target, BuildFilterQuery(rules.filterSearchParams, resourceType), rules.resourceSearchParams);
      forall k :: k in candidates <==> Found(env, queries, k) && !(env.hasIdPart(target) && k == env.pidOf(target))
    ensures forall k :: k in candidates ==> env.pidOf(candidates[k]) == k
  {
    var matched: CandidateMap<R> := map[];
    var filterCriteria := BuildFilterQuery(rules.filterSearchParams, resourceType);
    var searchParams := rules.resourceSearchParams;
    var i := 0;
    while i < |searchParams|
      invariant 0 <= i <= |searchParams|
      invariant matched == Gather(env, resourceType, target, filterCriteria, map[], searchParams[..i])
    {
      var rule := searchParams[i];
      assert searchParams[..i + 1][..i] == searchParams[..i];
      if IsSearchParamForResource(resourceType, rule) {
        var values := env.valuesOf(target, rule);
        if |values| > 0 {
          matched := SearchForIdsAndAddToMap(env, resourceType, matched, filterCriteria, rule, values);
        }
      }
      i := i + 1;
    }
    assert searchParams[..i] == searchParams;
    GatherKeys(env, resourceType, target, filterCriteria, searchParams);
    if env.hasIdPart(target) {
      matched := matched - {env.pidOf(target)};
    }
    candidates := matched;
  }
}
