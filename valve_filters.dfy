/** The filter set of the valve catalog's list page: exact matches on
    category, series and material, a free-text search over four columns and
    lower bounds on the maximum pressure and flow, all combined with AND. */
module ValveFilters {
  import opened Wrappers
  import opened Text
  import opened Seqs
  import ProductModels

  /** A cartridge valve row, with the columns the filter set and the seed
      data use (category, material, maximum pressure and flow) beside the
      name, series, description and application of the model class. The
      numeric columns are nullable. */
  datatype Valve = Valve(
    name: string,
    series: string,
    description: string,
    application: string,
    category: ProductModels.CategoryId,
    material: string,
    maxPressure: Option<int>,
    maxFlow: Option<int>,
    createdAt: int)

  /** The filter set's parameters, already parsed: the category is a
      category's primary key, the thresholds are numbers. */
  datatype FilterParams = FilterParams(
    search: Option<string>,
    category: Option<ProductModels.CategoryId>,
    series: Option<string>,
    material: Option<string>,
    maxPressureMin: Option<int>,
    maxFlowMin: Option<int>)

  /** The six filters of the filter set. */
  datatype FilterName = ByCategory | BySeries | ByMaterial | BySearch | ByMaxPressure | ByMaxFlow

  /** The order in which the filter set applies them: the model fields
      first, then the declared filters. */
  const FilterOrder: seq<FilterName> := [ByCategory, BySeries, ByMaterial, BySearch, ByMaxPressure, ByMaxFlow]

  /** The free-text search: name, series, description or application
      contains the term, ignoring case. */
  predicate SearchMatches(v: Valve, term: string) {
    IContains(v.name, term) || IContains(v.series, term) || IContains(v.description, term) || IContains(v.application, term)
  }

  /** A `>=` lookup on a nullable column: a missing value never passes. */
  predicate AtLeast(column: Option<int>, threshold: int) {
    column.Some? && column.value >= threshold
  }

  /** `ProductFilter.filter_search`. */
  function FilterSearch(qs: seq<Valve>, term: string): (r: seq<Valve>)
    ensures IsSubsequence(r, qs)
    ensures forall v :: v in r <==> v in qs && SearchMatches(v, term)
    ensures forall v :: v in qs ==> multiset(r)[v] == if SearchMatches(v, term) then multiset(qs)[v] else 0
  {
    var r := Where(qs, (v: Valve) => SearchMatches(v, term));
    SubsequenceMembers(r, qs);
    r
  }

  /** The `max_pressure_min` filter (`max_pressure__gte`). */
  function MaxPressureMin(qs: seq<Valve>, threshold: int): (r: seq<Valve>)
    ensures IsSubsequence(r, qs)
    ensures forall v :: v in r <==> v in qs && AtLeast(v.maxPressure, threshold)
    ensures forall v :: v in qs ==> multiset(r)[v] == if AtLeast(v.maxPressure, threshold) then multiset(qs)[v] else 0
  {
    var r := Where(qs, (v: Valve) => AtLeast(v.maxPressure, threshold));
    SubsequenceMembers(r, qs);
    r
  }

  /** The `max_flow_min` filter (`max_flow__gte`). */
  function MaxFlowMin(qs: seq<Valve>, threshold: int): (r: seq<Valve>)
    ensures IsSubsequence(r, qs)
    ensures forall v :: v in r <==> v in qs && AtLeast(v.maxFlow, threshold)
    ensures forall v :: v in qs ==> multiset(r)[v] == if AtLeast(v.maxFlow, threshold) then multiset(qs)[v] else 0
  {
    var r := Where(qs, (v: Valve) => AtLeast(v.maxFlow, threshold));
    SubsequenceMembers(r, qs);
    r
  }

  /** A filter takes part when its value is not empty. */
  predicate Active(params: FilterParams, f: FilterName) {
    match f
    case ByCategory => params.category.Some?
    case BySeries => Supplied(params.series)
    case ByMaterial => Supplied(params.material)
    case BySearch => Supplied(params.search)
    case ByMaxPressure => params.maxPressureMin.Some?
    case ByMaxFlow => params.maxFlowMin.Some?
  }

  /** The condition an active filter imposes on a row. */
  predicate Passes(params: FilterParams, f: FilterName, v: Valve)
    requires Active(params, f)
  {
    match f
    case ByCategory => v.category == params.category.value
    case BySeries => v.series == params.series.value
    case ByMaterial => v.material == params.material.value
    case BySearch => SearchMatches(v, params.search.value)
    case ByMaxPressure => AtLeast(v.maxPressure, params.maxPressureMin.value)
    case ByMaxFlow => AtLeast(v.maxFlow, params.maxFlowMin.value)
  }

  /** A row meets filter `f`: the filter is inactive or its condition holds. */
  predicate Meets(params: FilterParams, f: FilterName, v: Valve) {
    Active(params, f) ==> Passes(params, f, v)
  }

  /** An active filter's own query: the exact lookups, or the search and
      threshold filters above. */
  function ActiveFilter(qs: seq<Valve>, params: FilterParams, f: FilterName): seq<Valve>
    requires Active(params, f)
  {
    match f
    case ByCategory => Where(qs, (v: Valve) => v.category == params.category.value)
    case BySeries => Where(qs, (v: Valve) => v.series == params.series.value)
    case ByMaterial => Where(qs, (v: Valve) => v.material == params.material.value)
    case BySearch => FilterSearch(qs, params.search.value)
    case ByMaxPressure => MaxPressureMin(qs, params.maxPressureMin.value)
    case ByMaxFlow => MaxFlowMin(qs, params.maxFlowMin.value)
  }

  lemma ActiveFilterIsWhere(qs: seq<Valve>, params: FilterParams, f: FilterName)
    requires Active(params, f)
    ensures ActiveFilter(qs, params, f) == Where(qs, (v: Valve) => Meets(params, f, v))
  {
    var meets := (v: Valve) => Meets(params, f, v);
    match f
    case ByCategory => WhereCongruent(qs, (v: Valve) => v.category == params.category.value, meets);
    case BySeries => WhereCongruent(qs, (v: Valve) => v.series == params.series.value, meets);
    case ByMaterial => WhereCongruent(qs, (v: Valve) => v.material == params.material.value, meets);
    case BySearch => WhereCongruent(qs, (v: Valve) => SearchMatches(v, params.search.value), meets);
    case ByMaxPressure => WhereCongruent(qs, (v: Valve) => AtLeast(v.maxPressure, params.maxPressureMin.value), meets);
    case ByMaxFlow => WhereCongruent(qs, (v: Valve) => AtLeast(v.maxFlow, params.maxFlowMin.value), meets);
  }

  /** One filter applied to a query set; an inactive filter returns it as is. */
  function ApplyFilter(qs: seq<Valve>, params: FilterParams, f: FilterName): (r: seq<Valve>)
    ensures r == Where(qs, (v: Valve) => Meets(params, f, v))
  {
    if !Active(params, f) then
      WhereAll(qs, (v: Valve) => Meets(params, f, v));
      qs
    else
      ActiveFilterIsWhere(qs, params, f);
      ActiveFilter(qs, params, f)
  }

  /** The filters `fs` applied one after another. */
  function ApplyAll(qs: seq<Valve>, params: FilterParams, fs: seq<FilterName>): seq<Valve>
    decreases |fs|
  {
    if fs == [] then qs else ApplyAll(ApplyFilter(qs, params, fs[0]), params, fs[1..])
  }

  /** A row meets every filter in `fs`. */
  predicate MeetsAll(params: FilterParams, fs: seq<FilterName>, v: Valve) {
    forall f :: f in fs ==> Meets(params, f, v)
  }

  /** Applying filters in sequence is one filter by their conjunction. */
  lemma {:induction false} ApplyAllIsConjunction(qs: seq<Valve>, params: FilterParams, fs: seq<FilterName>)
    ensures ApplyAll(qs, params, fs) == Where(qs, (v: Valve) => MeetsAll(params, fs, v))
    decreases |fs|
  {
    if fs == [] {
      WhereAll(qs, (v: Valve) => MeetsAll(params, fs, v));
    } else {
      var first := ApplyFilter(qs, params, fs[0]);
      ApplyAllIsConjunction(first, params, fs[1..]);
      WhereWhere(qs, (v: Valve) => Meets(params, fs[0], v), (v: Valve) => MeetsAll(params, fs[1..], v),
                 (v: Valve) => MeetsAll(params, fs, v));
    }
  }

  /** The order in which filters are applied does not matter: any order of
      the same filters selects the same rows. */
  lemma FilterOrderIrrelevant(qs: seq<Valve>, params: FilterParams, fs: seq<FilterName>, gs: seq<FilterName>)
    requires forall f :: f in fs <==> f in gs
    ensures ApplyAll(qs, params, fs) == ApplyAll(qs, params, gs)
  {
    ApplyAllIsConjunction(qs, params, fs);
    ApplyAllIsConjunction(qs, params, gs);
    WhereCongruent(qs, (v: Valve) => MeetsAll(params, fs, v), (v: Valve) => MeetsAll(params, gs, v));
  }

  /** A row passes the whole filter set. */
  predicate Matches(params: FilterParams, v: Valve) {
    && (params.category.Some? ==> v.category == params.category.value)
    && (Supplied(params.series) ==> v.series == params.series.value)
    && (Supplied(params.material) ==> v.material == params.material.value)
    && (Supplied(params.search) ==> SearchMatches(v, params.search.value))
    && (params.maxPressureMin.Some? ==> AtLeast(v.maxPressure, params.maxPressureMin.value))
    && (params.maxFlowMin.Some? ==> AtLeast(v.maxFlow, params.maxFlowMin.value))
  }

  /** Meeting every filter of the filter set is `Matches`. */
  lemma MeetsAllFilters(params: FilterParams, v: Valve)
    ensures MeetsAll(params, FilterOrder, v) == Matches(params, v)
  {
    assert FilterOrder[0] == ByCategory && FilterOrder[1] == BySeries && FilterOrder[2] == ByMaterial;
    assert FilterOrder[3] == BySearch && FilterOrder[4] == ByMaxPressure && FilterOrder[5] == ByMaxFlow;
    if Matches(params, v) {
      forall f | f in FilterOrder ensures Meets(params, f, v) {
        match f
        case ByCategory =>
        case BySeries =>
        case ByMaterial =>
        case BySearch =>
        case ByMaxPressure =>
        case ByMaxFlow =>
      }
    }
    if MeetsAll(params, FilterOrder, v) {
      assert Meets(params, ByCategory, v) && Meets(params, BySeries, v) && Meets(params, ByMaterial, v);
      assert Meets(params, BySearch, v) && Meets(params, ByMaxPressure, v) && Meets(params, ByMaxFlow, v);
    }
  }

  /** The filter set's query set (`ProductFilter(...).qs`): every supplied
      filter applied, in order; it keeps exactly the rows meeting all of
      them, in table order. */
  function FilterQs(valves: seq<Valve>, params: FilterParams): (r: seq<Valve>)
    ensures IsSubsequence(r, valves)
    ensures forall v :: v in r <==> v in valves && Matches(params, v)
    ensures r == Where(valves, (v: Valve) => Matches(params, v))
    ensures forall v :: v in valves ==> multiset(r)[v] == if Matches(params, v) then multiset(valves)[v] else 0
  {
    var r := ApplyAll(valves, params, FilterOrder);
    ApplyAllIsConjunction(valves, params, FilterOrder);
    forall v ensures MeetsAll(params, FilterOrder, v) == Matches(params, v) {
      MeetsAllFilters(params, v);
    }
    WhereCongruent(valves, (v: Valve) => MeetsAll(params, FilterOrder, v), (v: Valve) => Matches(params, v));
    forall v ensures v in r <==> v in valves && Matches(params, v) {
      WhereMembers(valves, (v: Valve) => Matches(params, v), v);
    }
    r
  }

  /** With no parameter supplied the filter set returns every row. */
  lemma NoParametersNoFiltering(valves: seq<Valve>)
    ensures FilterQs(valves, FilterParams(None, None, None, None, None, None)) == valves
  {
    WhereAll(valves, (v: Valve) => Matches(FilterParams(None, None, None, None, None, None), v));
  }

  /** A row without a pressure value is never kept by a pressure threshold,
      whatever the threshold. */
  lemma NullPressureExcluded(valves: seq<Valve>, params: FilterParams, v: Valve)
    requires params.maxPressureMin.Some? && v.maxPressure.None?
    ensures v !in FilterQs(valves, params)
  {
  }

  /** Raising a threshold never adds rows. */
  lemma PressureThresholdMonotone(qs: seq<Valve>, low: int, high: int)
    requires low <= high
    ensures forall v :: v in MaxPressureMin(qs, high) ==> v in MaxPressureMin(qs, low)
    ensures IsSubsequence(MaxPressureMin(qs, high), MaxPressureMin(qs, low))
  {
    var lo := MaxPressureMin(qs, low);
    WhereWhere(qs, (v: Valve) => AtLeast(v.maxPressure, low), (v: Valve) => AtLeast(v.maxPressure, high),
               (v: Valve) => AtLeast(v.maxPressure, high));
    assert MaxPressureMin(lo, high) == MaxPressureMin(qs, high);
  }
}
